/**
 * The two candidate lists of the selection views and of `non_mutual`:
 * accounts you follow who do not follow back, and followers you do not
 * follow back.  Each keeps one list's order and drops every record whose id
 * is in the other list's id set.
 */
module Candidates {
  import opened Accounts
  import opened Diff

  /** `xs.reject { |f| known.include?(f[:id]) }`. */
  function RejectKnown(xs: seq<Account>, known: set<string>): (r: seq<Account>)
    ensures |r| <= |xs|
    ensures forall a :: a in r <==> a in xs && a.id !in known
  {
    if xs == [] then []
    else if xs[0].id in known then RejectKnown(xs[1..], known)
    else [xs[0]] + RejectKnown(xs[1..], known)
  }

  /** The filter keeps the surviving records in their original order. */
  lemma {:induction false} RejectKeepsOrder(xs: seq<Account>, known: set<string>)
    ensures IsSubsequence(RejectKnown(xs, known), xs)
  {
    if xs != [] {
      RejectKeepsOrder(xs[1..], known);
      if xs[0].id in known {
        SubsequenceOfTail(RejectKnown(xs, known), xs);
      }
    }
  }

  /** Every occurrence of a surviving record is kept, none of a dropped one. */
  lemma {:induction false} RejectCount(xs: seq<Account>, known: set<string>, a: Account)
    ensures multiset(RejectKnown(xs, known))[a] == if a.id in known then 0 else multiset(xs)[a]
  {
    if xs != [] {
      RejectCount(xs[1..], known, a);
      assert xs == [xs[0]] + xs[1..];
    }
  }

  /** `non_mutual`: the accounts followed that are not among the followers (by id). */
  function NonMutual(followers: seq<Account>, following: seq<Account>): seq<Account> {
    RejectKnown(following, IdSet(followers))
  }

  /** The follow-back candidates: the followers that are not among the accounts followed (by id). */
  function FollowBack(followers: seq<Account>, following: seq<Account>): seq<Account> {
    RejectKnown(followers, IdSet(following))
  }

  /** A record is non-mutual exactly when it is followed and no follower has its id. */
  lemma NonMutualIff(followers: seq<Account>, following: seq<Account>, a: Account)
    ensures a in NonMutual(followers, following) <==>
              a in following && forall f :: f in followers ==> f.id != a.id
  {
    if a.id in IdSet(followers) {
      var i :| 0 <= i < |followers| && followers[i].id == a.id;
      assert followers[i] in followers;
    }
  }

  /** Follow-back is the mirror image: the same filter with the two lists swapped. */
  lemma FollowBackIsMirror(followers: seq<Account>, following: seq<Account>)
    ensures FollowBack(followers, following) == NonMutual(following, followers)
  {
  }

  /** No account is a candidate of both views: their id sets are disjoint. */
  lemma CandidatesDisjoint(followers: seq<Account>, following: seq<Account>)
    ensures IdSet(NonMutual(followers, following)) !! IdSet(FollowBack(followers, following))
  {
    var n, b := NonMutual(followers, following), FollowBack(followers, following);
    forall j | 0 <= j < |b| ensures b[j].id !in IdSet(following) {
      assert b[j] in b;
    }
    forall id | id in IdSet(n) ensures id !in IdSet(b) {
      var i :| 0 <= i < |n| && n[i].id == id;
      assert n[i] in n;
      var k :| 0 <= k < |following| && following[k] == n[i];
      assert id in IdSet(following);
    }
  }

  lemma {:induction false} RejectAllKnown(xs: seq<Account>, known: set<string>)
    requires forall i :: 0 <= i < |xs| ==> xs[i].id in known
    ensures RejectKnown(xs, known) == []
  {
    if xs != [] {
      RejectAllKnown(xs[1..], known);
    }
  }

  /** When everyone followed follows back, there is nothing to unfollow. */
  lemma AllMutual(followers: seq<Account>, following: seq<Account>)
    requires forall a :: a in following ==> a.id in IdSet(followers)
    ensures NonMutual(followers, following) == []
  {
    forall i | 0 <= i < |following| ensures following[i].id in IdSet(followers) {
      assert following[i] in following;
    }
    RejectAllKnown(following, IdSet(followers));
  }

  /** Following x, y and z, followed back by y alone: x and z are the non-mutual accounts, in that order. */
  lemma NonMutualExample(x: Account, y: Account, z: Account)
    requires x.id != y.id && z.id != y.id
    ensures NonMutual([y], [x, y, z]) == [x, z]
  {
    forall id | id in IdSet([y]) ensures id == y.id {
      var i :| 0 <= i < 1 && [y][i].id == id;
    }
    assert [y][0].id == y.id;
    var known := IdSet([y]);
    assert y.id in known && x.id !in known && z.id !in known;
    assert [x, y, z][1..] == [y, z] && [y, z][1..] == [z] && [z][1..] == [];
    assert RejectKnown([z], known) == [z];
    assert RejectKnown([y, z], known) == [z];
    assert RejectKnown([x, y, z], known) == [x] + [z];
  }
}
