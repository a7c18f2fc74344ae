/**
 * Ruby's `Array#-` on follower records, the diff at the heart of `check`:
 * `current - previous` keeps, in order, every record of `current` that is not
 * equal (as a whole record) to some record of `previous`.
 */
module Diff {
  import opened Accounts

  /** `xs - ys`: the elements of `xs` absent from `ys`, order and repeats kept. */
  function Minus(xs: seq<Account>, ys: seq<Account>): (r: seq<Account>)
    ensures |r| <= |xs|
    ensures forall a :: a in r <==> a in xs && a !in ys
  {
    if xs == [] then []
    else if xs[0] in ys then Minus(xs[1..], ys)
    else [xs[0]] + Minus(xs[1..], ys)
  }

  /** `sub` is obtained from `xs` by deleting elements (relative order kept). */
  predicate IsSubsequence<T(==)>(sub: seq<T>, xs: seq<T>)
    decreases |xs|
  {
    if sub == [] then true
    else if xs == [] then false
    else if sub[0] == xs[0] then IsSubsequence(sub[1..], xs[1..])
    else IsSubsequence(sub, xs[1..])
  }

  /** Dropping the first element of the longer list keeps a subsequence one. */
  lemma {:induction false} SubsequenceOfTail<T>(sub: seq<T>, xs: seq<T>)
    requires xs != [] && IsSubsequence(sub, xs[1..])
    ensures IsSubsequence(sub, xs)
    decreases |xs|, 0
  {
    if sub != [] && sub[0] == xs[0] {
      SubsequenceDropHead(sub, xs[1..]);
    }
  }

  lemma {:induction false} SubsequenceDropHead<T>(sub: seq<T>, xs: seq<T>)
    requires sub != [] && IsSubsequence(sub, xs)
    ensures IsSubsequence(sub[1..], xs)
    decreases |xs|, 1
  {
    if sub[0] == xs[0] {
      SubsequenceOfTail(sub[1..], xs);
    } else {
      SubsequenceDropHead(sub, xs[1..]);
      SubsequenceOfTail(sub[1..], xs);
    }
  }

  lemma {:induction false} MinusKeepsOrder(xs: seq<Account>, ys: seq<Account>)
    ensures IsSubsequence(Minus(xs, ys), xs)
  {
    if xs != [] {
      MinusKeepsOrder(xs[1..], ys);
    }
  }

  /** Every occurrence of a record absent from `ys` survives: `Minus` drops only records of `ys`. */
  lemma {:induction false} MinusCount(xs: seq<Account>, ys: seq<Account>, a: Account)
    ensures multiset(Minus(xs, ys))[a] == if a in ys then 0 else multiset(xs)[a]
  {
    if xs != [] {
      MinusCount(xs[1..], ys, a);
      assert xs == [xs[0]] + xs[1..];
    }
  }

  /** The records added and removed by one reconciliation never overlap. */
  lemma DiffDisjoint(current: seq<Account>, previous: seq<Account>)
    ensures forall a :: a in Minus(current, previous) ==> a !in Minus(previous, current)
  {
  }

  /**
   * Reconstruction: the previous records plus the added ones, minus the
   * removed ones, are exactly the current records (as sets).
   */
  lemma DiffReconstructs(current: seq<Account>, previous: seq<Account>)
    ensures (set a | a in previous) + (set a | a in Minus(current, previous))
              - (set a | a in Minus(previous, current))
            == (set a | a in current)
  {
  }

  /** Re-running against an identical list reports nothing. */
  lemma {:induction false} DiffIdentical(xs: seq<Account>)
    ensures Minus(xs, xs) == []
  {
    MinusEmptyWhenCovered(xs, xs);
  }

  /** Lists holding the same records, in any order or multiplicity, differ by nothing. */
  lemma {:induction false} MinusEmptyWhenCovered(xs: seq<Account>, ys: seq<Account>)
    requires forall a :: a in xs ==> a in ys
    ensures Minus(xs, ys) == []
  {
    if xs != [] {
      MinusEmptyWhenCovered(xs[1..], ys);
    }
  }

  /**
   * A change of any tracked field of an account (a new display name, a new
   * follower count) shows the same identifier both as added and as removed.
   */
  lemma FieldChangeReportsBoth(before: Account, after: Account, others: seq<Account>)
    requires before.id == after.id && before != after
    requires before !in others && after !in others
    ensures after in Minus(others + [after], others + [before])
    ensures before in Minus(others + [before], others + [after])
  {
  }

  /** The scenario: snapshot {A, B}, fresh list {B, C}: C is added, A removed. */
  lemma DiffScenario(a: Account, b: Account, c: Account)
    requires a != b && b != c && a != c
    ensures Minus([b, c], [a, b]) == [c]
    ensures Minus([a, b], [b, c]) == [a]
  {
  }

  predicate Distinct<T(==)>(xs: seq<T>) {
    forall i, j :: 0 <= i < j < |xs| ==> xs[i] != xs[j]
  }

  lemma {:induction false} DistinctSetSize(xs: seq<Account>)
    requires Distinct(xs)
    ensures |set a | a in xs| == |xs|
  {
    if xs != [] {
      DistinctSetSize(xs[1..]);
      assert (set a | a in xs) == {xs[0]} + (set a | a in xs[1..]);
      assert xs[0] !in xs[1..];
    }
  }

  lemma {:induction false} MinusDistinct(xs: seq<Account>, ys: seq<Account>)
    requires Distinct(xs)
    ensures Distinct(Minus(xs, ys))
  {
    if xs != [] {
      MinusDistinct(xs[1..], ys);
      assert xs[0] !in xs[1..];
    }
  }

  /**
   * With no repeated records (the snapshot's PRIMARY KEY guarantees it),
   * the net change one run logs is the growth of the follower list.
   */
  lemma NetChangeIsGrowth(current: seq<Account>, previous: seq<Account>)
    requires DistinctIds(current) && DistinctIds(previous)
    ensures |Minus(current, previous)| - |Minus(previous, current)| == |current| - |previous|
  {
    var added, removed := Minus(current, previous), Minus(previous, current);
    MinusDistinct(current, previous);
    MinusDistinct(previous, current);
    DistinctSetSize(current);
    DistinctSetSize(previous);
    DistinctSetSize(added);
    DistinctSetSize(removed);
    var c, p := set a | a in current, set a | a in previous;
    assert (set a | a in added) == c - p;
    assert (set a | a in removed) == p - c;
    assert |c| == |c - p| + |c * p| by {
      assert c == (c - p) + (c * p);
      assert (c - p) * (c * p) == {};
    }
    assert |p| == |p - c| + |c * p| by {
      assert p == (p - c) + (c * p);
      assert (p - c) * (c * p) == {};
    }
  }
}
