/**
 * The snapshot store (`current_followers`, `follower_changes`) and the
 * reconciliation step `check` that both trackers run after fetching the
 * current follower list.
 */
module Reconcile {
  import opened Wrappers
  import opened Accounts
  import opened Diff

  /**
   * How many leading rows `store_followers` inserts: the PRIMARY KEY on the
   * identifier makes the INSERT of a repeated identifier raise, after the
   * DELETE and the earlier INSERTs have taken effect.
   */
  function StoredCount(xs: seq<Account>): (k: nat)
    ensures k <= |xs|
    ensures DistinctIds(xs[..k])
    ensures k < |xs| ==> xs[k].id in IdSet(xs[..k])
  {
    StoredCountFrom(xs, 0)
  }

  function StoredCountFrom(xs: seq<Account>, i: nat): (k: nat)
    requires i <= |xs| && DistinctIds(xs[..i])
    ensures i <= k <= |xs|
    ensures DistinctIds(xs[..k])
    ensures k < |xs| ==> xs[k].id in IdSet(xs[..k])
    decreases |xs| - i
  {
    if i == |xs| then i
    else if xs[i].id in IdSet(xs[..i]) then i
    else
      assert xs[..i + 1] == xs[..i] + [xs[i]];
      StoredCountFrom(xs, i + 1)
  }

  /** The whole list is stored exactly when its identifiers are distinct. */
  lemma StoredAllIffDistinct(xs: seq<Account>)
    ensures StoredCount(xs) == |xs| <==> DistinctIds(xs)
  {
    var k := StoredCount(xs);
    assert k == |xs| ==> xs[..k] == xs;
    if k < |xs| {
      var i :| 0 <= i < k && xs[..k][i].id == xs[k].id;
      assert xs[i].id == xs[k].id;
    }
  }

  /** The `follower_changes` rows `log_changes` writes; row `from + i` is stamped `clock(from + i)`. */
  function ChangeRows(xs: seq<Account>, action: Action, clock: nat -> string, from: nat): (rows: seq<Change>)
    ensures |rows| == |xs|
    ensures forall i :: 0 <= i < |xs| ==>
              rows[i] == Change(xs[i].id, xs[i].handle, xs[i].displayName, action, clock(from + i))
    decreases |xs|
  {
    if xs == [] then []
    else [Change(xs[0].id, xs[0].handle, xs[0].displayName, action, clock(from))]
         + ChangeRows(xs[1..], action, clock, from + 1)
  }

  /** `SELECT COUNT(*) FROM follower_changes WHERE action = …`. */
  function CountAction(log: seq<Change>, action: Action): nat {
    if log == [] then 0
    else (if log[0].action == action then 1 else 0) + CountAction(log[1..], action)
  }

  datatype Stats = Stats(followers: nat, followsTracked: nat, unfollowsTracked: nat, netChange: int)

  /** `stats`: the snapshot size, the two action counts and their difference. */
  function StatsOf(snapshot: seq<Account>, log: seq<Change>): (s: Stats)
    ensures s.followers == |snapshot|
    ensures s.netChange == s.followsTracked - s.unfollowsTracked
    ensures s.followsTracked + s.unfollowsTracked == |log|
    ensures s.followsTracked == CountAction(log, Follow) && s.unfollowsTracked == CountAction(log, Unfollow)
  {
    CountSplits(log);
    var follows := CountAction(log, Follow);
    var unfollows := CountAction(log, Unfollow);
    Stats(|snapshot|, follows, unfollows, follows - unfollows)
  }

  lemma {:induction false} CountSplits(log: seq<Change>)
    ensures CountAction(log, Follow) + CountAction(log, Unfollow) == |log|
  {
    if log != [] {
      CountSplits(log[1..]);
    }
  }

  lemma {:induction false} CountAppend(a: seq<Change>, b: seq<Change>, action: Action)
    ensures CountAction(a + b, action) == CountAction(a, action) + CountAction(b, action)
  {
    if a == [] {
      assert a + b == b;
    } else {
      assert (a + b)[0] == a[0];
      assert (a + b)[1..] == a[1..] + b;
      CountAppend(a[1..], b, action);
    }
  }

  /** Rows logged for one action are counted under that action only. */
  lemma {:induction false} CountChangeRows(xs: seq<Account>, action: Action, clock: nat -> string, from: nat, counted: Action)
    ensures CountAction(ChangeRows(xs, action, clock, from), counted) == if action == counted then |xs| else 0
    decreases |xs|
  {
    if xs != [] {
      CountChangeRows(xs[1..], action, clock, from + 1, counted);
    }
  }

  /** What a successful `check` run found. */
  datatype CheckOutcome =
    | FirstRun                                           // "First run - storing N followers"
    | Reconciled(added: seq<Account>, removed: seq<Account>)

  /** What a whole `check` command ends with. */
  datatype CheckReport =
    | SetupFirst               // "Please run setup first!"
    | FetchFailed              // "Failed to fetch followers"
    | Crashed                  // an exception escaped the fetch
    | Checked(outcome: CheckOutcome, stored: bool)

  /** The rows one `check` run appends to `follower_changes`. */
  function RunRows(outcome: CheckOutcome, clock: nat -> string): seq<Change> {
    match outcome
    case FirstRun => []
    case Reconciled(added, removed) =>
      ChangeRows(added, Follow, clock, 0) + ChangeRows(removed, Unfollow, clock, |added|)
  }

  /** The statistics move by exactly the changes one run logged. */
  lemma RunStats(snapshot: seq<Account>, log: seq<Change>, outcome: CheckOutcome, clock: nat -> string, current: seq<Account>)
    ensures var before, after := StatsOf(snapshot, log), StatsOf(current, log + RunRows(outcome, clock));
      after.followers == |current| &&
      (outcome.FirstRun? ==> after.followsTracked == before.followsTracked &&
                             after.unfollowsTracked == before.unfollowsTracked) &&
      (outcome.Reconciled? ==>
         after.followsTracked == before.followsTracked + |outcome.added| &&
         after.unfollowsTracked == before.unfollowsTracked + |outcome.removed| &&
         after.netChange == before.netChange + |outcome.added| - |outcome.removed|)
  {
    var rows := RunRows(outcome, clock);
    assert outcome.FirstRun? ==> log + rows == log;
    if outcome.Reconciled? {
      var f := ChangeRows(outcome.added, Follow, clock, 0);
      var u := ChangeRows(outcome.removed, Unfollow, clock, |outcome.added|);
      assert log + rows == (log + f) + u;
      forall action: Action ensures CountAction(log + rows, action) ==
          CountAction(log, action) + CountAction(f, action) + CountAction(u, action) {
        CountAppend(log + f, u, action);
        CountAppend(log, f, action);
      }
      CountChangeRows(outcome.added, Follow, clock, 0, Follow);
      CountChangeRows(outcome.added, Follow, clock, 0, Unfollow);
      CountChangeRows(outcome.removed, Unfollow, clock, |outcome.added|, Follow);
      CountChangeRows(outcome.removed, Unfollow, clock, |outcome.added|, Unfollow);
    }
  }

  lemma AppendAssoc<T>(a: seq<T>, b: seq<T>, c: seq<T>)
    ensures (a + b) + c == a + (b + c)
  {
  }

  /** The two tables of one platform installation. */
  class Store {
    var snapshot: seq<Account>   // current_followers, in insertion order
    var log: seq<Change>         // follower_changes, in insertion (autoincrement id) order

    /** The PRIMARY KEY of `current_followers`. */
    ghost predicate Valid()
      reads this
    {
      DistinctIds(snapshot)
    }

    /** `init_database` on a fresh installation: both tables empty. */
    constructor ()
      ensures Valid() && snapshot == [] && log == []
    {
      snapshot, log := [], [];
    }

    /** `store_followers`: DELETE every row, then INSERT row by row until a key repeats. */
    method StoreFollowers(followers: seq<Account>) returns (ok: bool)
      modifies this
      ensures Valid()
      ensures snapshot == followers[..StoredCount(followers)]
      ensures ok <==> DistinctIds(followers)
      ensures log == old(log)
    {
      snapshot := [];
      var i := 0;
      while i < |followers|
        invariant 0 <= i <= |followers|
        invariant snapshot == followers[..i]
        invariant DistinctIds(snapshot)
        invariant StoredCount(followers) == StoredCountFrom(followers, i)
        invariant log == old(log)
      {
        if followers[i].id in IdSet(snapshot) {
          StoredAllIffDistinct(followers);
          return false;
        }
        assert followers[..i + 1] == followers[..i] + [followers[i]];
        snapshot := snapshot + [followers[i]];
        i := i + 1;
      }
      assert followers[..i] == followers;
      StoredAllIffDistinct(followers);
      ok := true;
    }

    /** `log_changes`: one row per account, in order, each stamped when it is written. */
    method LogChanges(followers: seq<Account>, action: Action, clock: nat -> string, from: nat)
      modifies this
      ensures log == old(log) + ChangeRows(followers, action, clock, from)
      ensures snapshot == old(snapshot)
    {
      ghost var rows := ChangeRows(followers, action, clock, from);
      var i := 0;
      while i < |followers|
        invariant 0 <= i <= |followers|
        invariant log == old(log) + rows[..i]
        invariant snapshot == old(snapshot)
      {
        var f := followers[i];
        assert rows[..i + 1] == rows[..i] + [rows[i]];
        log := log + [Change(f.id, f.handle, f.displayName, action, clock(from + i))];
        i := i + 1;
      }
      assert rows[..i] == rows;
    }

    /**
     * `check` once the fetch has succeeded.  `previous` is the result of
     * `SELECT * FROM current_followers`, whose row order SQL leaves open.
     * Returns whether `store_followers` completed without raising.
     */
    method Check(current: seq<Account>, previous: seq<Account>, clock: nat -> string)
      returns (outcome: CheckOutcome, stored: bool)
      requires Valid()
      requires multiset(previous) == multiset(snapshot)
      modifies this
      ensures Valid()
      ensures old(snapshot) == [] ==> outcome == FirstRun
      ensures old(snapshot) != [] ==> outcome == Reconciled(Minus(current, previous), Minus(previous, current))
      ensures log == old(log) + RunRows(outcome, clock)
      ensures snapshot == current[..StoredCount(current)]
      ensures stored <==> DistinctIds(current)
    {
      assert |previous| == |multiset(previous)| == |multiset(snapshot)| == |snapshot|;
      if previous == [] {
        outcome := FirstRun;
        stored := StoreFollowers(current);
        assert log == old(log) + [];
        return;
      }
      var added := Minus(current, previous);
      var removed := Minus(previous, current);
      outcome := Reconciled(added, removed);
      ghost var followRows := ChangeRows(added, Follow, clock, 0);
      ghost var unfollowRows := ChangeRows(removed, Unfollow, clock, |added|);
      if |added| > 0 {
        LogChanges(added, Follow, clock, 0);
      }
      assert log == old(log) + followRows;
      ghost var afterFollows := log;
      if |removed| > 0 {
        LogChanges(removed, Unfollow, clock, |added|);
        assert log == afterFollows + unfollowRows;
      } else {
        assert unfollowRows == [];
        assert log == afterFollows + unfollowRows;
      }
      AppendAssoc(old(log), followRows, unfollowRows);
      assert RunRows(outcome, clock) == followRows + unfollowRows;
      ghost var logged := log;
      stored := StoreFollowers(current);
      assert log == logged;
    }
  }
}
