/**
 * The paginated fetch loop shared by both trackers: request a page, append
 * its normalised batch, follow the next cursor (a URL taken from the `Link`
 * header, or Bluesky's opaque `cursor`) until there is none.  Any failed page
 * discards everything collected so far.
 */
module Pagination {
  import opened Wrappers
  import opened Accounts

  /** An HTTP exchange: a non-success status, an exception, or a successful body. */
  datatype Reply<T> = NotSuccess | Threw | Success(body: T)

  /** What one request of the loop yields, after normalisation. */
  datatype Response<C> =
    | Failed                                       // non-success HTTP status: `return nil`
    | Raised                                       // an exception escapes the loop
    | Page(items: seq<Account>, next: Option<C>)   // a batch and the next cursor, if any

  /** What a fetch method hands back to its caller. */
  datatype FetchResult =
    | Fetched(accounts: seq<Account>)
    | Nil
    | Raise

  /** The remote ends its pagination within `n` requests (or fails before). */
  ghost predicate EndsWithin<C>(step: C -> Response<C>, c: C, n: nat)
    decreases n
  {
    n > 0 &&
    (step(c).Page? && step(c).next.Some? ==> EndsWithin(step, step(c).next.value, n - 1))
  }

  function Prepend(items: seq<Account>, r: FetchResult): FetchResult {
    match r
    case Fetched(xs) => Fetched(items + xs)
    case _ => r
  }

  /** The result of the loop started at cursor `c`. */
  ghost function Walk<C>(step: C -> Response<C>, c: C, n: nat): FetchResult
    requires EndsWithin(step, c, n)
    decreases n
  {
    match step(c)
    case Failed => Nil
    case Raised => Raise
    case Page(items, None) => Fetched(items)
    case Page(items, Some(d)) => Prepend(items, Walk(step, d, n - 1))
  }

  function Flatten(batches: seq<seq<Account>>): seq<Account> {
    if batches == [] then [] else batches[0] + Flatten(batches[1..])
  }

  /** `cursors[i]` answers `batches[i]` and points at `cursors[i + 1]`; the last page has no next. */
  ghost predicate IsChain<C>(step: C -> Response<C>, cursors: seq<C>, batches: seq<seq<Account>>) {
    |cursors| == |batches| > 0 &&
    (forall i :: 0 <= i < |cursors| - 1 ==> step(cursors[i]) == Page(batches[i], Some(cursors[i + 1]))) &&
    step(cursors[|cursors| - 1]) == Page(batches[|batches| - 1], None)
  }

  /** `batches` were received in order, then the request at `cursors[|batches|]` went wrong. */
  ghost predicate IsBrokenChain<C>(step: C -> Response<C>, cursors: seq<C>, batches: seq<seq<Account>>) {
    |cursors| == |batches| + 1 &&
    (forall i :: 0 <= i < |batches| ==> step(cursors[i]) == Page(batches[i], Some(cursors[i + 1]))) &&
    (step(cursors[|batches|]).Failed? || step(cursors[|batches|]).Raised?)
  }

  /**
   * The fetch loop (`while next_url` / `loop do … break unless cursor`).
   * `bound` is a ghost bound on the number of pages the remote serves.
   */
  method FetchAll<C>(step: C -> Response<C>, start: C, ghost bound: nat) returns (r: FetchResult)
    requires EndsWithin(step, start, bound)
    ensures r == Walk(step, start, bound)
  {
    var collected: seq<Account> := [];
    var cursor := start;
    ghost var n := bound;
    while true
      invariant EndsWithin(step, cursor, n)
      invariant Walk(step, start, bound) == Prepend(collected, Walk(step, cursor, n))
      decreases n
    {
      match step(cursor)
      case Failed =>
        return Nil;
      case Raised =>
        return Raise;
      case Page(items, next) =>
        PrependTwice(collected, items, if next.None? then Fetched([]) else Walk(step, next.value, n - 1));
        collected := collected + items;
        if next.None? {
          assert items + [] == items;
          return Fetched(collected);
        }
        cursor, n := next.value, n - 1;
    }
  }

  lemma PrependTwice(xs: seq<Account>, ys: seq<Account>, r: FetchResult)
    ensures Prepend(xs, Prepend(ys, r)) == Prepend(xs + ys, r)
  {
    if r.Fetched? {
      assert xs + (ys + r.accounts) == (xs + ys) + r.accounts;
    }
  }

  /** The page bound is only a termination device: any sufficient bound gives the same result. */
  lemma {:induction false} WalkBoundIrrelevant<C>(step: C -> Response<C>, c: C, n: nat, m: nat)
    requires EndsWithin(step, c, n) && EndsWithin(step, c, m)
    ensures Walk(step, c, n) == Walk(step, c, m)
    decreases n
  {
    if step(c).Page? && step(c).next.Some? {
      WalkBoundIrrelevant(step, step(c).next.value, n - 1, m - 1);
    }
  }

  /** A chain of pages is fetched as the concatenation of its batches, in page order. */
  lemma {:induction false} ChainIsConcatenated<C>(step: C -> Response<C>, cursors: seq<C>, batches: seq<seq<Account>>)
    requires IsChain(step, cursors, batches)
    ensures EndsWithin(step, cursors[0], |cursors|)
    ensures Walk(step, cursors[0], |cursors|) == Fetched(Flatten(batches))
    decreases |cursors|
  {
    if |cursors| == 1 {
      assert Flatten(batches) == batches[0] + [];
    } else {
      ChainIsConcatenated(step, cursors[1..], batches[1..]);
    }
  }

  /** A failed or raising page discards every batch received before it. */
  lemma {:induction false} BrokenChainDiscards<C>(step: C -> Response<C>, cursors: seq<C>, batches: seq<seq<Account>>, n: nat)
    requires IsBrokenChain(step, cursors, batches)
    requires EndsWithin(step, cursors[0], n)
    ensures Walk(step, cursors[0], n) == if step(cursors[|batches|]).Failed? then Nil else Raise
    decreases |batches|
  {
    if |batches| > 0 {
      BrokenChainDiscards(step, cursors[1..], batches[1..], n - 1);
    }
  }

  /** Conversely, every successful fetch is the concatenation of a chain of pages. */
  lemma {:induction false} FetchedIsChain<C>(step: C -> Response<C>, c: C, n: nat)
    returns (cursors: seq<C>, batches: seq<seq<Account>>)
    requires EndsWithin(step, c, n) && Walk(step, c, n).Fetched?
    ensures IsChain(step, cursors, batches) && cursors[0] == c
    ensures Walk(step, c, n) == Fetched(Flatten(batches))
    decreases n
  {
    match step(c)
    case Page(items, None) =>
      cursors, batches := [c], [items];
      assert Flatten(batches) == items + [];
    case Page(items, Some(d)) =>
      var cs, bs := FetchedIsChain(step, d, n - 1);
      cursors, batches := [c] + cs, [items] + bs;
      assert cursors[1..] == cs && batches[1..] == bs;
  }
}
