/**
 * The two selection views of the terminal UI (`mastodon_tui.rb`): the
 * non-mutual follows, which can be unfollowed in bulk, and the follow-back
 * candidates, which can be followed in bulk.  A view holds a cursor into its
 * candidate list and the selected indices, reacts to one key at a time, and
 * shows a window of the list around the cursor.
 */
module Selection {
  import opened Wrappers
  import opened Text
  import opened Accounts
  import opened Diff

  datatype View = NonMutualView | FollowBackView

  /** What a key asks for. */
  datatype Command = Up | Down | Toggle | Info | Bulk | SelectAll | SelectNone | Quit | Ignore

  /**
   * The `case key` dispatch.  Arrow keys arrive as escape sequences; the bulk
   * key is `u` in the non-mutual view and `f` in the follow-back view; a nil
   * key (end of input) and any other key match no branch.
   */
  function Classify(view: View, key: Option<string>): (c: Command)
    ensures key.None? ==> c == Ignore
    ensures c == Bulk <==> key.Some? && BulkKey(view, key.value)
    ensures c == Quit <==> key.Some? && (key.value == "q" || key.value == "Q")
  {
    match key
    case None => Ignore
    case Some(k) =>
      if k == "\U{1B}[A" || k == "k" then Up
      else if k == "\U{1B}[B" || k == "j" then Down
      else if k == " " then Toggle
      else if k == "i" || k == "I" then Info
      else if view == NonMutualView && (k == "u" || k == "U") then Bulk
      else if view == FollowBackView && (k == "f" || k == "F") then Bulk
      else if k == "a" || k == "A" then SelectAll
      else if k == "n" || k == "N" then SelectNone
      else if k == "q" || k == "Q" then Quit
      else Ignore
  }

  /** The bulk key of each view: `u` unfollows the non-mutual accounts, `f` follows back. */
  predicate BulkKey(view: View, k: string) {
    if view == NonMutualView then k == "u" || k == "U" else k == "f" || k == "F"
  }

  /** `[0, current_index - 1].max` */
  function MoveUp(cursor: int): int {
    if cursor - 1 > 0 then cursor - 1 else 0
  }

  /** `[len - 1, current_index + 1].min` */
  function MoveDown(cursor: int, len: nat): int {
    if len - 1 < cursor + 1 then len - 1 else cursor + 1
  }

  /** Up and down keep the cursor on the list and stop at its ends instead of wrapping. */
  lemma MovesStayOnList(cursor: int, len: nat)
    requires 0 <= cursor < len
    ensures 0 <= MoveUp(cursor) < len && 0 <= MoveDown(cursor, len) < len
    ensures MoveUp(cursor) == if cursor == 0 then 0 else cursor - 1
    ensures MoveDown(cursor, len) == if cursor == len - 1 then len - 1 else cursor + 1
  {
  }

  /** `selected.delete(i)`: the set loses `i`, the others keep their insertion order. */
  function Remove(selected: seq<int>, i: int): (r: seq<int>)
    ensures forall j :: j in r <==> j in selected && j != i
    ensures |r| <= |selected|
  {
    if selected == [] then []
    else if selected[0] == i then Remove(selected[1..], i)
    else [selected[0]] + Remove(selected[1..], i)
  }

  /** Space: `i` leaves the selection if it is in it, and joins it at the end otherwise. */
  function ToggleIndex(selected: seq<int>, i: int): (r: seq<int>)
    ensures forall j :: j in r <==> (if j == i then j !in selected else j in selected)
  {
    if i in selected then Remove(selected, i) else selected + [i]
  }

  lemma {:induction false} RemoveAbsent(selected: seq<int>, i: int)
    requires i !in selected
    ensures Remove(selected, i) == selected
  {
    if selected != [] {
      RemoveAbsent(selected[1..], i);
      assert selected == [selected[0]] + selected[1..];
    }
  }

  lemma {:induction false} RemoveAppended(selected: seq<int>, i: int)
    ensures Remove(selected + [i], i) == Remove(selected, i)
  {
    if selected == [] {
      assert Remove([i], i) == Remove([i][1..], i);
      assert [i][1..] == [];
    } else {
      assert (selected + [i])[1..] == selected[1..] + [i];
      RemoveAppended(selected[1..], i);
    }
  }

  lemma {:induction false} RemoveKeepsDistinct(selected: seq<int>, i: int)
    requires Distinct(selected)
    ensures Distinct(Remove(selected, i))
  {
    if selected != [] {
      RemoveKeepsDistinct(selected[1..], i);
      assert selected[0] !in selected[1..];
    }
  }

  /**
   * Toggling twice restores the selection as a set.  When `i` was not
   * selected it restores the very sequence; when it was, `i` comes back at
   * the end of the insertion order.
   */
  lemma ToggleTwice(selected: seq<int>, i: int)
    ensures forall j :: j in ToggleIndex(ToggleIndex(selected, i), i) <==> j in selected
    ensures i !in selected ==> ToggleIndex(ToggleIndex(selected, i), i) == selected
    ensures i in selected ==> ToggleIndex(ToggleIndex(selected, i), i) == Remove(selected, i) + [i]
  {
    if i !in selected {
      RemoveAppended(selected, i);
      RemoveAbsent(selected, i);
    }
  }

  /** Toggling keeps the selection free of repeats. */
  lemma ToggleKeepsDistinct(selected: seq<int>, i: int)
    requires Distinct(selected)
    ensures Distinct(ToggleIndex(selected, i))
  {
    if i in selected {
      RemoveKeepsDistinct(selected, i);
    }
  }

  /** `Set.new(0...len)`: every index, in ascending order. */
  function SelectAllOf(len: nat): (r: seq<int>)
    ensures |r| == len
    ensures forall k :: 0 <= k < len ==> r[k] == k
    ensures forall j :: j in r <==> 0 <= j < len
    ensures Distinct(r)
  {
    if len == 0 then [] else SelectAllOf(len - 1) + [len - 1]
  }

  /** `selected.map { |i| list[i] }`, in the selection's insertion order. */
  function SelectedAccounts(candidates: seq<Account>, selected: seq<int>): (accounts: seq<Account>)
    requires forall k :: 0 <= k < |selected| ==> 0 <= selected[k] < |candidates|
    ensures |accounts| == |selected|
    ensures forall k :: 0 <= k < |selected| ==> accounts[k] == candidates[selected[k]]
  {
    seq(|selected|, k requires 0 <= k < |selected| => candidates[selected[k]])
  }

  /** `response&.downcase == 'y'`: only `y` or `Y` confirms; end of input does not. */
  predicate Confirms(response: Option<char>) {
    response.Some? && Lower(response.value) == 'y'
  }

  /**
   * `confirm_bulk_follow` / `confirm_bulk_unfollow`: unless confirmed, no
   * request is made; once confirmed, `act` is called once per account, in
   * order, and the successes are counted.
   */
  method ConfirmBulk(accounts: seq<Account>, response: Option<char>, act: string -> bool)
    returns (confirmed: bool, calls: seq<string>, succeeded: nat)
    ensures confirmed <==> Confirms(response)
    ensures confirmed ==> calls == Ids(accounts) && succeeded == Successes(calls, act)
    ensures !confirmed ==> calls == [] && succeeded == 0
    ensures succeeded <= |accounts|
  {
    calls, succeeded := [], 0;
    if !(response.Some? && Lower(response.value) == 'y') {
      return false, calls, succeeded;
    }
    confirmed := true;
    var i := 0;
    while i < |accounts|
      invariant 0 <= i <= |accounts|
      invariant calls == Ids(accounts[..i])
      invariant succeeded == Successes(calls, act)
    {
      var id := accounts[i].id;
      SuccessesAppend(calls, id, act);
      if act(id) {
        succeeded := succeeded + 1;
      }
      assert accounts[..i + 1] == accounts[..i] + [accounts[i]];
      IdsAppend(accounts[..i], accounts[i]);
      calls := calls + [id];
      i := i + 1;
    }
    assert accounts[..i] == accounts;
    SuccessesAtMost(calls, act);
  }

  lemma IdsAppend(xs: seq<Account>, a: Account)
    ensures Ids(xs + [a]) == Ids(xs) + [a.id]
  {
  }

  /** What one key press leads to. */
  datatype StepResult =
    | Stay                                      // redraw and read the next key
    | Detail(account: Account)                  // `show_account_detail`, then back to the list
    | Declined                                  // a bulk action was not confirmed
    | Done(calls: seq<string>, succeeded: nat)  // a confirmed bulk action ended the view
    | Left                                      // `q`
  {
    predicate Exits() {
      Done? || Left?
    }
  }

  /** The rows shown: `display_start...display_end`. */
  datatype Window = Window(start: int, end: int)

  /** `[TTY::Screen.height - 8, 20].min` */
  function DisplayCount(height: int): int {
    if height - 8 < 20 then height - 8 else 20
  }

  function Max(a: int, b: int): int { if a < b then b else a }
  function Min(a: int, b: int): int { if a < b then a else b }

  /**
   * The window arithmetic of the views: centre the cursor, clip to the list,
   * and pull the start back near the end of the list.  `/` is Ruby's floor
   * division, which Dafny's division agrees with for the divisor 2.
   */
  function ComputeWindow(len: nat, cursor: int, height: int): Window {
    var count := DisplayCount(height);
    var start := Max(0, cursor - count / 2);
    var end := Min(len, start + count);
    if end - start < count && start > 0 then Window(Max(0, end - count), end)
    else Window(start, end)
  }

  /**
   * On a terminal with room for at least one row, the window lies within the
   * list, holds the cursor, shows as many rows as fit (or the whole list),
   * and starts as close to centring the cursor as the list allows.
   */
  lemma {:induction false} WindowHoldsCursor(len: nat, cursor: int, height: int)
    requires 0 <= cursor < len && DisplayCount(height) >= 1
    ensures var w, count := ComputeWindow(len, cursor, height), DisplayCount(height);
            0 <= w.start <= cursor < w.end <= len &&
            w.end - w.start == Min(count, len) &&
            w.start == Max(0, Min(cursor - count / 2, len - count))
  {
    var count := DisplayCount(height);
    var half := count / 2;
    assert 0 <= half && 2 * half <= count;
  }

  /** Whatever the terminal height, the window ends within the list and spans at most `display_count` rows. */
  lemma WindowWithinCount(len: nat, cursor: int, height: int)
    ensures var w := ComputeWindow(len, cursor, height);
            w.end <= len && w.end - w.start <= DisplayCount(height)
  {
  }

  /** With fewer than nine terminal rows no account is shown at all, not even the cursor's. */
  lemma TinyTerminalShowsNothing(len: nat, cursor: int, height: int)
    requires 0 <= cursor < len && height <= 8
    ensures var w := ComputeWindow(len, cursor, height); w.end <= w.start
  {
  }

  class SelectionLoop {
    const view: View
    const candidates: seq<Account>
    var cursor: int          // current_index
    var selected: seq<int>   // the `selected` Set, in insertion order

    /** The cursor is on the list and the selection holds distinct valid indices. */
    ghost predicate Valid()
      reads this
    {
      |candidates| > 0 && 0 <= cursor < |candidates| && Distinct(selected) &&
      forall k :: 0 <= k < |selected| ==> 0 <= selected[k] < |candidates|
    }

    /** The loop starts on the first row with nothing selected (the list is never empty here). */
    constructor (view: View, candidates: seq<Account>)
      requires |candidates| > 0
      ensures Valid()
      ensures this.view == view && this.candidates == candidates && cursor == 0 && selected == []
    {
      this.view, this.candidates := view, candidates;
      cursor, selected := 0, [];
    }

    /**
     * One pass of the view's `loop do`: react to `key`.  A bulk key with a
     * non-empty selection asks for confirmation, read as `response`, and
     * `act` follows or unfollows one account id.
     */
    method Step(key: Option<string>, response: Option<char>, act: string -> bool) returns (result: StepResult)
      requires Valid()
      modifies this
      ensures Valid()
      ensures Classify(view, key) == Up ==> cursor == MoveUp(old(cursor)) && selected == old(selected)
      ensures Classify(view, key) == Down ==> cursor == MoveDown(old(cursor), |candidates|) && selected == old(selected)
      ensures Classify(view, key) == Toggle ==> cursor == old(cursor) && selected == ToggleIndex(old(selected), cursor)
      ensures Classify(view, key) == SelectAll ==> cursor == old(cursor) && selected == SelectAllOf(|candidates|)
      ensures Classify(view, key) == SelectNone ==> cursor == old(cursor) && selected == []
      ensures Classify(view, key) in {Info, Bulk, Quit, Ignore} ==> cursor == old(cursor) && selected == old(selected)
      ensures Classify(view, key) == Info <==> result.Detail?
      ensures result.Detail? ==> result.account == candidates[cursor]
      ensures Classify(view, key) == Bulk && selected != [] ==>
                (result.Done? <==> Confirms(response)) && (result.Declined? <==> !Confirms(response))
      ensures result.Done? ==>
                result.calls == Ids(SelectedAccounts(candidates, selected)) &&
                result.succeeded == Successes(result.calls, act) && result.succeeded <= |selected|
      ensures result.Exits() <==>
                Classify(view, key) == Quit || (Classify(view, key) == Bulk && selected != [] && Confirms(response))
      ensures (Classify(view, key) in {Up, Down, Toggle, SelectAll, SelectNone, Ignore} ||
               (Classify(view, key) == Bulk && old(selected) == [])) ==> result == Stay
    {
      result := Stay;
      match Classify(view, key)
      case Up =>
        MovesStayOnList(cursor, |candidates|);
        cursor := MoveUp(cursor);
      case Down =>
        MovesStayOnList(cursor, |candidates|);
        cursor := MoveDown(cursor, |candidates|);
      case Toggle =>
        ToggleKeepsDistinct(selected, cursor);
        var before := selected;
        selected := ToggleIndex(selected, cursor);
        forall k | 0 <= k < |selected| ensures 0 <= selected[k] < |candidates| {
          assert selected[k] in selected;
          if selected[k] != cursor {
            var m :| 0 <= m < |before| && before[m] == selected[k];
          }
        }
      case Info =>
        result := Detail(candidates[cursor]);
      case Bulk =>
        if selected != [] {
          var confirmed, calls, succeeded := ConfirmBulk(SelectedAccounts(candidates, selected), response, act);
          result := if confirmed then Done(calls, succeeded) else Declined;
        }
      case SelectAll =>
        selected := SelectAllOf(|candidates|);
      case SelectNone =>
        selected := [];
      case Quit =>
        result := Left;
      case Ignore =>
    }
  }
}
