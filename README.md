# Follower trackers, modelled in Dafny

This project models the core of a pair of follower trackers, one for Mastodon and one for Bluesky, together with their terminal front end. It covers:

- **Reconciliation.** `check` fetches the current followers and reads the stored snapshot. On a first run it stores the list and nothing else. Otherwise it diffs the two lists by whole-record equality (`Array#-`), logs one `follow` row per new record and then one `unfollow` row per vanished record, and replaces the snapshot.
- **Paginated fetches.** Mastodon follows the `next` link of the `Link` header. Bluesky follows an opaque `cursor`. Both concatenate normalised batches in page order. Any failed page discards everything fetched so far.
- **Configuration and setup.** This covers the blank-field checks of `load_config`, the normalisation and validation of the instance URL in Mastodon `setup`, and Bluesky `setup` with its login.
- **Session caching** in Bluesky `ensure_authenticated`.
- **Candidate lists.** The non-mutual follows and the follow-back candidates are order-keeping filters by id.
- **Selection views of the terminal UI.** This covers cursor moves, the selected-index set, toggling, select-all and clear, the visible window, the key dispatch, and the confirmation gate in front of bulk follow and bulk unfollow.
- **Interactive unfollow** in the Mastodon `non_mutual` command.
- **`format_number`**, the thousands separator.

The files, one module each:

| file | module | what it holds |
|---|---|---|
| `wrappers.dfy` | `Wrappers` | `Option` |
| `accounts.dfy` | `Accounts` | the normalised account record, the two normalisations, id sets, change rows, success counting |
| `text.dfy` | `Text` | Ruby's `strip`, `chomp`, `split(',')`, `include?`, `downcase` on strings |
| `diff.dfy` | `Diff` | `Array#-` and its properties |
| `link_header.dfy` | `LinkHeader` | `parse_next_url` and what it reads from a well-formed header |
| `pagination.dfy` | `Pagination` | the generic fetch loop and its specification |
| `reconcile.dfy` | `Reconcile` | the store (snapshot and change log), `store_followers`, `log_changes`, `stats`, the shared part of `check` |
| `settings.dfy` | `Settings` | `load_config` for both platforms, instance URL normalisation and validation, Mastodon `setup` |
| `mastodon.dfy` | `Mastodon` | the Mastodon fetches, `check` and the interactive unfollow |
| `bluesky.dfy` | `Bluesky` | the Bluesky tracker: session, authentication, fetches, follow/unfollow, `check`, `setup` |
| `candidates.dfy` | `Candidates` | the non-mutual and follow-back filters |
| `selection.dfy` | `Selection` | the two selection views and the bulk confirmation |
| `number_format.dfy` | `NumberFormat` | `format_number` |

Everything outside the program is a parameter:

- An HTTP server becomes a function from URL (or cursor) to a `Reply`.
- A login becomes a function from credentials to an optional session.
- Follow and unfollow requests become functions from an id to a success flag.
- The wall clock becomes a function from a row number to a timestamp string.
- Keys and answers read from the terminal become `Option` values, where `None` is end of input.
- The order in which SQLite returns the stored snapshot becomes a parameter that must be a permutation of the stored rows.
- Each fetch loop carries a ghost page bound. It states that the server ends the list, so that the loop terminates.

## Model

| member | source | states |
|---|---|---|
| Accounts.FromMastodon | mastodon_tracker.rb:278-286 | a Mastodon record keeps its id, `acct` and dates; `display_name` falls back to `username` only when it is nil; the counts are copied as they are |
| Accounts.FromBluesky | bluesky_tracker.rb:148-159 | a Bluesky record is keyed by its DID; `displayName` falls back to the handle when nil; missing follower and follow counts become 0 |
| Accounts.MapMastodon | mastodon_tracker.rb:278-287 | a page's records are normalised one by one, in order |
| Accounts.MapBluesky | bluesky_tracker.rb:148-159 | a page's records are normalised one by one, in order |
| Accounts.IdSet | mastodon_tracker.rb:120 | the id set contains exactly the ids occurring in the list |
| Accounts.SuccessesAtMost | mastodon_tui.rb:785-797 | the count of accepted requests never exceeds the number of requests |
| Diff.Minus | mastodon_tracker.rb:63-64 | `current - previous` holds exactly the records of `current` absent from `previous` and is no longer than `current` |
| Diff.MinusKeepsOrder | mastodon_tracker.rb:63-64 | the difference keeps the order of its left operand (it is a subsequence) |
| Diff.MinusCount | mastodon_tracker.rb:63-64 | every occurrence of a record missing from the right operand survives, and none of a record in it |
| Diff.DiffDisjoint | mastodon_tracker.rb:63-64 | new followers and unfollowers never share a record |
| Diff.DiffReconstructs | mastodon_tracker.rb:63-64 | the previous records plus the new ones are the current records plus the vanished ones, as sets |
| Diff.DiffIdentical | mastodon_tracker.rb:63-64 | an unchanged list yields no difference |
| Diff.MinusEmptyWhenCovered | mastodon_tracker.rb:63-64 | a list whose records all occur in the other, in any order, yields no difference |
| Diff.FieldChangeReportsBoth | bluesky_tracker.rb:314-315 | a record whose id stays but whose fields change is reported both as a new follower and as an unfollower |
| Diff.DiffScenario | bluesky_tracker.rb:314-315 | from snapshot {A, B} to list {B, C}, C is added and A removed |
| Diff.MinusDistinct | mastodon_tracker.rb:63-64 | the difference of a repeat-free list is repeat-free |
| Diff.DistinctSetSize | mastodon_tracker.rb:63-64 | a repeat-free list has as many distinct records as elements |
| Diff.NetChangeIsGrowth | mastodon_tracker.rb:63-64 | for lists with distinct ids, new followers minus unfollowers equals the growth of the list |
| Text.StripEmptyIffBlank | bluesky_tracker.rb:19-23 | `strip` yields "" exactly for whitespace-only strings |
| Text.IncludesIff | mastodon_tracker.rb:363 | `include?` holds exactly when the substring occurs at some position |
| Text.RubySplit | mastodon_tracker.rb:362 | the fields of `split(',')` hold no comma and the last one is not empty |
| Text.DropTrailingEmpty | mastodon_tracker.rb:362 | Ruby's split keeps a prefix of the plain fields, ends in a non-empty field, and drops only empty ones |
| Text.JoinSplit | mastodon_tracker.rb:362 | splitting loses nothing: joining the fields with commas gives the header back |
| Text.SplitJoin | mastodon_tracker.rb:362 | comma-free parts joined with commas split back into those parts |
| Text.RubySplitJoin | mastodon_tracker.rb:362 | Ruby's split of parts joined by commas gives the parts back when the last part is not empty |
| Text.Chomp | mastodon_tracker.rb:139 | `chomp` removes one trailing line ending (`\n`, `\r\n` or `\r`) and nothing else |
| Text.StripChomp | mastodon_tracker.rb:16 | stripping after `chomp` is the same as stripping |
| Text.Downcase | mastodon_tracker.rb:139 | `downcase` maps each ASCII capital to its lower-case letter and keeps every other character |
| LinkHeader.FindNext | mastodon_tracker.rb:362-364 | the part found is the first one that mentions `rel="next"` |
| LinkHeader.FirstCaptureIsLeftmost | mastodon_tracker.rb:366 | `match` returns the capture at the leftmost position where `/<([^>]+)>/` matches, and nil exactly when it matches nowhere |
| LinkHeader.ParseNextUrl | mastodon_tracker.rb:359-367 | a nil header gives no next URL; no next URL exactly when no comma-separated part mentions `rel="next"`; otherwise the result is the first `<…>` capture of the first such part, and a raise (`nil[1]`) exactly when that part has none |
| LinkHeader.MentionsNextIff | mastodon_tracker.rb:363 | a well-formed entry mentions `rel="next"` exactly when its relation is `next` |
| LinkHeader.CaptureOfLink | mastodon_tracker.rb:366 | `/<([^>]+)>/` captures the URL of a well-formed entry |
| LinkHeader.ParseFormattedHeader | mastodon_tracker.rb:359-367 | for any header built from well-formed entries, the parser returns the URL of the first entry whose relation is `next`, or no URL when there is none (the reading of section 3 of RFC 8288) |
| Pagination.FetchAll | mastodon_tracker.rb:268-297 | the fetch loop returns what the page-by-page specification `Walk` prescribes |
| Pagination.WalkBoundIrrelevant | bluesky_tracker.rb:138-166 | the page bound only serves termination: any sufficient bound gives the same result |
| Pagination.ChainIsConcatenated | bluesky_tracker.rb:138-166 | a chain of successful pages is fetched as the concatenation of its batches, in page order |
| Pagination.BrokenChainDiscards | mastodon_tracker.rb:273-276 | a failing page yields nil and a raising one an exception, whatever was received before |
| Pagination.FetchedIsChain | mastodon_tracker.rb:268-297 | every successful fetch is the concatenation of a chain of pages |
| Reconcile.StoredCount | mastodon_tracker.rb:389-403 | the rows stored before the first repeated id are repeat-free, and the next row's id repeats an earlier one |
| Reconcile.StoredAllIffDistinct | mastodon_tracker.rb:389-403 | the whole list is stored exactly when its ids are distinct |
| Reconcile.ChangeRows | mastodon_tracker.rb:405-416 | one change row per account, in order, carrying its id, names, the action and its own timestamp |
| Reconcile.StatsOf | bluesky_tracker.rb:398-413 | the follower count is the snapshot size; the follow count and the unfollow count are the numbers of `follow` and `unfollow` rows in the log; they sum to the log length and the net change is their difference |
| Reconcile.CountChangeRows | bluesky_tracker.rb:373-384 | rows logged for one action count under that action only |
| Reconcile.RunStats | bluesky_tracker.rb:300-335 | after a run the statistics move by the number of new followers and unfollowers it logged |
| Reconcile.Store.constructor | mastodon_tracker.rb:224-250 | a fresh installation has an empty snapshot and an empty log |
| Reconcile.Store.StoreFollowers | mastodon_tracker.rb:389-403 | the snapshot becomes the list up to its first repeated id; success exactly when ids are distinct; the log is untouched |
| Reconcile.Store.LogChanges | mastodon_tracker.rb:405-416 | the log grows by exactly the change rows of the accounts, in order; the snapshot is untouched |
| Reconcile.Store.Check | mastodon_tracker.rb:57-84 | first run: store only; otherwise log the new followers, then the unfollowers, and replace the snapshot |
| Settings.IsBlank | bluesky_tracker.rb:19-23 | a field is blank when nil or whitespace only |
| Settings.LoadMastodonConfig | mastodon_tracker.rb:206-222 | a configuration exists exactly when the file exists and both fields are non-blank; the values are kept unstripped |
| Settings.LoadBlueskyConfig | bluesky_tracker.rb:12-29 | a configuration exists exactly when handle and password are non-blank |
| Settings.NormalizeInstance | mastodon_tracker.rb:24 | the result starts with `http`; an input starting with `http` is kept; any other gets `https://` in front |
| Settings.NormalizeIdempotent | mastodon_tracker.rb:24 | normalising twice is normalising once |
| Settings.ScanHostIff | mastodon_tracker.rb:27 | the backtracking host scan succeeds exactly when a host run ends in a dot and two or more letters |
| Settings.PatternAtIff | mastodon_tracker.rb:27 | the scanner agrees with the regular expression at a line start |
| Settings.MatchesFromIff | mastodon_tracker.rb:27 | the search from a position succeeds exactly when some later line start matches |
| Settings.ValidInstanceUrlIff | mastodon_tracker.rb:27-30 | the URL check holds exactly when some line of the answer starts with scheme and host |
| Settings.CheckInstance | mastodon_tracker.rb:16-30 | an empty or missing answer is rejected as empty; a non-blank answer is accepted exactly when its stripped, normalised form passes the URL check, and the accepted URL is that form |
| Settings.Setup | mastodon_tracker.rb:11-45 | a configuration is saved exactly when the instance is accepted and the token is not blank, with both stripped; an instance error is reported as it is, and an accepted instance with a missing or blank token gives `EmptyToken` |
| Settings.SetupThenLoad | mastodon_tracker.rb:201-222 | what `setup` saves, `load_config` reads back unchanged |
| Mastodon.StartUrl | mastodon_tracker.rb:264-266 | the first page URL is the instance URL followed by `/api/v1/accounts/`, the account id (empty when nil), `/followers` or `/following`, and `?limit=80` |
| Mastodon.StartUrlIdentifies | mastodon_tracker.rb:266 | two first-page URLs on one instance are equal only for the same account id and the same list |
| Mastodon.PageAt | mastodon_tracker.rb:269-292 | a non-success status fails the fetch; a success yields the normalised batch and the `next` URL, absent exactly when the header has none; a missing capture raises |
| Mastodon.FetchList | mastodon_tracker.rb:252-346 | `fetch_followers` / `fetch_following` return what the page-by-page specification prescribes |
| Mastodon.FetchedPages | mastodon_tracker.rb:252-298 | a successful fetch started at the list URL and is the concatenation of a chain of pages |
| Mastodon.SinglePage | mastodon_tracker.rb:252-298 | one page without a `next` link is the whole list, normalised |
| Mastodon.Check | mastodon_tracker.rb:48-84 | no configuration: nothing happens; failed or raising fetch: the store is untouched; otherwise first run or reconciliation as `Store.Check` |
| Mastodon.Answers | mastodon_tracker.rb:139-154 | each answer line is read by `chomp.downcase` into yes, quit or skip |
| Mastodon.InteractiveUnfollow | mastodon_tracker.rb:131-157 | the unfollow requests are those the answers choose, in list order; the count is the number accepted; running out of input is reported |
| Mastodon.ChosenInOrder | mastodon_tracker.rb:134-157 | every account is asked about at most once, in list order |
| Mastodon.AllYes | mastodon_tracker.rb:134-157 | answering yes throughout unfollows the whole list, in order |
| Mastodon.QuitStops | mastodon_tracker.rb:149-151 | `q` stops at once: nothing is unfollowed afterwards |
| Bluesky.EnsureSpec | bluesky_tracker.rb:86-93 | no configuration: false, session kept; a session with a token: true without a login; otherwise the login decides and a failed one keeps the old session |
| Bluesky.PageAt | bluesky_tracker.rb:138-166 | a non-success status fails; a missing list raises; a success yields the normalised batch and continues while the cursor is non-nil |
| Bluesky.FetchedPages | bluesky_tracker.rb:127-213 | a successful fetch needed authentication and is a chain of pages from the nil cursor, concatenated |
| Bluesky.SinglePage | bluesky_tracker.rb:138-166 | one page without a cursor is the whole list, normalised |
| Bluesky.UnfollowAccount | bluesky_tracker.rb:294-298 | unfollowing always answers false |
| Bluesky.BulkUnfollowCountsNothing | bluesky_tracker.rb:294-298 | a bulk unfollow on Bluesky counts no success, whatever the accounts |
| Bluesky.CachedSessionIsKept | bluesky_tracker.rb:86-93 | a cached session with a token is reused, now and on the next call |
| Bluesky.SecondCallReuses | bluesky_tracker.rb:86-93 | after a successful login that returned a token, the next call does not log in again |
| Bluesky.SetupThenLoad | bluesky_tracker.rb:37-68 | what `setup` saves, `load_config` accepts as it is |
| Bluesky.Tracker.constructor | bluesky_tracker.rb:8-10 | a new tracker has no session |
| Bluesky.Tracker.Authenticate | bluesky_tracker.rb:70-84 | success exactly when the login answers; the session is replaced only then |
| Bluesky.Tracker.EnsureAuthenticated | bluesky_tracker.rb:86-93 | the answer and the new session are those of `EnsureSpec` |
| Bluesky.Tracker.FetchList | bluesky_tracker.rb:127-213 | authenticates as `EnsureSpec` says and returns the page-by-page specification's result |
| Bluesky.Tracker.FollowAccount | bluesky_tracker.rb:271-292 | no follow request is made unless authentication succeeded |
| Bluesky.Tracker.Check | bluesky_tracker.rb:300-335 | no configuration: nothing happens and the session is kept; otherwise the session becomes what `ensure_authenticated` leaves; a failed or raising fetch leaves the store untouched; otherwise first run or reconciliation |
| Bluesky.Tracker.Setup | bluesky_tracker.rb:37-68 | the stripped handle and password are saved exactly when both are non-blank and the login succeeds |
| Candidates.RejectKnown | mastodon_tui.rb:307-313 | the filter keeps exactly the records whose id is not known |
| Candidates.RejectKeepsOrder | mastodon_tui.rb:307-313 | the filter keeps the original order |
| Candidates.RejectCount | mastodon_tui.rb:307-313 | every occurrence of a surviving record is kept |
| Candidates.NonMutualIff | mastodon_tracker.rb:120-122 | a record is non-mutual exactly when it is followed and no follower has its id |
| Candidates.FollowBackIsMirror | mastodon_tui.rb:452-458 | follow-back is the non-mutual filter with the lists swapped |
| Candidates.CandidatesDisjoint | mastodon_tui.rb:452-458 | no id is a candidate of both views |
| Candidates.AllMutual | mastodon_tui.rb:317-328 | when everyone followed follows back, the non-mutual list is empty |
| Candidates.NonMutualExample | mastodon_tui.rb:307-313 | following x, y, z with only y following back gives x then z |
| Selection.Classify | mastodon_tui.rb:387-413 | end of input matches no key; the bulk key is `u`/`U` in the non-mutual view and `f`/`F` in the follow-back view; `q`/`Q` quits |
| Selection.MovesStayOnList | mastodon_tui.rb:388-391 | up and down keep the cursor in the list and stop at its ends |
| Selection.ToggleIndex | mastodon_tui.rb:392-397 | space flips the membership of the cursor's index and of no other index |
| Selection.ToggleTwice | mastodon_tui.rb:392-397 | toggling twice restores the selection as a set, and the very sequence when the index was not selected |
| Selection.ToggleKeepsDistinct | mastodon_tui.rb:392-397 | toggling keeps the selection free of repeats |
| Selection.SelectAllOf | mastodon_tui.rb:407-408 | `a` selects exactly the indices 0 to len-1, in order |
| Selection.SelectedAccounts | mastodon_tui.rb:402 | the bulk list is the candidates at the selected indices, in selection order |
| Selection.ConfirmBulk | mastodon_tui.rb:759-873 | no request unless the answer is `y` or `Y`; after it, one request per account in order, and the count of successes is at most the number of accounts |
| Selection.WindowHoldsCursor | mastodon_tui.rb:346-355 | with room for a row, the window lies in the list, holds the cursor, shows min(display_count, len) rows and is centred as far as the list allows |
| Selection.TinyTerminalShowsNothing | mastodon_tui.rb:346-355 | with fewer than nine terminal rows the window is empty |
| Selection.SelectionLoop.constructor | mastodon_tui.rb:331-332 | the view starts on the first row with nothing selected |
| Selection.SelectionLoop.Step | mastodon_tui.rb:387-413 | each key's effect on cursor and selection; moves, toggles, select-all, clear, unknown keys and the bulk key with an empty selection stay in the view (`Stay`); the loop exits only on `q` or a confirmed bulk action |
| NumberFormat.FormatNumber | mastodon_tui.rb:982-985 | a nil count shows as "0" |
| NumberFormat.FormatWithoutCommas | mastodon_tui.rb:982-985 | removing the commas gives back `to_s` of the number |
| NumberFormat.SmallNumbers | mastodon_tui.rb:982-985 | numbers of fewer than four digits get no comma |
| NumberFormat.NatGrouping | mastodon_tui.rb:982-985 | a number of four or more digits is its thousands, formatted, a comma, and its last three digits |
| NumberFormat.NegativeGrouping | mastodon_tui.rb:982-985 | a negative number is its magnitude, formatted, behind a minus sign |

## Left out

- HTTP requests, status codes and JSON parsing are oracles: a page function, a login function and follow/unfollow functions. Request headers, Bluesky's `limit: 100` page size (bluesky_tracker.rb:135, 179) and rate limiting (`sleep`) are not modelled.
- The configuration files are read as optional strings. A value of another JSON type, such as a number or an array, makes `.strip` raise NoMethodError in `load_config` (mastodon_tracker.rb:212-213, bluesky_tracker.rb:19-20). That exception is not modelled.
- Selection.ConfirmBulk / Mastodon.InteractiveUnfollow: a follow or unfollow request that raises is not modelled. The request functions answer only true or false. In the source, `unfollow_account` (mastodon_tracker.rb:348-357) and Bluesky `follow_account` (bluesky_tracker.rb:271-292) call `HTTParty.post` without a `rescue`. A raise stops the `each` loop of `confirm_bulk_follow` or `confirm_bulk_unfollow`, so the remaining selected accounts get no request, and the view's `rescue` (mastodon_tui.rb:416, 561) leaves the view. In `non_mutual --interactive` the same raise ends the program. "One request per account, in order" therefore holds only when no request raises. `Bluesky.Tracker.FollowAccount` likewise does not model a raising createRecord request.
- SQLite is reduced to the two sequences of `Store`. Table creation, SQL text and connections are not modelled. The read order of `get_previous_followers` is a parameter, because the query has no `ORDER BY`.
- The terminal (raw mode, escape-sequence reading, boxes, colours, spinners) is not modelled. Keys are `Option<string>` and confirmation answers `Option<char>`, with `None` for end of input. At end of input the selection loop reads `None` forever, so `Step` leaves the state unchanged and never exits: the loop does not terminate. `Classify` and `Step` state this.
- `show_account_detail` (mastodon_tui.rb:575-757) is not modelled. Besides rendering the account, its `f` and `u` keys send a single follow or unfollow request for that account, and its `o` key opens the profile in a browser. None of these actions is modelled. `Step` returns `Detail(account)` where the view opens this screen.
- `history`, the dashboard, `format_date` and `strip_html` only render text and are not modelled. `show_settings` renders the configuration and otherwise dispatches to `setup` (mastodon_tui.rb:908-910), which is modelled as `Settings.Setup` and `Bluesky.Tracker.Setup`.
- Mastodon `follow_account` and `fetch_account_details` are called by the terminal UI but are not defined in mastodon_tracker.rb. They are not part of this model; `ConfirmBulk` takes the follow request as an oracle.
- Timestamps: `log_changes` calls `Time.now` for every row, so rows of one run may carry different times. The model takes a clock indexed by row number and claims no common timestamp.
- `Text.Downcase` lowers ASCII letters only. The answers are compared only with the ASCII words `y`, `yes`, `q` and `quit`, and no non-ASCII character downcases to one of them, so the outcome is the same.
- `Text.StripChomp`: `setup` calls `chomp` and then `strip`. Stripping removes every trailing line ending anyway, so the model strips directly.
- Bluesky.Tracker.Check: `authenticate` (bluesky_tracker.rb:70-84) has no `rescue`, so an exception from the createSession request escapes `ensure_authenticated`. The login function returns only a session or `None`, so the model reports such an exception as a failed login. That is `FetchFailed` in `check`, and `ok == false` in `Tracker.Setup`, `Tracker.FetchList` and `Tracker.FollowAccount`. The exception is not modelled as `Crashed`. In the terminal UI, `run_check` (mastodon_tui.rb:173-211) catches it at :201, shows "Check failed!" and returns to the menu. The two list views, which call `fetch_followers` and `fetch_following`, catch it at :416 and :561, show the error and leave the view. Only `setup`, called from `show_settings` (mastodon_tui.rb:910) without a `rescue`, ends the program.
- In Mastodon `check`, the same server answers the credentials request and the page requests. A server whose answers change between calls is not modelled.
- Mastodon.InteractiveUnfollow: does not model the one-second pause between prompts, because time is not modelled. It does not model a raising `unfollow_account` either; a raise there ends the program (see the line on `Selection.ConfirmBulk`).
- Selection.ConfirmBulk: does not model the "press any key" pause after a bulk action; the key read there is ignored by the source.
- Selection.WindowHoldsCursor: the bound 0 ≤ start ≤ end ≤ len holds only when the terminal has at least nine rows. With fewer rows `display_count` is zero or negative, start may exceed end and even the list length, and the view shows no row. `TinyTerminalShowsNothing` and `WindowWithinCount` state what holds then.
- The fetch loops carry a ghost page bound, an assumption that the server ends its list. A server that never ends it makes the source loop forever, and that case is not modelled.
