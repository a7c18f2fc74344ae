/**
 * The Mastodon tracker (`mastodon_tracker.rb`): the paginated fetch of the
 * followers and following lists, `check`, and the interactive unfollow loop
 * of `non_mutual --interactive`.  HTTP is a `Server`: the answer to
 * `verify_credentials` and a function from page URL to page reply, both for
 * the configured token.
 */
module Mastodon {
  import opened Wrappers
  import opened Text
  import opened Accounts
  import opened LinkHeader
  import opened Pagination
  import opened Diff
  import opened Reconcile
  import opened Settings

  /** The body of a followers/following page and its `Link` response header. */
  datatype MastodonPage = MastodonPage(records: seq<MastodonRecord>, link: Option<string>)

  /**
   * The instance as seen with the configured token: `verify_credentials`
   * yields the account `id` (nil when the body lacks one), and `page` answers
   * a GET of a page URL.
   */
  datatype Server = Server(credentials: Reply<Option<string>>, page: string -> Reply<MastodonPage>)

  function ListPath(kind: ListKind): string {
    match kind
    case Followers => "followers"
    case Following => "following"
  }

  /** `"#{instance}/api/v1/accounts/#{account_id}/followers?limit=80"`; a nil id interpolates as "". */
  function StartUrl(instance: string, accountId: Option<string>, kind: ListKind): (url: string)
    ensures StartsWith(url, instance)
    ensures url[|instance|..] == "/api/v1/accounts/" + accountId.GetOr("") + "/" + ListPath(kind) + "?limit=80"
  {
    instance + "/api/v1/accounts/" + accountId.GetOr("") + "/" + ListPath(kind) + "?limit=80"
  }

  /** The first URL tells apart both the account and the list: no two requests share it. */
  lemma StartUrlIdentifies(instance: string, a: Option<string>, b: Option<string>, k: ListKind, k': ListKind)
    requires StartUrl(instance, a, k) == StartUrl(instance, b, k')
    ensures a.GetOr("") == b.GetOr("") && k == k'
  {
    var u := StartUrl(instance, a, k);
    var n := |instance| + 17;
    var x, y := a.GetOr(""), b.GetOr("");
    assert |x| == |y|;
    assert u[n + |x| + 8] == ListPath(k)[7] == ListPath(k')[7];
    assert u[n..n + |x|] == x && u[n..n + |y|] == y;
  }

  /**
   * One iteration of `while next_url`: a non-success status returns nil, a
   * page whose `Link` header has a `next` entry without `<...>` raises, and
   * otherwise the normalised batch is kept and `parse_next_url` gives the
   * next URL.
   */
  function PageAt(page: string -> Reply<MastodonPage>, url: string): (r: Response<string>)
    ensures r.Failed? <==> page(url).NotSuccess?
    ensures r.Page? <==> page(url).Success? && !ParseNextUrl(page(url).body.link).NoUrl?
    ensures r.Page? ==> r.items == MapMastodon(page(url).body.records)
    ensures r.Page? ==> (r.next.None? <==> ParseNextUrl(page(url).body.link).NoNext?)
    ensures r.Page? && r.next.Some? ==> ParseNextUrl(page(url).body.link) == Next(r.next.value)
  {
    match page(url)
    case NotSuccess => Failed
    case Threw => Raised
    case Success(MastodonPage(records, link)) =>
      match ParseNextUrl(link)
      case NoUrl => Raised
      case NoNext => Page(MapMastodon(records), None)
      case Next(u) => Page(MapMastodon(records), Some(u))
  }

  function PageStep(page: string -> Reply<MastodonPage>): string -> Response<string> {
    url => PageAt(page, url)
  }

  /** The remote serves the list from `instance` in at most `bound` pages. */
  ghost predicate Paginates(instance: string, kind: ListKind, server: Server, bound: nat) {
    server.credentials.Success? ==>
      EndsWithin(PageStep(server.page), StartUrl(instance, server.credentials.body, kind), bound)
  }

  /** What `fetch_followers` / `fetch_following` return. */
  ghost function FetchSpec(instance: string, kind: ListKind, server: Server, bound: nat): FetchResult
    requires Paginates(instance, kind, server, bound)
  {
    match server.credentials
    case NotSuccess => Nil
    case Threw => Raise
    case Success(id) => Walk(PageStep(server.page), StartUrl(instance, id, kind), bound)
  }

  /** `fetch_followers` (kind `Followers`) and `fetch_following` (kind `Following`). */
  method FetchList(instance: string, kind: ListKind, server: Server, ghost bound: nat) returns (r: FetchResult)
    requires Paginates(instance, kind, server, bound)
    ensures r == FetchSpec(instance, kind, server, bound)
  {
    match server.credentials
    case NotSuccess =>
      return Nil;
    case Threw =>
      return Raise;
    case Success(id) =>
      r := FetchAll(PageStep(server.page), StartUrl(instance, id, kind), bound);
  }

  /**
   * A fetch succeeds exactly on a chain of pages: the credentials are
   * verified, the chain starts at the list's first URL, and the result is
   * the normalised records of every page, in page order.
   */
  lemma FetchedPages(instance: string, kind: ListKind, server: Server, bound: nat)
    returns (urls: seq<string>, batches: seq<seq<Account>>)
    requires Paginates(instance, kind, server, bound)
    requires FetchSpec(instance, kind, server, bound).Fetched?
    ensures server.credentials.Success?
    ensures IsChain(PageStep(server.page), urls, batches)
    ensures urls[0] == StartUrl(instance, server.credentials.body, kind)
    ensures FetchSpec(instance, kind, server, bound) == Fetched(Flatten(batches))
  {
    urls, batches := FetchedIsChain(PageStep(server.page), StartUrl(instance, server.credentials.body, kind), bound);
  }

  /** A single page without a `next` link is the whole list, normalised record by record. */
  lemma SinglePage(instance: string, kind: ListKind, server: Server, records: seq<MastodonRecord>, link: Option<string>)
    requires server.credentials.Success?
    requires server.page(StartUrl(instance, server.credentials.body, kind)) == Success(MastodonPage(records, link))
    requires ParseNextUrl(link) == NoNext
    ensures Paginates(instance, kind, server, 1)
    ensures FetchSpec(instance, kind, server, 1) == Fetched(MapMastodon(records))
  {
  }

  /** The followers `check` fetches with the configuration in `file`. */
  ghost function FollowersOf(file: Option<MastodonFile>, server: Server, bound: nat): FetchResult
    requires LoadMastodonConfig(file).Some? ==>
               Paginates(LoadMastodonConfig(file).value.instance, Followers, server, bound)
  {
    match LoadMastodonConfig(file)
    case None => Nil
    case Some(config) => FetchSpec(config.instance, Followers, server, bound)
  }

  /**
   * `check`: load the configuration, fetch the followers, and reconcile them
   * with the store.  `previous` is what `get_previous_followers` reads back.
   */
  method Check(store: Store, file: Option<MastodonFile>, server: Server, ghost bound: nat,
               previous: seq<Account>, clock: nat -> string)
    returns (report: CheckReport)
    requires store.Valid()
    requires multiset(previous) == multiset(store.snapshot)
    requires LoadMastodonConfig(file).Some? ==>
               Paginates(LoadMastodonConfig(file).value.instance, Followers, server, bound)
    modifies store
    ensures store.Valid()
    ensures LoadMastodonConfig(file).None? ==> report == SetupFirst
    ensures LoadMastodonConfig(file).Some? && FollowersOf(file, server, bound).Nil? ==> report == FetchFailed
    ensures LoadMastodonConfig(file).Some? && FollowersOf(file, server, bound).Raise? ==> report == Crashed
    ensures LoadMastodonConfig(file).Some? && FollowersOf(file, server, bound).Fetched? ==>
              report.Checked? && (report.outcome == FirstRun <==> old(store.snapshot) == [])
    ensures report.Checked? ==>
              var current := FollowersOf(file, server, bound).accounts;
              (report.outcome.Reconciled? ==>
                 report.outcome == Reconciled(Minus(current, previous), Minus(previous, current))) &&
              store.log == old(store.log) + RunRows(report.outcome, clock) &&
              store.snapshot == current[..StoredCount(current)] &&
              (report.stored <==> DistinctIds(current))
    ensures !report.Checked? ==> store.snapshot == old(store.snapshot) && store.log == old(store.log)
  {
    var config := LoadMastodonConfig(file);
    if config.None? {
      return SetupFirst;
    }
    var current := FetchList(config.value.instance, Followers, server, bound);
    match current
    case Nil =>
      return FetchFailed;
    case Raise =>
      return Crashed;
    case Fetched(accounts) =>
      var outcome, stored := store.Check(accounts, previous, clock);
      report := Checked(outcome, stored);
  }

  /** How the interactive prompt reads an answer line. */
  datatype Answer = Yes | Quit | Skip

  /** `case STDIN.gets.chomp.downcase when 'y', 'yes' … when 'q', 'quit' … else`. */
  function Decide(line: string): Answer {
    var word := Downcase(Chomp(line));
    if word == "y" || word == "yes" then Yes
    else if word == "q" || word == "quit" then Quit
    else Skip
  }

  /** The decisions read from `lines`, one per line. */
  function Answers(lines: seq<string>): (answers: seq<Answer>)
    ensures |answers| == |lines|
    ensures forall k :: 0 <= k < |lines| ==> answers[k] == Decide(lines[k])
  {
    if lines == [] then [] else [Decide(lines[0])] + Answers(lines[1..])
  }

  /** The ids the interactive loop asks the server to unfollow, in order. */
  function Chosen(accounts: seq<Account>, answers: seq<Answer>): seq<string>
    decreases |accounts|
  {
    if accounts == [] || answers == [] then []
    else match answers[0]
      case Yes => [accounts[0].id] + Chosen(accounts[1..], answers[1..])
      case Quit => []
      case Skip => Chosen(accounts[1..], answers[1..])
  }

  /** Input ends (`gets` returns nil and `.chomp` raises) before the loop is done. */
  predicate RunsOut(accounts: seq<Account>, answers: seq<Answer>)
    decreases |accounts|
  {
    accounts != [] && (answers == [] || (answers[0] != Quit && RunsOut(accounts[1..], answers[1..])))
  }

  /**
   * `non_mutual --interactive`: one prompt per account, in order; `y`/`yes`
   * unfollows, `q`/`quit` stops, anything else skips.  `lines` are the lines
   * `STDIN.gets` returns; when they run out the loop raises (`nil.chomp`).
   */
  method InteractiveUnfollow(accounts: seq<Account>, lines: seq<string>, unfollow: string -> bool)
    returns (calls: seq<string>, unfollowed: nat, ranOut: bool)
    ensures calls == Chosen(accounts, Answers(lines))
    ensures unfollowed == Successes(calls, unfollow)
    ensures ranOut <==> RunsOut(accounts, Answers(lines))
  {
    calls, unfollowed, ranOut := [], 0, false;
    ghost var answers := Answers(lines);
    FromStart(accounts, answers, 0);
    assert accounts[0..] == accounts && answers[0..] == answers;
    var i := 0;
    while i < |accounts|
      invariant 0 <= i <= |accounts| && i <= |lines|
      invariant Chosen(accounts, answers) == calls + ChosenFrom(accounts, answers, i)
      invariant RunsOut(accounts, answers) <==> RunsOutFrom(accounts, answers, i)
      invariant unfollowed == Successes(calls, unfollow)
    {
      if i == |lines| {
        return calls, unfollowed, true;
      }
      var answer := Decide(lines[i]);
      Advance(accounts, answers, i);
      if answer == Quit {
        return;
      }
      if answer == Yes {
        SuccessesAppend(calls, accounts[i].id, unfollow);
        if unfollow(accounts[i].id) {
          unfollowed := unfollowed + 1;
        }
        AppendAssoc(calls, [accounts[i].id], ChosenFrom(accounts, answers, i + 1));
        calls := calls + [accounts[i].id];
      }
      i := i + 1;
    }
    assert calls + [] == calls;
  }

  /** One prompt of the loop, in terms of the positional specification. */
  lemma Advance(accounts: seq<Account>, answers: seq<Answer>, i: nat)
    requires i < |accounts| && i < |answers|
    ensures answers[i] == Quit ==> ChosenFrom(accounts, answers, i) == [] && !RunsOutFrom(accounts, answers, i)
    ensures answers[i] == Yes ==>
              ChosenFrom(accounts, answers, i) == [accounts[i].id] + ChosenFrom(accounts, answers, i + 1)
    ensures answers[i] == Skip ==> ChosenFrom(accounts, answers, i) == ChosenFrom(accounts, answers, i + 1)
    ensures answers[i] != Quit ==> RunsOutFrom(accounts, answers, i) == RunsOutFrom(accounts, answers, i + 1)
  {
  }

  /** `Chosen` on the accounts from index `i` on, by position. */
  function ChosenFrom(accounts: seq<Account>, answers: seq<Answer>, i: nat): seq<string>
    decreases |accounts| - i
  {
    if i >= |accounts| || i >= |answers| then []
    else match answers[i]
      case Yes => [accounts[i].id] + ChosenFrom(accounts, answers, i + 1)
      case Quit => []
      case Skip => ChosenFrom(accounts, answers, i + 1)
  }

  predicate RunsOutFrom(accounts: seq<Account>, answers: seq<Answer>, i: nat)
    decreases |accounts| - i
  {
    i < |accounts| && (i >= |answers| || (answers[i] != Quit && RunsOutFrom(accounts, answers, i + 1)))
  }

  lemma {:induction false} FromStart(accounts: seq<Account>, answers: seq<Answer>, i: nat)
    requires i <= |accounts| && i <= |answers|
    ensures ChosenFrom(accounts, answers, i) == Chosen(accounts[i..], answers[i..])
    ensures RunsOutFrom(accounts, answers, i) == RunsOut(accounts[i..], answers[i..])
    decreases |accounts| - i
  {
    if i < |accounts| && i < |answers| {
      FromStart(accounts, answers, i + 1);
      assert accounts[i..][1..] == accounts[i + 1..] && answers[i..][1..] == answers[i + 1..];
    }
  }

  /** Every prompted account is asked about at most once and in list order. */
  lemma {:induction false} ChosenInOrder(accounts: seq<Account>, answers: seq<Answer>)
    ensures IsSubsequence(Chosen(accounts, answers), Ids(accounts))
    decreases |accounts|
  {
    if accounts != [] && answers != [] {
      ChosenInOrder(accounts[1..], answers[1..]);
      assert Ids(accounts)[1..] == Ids(accounts[1..]);
      if answers[0] == Skip {
        SubsequenceOfTail(Chosen(accounts, answers), Ids(accounts));
      }
    }
  }

  /** Answering `y` to every prompt unfollows the whole list, in order. */
  lemma {:induction false} AllYes(accounts: seq<Account>, answers: seq<Answer>)
    requires |answers| >= |accounts|
    requires forall k :: 0 <= k < |answers| ==> answers[k] == Yes
    ensures Chosen(accounts, answers) == Ids(accounts)
    ensures !RunsOut(accounts, answers)
    decreases |accounts|
  {
    if accounts != [] {
      assert answers[0] == Yes;
      AllYes(accounts[1..], answers[1..]);
      assert Ids(accounts) == [accounts[0].id] + Ids(accounts[1..]);
    }
  }

  /** `q` stops at once: no later account is unfollowed. */
  lemma QuitStops(accounts: seq<Account>, answers: seq<Answer>)
    requires accounts != [] && answers != [] && answers[0] == Quit
    ensures Chosen(accounts, answers) == [] && !RunsOut(accounts, answers)
  {
  }
}
