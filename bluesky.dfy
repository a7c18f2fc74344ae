/**
 * The Bluesky tracker (`bluesky_tracker.rb`): a session cached in the
 * tracker object, cursor pagination over getFollowers / getFollows, `check`,
 * `follow_account`, `unfollow_account` and `setup`.  The XRPC endpoints are a
 * `Remote`: createSession, the list pages and createRecord.
 */
module Bluesky {
  import opened Wrappers
  import opened Text
  import opened Accounts
  import opened Pagination
  import opened Diff
  import opened Reconcile
  import opened Settings

  /** The parsed createSession body, as far as the tracker reads it. */
  datatype Session = Session(accessJwt: Option<string>, did: Option<string>)

  /** A getFollowers / getFollows body: its `followers` (or `follows`) list, nil when absent, and `cursor`. */
  datatype BlueskyPage = BlueskyPage(records: Option<seq<BlueskyRecord>>, cursor: Option<string>)

  /**
   * The server.  `login` answers createSession for a handle and password
   * (None on a non-success status); `page` answers a list request made with
   * a session's token and did, from a cursor; `follow` answers createRecord.
   */
  datatype Remote = Remote(
    login: (string, string) -> Option<Session>,
    page: (ListKind, Session, Option<string>) -> Reply<BlueskyPage>,
    follow: (Session, string) -> bool)

  /** The outcome of `ensure_authenticated`: its answer and the session it leaves. */
  datatype Auth = Auth(ok: bool, session: Option<Session>)

  predicate HasToken(session: Option<Session>) {
    session.Some? && session.value.accessJwt.Some?
  }

  /**
   * `ensure_authenticated`: false without a valid configuration; true,
   * without a request, when the session already holds an `accessJwt`;
   * otherwise whatever `authenticate` answers, which replaces the session
   * only on success.
   */
  function EnsureSpec(config: Option<BlueskyConfig>, login: (string, string) -> Option<Session>,
                      session: Option<Session>): (a: Auth)
    ensures config.None? ==> !a.ok && a.session == session
    ensures config.Some? && HasToken(session) ==> a.ok && a.session == session
    ensures config.Some? && !HasToken(session) ==>
              (a.ok <==> login(config.value.handle, config.value.password).Some?)
    ensures a.session != session ==> a.ok && a.session == login(config.value.handle, config.value.password)
    ensures a.ok ==> a.session.Some?
  {
    match config
    case None => Auth(false, session)
    case Some(c) =>
      if HasToken(session) then Auth(true, session)
      else match login(c.handle, c.password)
        case None => Auth(false, session)
        case Some(s) => Auth(true, Some(s))
  }

  /**
   * One pass of `loop do`: a non-success status returns nil; a body without
   * the list raises (`nil.map`); otherwise the normalised batch is kept and a
   * non-nil `cursor` (even an empty one) continues the loop.
   */
  function PageAt(page: (ListKind, Session, Option<string>) -> Reply<BlueskyPage>, kind: ListKind,
                  session: Session, cursor: Option<string>): (r: Response<Option<string>>)
    ensures r.Failed? <==> page(kind, session, cursor).NotSuccess?
    ensures r.Page? <==> page(kind, session, cursor).Success? && page(kind, session, cursor).body.records.Some?
    ensures r.Page? ==> r.items == MapBluesky(page(kind, session, cursor).body.records.value)
    ensures r.Page? ==> (r.next.None? <==> page(kind, session, cursor).body.cursor.None?)
    ensures r.Page? && r.next.Some? ==> r.next.value == page(kind, session, cursor).body.cursor
  {
    match page(kind, session, cursor)
    case NotSuccess => Failed
    case Threw => Raised
    case Success(BlueskyPage(None, _)) => Raised
    case Success(BlueskyPage(Some(records), None)) => Page(MapBluesky(records), None)
    case Success(BlueskyPage(Some(records), Some(c))) => Page(MapBluesky(records), Some(Some(c)))
  }

  function PageStep(page: (ListKind, Session, Option<string>) -> Reply<BlueskyPage>, kind: ListKind,
                    session: Session): Option<string> -> Response<Option<string>> {
    cursor => PageAt(page, kind, session, cursor)
  }

  /** Once authentication succeeded, the server ends the list within `bound` pages for that session. */
  ghost predicate Paginates(remote: Remote, kind: ListKind, auth: Auth, bound: nat) {
    auth.ok ==> auth.session.Some? && EndsWithin(PageStep(remote.page, kind, auth.session.value), None, bound)
  }

  /** What `fetch_followers` / `fetch_following` return once authentication answered `auth`. */
  ghost function FetchSpec(remote: Remote, kind: ListKind, auth: Auth, bound: nat): FetchResult
    requires Paginates(remote, kind, auth, bound)
  {
    if !auth.ok then Nil
    else Walk(PageStep(remote.page, kind, auth.session.value), None, bound)
  }

  /** A fetch is a chain of pages starting at the nil cursor, concatenated in order. */
  lemma FetchedPages(remote: Remote, kind: ListKind, auth: Auth, bound: nat)
    returns (cursors: seq<Option<string>>, batches: seq<seq<Account>>)
    requires Paginates(remote, kind, auth, bound)
    requires FetchSpec(remote, kind, auth, bound).Fetched?
    ensures auth.ok
    ensures IsChain(PageStep(remote.page, kind, auth.session.value), cursors, batches) && cursors[0] == None
    ensures FetchSpec(remote, kind, auth, bound) == Fetched(Flatten(batches))
  {
    cursors, batches := FetchedIsChain(PageStep(remote.page, kind, auth.session.value), None, bound);
  }

  /** The accounts `check` fetches with the configuration in `file` and the session `session`. */
  ghost function FollowersOf(file: Option<BlueskyFile>, remote: Remote, session: Option<Session>, bound: nat): FetchResult
    requires Paginates(remote, Followers, EnsureSpec(LoadBlueskyConfig(file), remote.login, session), bound)
  {
    FetchSpec(remote, Followers, EnsureSpec(LoadBlueskyConfig(file), remote.login, session), bound)
  }

  /** `unfollow_account`: not implemented on this platform, it always answers false. */
  function UnfollowAccount(didOrHandle: string): (ok: bool)
    ensures !ok
  {
    false
  }

  /** A bulk unfollow of Bluesky accounts reports no success, whatever the accounts. */
  lemma {:induction false} BulkUnfollowCountsNothing(ids: seq<string>)
    ensures Successes(ids, UnfollowAccount) == 0
  {
    if ids != [] {
      BulkUnfollowCountsNothing(ids[1..]);
    }
  }

  class Tracker {
    var session: Option<Session>   // @session

    constructor ()
      ensures session == None
    {
      session := None;
    }

    /** `authenticate`: createSession; the session is replaced only on success. */
    method Authenticate(handle: string, password: string, remote: Remote) returns (ok: bool)
      modifies this
      ensures ok <==> remote.login(handle, password).Some?
      ensures session == if ok then remote.login(handle, password) else old(session)
    {
      var reply := remote.login(handle, password);
      if reply.Some? {
        session := reply;
        return true;
      }
      return false;
    }

    /** `ensure_authenticated`, with the configuration file as `file`. */
    method EnsureAuthenticated(file: Option<BlueskyFile>, remote: Remote) returns (ok: bool)
      modifies this
      ensures Auth(ok, session) == EnsureSpec(LoadBlueskyConfig(file), remote.login, old(session))
    {
      var config := LoadBlueskyConfig(file);
      if config.None? {
        return false;
      }
      if session.Some? && session.value.accessJwt.Some? {
        return true;
      }
      ok := Authenticate(config.value.handle, config.value.password, remote);
    }

    /** `fetch_followers` (kind `Followers`) and `fetch_following` (kind `Following`). */
    method FetchList(file: Option<BlueskyFile>, kind: ListKind, remote: Remote, ghost bound: nat)
      returns (r: FetchResult)
      requires Paginates(remote, kind, EnsureSpec(LoadBlueskyConfig(file), remote.login, session), bound)
      modifies this
      ensures session == EnsureSpec(LoadBlueskyConfig(file), remote.login, old(session)).session
      ensures r == FetchSpec(remote, kind, EnsureSpec(LoadBlueskyConfig(file), remote.login, old(session)), bound)
    {
      var ok := EnsureAuthenticated(file, remote);
      if !ok {
        return Nil;
      }
      r := FetchAll(PageStep(remote.page, kind, session.value), None, bound);
    }

    /** `follow_account`: createRecord of a follow of `subject`, once authenticated. */
    method FollowAccount(file: Option<BlueskyFile>, subject: string, remote: Remote) returns (ok: bool)
      modifies this
      ensures var auth := EnsureSpec(LoadBlueskyConfig(file), remote.login, old(session));
              session == auth.session && (ok <==> auth.ok && remote.follow(auth.session.value, subject))
    {
      var authenticated := EnsureAuthenticated(file, remote);
      if !authenticated {
        return false;
      }
      ok := remote.follow(session.value, subject);
    }

    /**
     * `check`: load the configuration, fetch the followers, and reconcile
     * them with the store.  `previous` is what `get_previous_followers` reads.
     */
    method Check(store: Store, file: Option<BlueskyFile>, remote: Remote, ghost bound: nat,
                 previous: seq<Account>, clock: nat -> string)
      returns (report: CheckReport)
      requires store.Valid()
      requires multiset(previous) == multiset(store.snapshot)
      requires Paginates(remote, Followers, EnsureSpec(LoadBlueskyConfig(file), remote.login, session), bound)
      modifies this, store
      ensures store.Valid()
      ensures LoadBlueskyConfig(file).None? ==> report == SetupFirst && session == old(session)
      ensures LoadBlueskyConfig(file).Some? ==>
                session == EnsureSpec(LoadBlueskyConfig(file), remote.login, old(session)).session
      ensures LoadBlueskyConfig(file).Some? && FollowersOf(file, remote, old(session), bound).Nil? ==> report == FetchFailed
      ensures LoadBlueskyConfig(file).Some? && FollowersOf(file, remote, old(session), bound).Raise? ==> report == Crashed
      ensures LoadBlueskyConfig(file).Some? && FollowersOf(file, remote, old(session), bound).Fetched? ==>
                report.Checked? && (report.outcome == FirstRun <==> old(store.snapshot) == [])
      ensures report.Checked? ==>
                var current := FollowersOf(file, remote, old(session), bound).accounts;
                (report.outcome.Reconciled? ==>
                   report.outcome == Reconciled(Minus(current, previous), Minus(previous, current))) &&
                store.log == old(store.log) + RunRows(report.outcome, clock) &&
                store.snapshot == current[..StoredCount(current)] &&
                (report.stored <==> DistinctIds(current))
      ensures !report.Checked? ==> store.snapshot == old(store.snapshot) && store.log == old(store.log)
    {
      if LoadBlueskyConfig(file).None? {
        return SetupFirst;
      }
      var current := FetchList(file, Followers, remote, bound);
      match current
      case Nil =>
        return FetchFailed;
      case Raise =>
        return Crashed;
      case Fetched(accounts) =>
        var outcome, stored := store.Check(accounts, previous, clock);
        report := Checked(outcome, stored);
    }

    /**
     * `setup`: read a handle and a password (each `gets.chomp.strip`),
     * reject an empty one, then test them with `authenticate`; the
     * configuration is written only when that succeeds.
     */
    method Setup(handleLine: Option<string>, passwordLine: Option<string>, remote: Remote)
      returns (ok: bool, saved: Option<BlueskyFile>)
      modifies this
      ensures saved.Some? <==> ok
      ensures ok <==> handleLine.Some? && !AllSpace(handleLine.value) &&
                      passwordLine.Some? && !AllSpace(passwordLine.value) &&
                      remote.login(Strip(handleLine.value), Strip(passwordLine.value)).Some?
      ensures ok ==> saved == Some(BlueskyFile(Some(Strip(handleLine.value)), Some(Strip(passwordLine.value))))
      ensures ok ==> session == remote.login(Strip(handleLine.value), Strip(passwordLine.value))
      ensures !ok ==> session == old(session)
    {
      if handleLine.None? || Strip(handleLine.value) == "" {
        StripEmptyIffBlank(if handleLine.None? then "" else handleLine.value);
        return false, None;
      }
      StripEmptyIffBlank(handleLine.value);
      if passwordLine.None? || Strip(passwordLine.value) == "" {
        StripEmptyIffBlank(if passwordLine.None? then "" else passwordLine.value);
        return false, None;
      }
      StripEmptyIffBlank(passwordLine.value);
      var handle, password := Strip(handleLine.value), Strip(passwordLine.value);
      ok := Authenticate(handle, password, remote);
      saved := if ok then Some(BlueskyFile(Some(handle), Some(password))) else None;
    }
  }

  /** Once a session with a token is cached, authentication never asks the server again. */
  lemma CachedSessionIsKept(config: BlueskyConfig, login: (string, string) -> Option<Session>, session: Option<Session>)
    requires HasToken(session)
    ensures EnsureSpec(Some(config), login, session) == Auth(true, session)
    ensures EnsureSpec(Some(config), login, EnsureSpec(Some(config), login, session).session) == Auth(true, session)
  {
  }

  /** A successful login leaves a session that the next call reuses, provided it carries a token. */
  lemma SecondCallReuses(config: BlueskyConfig, login: (string, string) -> Option<Session>, session: Option<Session>)
    requires EnsureSpec(Some(config), login, session).ok
    requires HasToken(EnsureSpec(Some(config), login, session).session)
    ensures var after := EnsureSpec(Some(config), login, session).session;
            EnsureSpec(Some(config), login, after) == Auth(true, after)
  {
  }

  /** What `setup` writes, `load_config` accepts as it is. */
  lemma SetupThenLoad(handleLine: string, passwordLine: string)
    requires !AllSpace(handleLine) && !AllSpace(passwordLine)
    ensures LoadBlueskyConfig(Some(BlueskyFile(Some(Strip(handleLine)), Some(Strip(passwordLine))))) ==
              Some(BlueskyConfig(Strip(handleLine), Strip(passwordLine)))
  {
    StripEmptyIffBlank(handleLine);
    StripEmptyIffBlank(passwordLine);
    StripNotBlank(handleLine);
    StripNotBlank(passwordLine);
  }

  /** A single page without a cursor is the whole list, normalised record by record. */
  lemma SinglePage(remote: Remote, kind: ListKind, session: Session, records: seq<BlueskyRecord>)
    requires remote.page(kind, session, None) == Success(BlueskyPage(Some(records), None))
    ensures EndsWithin(PageStep(remote.page, kind, session), None, 1)
    ensures Walk(PageStep(remote.page, kind, session), None, 1) == Fetched(MapBluesky(records))
  {
  }
}
