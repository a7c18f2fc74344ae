/**
 * The account records the two trackers build from API responses, and the
 * change rows they log.  Both platforms normalise into one record shape:
 * `id` is the platform-scoped identifier (Mastodon `id`, Bluesky `did`),
 * `handle` is Mastodon `acct` or Bluesky `handle`.
 */
module Accounts {
  import opened Wrappers

  datatype Account = Account(
    id: string,
    handle: string,
    displayName: Option<string>,
    followersCount: Option<int>,
    followingCount: Option<int>,
    createdAt: Option<string>)

  /** An item of a Mastodon followers/following page, as far as the tracker reads it. */
  datatype MastodonRecord = MastodonRecord(
    id: string,
    acct: string,
    username: Option<string>,
    displayName: Option<string>,
    followersCount: Option<int>,
    followingCount: Option<int>,
    createdAt: Option<string>)

  /** An item of a Bluesky getFollowers/getFollows page. */
  datatype BlueskyRecord = BlueskyRecord(
    did: string,
    handle: string,
    displayName: Option<string>,
    followersCount: Option<int>,
    followsCount: Option<int>,
    createdAt: Option<string>)

  /** Mastodon normalisation: `display_name || username`, counts copied as they are. */
  function FromMastodon(r: MastodonRecord): (a: Account)
    ensures a.id == r.id && a.handle == r.acct && a.createdAt == r.createdAt
    ensures r.displayName.Some? ==> a.displayName == r.displayName
    ensures r.displayName.None? ==> a.displayName == r.username
    ensures a.followersCount == r.followersCount && a.followingCount == r.followingCount
  {
    Account(r.id, r.acct,
            if r.displayName.Some? then r.displayName else r.username,
            r.followersCount, r.followingCount, r.createdAt)
  }

  /** Bluesky normalisation: `displayName || handle`, missing counts become 0. */
  function FromBluesky(r: BlueskyRecord): (a: Account)
    ensures a.id == r.did && a.handle == r.handle && a.createdAt == r.createdAt
    ensures a.displayName.Some?
    ensures a.displayName.value == (if r.displayName.Some? then r.displayName.value else r.handle)
    ensures a.followersCount.Some? && a.followingCount.Some?
    ensures a.followersCount.value == (if r.followersCount.Some? then r.followersCount.value else 0)
    ensures a.followingCount.value == (if r.followsCount.Some? then r.followsCount.value else 0)
  {
    Account(r.did, r.handle, Some(r.displayName.GetOr(r.handle)),
            Some(r.followersCount.GetOr(0)), Some(r.followsCount.GetOr(0)), r.createdAt)
  }

  function MapMastodon(rs: seq<MastodonRecord>): (accounts: seq<Account>)
    ensures |accounts| == |rs|
    ensures forall i :: 0 <= i < |rs| ==> accounts[i] == FromMastodon(rs[i])
  {
    if rs == [] then [] else [FromMastodon(rs[0])] + MapMastodon(rs[1..])
  }

  function MapBluesky(rs: seq<BlueskyRecord>): (accounts: seq<Account>)
    ensures |accounts| == |rs|
    ensures forall i :: 0 <= i < |rs| ==> accounts[i] == FromBluesky(rs[i])
  {
    if rs == [] then [] else [FromBluesky(rs[0])] + MapBluesky(rs[1..])
  }

  /** The identifiers of a list, as the set `list.map { |f| f[:id] }.to_set`. */
  function IdSet(xs: seq<Account>): (ids: set<string>)
    ensures forall i :: 0 <= i < |xs| ==> xs[i].id in ids
    ensures forall id :: id in ids ==> exists i :: 0 <= i < |xs| && xs[i].id == id
  {
    set i | 0 <= i < |xs| :: xs[i].id
  }

  /** The identifiers of `xs`, in order. */
  function Ids(xs: seq<Account>): (ids: seq<string>)
    ensures |ids| == |xs|
    ensures forall i :: 0 <= i < |xs| ==> ids[i] == xs[i].id
  {
    if xs == [] then [] else [xs[0].id] + Ids(xs[1..])
  }

  /** No two rows share an identifier (the PRIMARY KEY of `current_followers`). */
  predicate DistinctIds(xs: seq<Account>) {
    forall i, j :: 0 <= i < j < |xs| ==> xs[i].id != xs[j].id
  }

  /** Which of the two lists of an account a fetch walks. */
  datatype ListKind = Followers | Following

  datatype Action = Follow | Unfollow

  /** A row of `follower_changes`. */
  datatype Change = Change(
    followerId: string,
    handle: string,
    displayName: Option<string>,
    action: Action,
    timestamp: string)

  /** How many of `ids` the server accepts. */
  function Successes(ids: seq<string>, act: string -> bool): nat {
    if ids == [] then 0 else (if act(ids[0]) then 1 else 0) + Successes(ids[1..], act)
  }

  lemma {:induction false} SuccessesAtMost(ids: seq<string>, act: string -> bool)
    ensures Successes(ids, act) <= |ids|
  {
    if ids != [] {
      SuccessesAtMost(ids[1..], act);
    }
  }

  lemma SuccessesAppend(ids: seq<string>, id: string, act: string -> bool)
    ensures Successes(ids + [id], act) == Successes(ids, act) + (if act(id) then 1 else 0)
  {
    if ids != [] {
      assert (ids + [id])[1..] == ids[1..] + [id];
      SuccessesAppend(ids[1..], id, act);
    }
  }
}
