/** The sync route's control flow: page through the athlete's activities
    with one retry after a 401, then upsert the normalised rows by id and
    stamp the connection. Strava's replies and the database's outcomes are
    inputs: the replies to the page requests form a finite sequence, and a
    request beyond its end fails like a network error (no HTTP status). */
module SyncPipeline {
  import opened Common
  import opened SyncToken
  import opened SyncNormalize

  /** `per_page` of every request; a shorter page is the last one. */
  const PageSize: nat := 50

  /** The reply to one `GET /athlete/activities` request. */
  datatype PageReply =
    | Page(items: seq<RawActivity>)
    | HttpError(status: Option<int>)

  /** The reply to the k-th request (from 0). */
  function ReplyAt(replies: seq<PageReply>, k: nat): PageReply {
    if k < |replies| then replies[k] else HttpError(None)
  }

  /** A page of at least `PageSize` activities: there may be more. */
  predicate IsFull(r: PageReply) {
    r.Page? && |r.items| >= PageSize
  }

  predicate IsUnauthorized(r: PageReply) {
    r == HttpError(Some(401))
  }

  /** How many of the first n replies were full pages. */
  function FullBefore(replies: seq<PageReply>, n: nat): nat {
    if n == 0 then 0 else FullBefore(replies, n - 1) + (if IsFull(ReplyAt(replies, n - 1)) then 1 else 0)
  }

  /** How many of the first n replies were 401s. */
  function UnauthorizedBefore(replies: seq<PageReply>, n: nat): nat {
    if n == 0 then 0 else UnauthorizedBefore(replies, n - 1) + (if IsUnauthorized(ReplyAt(replies, n - 1)) then 1 else 0)
  }

  /** The activities of the first n replies, in order; an error contributes
      nothing. */
  function Received(replies: seq<PageReply>, n: nat): seq<RawActivity> {
    if n == 0 then []
    else
      Received(replies, n - 1) + match ReplyAt(replies, n - 1)
                                  case Page(items) => items
                                  case HttpError(_) => []
  }

  /** The k-th request carried the token chosen before the loop until a
      401 was seen, and the token of the retry refresh after it. */
  ghost predicate BearerOk(replies: seq<PageReply>, k: nat, b: string, token0: string, retry: RefreshResult) {
    if UnauthorizedBefore(replies, k) == 0 then b == token0
    else retry.Refreshed? && b == retry.access
  }

  /** The requests made so far: the page number and token of each. */
  ghost predicate RequestsSoFar(replies: seq<PageReply>, requested: seq<nat>, bearer: seq<string>,
                                token0: string, retry: RefreshResult) {
    && |requested| == |bearer|
    && (forall k :: 0 <= k < |requested| ==> requested[k] == 1 + FullBefore(replies, k))
    && (forall k :: 0 <= k < |bearer| ==> BearerOk(replies, k, bearer[k], token0, retry))
  }

  /** Each of the first n replies let the loop go on. */
  ghost predicate ContinuedThrough(replies: seq<PageReply>, n: nat) {
    forall k :: 0 <= k < n ==> IsFull(ReplyAt(replies, k)) || IsUnauthorized(ReplyAt(replies, k))
  }

  lemma RequestsAppend(replies: seq<PageReply>, requested: seq<nat>, bearer: seq<string>,
                       token0: string, retry: RefreshResult, page: nat, token: string)
    requires RequestsSoFar(replies, requested, bearer, token0, retry)
    requires page == 1 + FullBefore(replies, |requested|)
    requires BearerOk(replies, |requested|, token, token0, retry)
    ensures RequestsSoFar(replies, requested + [page], bearer + [token], token0, retry)
  {
  }

  /** The requests made so far, spelled out. */
  lemma RequestsUnfold(replies: seq<PageReply>, requested: seq<nat>, bearer: seq<string>,
                       token0: string, retry: RefreshResult)
    requires RequestsSoFar(replies, requested, bearer, token0, retry)
    ensures forall k :: 0 <= k < |requested| && UnauthorizedBefore(replies, k) == 0 ==> bearer[k] == token0
    ensures forall k :: 0 <= k < |requested| && UnauthorizedBefore(replies, k) > 0 ==>
      retry.Refreshed? && bearer[k] == retry.access
  {
    forall k | 0 <= k < |requested|
      ensures UnauthorizedBefore(replies, k) == 0 ==> bearer[k] == token0
      ensures UnauthorizedBefore(replies, k) > 0 ==> retry.Refreshed? && bearer[k] == retry.access
    {
      assert BearerOk(replies, k, bearer[k], token0, retry);
    }
  }

  lemma ContinuedStep(replies: seq<PageReply>, n: nat)
    requires ContinuedThrough(replies, n)
    requires IsFull(ReplyAt(replies, n)) || IsUnauthorized(ReplyAt(replies, n))
    ensures ContinuedThrough(replies, n + 1)
  {
  }

  datatype FetchResult =
    | Fetched(all: seq<RawActivity>)
    | RetryRefreshFailed
    | FetchFailed(status: Option<int>)

  /** The `while (true)` loop of the route. `conn` is the connection as
      loaded, `token0` the bearer token chosen before the loop and `stored0`
      the connection row at that point; `retryReply` answers the one token
      request a 401 may trigger. It returns the outcome, the page number of
      every request made, the bearer token each carried, and the connection
      row afterwards. */
  method FetchPages(conn: Connection, token0: string, stored0: Connection,
                    retryReply: TokenReply, replies: seq<PageReply>)
    returns (res: FetchResult, requested: seq<nat>, bearer: seq<string>, stored: Connection)
    ensures 1 <= |requested| == |bearer| <= |replies| + 1
    // the n-th request asks for the page after the full pages received so far
    ensures requested[0] == 1
    ensures forall k :: 0 <= k < |requested| ==> requested[k] == 1 + FullBefore(replies, k)
    // only a full page or the first 401 leads to another request
    ensures forall k :: 0 <= k < |requested| - 1 ==>
      IsFull(ReplyAt(replies, k)) || IsUnauthorized(ReplyAt(replies, k))
    ensures UnauthorizedBefore(replies, |requested| - 1) <= 1
    ensures !IsFull(ReplyAt(replies, |requested| - 1))
    // how the loop ended
    ensures res.Fetched? <==> ReplyAt(replies, |requested| - 1).Page?
    ensures res.Fetched? ==> res.all == Received(replies, |requested|)
    ensures res.RetryRefreshFailed? <==>
      && IsUnauthorized(ReplyAt(replies, |requested| - 1))
      && UnauthorizedBefore(replies, |requested| - 1) == 0
    ensures res.RetryRefreshFailed? ==> RefreshAccessToken(conn, retryReply).RefreshError?
    ensures res.FetchFailed? ==>
      && ReplyAt(replies, |requested| - 1) == HttpError(res.status)
      && (res.status == Some(401) ==> UnauthorizedBefore(replies, |requested| - 1) == 1)
    // the tokens used, and the row written by a retry refresh
    ensures forall k :: 0 <= k < |requested| && UnauthorizedBefore(replies, k) == 0 ==> bearer[k] == token0
    ensures forall k :: 0 <= k < |requested| && UnauthorizedBefore(replies, k) > 0 ==>
      && RefreshAccessToken(conn, retryReply).Refreshed?
      && bearer[k] == RefreshAccessToken(conn, retryReply).access
    ensures UnauthorizedBefore(replies, |requested| - 1) == 0 ==> stored == stored0
    ensures UnauthorizedBefore(replies, |requested| - 1) > 0 ==>
      && RefreshAccessToken(conn, retryReply).Refreshed?
      && stored == RefreshAccessToken(conn, retryReply).written.GetOr(stored0)
  {
    var retry := RefreshAccessToken(conn, retryReply);
    var i: nat := 0;
    var all: seq<RawActivity> := [];
    var page: nat := 1;
    var tried := false;
    var token := token0;
    stored := stored0;
    requested := [];
    bearer := [];
    while true
      invariant i <= |replies|
      invariant |requested| == i
      invariant RequestsSoFar(replies, requested, bearer, token0, retry)
      invariant ContinuedThrough(replies, i)
      invariant all == Received(replies, i)
      invariant page == 1 + FullBefore(replies, i)
      invariant UnauthorizedBefore(replies, i) <= 1
      invariant tried <==> UnauthorizedBefore(replies, i) == 1
      invariant !tried ==> token == token0 && stored == stored0
      invariant tried ==> retry.Refreshed? && token == retry.access && stored == retry.written.GetOr(stored0)
      decreases |replies| - i
    {
      var reply := ReplyAt(replies, i);
      RequestsAppend(replies, requested, bearer, token0, retry, page, token);
      requested := requested + [page];
      bearer := bearer + [token];
      if IsFull(reply) || IsUnauthorized(reply) {
        ContinuedStep(replies, i);
      }
      i := i + 1;
      if reply.Page? {
        all := all + reply.items;
        if |reply.items| < PageSize {
          RequestsUnfold(replies, requested, bearer, token0, retry);
          res := Fetched(all);
          return;
        }
        page := page + 1;
      } else if reply.status == Some(401) && !tried {
        tried := true;
        if retry.RefreshError? {
          RequestsUnfold(replies, requested, bearer, token0, retry);
          res := RetryRefreshFailed;
          return;
        }
        token := retry.access;
        stored := retry.written.GetOr(stored);
      } else {
        RequestsUnfold(replies, requested, bearer, token0, retry);
        res := FetchFailed(reply.status);
        return;
      }
    }
  }

  /** The row built for each fetched activity, in order. */
  function NormalizeAll(all: seq<RawActivity>, userId: string): (rows: seq<ActivityRow>)
    ensures |rows| == |all|
    ensures forall i :: 0 <= i < |all| ==> rows[i] == NormalizeActivity(all[i], userId)
  {
    seq(|all|, i requires 0 <= i < |all| => NormalizeActivity(all[i], userId))
  }

  /** The index of the last row with the given id, or -1 when no row has
      it. */
  function LastIndexWith(rows: seq<ActivityRow>, id: int): (i: int)
    ensures -1 <= i < |rows|
    ensures i >= 0 ==> rows[i].id == id
    ensures forall j :: i < j < |rows| ==> rows[j].id != id
    decreases |rows|
  {
    if |rows| == 0 then -1
    else if rows[|rows| - 1].id == id then |rows| - 1
    else
      var i := LastIndexWith(rows[..|rows| - 1], id);
      assert forall j :: i < j < |rows| - 1 ==> rows[..|rows| - 1][j] == rows[j];
      i
  }

  /** The last of the rows with the given id, if any. */
  function LastRowWith(rows: seq<ActivityRow>, id: int): Option<ActivityRow> {
    var i := LastIndexWith(rows, id);
    if i < 0 then None else Some(rows[i])
  }

  /** `upsert(rows, { onConflict: "id" })` as a map from id to row: each row
      in turn inserts or replaces the row with its id. */
  function Upsert(table: map<int, ActivityRow>, rows: seq<ActivityRow>): map<int, ActivityRow>
    decreases |rows|
  {
    if |rows| == 0 then table
    else
      var last := rows[|rows| - 1];
      Upsert(table, rows[..|rows| - 1])[last.id := last]
  }

  /** After the upsert an id is present when it was before or some row has
      it; it maps to the last row with that id, and otherwise keeps its old
      row. */
  lemma {:induction false} UpsertLookup(table: map<int, ActivityRow>, rows: seq<ActivityRow>)
    ensures forall k :: k in Upsert(table, rows) <==> k in table || LastRowWith(rows, k).Some?
    ensures forall k :: k in Upsert(table, rows) ==>
      Upsert(table, rows)[k] == (if LastRowWith(rows, k).Some? then LastRowWith(rows, k).value else table[k])
    decreases |rows|
  {
    if |rows| > 0 {
      var init := rows[..|rows| - 1];
      UpsertLookup(table, init);
      forall k | rows[|rows| - 1].id != k && LastIndexWith(init, k) >= 0
        ensures LastRowWith(rows, k) == LastRowWith(init, k)
      {
        assert init[LastIndexWith(init, k)] == rows[LastIndexWith(rows, k)];
      }
    }
  }

  /** Upserting the same rows a second time changes nothing. */
  lemma UpsertIdempotent(table: map<int, ActivityRow>, rows: seq<ActivityRow>)
    ensures Upsert(Upsert(table, rows), rows) == Upsert(table, rows)
  {
    var once := Upsert(table, rows);
    var twice := Upsert(once, rows);
    UpsertLookup(table, rows);
    UpsertLookup(once, rows);
    assert forall k :: k in twice <==> k in once;
    forall k | k in twice ensures twice[k] == once[k] {
    }
  }

  /** A table whose rows sit under their own ids stays that way. */
  lemma UpsertKeepsKeys(table: map<int, ActivityRow>, rows: seq<ActivityRow>)
    requires forall k :: k in table ==> table[k].id == k
    ensures forall k :: k in Upsert(table, rows) ==> Upsert(table, rows)[k].id == k
  {
    UpsertLookup(table, rows);
  }

  /** What the route answers. */
  datatype SyncOutcome =
    | Imported(count: nat)
    | NoConnection
    | RefreshFailed
    | FetchError(status: Option<int>)
    | UpsertFailed

  datatype Saved = Saved(outcome: SyncOutcome, table: map<int, ActivityRow>, stored: Connection)

  /** Saving: upsert the rows (only when something was
      fetched), then stamp `last_synced_at`; a failed stamp is only logged. */
  function SaveAndStamp(stored: Connection, table: map<int, ActivityRow>, all: seq<RawActivity>,
                        userId: string, upsertOk: bool, stampOk: bool, stampMs: int): (s: Saved)
    ensures s.outcome.Imported? <==> |all| == 0 || upsertOk
    ensures s.outcome.Imported? ==> s.outcome.count == |all|
    ensures !s.outcome.Imported? ==> s.outcome == UpsertFailed && s.table == table && s.stored == stored
    ensures |all| == 0 ==> s.table == table
    ensures s.outcome.Imported? && |all| > 0 ==> s.table == Upsert(table, NormalizeAll(all, userId))
    ensures s.outcome.Imported? ==>
      s.stored == if stampOk then stored.(lastSyncedAtMs := Some(stampMs)) else stored
  {
    if |all| > 0 && !upsertOk then Saved(UpsertFailed, table, stored)
    else
      var t := if |all| > 0 then Upsert(table, NormalizeAll(all, userId)) else table;
      Saved(Imported(|all|), t, if stampOk then stored.(lastSyncedAtMs := Some(stampMs)) else stored)
  }

  /** Whether the stamp succeeds changes neither the answer nor the table. */
  lemma StampDoesNotMatter(stored: Connection, table: map<int, ActivityRow>, all: seq<RawActivity>,
                           userId: string, upsertOk: bool, stampMs: int)
    ensures SaveAndStamp(stored, table, all, userId, upsertOk, true, stampMs).outcome
            == SaveAndStamp(stored, table, all, userId, upsertOk, false, stampMs).outcome
    ensures SaveAndStamp(stored, table, all, userId, upsertOk, true, stampMs).table
            == SaveAndStamp(stored, table, all, userId, upsertOk, false, stampMs).table
  {
  }

  /** The token is due for renewal before the loop and the renewal fails. */
  predicate PreRefreshFails(conn: Connection, nowSec: int, preReply: TokenReply) {
    NeedsRefresh(conn, nowSec) && RefreshAccessToken(conn, preReply).RefreshError?
  }

  /** The connection row once the token is ready for the loop: the row the
      renewal before the loop wrote back, or the row as loaded when no renewal
      was due or its write-back failed. */
  function PreFetchRow(conn: Connection, nowSec: int, preReply: TokenReply): Connection {
    if NeedsRefresh(conn, nowSec) && RefreshAccessToken(conn, preReply).Refreshed?
    then RefreshAccessToken(conn, preReply).written.GetOr(conn)
    else conn
  }

  /** The row after saving: `last_synced_at` is written only on an import
      whose stamp succeeds. */
  function Stamp(row: Connection, outcome: SyncOutcome, stampOk: bool, stampMs: int): Connection {
    if outcome.Imported? && stampOk then row.(lastSyncedAtMs := Some(stampMs)) else row
  }

  /** The whole `POST` handler after authentication. `loaded` is the
      connection the route loads, `nowSec` the clock in seconds, `preReply`
      and `retryReply` answer the token requests before the loop and after a
      401, `replies` answer the page requests, `upsertOk` and `stampOk` are
      the database's answers and `stampMs` the stamp's clock. It returns the
      answer, the activities table and the connection row afterwards, the
      fetched activities and the page number of every request. */
  method Sync(loaded: Option<Connection>, nowSec: int, preReply: TokenReply, retryReply: TokenReply,
              replies: seq<PageReply>, upsertOk: bool, stampOk: bool, stampMs: int,
              table: map<int, ActivityRow>)
    returns (outcome: SyncOutcome, tableAfter: map<int, ActivityRow>, storedAfter: Option<Connection>,
             fetched: seq<RawActivity>, requested: seq<nat>)
    ensures loaded.None? ==> outcome == NoConnection && storedAfter == None && requested == []
    ensures !outcome.Imported? ==> tableAfter == table
    // no token request before the loop unless the stored expiry is near
    ensures loaded.Some? && PreRefreshFails(loaded.value, nowSec, preReply) ==>
      outcome == RefreshFailed && storedAfter == loaded && requested == []
    ensures loaded.Some? && !PreRefreshFails(loaded.value, nowSec, preReply) ==> |requested| >= 1
    // the pages requested and the activities fetched
    ensures |requested| <= |replies| + 1
    ensures forall k :: 0 <= k < |requested| ==> requested[k] == 1 + FullBefore(replies, k)
    ensures forall k :: 0 <= k < |requested| - 1 ==>
      IsFull(ReplyAt(replies, k)) || IsUnauthorized(ReplyAt(replies, k))
    ensures |requested| > 0 ==> !IsFull(ReplyAt(replies, |requested| - 1))
    ensures |requested| > 0 ==> UnauthorizedBefore(replies, |requested| - 1) <= 1
    ensures |requested| > 0 ==> fetched == Received(replies, |requested|)
    // the answer
    ensures outcome.Imported? <==>
      |requested| > 0 && ReplyAt(replies, |requested| - 1).Page? && (|fetched| == 0 || upsertOk)
    ensures |requested| > 0 && IsUnauthorized(ReplyAt(replies, |requested| - 1))
            && UnauthorizedBefore(replies, |requested| - 1) == 0 ==>
      RefreshAccessToken(loaded.value, retryReply).RefreshError? && outcome == RefreshFailed
    ensures |requested| > 0 && ReplyAt(replies, |requested| - 1).HttpError?
            && !(IsUnauthorized(ReplyAt(replies, |requested| - 1)) && UnauthorizedBefore(replies, |requested| - 1) == 0) ==>
      outcome == FetchError(ReplyAt(replies, |requested| - 1).status)
    ensures outcome.Imported? ==> outcome.count == |fetched|
    ensures outcome.Imported? ==> tableAfter == Upsert(table, NormalizeAll(fetched, loaded.value.userId))
    ensures outcome.Imported? && |fetched| == 0 ==> tableAfter == table
    ensures outcome.Imported? && stampOk ==> storedAfter.Some? && storedAfter.value.lastSyncedAtMs == Some(stampMs)
    // a retry refresh writes back from the connection as loaded
    ensures loaded.Some? && |requested| > 0 && UnauthorizedBefore(replies, |requested| - 1) > 0
            && retryReply.TokenGranted? && retryReply.persisted ==>
      && storedAfter.Some?
      && storedAfter.value.refreshToken
         == (if retryReply.refresh.Some? then retryReply.refresh else loaded.value.refreshToken)
    // the row written by a renewal before the loop survives whatever follows
    ensures loaded.Some? && |requested| > 0 && UnauthorizedBefore(replies, |requested| - 1) == 0 ==>
      storedAfter == Some(Stamp(PreFetchRow(loaded.value, nowSec, preReply), outcome, stampOk, stampMs))
    // a retry refresh overwrites it with every token field of its own write-back
    ensures loaded.Some? && |requested| > 0 && UnauthorizedBefore(replies, |requested| - 1) > 0 ==>
      && RefreshAccessToken(loaded.value, retryReply).Refreshed?
      && storedAfter == Some(Stamp(RefreshAccessToken(loaded.value, retryReply).written
                                     .GetOr(PreFetchRow(loaded.value, nowSec, preReply)),
                                   outcome, stampOk, stampMs))
  {
    fetched := [];
    requested := [];
    if loaded.None? {
      return NoConnection, table, None, fetched, requested;
    }
    var conn := loaded.value;
    var prepared := PrepareToken(conn, nowSec, preReply);
    if prepared.PreRefreshFailed? {
      return RefreshFailed, table, loaded, fetched, requested;
    }
    var stored0 := prepared.written.GetOr(conn);
    assert stored0 == PreFetchRow(conn, nowSec, preReply);
    var res, bearer, stored;
    res, requested, bearer, stored := FetchPages(conn, prepared.token, stored0, retryReply, replies);
    fetched := Received(replies, |requested|);
    match res
    case RetryRefreshFailed =>
      return RefreshFailed, table, Some(stored), fetched, requested;
    case FetchFailed(status) =>
      return FetchError(status), table, Some(stored), fetched, requested;
    case Fetched(all) =>
      var saved := SaveAndStamp(stored, table, all, conn.userId, upsertOk, stampOk, stampMs);
      return saved.outcome, saved.table, Some(saved.stored), fetched, requested;
  }

  /** Two pages, of 50 and of 12 activities, import 62 activities in two
      requests, for pages 1 and 2; the table gets the rows of both pages and
      the connection gets the stamp. */
  method TwoPageExample(page1: seq<RawActivity>, page2: seq<RawActivity>)
    returns (outcome: SyncOutcome, requested: seq<nat>, tableAfter: map<int, ActivityRow>,
             storedAfter: Option<Connection>)
    requires |page1| == PageSize && |page2| == 12
    ensures outcome == Imported(62)
    ensures requested == [1, 2]
    ensures tableAfter == Upsert(map[], NormalizeAll(page1 + page2, "u"))
    ensures storedAfter.Some? && storedAfter.value.lastSyncedAtMs == Some(0)
  {
    var replies := [Page(page1), Page(page2)];
    var conn := Connection(1, "u", Some("a0"), Some("r0"), None, None);
    var fetched;
    TwoPages(page1, page2, replies);
    assert !NeedsRefresh(conn, 1700000000);
    outcome, tableAfter, storedAfter, fetched, requested :=
      Sync(Some(conn), 1700000000, TokenRequestFailed, TokenRequestFailed, replies, true, true, 0, map[]);
    assert |requested| == 2;
    assert fetched == page1 + page2;
  }

  lemma TwoPages(page1: seq<RawActivity>, page2: seq<RawActivity>, replies: seq<PageReply>)
    requires |page1| == PageSize && |page2| == 12
    requires replies == [Page(page1), Page(page2)]
    ensures IsFull(ReplyAt(replies, 0)) && !IsUnauthorized(ReplyAt(replies, 0))
    ensures ReplyAt(replies, 1).Page? && !IsFull(ReplyAt(replies, 1)) && !IsUnauthorized(ReplyAt(replies, 1))
    ensures FullBefore(replies, 0) == 0 && FullBefore(replies, 1) == 1
    ensures Received(replies, 2) == page1 + page2 && |Received(replies, 2)| == 62
  {
    assert Received(replies, 1) == page1;
  }

  /** A token due for renewal is refreshed before the loop and the row gets
      the new refresh token "r1"; page 1 then answers 401, the retry refresh
      omits the refresh token, and the row ends up with the refresh token
      "r0" it had when the connection was loaded. */
  method StaleRefreshTokenExample() returns (storedAfter: Option<Connection>)
    ensures storedAfter.Some? && storedAfter.value.refreshToken == Some("r0")
  {
    var conn := Connection(1, "u", Some("a0"), Some("r0"), Some(5000), None);
    var replies := [HttpError(Some(401)), Page([])];
    var outcome, tableAfter, fetched, requested;
    outcome, tableAfter, storedAfter, fetched, requested :=
      Sync(Some(conn), 1700000000, TokenGranted(Some("a1"), Some("r1"), Some(1700003600), true),
           TokenGranted(Some("a2"), None, Some(1700007200), true), replies, true, true, 0, map[]);
    assert NeedsRefresh(conn, 1700000000);
    assert IsUnauthorized(ReplyAt(replies, 0)) && !IsFull(ReplyAt(replies, 0));
    assert |requested| >= 2;
    assert UnauthorizedBefore(replies, |requested| - 1) > 0;
  }
}
