/** The stored Strava connection and its access token: when the sync route
    refreshes the token before fetching, and what the refresh helper writes
    back to the `connections` row. */
module SyncToken {
  import opened Common

  /** A row of `connections`. `expires_at` and `last_synced_at` are
      timestamps, modelled as epoch milliseconds; every column may be null. */
  datatype Connection = Connection(
    id: int,
    userId: string,
    accessToken: Option<string>,
    refreshToken: Option<string>,
    expiresAtMs: Option<int>,
    lastSyncedAtMs: Option<int>)

  /** A string that JavaScript treats as true: present and not empty. */
  predicate Truthy(s: Option<string>) {
    s.Some? && s.value != ""
  }

  /** `String(conn.access_token)`: a null column reads as "null". */
  function TokenText(s: Option<string>): string {
    match s
    case Some(v) => v
    case None => "null"
  }

  /** `Math.floor(new Date(conn.expires_at).getTime() / 1000)` when the
      column is set: the expiry in whole epoch seconds. */
  function ExpirySeconds(c: Connection): (e: Option<int>)
    ensures e.Some? <==> c.expiresAtMs.Some?
    ensures e.Some? ==> e.value * 1000 <= c.expiresAtMs.value < e.value * 1000 + 1000
  {
    match c.expiresAtMs
    case Some(ms) => Some(ms / 1000)
    case None => None
  }

  /** `exp && exp < now + 60`: the token is refreshed before fetching when a
      stored expiry (other than the epoch itself) is less than a minute
      away or past. A connection without an expiry is never refreshed. */
  predicate NeedsRefresh(c: Connection, nowSec: int) {
    var exp := ExpirySeconds(c);
    exp.Some? && exp.value != 0 && exp.value < nowSec + 60
  }

  /** Which stored expiries trigger a refresh, in milliseconds: one earlier
      than the start of the second `nowSec + 60`, apart from the instants of
      the epoch's own second. */
  lemma NeedsRefreshByMillis(c: Connection, nowSec: int)
    ensures NeedsRefresh(c, nowSec) <==>
      c.expiresAtMs.Some? && !(0 <= c.expiresAtMs.value < 1000)
      && c.expiresAtMs.value < (nowSec + 60) * 1000
  {
    if c.expiresAtMs.Some? {
      var ms := c.expiresAtMs.value;
      var e := ms / 1000;
      assert e * 1000 <= ms < e * 1000 + 1000;
      assert e == 0 <==> 0 <= ms < 1000;
      assert e < nowSec + 60 <==> ms < (nowSec + 60) * 1000;
    }
  }

  /** The reply of `POST /oauth/token`: a failed request, or a body whose
      three fields may each be missing. `persisted` is whether the following
      update of the connection row succeeded. */
  datatype TokenReply =
    | TokenRequestFailed
    | TokenGranted(access: Option<string>, refresh: Option<string>, expiresAtSec: Option<int>, persisted: bool)

  /** The outcome of `refreshAccessToken`: the new access token and the row
      written back (absent when the update failed, which is only logged), or
      a thrown error. */
  datatype RefreshResult =
    | Refreshed(access: string, written: Option<Connection>)
    | RefreshError

  /** The columns written back: the new access token, the new refresh token
      or the one the connection had when the reply omits it, and the new
      expiry (a non-zero number of seconds, in milliseconds) or null. */
  function WriteBack(conn: Connection, access: string, refresh: Option<string>, expiresAtSec: Option<int>): Connection {
    conn.(
      accessToken := Some(access),
      refreshToken := if refresh.Some? then refresh else conn.refreshToken,
      expiresAtMs := if expiresAtSec.Some? && expiresAtSec.value != 0 then Some(expiresAtSec.value * 1000) else None)
  }

  /** `refreshAccessToken(conn)`: it fails without a stored refresh token,
      when the token request fails, or when the reply has no access token. */
  function RefreshAccessToken(conn: Connection, reply: TokenReply): (r: RefreshResult)
    ensures r.RefreshError? <==>
      !Truthy(conn.refreshToken) || reply.TokenRequestFailed? || !Truthy(reply.access)
    ensures r.Refreshed? ==> Some(r.access) == reply.access && r.access != ""
    ensures r.Refreshed? ==> (r.written.Some? <==> reply.persisted)
    ensures r.Refreshed? && r.written.Some? ==>
      var w := r.written.value;
      && w.id == conn.id && w.userId == conn.userId && w.lastSyncedAtMs == conn.lastSyncedAtMs
      && w.accessToken == Some(r.access)
      && w.refreshToken == (if reply.refresh.Some? then reply.refresh else conn.refreshToken)
      && w.expiresAtMs ==
         (if reply.expiresAtSec.Some? && reply.expiresAtSec.value != 0
          then Some(reply.expiresAtSec.value * 1000) else None)
  {
    if !Truthy(conn.refreshToken) then RefreshError
    else
      match reply
      case TokenRequestFailed => RefreshError
      case TokenGranted(access, refresh, expiresAtSec, persisted) =>
        if !Truthy(access) then RefreshError
        else
          Refreshed(access.value,
                    if persisted then Some(WriteBack(conn, access.value, refresh, expiresAtSec)) else None)
  }

  /** After a successful refresh the row still holds a refresh token, and
      the written expiry reads back as the seconds the reply gave: the next
      sync refreshes again exactly when that instant is less than a minute
      away. A reply without a (non-zero) expiry leaves the row with none, so
      the next sync never refreshes before fetching. */
  lemma WriteBackRoundTrip(conn: Connection, reply: TokenReply, nowSec: int)
    requires RefreshAccessToken(conn, reply).Refreshed?
    requires RefreshAccessToken(conn, reply).written.Some?
    ensures var w := RefreshAccessToken(conn, reply).written.value;
      && w.refreshToken.Some?
      && (reply.expiresAtSec.Some? && reply.expiresAtSec.value != 0 ==>
            ExpirySeconds(w) == reply.expiresAtSec
            && (NeedsRefresh(w, nowSec) <==> reply.expiresAtSec.value < nowSec + 60))
      && (!(reply.expiresAtSec.Some? && reply.expiresAtSec.value != 0) ==> !NeedsRefresh(w, nowSec))
  {
    var w := RefreshAccessToken(conn, reply).written.value;
    if reply.expiresAtSec.Some? && reply.expiresAtSec.value != 0 {
      var e := reply.expiresAtSec.value;
      assert w.expiresAtMs == Some(e * 1000);
      assert (e * 1000) / 1000 == e;
    }
  }

  /** The token the fetch starts with: the stored one, unless it is due for
      renewal, in which case the renewal must succeed. */
  datatype Prepared =
    | TokenReady(token: string, written: Option<Connection>)
    | PreRefreshFailed

  /** `accessToken` before the fetch loop: the stored token, or a renewed one when the stored expiry is near. */
  function PrepareToken(conn: Connection, nowSec: int, reply: TokenReply): (p: Prepared)
    ensures !NeedsRefresh(conn, nowSec) ==> p == TokenReady(TokenText(conn.accessToken), None)
    ensures NeedsRefresh(conn, nowSec) ==>
      (p.PreRefreshFailed? <==> RefreshAccessToken(conn, reply).RefreshError?)
    ensures p.TokenReady? && NeedsRefresh(conn, nowSec) ==>
      p.token == RefreshAccessToken(conn, reply).access
      && p.written == RefreshAccessToken(conn, reply).written
  {
    if NeedsRefresh(conn, nowSec) then
      match RefreshAccessToken(conn, reply)
      case Refreshed(access, written) => TokenReady(access, written)
      case RefreshError => PreRefreshFailed
    else TokenReady(TokenText(conn.accessToken), None)
  }

  /** The refresh helper always starts from the connection as loaded at the
      start of the request. When a 401 during the fetch triggers a second
      refresh whose reply omits the refresh token, the row gets back the
      refresh token it had before the first refresh, not the one the first
      refresh stored. */
  lemma SecondRefreshRestoresOldToken()
    ensures var conn := Connection(1, "u", Some("a0"), Some("r0"), Some(5000), None);
      var first := RefreshAccessToken(conn, TokenGranted(Some("a1"), Some("r1"), Some(100), true));
      var second := RefreshAccessToken(conn, TokenGranted(Some("a2"), None, Some(200), true));
      && first.written.value.refreshToken == Some("r1")
      && second.written.value.refreshToken == Some("r0")
  {
  }
}
