/** The access gate of the request middleware: public paths pass, and any
    other path passes only with a Supabase session cookie, or is redirected
    to the login page. */
module Middleware {

  /** `PUBLIC_PATHS`; matched by prefix. */
  const PublicPaths: seq<string> := ["/auth/callback", "/en/login", "/favicon.ico", "/api/auth/me"]

  const LoginPath: string := "/en/login"
  const AccessCookie: string := "sb-access-token"
  const RefreshCookie: string := "sb-refresh-token"

  /** `PUBLIC_PATHS.some((p) => pathname.startsWith(p))`, scanned in order. */
  function AnyPrefix(prefixes: seq<string>, path: string): (b: bool)
    ensures b <==> exists i :: 0 <= i < |prefixes| && prefixes[i] <= path
    decreases |prefixes|
  {
    if |prefixes| == 0 then false
    else
      prefixes[0] <= path || (
        var b := AnyPrefix(prefixes[1..], path);
        assert forall i :: 1 <= i < |prefixes| ==> prefixes[1..][i - 1] == prefixes[i];
        b)
  }

  predicate IsPublic(path: string) {
    AnyPrefix(PublicPaths, path)
  }

  /** The parts of `req.nextUrl` the decision uses or keeps. */
  datatype Url = Url(origin: string, pathname: string, search: string, hash: string)

  /** A request: its URL and its cookies by name. */
  datatype Request = Request(url: Url, cookies: map<string, string>)

  /** `NextResponse.next()` or `NextResponse.redirect(url)`. */
  datatype Decision = Next | Redirect(to: Url)

  /** `req.cookies.get(name)` is an object, so truthy, whenever the cookie is
      present, even with an empty value. */
  predicate HasSession(req: Request) {
    AccessCookie in req.cookies || RefreshCookie in req.cookies
  }

  /** `middleware(req)` */
  function Gate(req: Request): (d: Decision)
    ensures d.Redirect? <==> !IsPublic(req.url.pathname) && !HasSession(req)
    ensures d.Redirect? ==> d.to == req.url.(pathname := LoginPath)
  {
    if IsPublic(req.url.pathname) then Next
    else if !HasSession(req) then Redirect(req.url.(pathname := LoginPath))
    else Next
  }

  /** The redirect target is public, so following the redirect with the
      same cookies passes: the gate never redirects twice in a row. */
  lemma RedirectTargetPasses(req: Request)
    requires Gate(req).Redirect?
    ensures Gate(Request(Gate(req).to, req.cookies)) == Next
  {
    assert PublicPaths[1] <= LoginPath;
  }

  /** Adding cookies never turns a pass into a redirect. */
  lemma MoreCookiesStillPass(req: Request, more: map<string, string>)
    requires Gate(req) == Next
    ensures Gate(req.(cookies := req.cookies + more)) == Next
  {
  }

  /** A redirect keeps everything of the request URL but the path. */
  lemma RedirectKeepsUrl(req: Request)
    requires Gate(req).Redirect?
    ensures var u := Gate(req).to;
      u.origin == req.url.origin && u.search == req.url.search && u.hash == req.url.hash
      && u.pathname == LoginPath
  {
  }

  /** Matching is by prefix: paths that merely start with a public path,
      such as `/en/login/x` and `/api/auth/me2`, are public, while `/en`
      and `/api/stats/summary` are not. */
  lemma PrefixExamples()
    ensures IsPublic("/en/login/x") && IsPublic("/api/auth/me2")
    ensures !IsPublic("/en") && !IsPublic("/api/stats/summary")
  {
    assert PublicPaths[1] <= "/en/login/x";
    assert PublicPaths[3] <= "/api/auth/me2";
    assert !(PublicPaths[0] <= "/en");
    assert !(PublicPaths[1] <= "/en");
    assert !(PublicPaths[2] <= "/en");
    assert !(PublicPaths[3] <= "/en");
    assert "/api/stats/summary"[5] == 's' && PublicPaths[3][5] == 'a';
    assert !(PublicPaths[0] <= "/api/stats/summary");
    assert !(PublicPaths[1] <= "/api/stats/summary");
    assert !(PublicPaths[2] <= "/api/stats/summary");
  }
}
