/** The edge gate that runs before every page (src/middleware.ts): a client
    carrying the flag cookie is sent to the honeypot page, everyone else gets
    a per-visitor seed, reused from the seed cookie or freshly generated, and
    forwarded to the page in the `x-mp-seed` header. */
module EdgeGate {
  import opened Text
  import opened Http
  import Seed

  const SeedCookie: string := "mp_seed"
  const FlagCookie: string := "mp_flag"
  const SeedHeader: string := "x-mp-seed"
  const HoneypotPath: string := "/honeypot"

  /** The gate's own `generateSeed`: the UUID with its hyphens removed, cut
      to twelve characters. For a textual UUID that is twelve lower-case hex
      digits. */
  function GenerateSeed(uuid: string): (s: string)
    ensures s == Seed.GenerateSeed(Seed.Uuid(uuid), Seed.DefaultLength)
    ensures Seed.IsUuidText(uuid) ==>
      |s| == 12 && forall i :: 0 <= i < 12 ==> Seed.IsLowerHex(s[i])
  {
    if Seed.IsUuidText(uuid) then Seed.UuidSeed(uuid); Seed.Derive(uuid, 12)
    else Seed.Derive(uuid, 12)
  }

  /** A client is flagged exactly when its flag cookie holds "1". */
  predicate Flagged(req: Request) {
    Lookup(req.cookies, FlagCookie) == Some("1")
  }

  /** The seed the client already holds: a present, non-empty seed cookie. */
  function ExistingSeed(req: Request): (r: Option<string>)
    ensures r.Some? <==> SeedCookie in req.cookies && req.cookies[SeedCookie] != ""
    ensures r.Some? ==> r.value == req.cookies[SeedCookie]
  {
    match Lookup(req.cookies, SeedCookie)
    case Some(v) => if v == "" then None else Some(v)
    case None => None
  }

  /** `middleware(request)`, with the UUID the runtime would draw passed in. */
  function Middleware(req: Request, uuid: string): (res: Response)
    ensures res.Redirect? <==> Flagged(req) && !StartsWith(req.url.pathname, HoneypotPath)
    ensures res.Redirect? ==>
      res.location == Rewrite(req.url, HoneypotPath) && res.setCookies == []
    ensures res.Next? ==>
      SeedHeader in res.forwardedHeaders && SeedHeader in res.headers &&
      res.forwardedHeaders[SeedHeader] == res.headers[SeedHeader]
    ensures res.Next? ==>
      res.forwardedHeaders.Keys == req.headers.Keys + {SeedHeader} &&
      forall h :: h in req.headers && h != SeedHeader ==>
        res.forwardedHeaders[h] == req.headers[h]
    ensures res.Next? ==> (res.setCookies != [] <==> ExistingSeed(req).None?)
  {
    if Flagged(req) && !StartsWith(req.url.pathname, HoneypotPath) then
      Redirect(Rewrite(req.url, HoneypotPath), [])
    else
      var existing := ExistingSeed(req);
      var seed := if existing.Some? then existing.value else GenerateSeed(uuid);
      var cookies := if existing.None? then [SetCookie(SeedCookie, seed, SiteCookieOptions)] else [];
      Next(req.headers[SeedHeader := seed], map[SeedHeader := seed], cookies)
  }

  /** The seed the gate hands to the page when it lets a request through. */
  function ForwardedSeed(res: Response): Option<string> {
    if res.Next? then Lookup(res.headers, SeedHeader) else None
  }

  /** A present, non-empty seed cookie is passed on unchanged and no cookie
      is written. */
  lemma SeedReused(req: Request, uuid: string)
    requires !Flagged(req) || StartsWith(req.url.pathname, HoneypotPath)
    requires SeedCookie in req.cookies && req.cookies[SeedCookie] != ""
    ensures ForwardedSeed(Middleware(req, uuid)) == Some(req.cookies[SeedCookie])
    ensures Middleware(req, uuid).setCookies == []
  {
  }

  /** A missing or empty seed cookie makes the gate draw a new seed and
      write it back as the seed cookie, for an hour, for the whole site. */
  lemma SeedCreated(req: Request, uuid: string)
    requires !Flagged(req) || StartsWith(req.url.pathname, HoneypotPath)
    requires SeedCookie !in req.cookies || req.cookies[SeedCookie] == ""
    ensures ForwardedSeed(Middleware(req, uuid)) == Some(GenerateSeed(uuid))
    ensures Middleware(req, uuid).setCookies ==
      [SetCookie(SeedCookie, GenerateSeed(uuid), CookieOptions("/", true, Lax, 3600))]
  {
  }

  /** Following the gate's redirect with the same cookies reaches the
      honeypot page without a second redirect: there is no loop. */
  lemma NoRedirectLoop(req: Request, uuid: string, headers: Headers, uuid2: string)
    requires Middleware(req, uuid).Redirect?
    ensures Middleware(Request(Middleware(req, uuid).location, headers, req.cookies), uuid2).Next?
  {
    var target := Middleware(req, uuid).location;
    assert StartsWith(target.pathname, HoneypotPath);
  }

  // ---------------------------------------------------------------------
  // Which paths the gate runs on
  // ---------------------------------------------------------------------

  /** `config.matcher` as written, `/((?!_next/static|_next/image|favicon.ico).*)`:
      a path runs through the gate unless what follows its leading "/"
      begins with one of the three alternatives. The `.` of `favicon.ico`
      is an unescaped pattern dot and matches any one character. */
  predicate MatcherAsWritten(path: string) {
    |path| >= 1 && path[0] == '/' &&
    var rest := path[1..];
    !StartsWith(rest, "_next/static") && !StartsWith(rest, "_next/image") &&
    !(|rest| >= 11 && rest[..7] == "favicon" && rest[8..11] == "ico")
  }

  /** A path the as-written matcher skips although it is not the icon: the
      gate never sees "/favicon_ico". */
  lemma MatcherSkipsLookalike()
    ensures !MatcherAsWritten("/favicon_ico")
    ensures !StartsWith("/favicon_ico", "/favicon.ico")
  {
    var rest := "/favicon_ico"[1..];
    assert rest[..7] == "favicon" && rest[8..11] == "ico";
    assert "/favicon_ico"[8] != "/favicon.ico"[8];
  }

  /** The matcher with the dot taken literally, as evidently intended. */
  predicate MatcherRuns(path: string) {
    |path| >= 1 && path[0] == '/' &&
    var rest := path[1..];
    !StartsWith(rest, "_next/static") && !StartsWith(rest, "_next/image") &&
    !StartsWith(rest, "favicon.ico")
  }

  /** The corrected matcher runs on everything the written one runs on, and
      on more only where the character between "favicon" and "ico" is not a
      dot. */
  lemma MatcherCorrection(path: string)
    ensures MatcherAsWritten(path) ==> MatcherRuns(path)
    ensures MatcherRuns(path) && !MatcherAsWritten(path) ==>
      |path| >= 12 && path[1..8] == "favicon" && path[9..12] == "ico" && path[8] != '.'
  {
    if |path| >= 1 && path[0] == '/' {
      var rest := path[1..];
      if StartsWith(rest, "favicon.ico") {
        assert rest[..7] == "favicon" && rest[8..11] == "ico";
      }
      if |rest| >= 11 && rest[..7] == "favicon" && rest[8..11] == "ico" {
        assert path[1..8] == rest[..7] by {
          assert forall k :: 0 <= k < 7 ==> path[1..8][k] == rest[..7][k];
        }
        assert path[9..12] == rest[8..11] by {
          assert forall k :: 0 <= k < 3 ==> path[9..12][k] == rest[8..11][k];
        }
        if path[8] == '.' {
          assert rest[..11] == "favicon.ico";
        }
      }
    }
  }

  /** The site's own pages all pass through the corrected matcher: the
      landing page, the honeypot page and the bait route among them. */
  lemma MatcherRunsOnPages(path: string)
    requires |path| >= 1 && path[0] == '/'
    requires |path| == 1 || 'a' <= path[1] <= 'e' || 'g' <= path[1] <= 'z'
    ensures MatcherRuns(path)
  {
    var rest := path[1..];
    if |rest| > 0 {
      assert rest[0] == path[1];
      assert "_next/static"[0] == '_' && "_next/image"[0] == '_' && "favicon.ico"[0] == 'f';
    }
  }

  /** The edge step of a request as evidently intended: the gate's answer
      where the corrected matcher lets it run, nothing (the request goes
      straight to the page) elsewhere. */
  function Gate(req: Request, uuid: string): Option<Response> {
    if MatcherRuns(req.url.pathname) then Some(Middleware(req, uuid)) else None
  }

  /** The edge step as written, with the unescaped dot in the matcher. */
  function GateAsWritten(req: Request, uuid: string): Option<Response> {
    if MatcherAsWritten(req.url.pathname) then Some(Middleware(req, uuid)) else None
  }

  /** The two edge steps agree except on the lookalike paths, which the
      written one lets through to the page untouched: no seed is forwarded
      and a flagged client is not redirected. */
  lemma GateCorrection(req: Request, uuid: string)
    ensures GateAsWritten(req, uuid).Some? ==> GateAsWritten(req, uuid) == Gate(req, uuid)
    ensures GateAsWritten(req, uuid) != Gate(req, uuid) <==>
      GateAsWritten(req, uuid).None? && MatcherRuns(req.url.pathname)
    ensures GateAsWritten(req, uuid) != Gate(req, uuid) ==>
      var path := req.url.pathname;
      |path| >= 12 && path[1..8] == "favicon" && path[9..12] == "ico" && path[8] != '.'
  {
    MatcherCorrection(req.url.pathname);
  }
}
