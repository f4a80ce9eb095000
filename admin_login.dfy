/** The bait route (src/app/admin-login/route.ts): a hidden link leads
    automated visitors here; the route notes the caller's address, sets the
    flag cookie and sends the visitor to the honeypot page. Together with
    the edge gate this is a two-state machine per client: unflagged, then
    flagged until the flag cookie's hour runs out. */
module AdminLogin {
  import opened Text
  import opened Http
  import EdgeGate

  const ForwardedFor: string := "x-forwarded-for"
  const RealIp: string := "x-real-ip"
  const Unknown: string := "unknown"

  /** The address the route reports: the forwarded-for header, else the
      real-ip header, else "unknown". A header that is present but empty
      is still taken, as `??` only skips absent values. */
  function ClientAddress(headers: Headers): (ip: string)
    ensures ForwardedFor in headers ==> ip == headers[ForwardedFor]
    ensures ForwardedFor !in headers && RealIp in headers ==> ip == headers[RealIp]
    ensures ForwardedFor !in headers && RealIp !in headers ==> ip == Unknown
  {
    Lookup(headers, ForwardedFor).OrElse(Lookup(headers, RealIp).OrElse(Unknown))
  }

  /** What one visit to the bait route produces: the response, and the
      address it would write to the log. */
  datatype Visit = Visit(response: Response, address: string)

  /** `GET(request)`. */
  function Get(req: Request): (v: Visit)
    ensures v.response.Redirect?
    ensures v.response.location.origin == req.url.origin
    ensures v.response.location.pathname == EdgeGate.HoneypotPath && v.response.location.search == ""
    ensures v.response.setCookies == [SetCookie("mp_flag", "1", CookieOptions("/", true, Lax, 3600))]
    ensures v.address == ClientAddress(req.headers)
  {
    var url := Rewrite(req.url, EdgeGate.HoneypotPath);
    Visit(Redirect(url, [SetCookie(EdgeGate.FlagCookie, "1", SiteCookieOptions)]), ClientAddress(req.headers))
  }

  /** After the bait response is stored, the gate sends that client's next
      request for any path outside the honeypot straight to the honeypot
      page, whatever the client held before. */
  lemma BaitFlagsClient(bait: Request, jar: Cookies, next: Request, uuid: string)
    requires next.cookies == StoreCookies(jar, Get(bait).response.setCookies)
    requires !StartsWith(next.url.pathname, EdgeGate.HoneypotPath)
    ensures EdgeGate.Flagged(next)
    ensures EdgeGate.Middleware(next, uuid) == Redirect(Rewrite(next.url, EdgeGate.HoneypotPath), [])
  {
  }

  /** Following the bait's own redirect with the stored cookies reaches the
      honeypot page through the gate without another redirect. */
  lemma BaitRedirectSettles(bait: Request, jar: Cookies, headers: Headers, uuid: string)
    ensures var res := Get(bait).response;
      EdgeGate.Middleware(Request(res.location, headers, StoreCookies(jar, res.setCookies)), uuid).Next?
  {
    var res := Get(bait).response;
    assert StartsWith(res.location.pathname, EdgeGate.HoneypotPath);
  }

  /** Once the flag cookie has expired the gate lets every request through
      again. */
  lemma FlagExpires(jar: Cookies, req: Request, uuid: string)
    requires req.cookies == Expire(jar, EdgeGate.FlagCookie)
    ensures !EdgeGate.Flagged(req)
    ensures EdgeGate.Middleware(req, uuid).Next?
  {
  }
}
