/** Requests and responses as plain records: the parts of a URL the site
    reads or rewrites, header and cookie maps keyed by exact name, the
    Set-Cookie instructions a response carries, and the two kinds of
    response the edge code produces (a redirect, or "continue to the page"
    with rewritten request headers). */
module Http {
  import opened Text

  datatype Url = Url(origin: string, pathname: string, search: string)

  /** The URL with its path replaced and its query removed. */
  function Rewrite(u: Url, pathname: string): (r: Url)
    ensures r.origin == u.origin && r.pathname == pathname && r.search == ""
  {
    u.(pathname := pathname, search := "")
  }

  type Headers = map<string, string>
  type Cookies = map<string, string>

  datatype Request = Request(url: Url, headers: Headers, cookies: Cookies)

  datatype SameSite = Lax | Strict | Unrestricted

  datatype CookieOptions = CookieOptions(path: string, httpOnly: bool, sameSite: SameSite, maxAge: int)

  datatype SetCookie = SetCookie(name: string, value: string, options: CookieOptions)

  /** One hour, in seconds. */
  const HourSeconds: int := 60 * 60

  /** The options both site cookies are written with. */
  const SiteCookieOptions: CookieOptions := CookieOptions("/", true, Lax, HourSeconds)

  datatype Response =
    | Redirect(location: Url, setCookies: seq<SetCookie>)
    | Next(forwardedHeaders: Headers, headers: Headers, setCookies: seq<SetCookie>)

  /** `map.get(name)`: the value, or nothing when the name is absent. */
  function Lookup(m: map<string, string>, name: string): (r: Option<string>)
    ensures r.Some? <==> name in m
    ensures r.Some? ==> r.value == m[name]
  {
    if name in m then Some(m[name]) else None
  }

  // ---------------------------------------------------------------------
  // The client side of a cookie exchange
  // ---------------------------------------------------------------------

  predicate Names(sets: seq<SetCookie>, name: string) {
    exists i :: 0 <= i < |sets| && sets[i].name == name
  }

  /** No instruction after the `i`-th sets the same name again. */
  predicate LastFor(sets: seq<SetCookie>, i: int)
    requires 0 <= i < |sets|
  {
    forall j :: i < j < |sets| ==> sets[j].name != sets[i].name
  }

  /** The cookies a client sends after storing a response's Set-Cookie list,
      in order (a later instruction for the same name wins). */
  function StoreCookies(jar: Cookies, sets: seq<SetCookie>): (r: Cookies)
    ensures forall n :: n in r <==> n in jar || Names(sets, n)
    ensures forall n :: n in jar && !Names(sets, n) ==> r[n] == jar[n]
    ensures forall i :: 0 <= i < |sets| && LastFor(sets, i) ==>
      sets[i].name in r && r[sets[i].name] == sets[i].value
    decreases |sets|
  {
    if |sets| == 0 then jar
    else
      var last := sets[|sets| - 1];
      var front := sets[..|sets| - 1];
      var stored := StoreCookies(jar, front);
      NamesSnoc(sets);
      LastForSnoc(sets);
      stored[last.name := last.value]
  }

  /** The names of a list are those of all but its last instruction, and
      the last one's. */
  lemma NamesSnoc(sets: seq<SetCookie>)
    requires |sets| > 0
    ensures forall n :: Names(sets, n) <==> Names(sets[..|sets| - 1], n) || n == sets[|sets| - 1].name
  {
    var front := sets[..|sets| - 1];
    forall n | Names(sets, n) ensures Names(front, n) || n == sets[|sets| - 1].name {
      var i :| 0 <= i < |sets| && sets[i].name == n;
      if i < |sets| - 1 { assert front[i] == sets[i]; }
    }
    forall n | Names(front, n) ensures Names(sets, n) {
      var i :| 0 <= i < |front| && front[i].name == n;
      assert sets[i] == front[i];
    }
  }

  /** An instruction that is the last for its name, other than the final
      one, names something else than the final one and is still the last
      for its name among the ones before. */
  lemma LastForSnoc(sets: seq<SetCookie>)
    requires |sets| > 0
    ensures forall i :: 0 <= i < |sets| - 1 && LastFor(sets, i) ==>
      sets[i].name != sets[|sets| - 1].name && LastFor(sets[..|sets| - 1], i) &&
      sets[..|sets| - 1][i] == sets[i]
  {
    var front := sets[..|sets| - 1];
    forall i | 0 <= i < |sets| - 1 && LastFor(sets, i)
      ensures sets[i].name != sets[|sets| - 1].name && LastFor(front, i)
    {
      forall j | i < j < |front| ensures front[j].name != front[i].name {
        assert front[j] == sets[j] && front[i] == sets[i];
      }
    }
  }

  /** A cookie the client no longer sends once its lifetime has passed. */
  function Expire(jar: Cookies, name: string): (r: Cookies)
    ensures name !in r
    ensures forall n :: n != name ==> (n in r <==> n in jar) && (n in r ==> r[n] == jar[n])
  {
    jar - {name}
  }
}
