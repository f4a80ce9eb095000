/** The landing page's seed and class wiring (src/app/page.tsx): the page
    picks its seed from the gate's header, then from the seed cookie, then a
    fixed fallback; it renders the stylesheet and every randomised class of
    its markup from the one class map that seed produces. */
module Page {
  import opened Text
  import opened Http
  import opened Polymorph
  import EdgeGate

  const FallbackSeed: string := "fallbackseed"

  /** The seed the page renders with. */
  function PageSeed(headers: Headers, cookies: Cookies): (seed: string)
    ensures EdgeGate.SeedHeader in headers ==> seed == headers[EdgeGate.SeedHeader]
    ensures EdgeGate.SeedHeader !in headers && EdgeGate.SeedCookie in cookies ==>
      seed == cookies[EdgeGate.SeedCookie]
    ensures EdgeGate.SeedHeader !in headers && EdgeGate.SeedCookie !in cookies ==>
      seed == FallbackSeed
  {
    Lookup(headers, EdgeGate.SeedHeader).OrElse(
      Lookup(cookies, EdgeGate.SeedCookie).OrElse(FallbackSeed))
  }

  /** The parts of the rendered page that depend on the seed. */
  datatype HomeView = HomeView(
    seed: string,
    classes: ClassMap,
    rootClass: string,
    orbitClass: string,
    heroClass: string,
    badgeClass: string,
    titleClass: string,
    descClass: string,
    connectClass: string,
    glowClass: string,
    sessionLabel: string,
    footerSeed: string,
    baitHref: string,
    baitClass: string)

  /** `Home()` for the request's headers and cookies. */
  function Home(headers: Headers, cookies: Cookies): (v: HomeView)
    ensures v.seed == PageSeed(headers, cookies) && v.classes == CreateClassMap(v.seed)
  {
    var seed := PageSeed(headers, cookies);
    Render(seed, CreateClassMap(seed))
  }

  /** The markup rendered from a seed and its class map: the root, hero and
      bait classes are the map's, the session label and the footer show the
      first ten and twelve characters of the seed. */
  function Render(seed: string, classes: ClassMap): (v: HomeView)
    ensures v.seed == seed && v.classes == classes
    ensures v.rootClass == "landing " + Get(classes, Shell)
    ensures v.orbitClass == Get(classes, Orbit) && v.glowClass == Get(classes, ConnectGlow)
    ensures v.heroClass == "hero " + Get(classes, Card)
    ensures v.badgeClass == "hero__badge " + Get(classes, Status)
    ensures v.titleClass == "hero__title " + Get(classes, Title)
    ensures v.descClass == "hero__desc " + Get(classes, Subtitle)
    ensures v.connectClass == "btn btn--primary " + Get(classes, ConnectButton)
    ensures v.baitHref == "/admin-login" && v.baitClass == Get(classes, BaitLink)
    ensures StartsWith(seed, v.sessionLabel) && |v.sessionLabel| == Min(10, |seed|)
    ensures StartsWith(seed, v.footerSeed) && |v.footerSeed| == Min(12, |seed|)
  {
    HomeView(
      seed, classes,
      "landing " + classes.shell,
      classes.orbit,
      "hero " + classes.card,
      "hero__badge " + classes.status,
      "hero__title " + classes.title,
      "hero__desc " + classes.subtitle,
      "btn btn--primary " + classes.connectButton,
      classes.connectGlow,
      SliceTo(seed, 10),
      SliceTo(seed, 12),
      "/admin-login",
      classes.baitLink)
  }

  /** The text of the page's style element. */
  function StyleText(v: HomeView): string {
    CreateCss(v.classes)
  }

  /** The stylesheet of a page has a rule for every class of the page's
      map, so each randomised class in the markup is styled. */
  lemma StyleCoversMarkup(v: HomeView)
    ensures forall k :: Contains(StyleText(v), "." + Get(v.classes, k) + " {")
  {
    forall k ensures Contains(StyleText(v), "." + Get(v.classes, k) + " {") {
      CssHasSelector(v.classes, k);
    }
  }

  /** The session label is the start of the footer's seed. */
  lemma LabelStartsFooter(seed: string)
    ensures StartsWith(SliceTo(seed, 12), SliceTo(seed, 10))
  {
    var session, footer := SliceTo(seed, 10), SliceTo(seed, 12);
    assert session == seed[..|session|];
    assert footer == seed[..|footer|];
    assert footer[..|session|] == session;
  }

  /** The page renders with the seed the gate forwarded: the rewritten
      request headers carry it, whatever the client's cookies hold. */
  lemma PageUsesGateSeed(req: Request, uuid: string)
    requires EdgeGate.Middleware(req, uuid).Next?
    ensures var res := EdgeGate.Middleware(req, uuid);
      Some(Home(res.forwardedHeaders, req.cookies).seed) == EdgeGate.ForwardedSeed(res)
  {
  }

  /** Equal seeds give the same class map, so a returning visitor whose
      seed cookie survives sees the same class names. */
  lemma SameSeedSameClasses(h1: Headers, c1: Cookies, h2: Headers, c2: Cookies)
    requires PageSeed(h1, c1) == PageSeed(h2, c2)
    ensures Home(h1, c1) == Home(h2, c2)
  {
  }
}
