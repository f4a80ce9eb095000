/** The per-request class-map generator: a 32-bit rolling hash of
    "<seed>:<key>", rendered as a six-digit base-36 token, gives the class
    name of each of thirteen page roles; a fixed stylesheet uses those names
    as its selectors. */
module Polymorph {
  import opened Text

  // ---------------------------------------------------------------------
  // 32-bit integers as JavaScript's bitwise operators see them.
  // ---------------------------------------------------------------------

  const Two32: int := 0x1_0000_0000
  const Two31: int := 0x8000_0000

  /** ToInt32 (section 7.1.6 of ECMA-262): the signed 32-bit integer that is
      congruent to `x` modulo 2^32. */
  function ToInt32(x: int): (r: int)
    ensures -Two31 <= r < Two31
    ensures (x - r) % Two32 == 0
  {
    var m := x % Two32;
    if m >= Two31 then m - Two32 else m
  }

  /** Congruent inputs wrap to the same 32-bit value. */
  lemma ToInt32Congruent(x: int, y: int)
    requires (x - y) % Two32 == 0
    ensures ToInt32(x) == ToInt32(y)
  {
    var k := (x - y) / Two32;
    assert x == y + k * Two32;
    ModShift(y, k);
  }

  lemma ModShift(y: int, k: int)
    ensures (y + k * Two32) % Two32 == y % Two32
  {
  }

  /** One step of the hash loop: `hash = (hash << 5) - hash + unit` followed by
      `hash |= 0`. The shift wraps `32 * hash` to 32 bits, the subtraction and
      addition are exact, and `| 0` wraps the sum again. */
  function HashStep(h: int, unit: int): int {
    ToInt32(ToInt32(h * 32) - h + unit)
  }

  /** The intermediate wrap of the shift does not matter: a step is
      `31 * h + unit` wrapped to 32 bits. */
  lemma HashStepIsMulAdd(h: int, unit: int)
    ensures HashStep(h, unit) == ToInt32(31 * h + unit)
  {
    var w := ToInt32(h * 32);
    var k := (h * 32 - w) / Two32;
    assert h * 32 - w == k * Two32;
    assert (w - h + unit) - (31 * h + unit) == -(k * Two32);
    ToInt32Congruent(w - h + unit, 31 * h + unit);
  }

  // ---------------------------------------------------------------------
  // UTF-16 code units: what `charCodeAt` and `length` count.
  // ---------------------------------------------------------------------

  /** The UTF-16 code units of one character: itself below U+10000, a
      surrogate pair above. */
  function UnitsOf(c: char): (u: seq<int>)
    ensures c as int < 0x10000 ==> u == [c as int]
    ensures c as int >= 0x10000 ==>
      |u| == 2 && 0xD800 <= u[0] < 0xDC00 && 0xDC00 <= u[1] < 0xE000 &&
      (u[0] - 0xD800) * 0x400 + (u[1] - 0xDC00) + 0x10000 == c as int
  {
    var v := c as int;
    if v < 0x10000 then [v]
    else [0xD800 + (v - 0x10000) / 0x400, 0xDC00 + (v - 0x10000) % 0x400]
  }

  /** The UTF-16 code units of a string, in order. */
  function CodeUnits(s: string): (u: seq<int>)
    ensures |u| >= |s|
    ensures forall i :: 0 <= i < |u| ==> 0 <= u[i] < 0x10000
  {
    if |s| == 0 then [] else UnitsOf(s[0]) + CodeUnits(s[1..])
  }

  /** One character is encoded by its own units. */
  lemma CodeUnitsOfChar(c: char)
    ensures CodeUnits([c]) == UnitsOf(c)
  {
    assert [c][1..] == [];
  }

  /** The units of a concatenation are the units of its parts, in order. */
  lemma {:induction false} CodeUnitsAppend(a: string, b: string)
    ensures CodeUnits(a + b) == CodeUnits(a) + CodeUnits(b)
    decreases |a|
  {
    if |a| == 0 {
      assert a + b == b;
    } else {
      assert (a + b)[0] == a[0] && (a + b)[1..] == a[1..] + b;
      CodeUnitsAppend(a[1..], b);
    }
  }

  /** The scalar values of a string, as numbers. */
  function Scalars(s: string): (v: seq<int>)
    ensures |v| == |s|
    ensures forall i :: 0 <= i < |s| ==> v[i] == s[i] as int
  {
    seq(|s|, i requires 0 <= i < |s| => s[i] as int)
  }

  /** UTF-16 decoding: a high surrogate followed by a low one is one scalar
      value, any other unit stands for itself. */
  function DecodeUnits(u: seq<int>): seq<int>
    decreases |u|
  {
    if |u| == 0 then []
    else if |u| >= 2 && 0xD800 <= u[0] < 0xDC00 && 0xDC00 <= u[1] < 0xE000 then
      [(u[0] - 0xD800) * 0x400 + (u[1] - 0xDC00) + 0x10000] + DecodeUnits(u[2..])
    else [u[0]] + DecodeUnits(u[1..])
  }

  /** The code units are the UTF-16 encoding of the string: decoding them
      gives back its scalar values. */
  lemma {:induction false} DecodeCodeUnits(s: string)
    ensures DecodeUnits(CodeUnits(s)) == Scalars(s)
    decreases |s|
  {
    if |s| > 0 {
      var u := CodeUnits(s);
      var head := UnitsOf(s[0]);
      DecodeCodeUnits(s[1..]);
      assert u == head + CodeUnits(s[1..]);
      if s[0] as int < 0x10000 {
        assert !(0xD800 <= s[0] as int < 0xE000);
        assert u[0] == s[0] as int && u[1..] == CodeUnits(s[1..]);
      } else {
        assert u[2..] == CodeUnits(s[1..]);
      }
      assert Scalars(s) == [s[0] as int] + Scalars(s[1..]);
    }
  }

  // ---------------------------------------------------------------------
  // hashSeed
  // ---------------------------------------------------------------------

  /** The value of `hash` after the loop has consumed the code units `u`,
      starting from 0. */
  function HashUnits(u: seq<int>): (h: int)
    ensures -Two31 <= h < Two31
  {
    if |u| == 0 then 0 else HashStep(HashUnits(u[..|u| - 1]), u[|u| - 1])
  }

  /** The rolling hash folds `h := ToInt32(31 * h + unit)` over the units. */
  lemma {:induction false} HashUnitsIsRollingHash(u: seq<int>)
    ensures |u| > 0 ==> HashUnits(u) == ToInt32(31 * HashUnits(u[..|u| - 1]) + u[|u| - 1])
    ensures |u| == 0 ==> HashUnits(u) == 0
  {
    if |u| > 0 {
      HashStepIsMulAdd(HashUnits(u[..|u| - 1]), u[|u| - 1]);
    }
  }

  /** The value `hashSeed` returns: the absolute value of the folded hash. */
  function Hash(input: string): (h: nat)
    ensures h <= Two31
  {
    var x := HashUnits(CodeUnits(input));
    if x < 0 then -x else x
  }

  /** `hashSeed(input)`: the loop over the code units of `input`. */
  method HashSeed(input: string) returns (h: nat)
    ensures h == Hash(input)
    ensures h <= Two31
  {
    var units := CodeUnits(input);
    var hash := 0;
    var i := 0;
    while i < |units|
      invariant 0 <= i <= |units|
      invariant hash == HashUnits(units[..i])
    {
      assert units[..i + 1][..i] == units[..i];
      hash := ToInt32(ToInt32(hash * 32) - hash + units[i]);
      i := i + 1;
    }
    assert units[..i] == units;
    h := if hash < 0 then -hash else hash;
  }

  // ---------------------------------------------------------------------
  // token and className
  // ---------------------------------------------------------------------

  /** `token(seed, key)`: the hash of "<seed>:<key>" in base 36, padded with
      zeros to six characters and cut to six. Every hash is at most 2^31,
      which is below 36^6, so the cut never drops a digit: the token is a
      six-digit base-36 numeral whose value is the hash. */
  function Token(seed: string, key: string): (t: string)
    ensures |t| == 6
    ensures forall i :: 0 <= i < 6 ==> IsDigitIn(t[i], 36)
    ensures NumeralValue(t, 36) == Hash(seed + ":" + key)
  {
    var h := Hash(seed + ":" + key);
    var digits := Numeral(h, 36);
    var raw := PadStart(digits, 6, '0');
    TokenFacts(h, digits, raw);
    SliceTo(raw, 6)
  }

  lemma TokenFacts(h: nat, digits: string, raw: string)
    requires h <= Two31 && digits == Numeral(h, 36) && raw == PadStart(digits, 6, '0')
    ensures |raw| == 6 && SliceTo(raw, 6) == raw
    ensures forall i :: 0 <= i < 6 ==> IsDigitIn(raw[i], 36)
    ensures NumeralValue(raw, 36) == h
  {
    HashFitsSixDigits(h);
    var z := raw[..6 - |digits|];
    PaddedParts(digits, raw);
    PaddedValue(h, digits, z);
    PaddedDigits(z, digits);
  }

  /** Padding a numeral of at most six digits to six puts zeros in front. */
  lemma PaddedParts(digits: string, raw: string)
    requires |digits| <= 6 && raw == PadStart(digits, 6, '0')
    ensures |raw| == 6 && raw == raw[..6 - |digits|] + digits
    ensures forall i :: 0 <= i < 6 - |digits| ==> raw[i] == '0'
  {
    assert raw == raw[..6 - |digits|] + raw[6 - |digits|..];
  }

  /** Zeros in front of base-36 digits leave only base-36 digits. */
  lemma PaddedDigits(z: string, digits: string)
    requires forall i :: 0 <= i < |z| ==> z[i] == '0'
    requires forall i :: 0 <= i < |digits| ==> IsDigitIn(digits[i], 36)
    ensures forall i :: 0 <= i < |z + digits| ==> IsDigitIn((z + digits)[i], 36)
  {
    forall i | 0 <= i < |z + digits| ensures IsDigitIn((z + digits)[i], 36) {
      if i >= |z| { assert (z + digits)[i] == digits[i - |z|]; }
    }
  }

  /** A hash has at most six base-36 digits: 2^31 < 36^6. */
  lemma HashFitsSixDigits(h: nat)
    requires h <= Two31
    ensures |Numeral(h, 36)| <= 6
  {
    assert Pow(36, 6) == 2176782336;
    NumeralLength(h, 36, 6);
  }

  lemma PaddedValue(h: nat, digits: string, z: string)
    requires digits == Numeral(h, 36)
    requires forall i :: 0 <= i < |z| ==> z[i] == '0'
    ensures NumeralValue(z + digits, 36) == h
  {
    LeadingZeros(z, digits, 36);
    NumeralRoundTrip(h, 36);
  }

  /** Tokens are equal exactly when the hashes are: distinct hashes never
      share a token. */
  lemma TokenDeterminesHash(s1: string, k1: string, s2: string, k2: string)
    ensures Token(s1, k1) == Token(s2, k2) <==> Hash(s1 + ":" + k1) == Hash(s2 + ":" + k2)
  {
  }

  /** `className(seed, key)`: "mp-<key>-<token>". */
  function ClassName(seed: string, key: string): (name: string)
    ensures MatchesClassPattern(name, key)
  {
    var t := Token(seed, key);
    PatternOfParts(key, t);
    "mp-" + key + "-" + t
  }

  lemma PatternOfParts(key: string, t: string)
    requires |t| == 6 && forall i :: 0 <= i < 6 ==> IsDigitIn(t[i], 36)
    ensures MatchesClassPattern("mp-" + key + "-" + t, key)
  {
    var name := "mp-" + key + "-" + t;
    assert name[..3] == "mp-";
    assert name[3..3 + |key|] == key;
    forall i | |key| + 4 <= i < |name| ensures IsDigitIn(name[i], 36) {
      assert name[i] == t[i - |key| - 4];
    }
  }

  /** `name` matches `mp-<key>-[0-9a-z]{6}`. */
  predicate MatchesClassPattern(name: string, key: string) {
    |name| == |key| + 10 &&
    name[..3] == "mp-" && name[3..3 + |key|] == key && name[3 + |key|] == '-' &&
    forall i :: |key| + 4 <= i < |name| ==> IsDigitIn(name[i], 36)
  }

  /** Reads a class name back into its key and token. */
  function ParseClassName(name: string): Option<(string, string)> {
    if |name| >= 10 && name[..3] == "mp-" && name[|name| - 7] == '-'
    then Some((name[3..|name| - 7], name[|name| - 6..]))
    else None
  }

  /** A class name carries its key and its token: the fixed prefix and the
      fixed-length suffix delimit them. */
  lemma ParseClassNameRoundTrip(seed: string, key: string)
    ensures ParseClassName(ClassName(seed, key)) == Some((key, Token(seed, key)))
  {
    var name := ClassName(seed, key);
    var t := Token(seed, key);
    assert name == "mp-" + key + "-" + t;
    assert name[3..|name| - 7] == key;
    assert name[|name| - 6..] == t;
  }

  /** Two class names are equal only for the same key and the same token. */
  lemma ClassNameInjective(s1: string, k1: string, s2: string, k2: string)
    requires ClassName(s1, k1) == ClassName(s2, k2)
    ensures k1 == k2 && Token(s1, k1) == Token(s2, k2)
  {
    ParseClassNameRoundTrip(s1, k1);
    ParseClassNameRoundTrip(s2, k2);
  }

  // ---------------------------------------------------------------------
  // The class map
  // ---------------------------------------------------------------------

  /** The thirteen page roles that get a class. */
  datatype Key =
    | Shell | Orbit | Card | Title | Subtitle | Status | ActionRow
    | ConnectButton | ConnectGlow | SeedBadge | Divider | BaitLink | BaitNote

  /** The role's name, as hashed and as it appears in the class name. */
  function KeyName(k: Key): string {
    match k
    case Shell => "shell"
    case Orbit => "orbit"
    case Card => "card"
    case Title => "title"
    case Subtitle => "subtitle"
    case Status => "status"
    case ActionRow => "actionRow"
    case ConnectButton => "connectButton"
    case ConnectGlow => "connectGlow"
    case SeedBadge => "seedBadge"
    case Divider => "divider"
    case BaitLink => "baitLink"
    case BaitNote => "baitNote"
  }

  /** The role a name denotes, if any. */
  function KeyNamed(name: string): Option<Key> {
    if name == "shell" then Some(Shell)
    else if name == "orbit" then Some(Orbit)
    else if name == "card" then Some(Card)
    else if name == "title" then Some(Title)
    else if name == "subtitle" then Some(Subtitle)
    else if name == "status" then Some(Status)
    else if name == "actionRow" then Some(ActionRow)
    else if name == "connectButton" then Some(ConnectButton)
    else if name == "connectGlow" then Some(ConnectGlow)
    else if name == "seedBadge" then Some(SeedBadge)
    else if name == "divider" then Some(Divider)
    else if name == "baitLink" then Some(BaitLink)
    else if name == "baitNote" then Some(BaitNote)
    else None
  }

  /** Each role is named by its own name and by no other. */
  lemma KeyNameRoundTrip(k: Key)
    ensures KeyNamed(KeyName(k)) == Some(k)
  {
  }

  lemma KeyNameInjective(k1: Key, k2: Key)
    requires KeyName(k1) == KeyName(k2)
    ensures k1 == k2
  {
    KeyNameRoundTrip(k1);
    KeyNameRoundTrip(k2);
  }

  /** `ClassMap`: one class name per role. */
  datatype ClassMap = ClassMap(
    shell: string, orbit: string, card: string, title: string,
    subtitle: string, status: string, actionRow: string,
    connectButton: string, connectGlow: string, seedBadge: string,
    divider: string, baitLink: string, baitNote: string)

  /** The class name a map holds for a role. */
  function Get(m: ClassMap, k: Key): string {
    match k
    case Shell => m.shell
    case Orbit => m.orbit
    case Card => m.card
    case Title => m.title
    case Subtitle => m.subtitle
    case Status => m.status
    case ActionRow => m.actionRow
    case ConnectButton => m.connectButton
    case ConnectGlow => m.connectGlow
    case SeedBadge => m.seedBadge
    case Divider => m.divider
    case BaitLink => m.baitLink
    case BaitNote => m.baitNote
  }

  /** `createClassMap(seed)`: every role's field is the class name of that
      role's own name under the seed. */
  function CreateClassMap(seed: string): (m: ClassMap)
    ensures forall k :: Get(m, k) == ClassName(seed, KeyName(k))
  {
    var m := ClassMap(
      shell := ClassName(seed, "shell"),
      orbit := ClassName(seed, "orbit"),
      card := ClassName(seed, "card"),
      title := ClassName(seed, "title"),
      subtitle := ClassName(seed, "subtitle"),
      status := ClassName(seed, "status"),
      actionRow := ClassName(seed, "actionRow"),
      connectButton := ClassName(seed, "connectButton"),
      connectGlow := ClassName(seed, "connectGlow"),
      seedBadge := ClassName(seed, "seedBadge"),
      divider := ClassName(seed, "divider"),
      baitLink := ClassName(seed, "baitLink"),
      baitNote := ClassName(seed, "baitNote"));
    ClassMapFields(seed, m);
    m
  }

  lemma ClassMapFields(seed: string, m: ClassMap)
    requires m.shell == ClassName(seed, "shell") && m.orbit == ClassName(seed, "orbit")
    requires m.card == ClassName(seed, "card") && m.title == ClassName(seed, "title")
    requires m.subtitle == ClassName(seed, "subtitle") && m.status == ClassName(seed, "status")
    requires m.actionRow == ClassName(seed, "actionRow")
    requires m.connectButton == ClassName(seed, "connectButton")
    requires m.connectGlow == ClassName(seed, "connectGlow")
    requires m.seedBadge == ClassName(seed, "seedBadge")
    requires m.divider == ClassName(seed, "divider")
    requires m.baitLink == ClassName(seed, "baitLink")
    requires m.baitNote == ClassName(seed, "baitNote")
    ensures forall k :: Get(m, k) == ClassName(seed, KeyName(k))
  {
    forall k ensures Get(m, k) == ClassName(seed, KeyName(k)) {
      match k
      case Shell =>
      case Orbit =>
      case Card =>
      case Title =>
      case Subtitle =>
      case Status =>
      case ActionRow =>
      case ConnectButton =>
      case ConnectGlow =>
      case SeedBadge =>
      case Divider =>
      case BaitLink =>
      case BaitNote =>
    }
  }

  /** Whatever the seed, the thirteen class names of one map are pairwise
      distinct. */
  lemma ClassMapDistinct(seed: string, k1: Key, k2: Key)
    requires k1 != k2
    ensures Get(CreateClassMap(seed), k1) != Get(CreateClassMap(seed), k2)
  {
    if Get(CreateClassMap(seed), k1) == Get(CreateClassMap(seed), k2) {
      ClassNameInjective(seed, KeyName(k1), seed, KeyName(k2));
      KeyNameInjective(k1, k2);
    }
  }

  /** Every class name in a map matches `mp-<role>-[0-9a-z]{6}`. */
  lemma ClassMapPattern(seed: string, k: Key)
    ensures MatchesClassPattern(Get(CreateClassMap(seed), k), KeyName(k))
  {
  }

  // ---------------------------------------------------------------------
  // The stylesheet
  // ---------------------------------------------------------------------

  /** The selector of one rule: the role whose class it names and an
      optional pseudo-class. */
  datatype Selector = Selector(key: Key, pseudo: string)

  /** The selectors of the fourteen rules, in stylesheet order. */
  const Selectors: seq<Selector> := [
      Selector(Shell, ""),
      Selector(Orbit, ""),
      Selector(Card, ""),
      Selector(Title, ""),
      Selector(Subtitle, ""),
      Selector(Status, ""),
      Selector(ActionRow, ""),
      Selector(ConnectButton, ""),
      Selector(ConnectButton, ":hover"),
      Selector(ConnectGlow, ""),
      Selector(SeedBadge, ""),
      Selector(Divider, ""),
      Selector(BaitLink, ""),
      Selector(BaitNote, "")
  ]

  /** The fixed declarations of each rule, in the same order; no property
      below depends on their text. */
  const Bodies: seq<string> := [
      ShellBody, OrbitBody, CardBody, TitleBody, SubtitleBody, StatusBody,
      ActionRowBody, ConnectButtonBody, ConnectButtonHoverBody, ConnectGlowBody,
      SeedBadgeBody, DividerBody, BaitLinkBody, BaitNoteBody
  ]

  const ShellBody: string :=
    "\n  position: relative;\n  overflow: hidden;\n"
  const OrbitBody: string :=
    "\n  position: absolute;\n  width: 640px;\n  height: 640px;\n  border-radius: 50%;\n  border: 1px solid rgba(93, 253, 195, 0.18);\n  box-shadow: 0 0 90px rgba(93, 253, 195, 0.12);\n  top: -260px;\n  right: -260px;\n"
  const CardBody: string :=
    "\n  background: linear-gradient(145deg, rgba(18, 24, 38, 0.9), rgba(8, 12, 20, 0.96));\n  border: 1px solid rgba(255, 255, 255, 0.09);\n  border-radius: 30px;\n  padding: 36px;\n  box-shadow: 0 30px 90px rgba(5, 8, 15, 0.65);\n"
  const TitleBody: string :=
    "\n  font-size: clamp(2.6rem, 4vw, 4rem);\n  letter-spacing: -0.04em;\n"
  const SubtitleBody: string :=
    "\n  color: rgba(231, 236, 242, 0.72);\n"
  const StatusBody: string :=
    "\n  display: inline-flex;\n  align-items: center;\n  gap: 10px;\n  padding: 8px 14px;\n  border-radius: 999px;\n  background: rgba(93, 253, 195, 0.12);\n  border: 1px solid rgba(93, 253, 195, 0.35);\n  color: #5dfdc3;\n  font-size: 0.9rem;\n  letter-spacing: 0.08em;\n  text-transform: uppercase;\n"
  const ActionRowBody: string :=
    "\n  display: flex;\n  flex-wrap: wrap;\n  gap: 16px;\n  align-items: center;\n"
  const ConnectButtonBody: string :=
    "\n  border: none;\n  border-radius: 999px;\n  padding: 14px 28px;\n  background: linear-gradient(120deg, #5dfdc3, #7ab7ff);\n  color: #0b0f16;\n  font-weight: 700;\n  font-size: 1rem;\n  letter-spacing: 0.04em;\n  cursor: pointer;\n  transition: transform 180ms ease, box-shadow 180ms ease;\n"
  const ConnectButtonHoverBody: string :=
    "\n  transform: translateY(-2px) scale(1.01);\n  box-shadow: 0 16px 40px rgba(93, 253, 195, 0.3);\n"
  const ConnectGlowBody: string :=
    "\n  position: absolute;\n  inset: auto 0 0 0;\n  height: 140px;\n  background: radial-gradient(circle, rgba(93, 253, 195, 0.28), transparent 70%);\n  filter: blur(18px);\n  pointer-events: none;\n"
  const SeedBadgeBody: string :=
    "\n  font-size: 0.85rem;\n  color: rgba(231, 236, 242, 0.6);\n"
  const DividerBody: string :=
    "\n  width: 100%;\n  height: 1px;\n  background: linear-gradient(90deg, transparent, rgba(255, 255, 255, 0.2), transparent);\n"
  const BaitLinkBody: string :=
    "\n  position: absolute;\n  left: -9999px;\n  top: auto;\n  width: 1px;\n  height: 1px;\n  overflow: hidden;\n"
  const BaitNoteBody: string :=
    "\n  font-size: 0.85rem;\n  color: rgba(122, 183, 255, 0.7);\n"
  /** The selector text of a rule: ".<name><pseudo> {". */
  function SelectorText(name: string, pseudo: string): string {
    "." + name + pseudo + " {"
  }

  lemma SelectorTextForms(name: string)
    ensures SelectorText(name, "") == "." + name + " {"
    ensures SelectorText(name, ":hover") == "." + name + ":hover {"
  {
    assert "." + name + "" + " {" == "." + name + " {";
    assert "." + name + ":hover" + " {" == "." + name + ":hover {";
  }

  /** One rule as the template writes it: the selector, the body and the
      closing brace, on lines of their own. */
  function RenderRule(name: string, pseudo: string, body: string): string {
    "\n" + SelectorText(name, pseudo) + body + "}\n"
  }

  /** The rendered rules for a class map, one per selector. */
  function RenderedRules(m: ClassMap, sels: seq<Selector>, bodies: seq<string>): (parts: seq<string>)
    requires |bodies| == |sels|
    ensures |parts| == |sels|
    ensures forall i :: 0 <= i < |sels| ==>
      parts[i] == RenderRule(Get(m, sels[i].key), sels[i].pseudo, bodies[i])
  {
    seq(|sels|, i requires 0 <= i < |sels| =>
      RenderRule(Get(m, sels[i].key), sels[i].pseudo, bodies[i]))
  }

  /** `createCss(map)`: the stylesheet with the map's class names as
      selectors; nothing else in it depends on the map. */
  function CreateCss(m: ClassMap): string {
    Concat(RenderedRules(m, Selectors, Bodies))
  }

  /** The position in the layout of the plain (non-pseudo) rule of each role. */
  function RuleIndex(k: Key): (i: nat)
    ensures i < |Selectors| && Selectors[i] == Selector(k, "")
  {
    match k
    case Shell => 0
    case Orbit => 1
    case Card => 2
    case Title => 3
    case Subtitle => 4
    case Status => 5
    case ActionRow => 6
    case ConnectButton => 7
    case ConnectGlow => 9
    case SeedBadge => 10
    case Divider => 11
    case BaitLink => 12
    case BaitNote => 13
  }

  /** The selector of a rendered rule occurs in the concatenation. */
  lemma RuleOccurs(parts: seq<string>, i: nat, name: string, pseudo: string, body: string)
    requires i < |parts| && parts[i] == RenderRule(name, pseudo, body)
    ensures Contains(Concat(parts), SelectorText(name, pseudo))
  {
    ContainsInPart(parts, i, "\n", SelectorText(name, pseudo), body + "}\n");
  }

  /** Every role's class name appears in the stylesheet as the selector
      ".<name> {". */
  lemma CssHasSelector(m: ClassMap, k: Key)
    ensures Contains(CreateCss(m), "." + Get(m, k) + " {")
  {
    var i := RuleIndex(k);
    var parts := RenderedRules(m, Selectors, Bodies);
    RuleOccurs(parts, i, Get(m, k), "", Bodies[i]);
    SelectorTextForms(Get(m, k));
  }

  /** The connect button's class also carries the ":hover" rule. */
  lemma CssHasHoverSelector(m: ClassMap)
    ensures Contains(CreateCss(m), "." + Get(m, ConnectButton) + ":hover {")
  {
    var parts := RenderedRules(m, Selectors, Bodies);
    assert Selectors[8] == Selector(ConnectButton, ":hover");
    RuleOccurs(parts, 8, Get(m, ConnectButton), ":hover", Bodies[8]);
    SelectorTextForms(Get(m, ConnectButton));
  }
}
