/** Per-visitor seed generation: strip every hyphen from a random base text
    and keep a prefix of it. The random source is an input: either the
    textual UUID that `crypto.randomUUID` returns, or, where that is not
    available, the millisecond clock followed by the text of a random
    number. */
module Seed {
  import opened Text

  /** The default seed length. */
  const DefaultLength: int := 12

  /** Where the base text comes from. `randomText` is the decimal text of
      `Math.random()`, taken as given. */
  datatype RandomSource =
    | Uuid(text: string)
    | Fallback(nowMs: nat, randomText: string)

  /** The base text: the UUID, or the clock digits followed by the random
      text. */
  function Base(src: RandomSource): string {
    match src
    case Uuid(text) => text
    case Fallback(nowMs, randomText) => DecimalText(nowMs) + randomText
  }

  /** `base.replace(/-/g, "").slice(0, length)`: a hyphen-free prefix of
      the stripped base; for a non-negative length it is min(length,
      |stripped base|) long, so never longer than `length`. */
  function Derive(base: string, length: int): (r: string)
    ensures '-' !in r
    ensures StartsWith(RemoveChar(base, '-'), r)
    ensures 0 <= length ==> |r| == Min(length, |RemoveChar(base, '-')|) && |r| <= length
  {
    var stripped := RemoveChar(base, '-');
    var r := SliceTo(stripped, length);
    assert forall i :: 0 <= i < |r| ==> r[i] == stripped[i];
    r
  }

  /** `generateSeed(length)`. */
  function GenerateSeed(src: RandomSource, length: int): string {
    Derive(Base(src), length)
  }

  /** A shorter seed from the same base is a prefix of a longer one. */
  lemma SeedMonotone(base: string, l1: int, l2: int)
    requires 0 <= l1 <= l2
    ensures StartsWith(Derive(base, l2), Derive(base, l1))
  {
    var stripped := RemoveChar(base, '-');
    var short, long := Derive(base, l1), Derive(base, l2);
    assert short == stripped[..|short|];
    assert long == stripped[..|long|];
    assert long[..|short|] == short;
  }

  // ---------------------------------------------------------------------
  // The UUID source
  // ---------------------------------------------------------------------

  predicate IsLowerHex(c: char) {
    '0' <= c <= '9' || 'a' <= c <= 'f'
  }

  /** The 36-character textual form of a UUID (section 4 of RFC 9562) as
      `randomUUID` writes it: lower-case hex digits in groups of 8, 4, 4, 4
      and 12, separated by hyphens. */
  predicate IsUuidText(u: string) {
    |u| == 36 &&
    (forall i :: 0 <= i < 36 ==> (u[i] == '-' <==> i in {8, 13, 18, 23})) &&
    (forall i :: 0 <= i < 36 && u[i] != '-' ==> IsLowerHex(u[i]))
  }

  /** Stripping hyphens from `a-b` where `a` has none keeps `a` whole. */
  lemma StripAfter(a: string, b: string)
    requires '-' !in a
    ensures RemoveChar(a + "-" + b, '-') == a + RemoveChar(b, '-')
  {
    assert a + "-" + b == a + ("-" + b);
    RemoveCharAppend(a, "-" + b, '-');
    assert RemoveChar("-" + b, '-') == RemoveChar(b, '-') by {
      assert ("-" + b)[1..] == b;
    }
  }

  /** The hyphens of a UUID sit only between its groups, so the stripped
      text starts with the first two groups. */
  lemma UuidStripped(u: string)
    requires IsUuidText(u)
    ensures RemoveChar(u, '-') == u[..8] + u[9..13] + RemoveChar(u[14..], '-')
  {
    var g1, g2, rest := u[..8], u[9..13], u[14..];
    assert u == g1 + "-" + (g2 + "-" + rest);
    assert '-' !in g1 by {
      forall i | 0 <= i < 8 ensures g1[i] != '-' { assert g1[i] == u[i]; }
    }
    assert '-' !in g2 by {
      forall i | 0 <= i < 4 ensures g2[i] != '-' { assert g2[i] == u[9 + i]; }
    }
    StripAfter(g1, g2 + "-" + rest);
    StripAfter(g2, rest);
  }

  /** With a UUID as base, a 12-character seed is the first group and the
      second group of the UUID: twelve lower-case hex digits. */
  lemma UuidSeed(u: string)
    requires IsUuidText(u)
    ensures GenerateSeed(Uuid(u), 12) == u[..8] + u[9..13]
    ensures |GenerateSeed(Uuid(u), 12)| == 12
    ensures forall i :: 0 <= i < 12 ==> IsLowerHex(GenerateSeed(Uuid(u), 12)[i])
  {
    var head := u[..8] + u[9..13];
    UuidStripped(u);
    assert (head + RemoveChar(u[14..], '-'))[..12] == head;
    forall i | 0 <= i < 12 ensures IsLowerHex(head[i]) {
      if i < 8 { assert head[i] == u[i]; } else { assert head[i] == u[i + 1]; }
    }
  }

  // ---------------------------------------------------------------------
  // The clock fallback
  // ---------------------------------------------------------------------

  /** With the clock fallback and a clock of at least twelve digits, a
      12-character seed is the first twelve clock digits; the random text
      plays no part. */
  lemma FallbackSeed(nowMs: nat, randomText: string)
    requires |DecimalText(nowMs)| >= 12
    ensures GenerateSeed(Fallback(nowMs, randomText), 12) == DecimalText(nowMs)[..12]
  {
    var digits := DecimalText(nowMs);
    assert '-' !in digits by {
      forall i | 0 <= i < |digits| ensures digits[i] != '-' {
        assert IsDigitIn(digits[i], 10);
      }
    }
    RemoveCharAppend(digits, randomText, '-');
    assert (digits + RemoveChar(randomText, '-'))[..12] == digits[..12];
  }
}
