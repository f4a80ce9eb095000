/** JavaScript string and number primitives that the site's code relies on,
    stated over Dafny strings (sequences of Unicode scalar values). */
module Text {

  datatype Option<T> = None | Some(value: T) {
    /** The `??` operator: the carried value, or `default` when absent. */
    function OrElse(default: T): T {
      match this
      case Some(v) => v
      case None => default
    }
  }

  function Min(a: int, b: int): int { if a <= b then a else b }

  /** `s.startsWith(prefix)`. */
  predicate StartsWith(s: string, prefix: string) {
    |prefix| <= |s| && s[..|prefix|] == prefix
  }

  /** `pat` occurs in `s` starting at index `k`. */
  predicate OccursAt(s: string, pat: string, k: int) {
    0 <= k && k + |pat| <= |s| && s[k..k + |pat|] == pat
  }

  /** `s.includes(pat)`. */
  predicate Contains(s: string, pat: string) {
    exists k :: 0 <= k <= |s| - |pat| && OccursAt(s, pat, k)
  }

  /** A string occurs in any concatenation that has it in the middle. */
  lemma ContainsMiddle(a: string, pat: string, b: string)
    ensures OccursAt(a + pat + b, pat, |a|) && Contains(a + pat + b, pat)
  {
    var s := a + pat + b;
    assert s[|a|..|a| + |pat|] == pat;
    assert OccursAt(s, pat, |a|);
  }

  /** A string that occurs inside one part occurs in the concatenation. */
  lemma ContainsInPart(parts: seq<string>, i: nat, x: string, pat: string, y: string)
    requires i < |parts| && parts[i] == x + pat + y
    ensures Contains(Concat(parts), pat)
  {
    ConcatAt(parts, i);
    var before, after := Concat(parts[..i]), Concat(parts[i + 1..]);
    assert Concat(parts) == (before + x) + pat + (y + after);
    ContainsMiddle(before + x, pat, y + after);
  }

  /** `s.indexOf(pat, from)` for a non-empty pattern: the first occurrence at
      or after `from`, or -1. */
  function IndexFrom(s: string, pat: string, from: nat): (r: int)
    requires |pat| > 0
    ensures r == -1 || (from <= r && OccursAt(s, pat, r))
    ensures forall k :: from <= k && (r == -1 || k < r) ==> !OccursAt(s, pat, k)
    decreases |s| - from
  {
    if from + |pat| > |s| then -1
    else if s[from..from + |pat|] == pat then from
    else IndexFrom(s, pat, from + 1)
  }

  /** `s.split(sep)` for a non-empty separator (no limit argument). */
  function Split(s: string, sep: string): (parts: seq<string>)
    requires |sep| > 0
    ensures |parts| >= 1
    decreases |s|
  {
    var i := IndexFrom(s, sep, 0);
    if i < 0 then [s] else [s[..i]] + Split(s[i + |sep|..], sep)
  }

  /** `parts.join(sep)`. */
  function Join(parts: seq<string>, sep: string): string
    decreases |parts|
  {
    if |parts| == 0 then ""
    else if |parts| == 1 then parts[0]
    else parts[0] + sep + Join(parts[1..], sep)
  }

  /** Splitting and re-joining on the same separator gives back the text. */
  lemma {:induction false} JoinSplit(s: string, sep: string)
    requires |sep| > 0
    ensures Join(Split(s, sep), sep) == s
    decreases |s|
  {
    var i := IndexFrom(s, sep, 0);
    if i >= 0 {
      var head, rest := s[..i], s[i + |sep|..];
      var tail := Split(rest, sep);
      JoinSplit(rest, sep);
      var parts := [head] + tail;
      assert Split(s, sep) == parts;
      assert |parts| >= 2 && parts[0] == head && parts[1..] == tail;
      assert Join(parts, sep) == head + sep + rest;
      assert s[i..i + |sep|] == sep;
      assert s == head + s[i..i + |sep|] + rest;
    }
  }

  /** No piece of a split contains the separator. */
  lemma {:induction false} SplitPiecesFree(s: string, sep: string)
    requires |sep| > 0
    ensures forall p :: p in Split(s, sep) ==> !Contains(p, sep)
    decreases |s|
  {
    var i := IndexFrom(s, sep, 0);
    if i >= 0 {
      var rest := s[i + |sep|..];
      SplitPiecesFree(rest, sep);
      var head := s[..i];
      forall k | OccursAt(head, sep, k) ensures false {
        assert head[k..k + |sep|] == s[k..k + |sep|];
        assert OccursAt(s, sep, k);
      }
    }
  }

  /** Every cut falls at the leftmost separator: no piece but the last,
      followed by all but the last character of the separator, contains it.
      So no occurrence of the separator starts inside a piece. */
  lemma {:induction false} SplitLeftmost(s: string, sep: string)
    requires |sep| > 0
    ensures var parts := Split(s, sep);
      forall j :: 0 <= j < |parts| - 1 ==> !Contains(parts[j] + sep[..|sep| - 1], sep)
    decreases |s|
  {
    var i := IndexFrom(s, sep, 0);
    if i >= 0 {
      var rest := s[i + |sep|..];
      SplitLeftmost(rest, sep);
      var head := s[..i];
      var parts := Split(s, sep);
      assert parts == [head] + Split(rest, sep);
      var window := head + sep[..|sep| - 1];
      assert window == s[..i + |sep| - 1];
      forall k | OccursAt(window, sep, k) ensures false {
        assert window[k..k + |sep|] == s[k..k + |sep|];
        assert OccursAt(s, sep, k);
      }
      forall j | 1 <= j < |parts| - 1 ensures !Contains(parts[j] + sep[..|sep| - 1], sep) {
        assert parts[j] == Split(rest, sep)[j - 1];
      }
    }
  }

  /** The pieces of a split are the only ones with its three properties:
      pieces free of the separator, each but the last cut at the leftmost
      occurrence, joined by the separator into the text. */
  lemma {:induction false} SplitUnique(ps: seq<string>, sep: string)
    requires |sep| > 0 && |ps| >= 1
    requires forall p :: p in ps ==> !Contains(p, sep)
    requires forall j :: 0 <= j < |ps| - 1 ==> !Contains(ps[j] + sep[..|sep| - 1], sep)
    ensures Split(Join(ps, sep), sep) == ps
    decreases |ps|
  {
    if |ps| == 1 {
      assert ps[0] in ps;
      assert IndexFrom(ps[0], sep, 0) == -1;
    } else {
      var head, tail := ps[0], ps[1..];
      forall p | p in tail ensures !Contains(p, sep) {
        assert p in ps;
      }
      forall j | 0 <= j < |tail| - 1 ensures !Contains(tail[j] + sep[..|sep| - 1], sep) {
        assert tail[j] == ps[j + 1];
      }
      SplitUnique(tail, sep);
      SplitAtFirst(head, sep, Join(tail, sep));
      assert ps == [head] + tail;
    }
  }

  /** A head in which no occurrence of the separator starts is cut off
      whole by the first cut. */
  lemma SplitAtFirst(head: string, sep: string, rest: string)
    requires |sep| > 0
    requires !Contains(head + sep[..|sep| - 1], sep)
    ensures Split(head + sep + rest, sep) == [head] + Split(rest, sep)
  {
    var s := head + sep + rest;
    var i := IndexFrom(s, sep, 0);
    assert OccursAt(s, sep, |head|) by {
      assert s[|head|..|head| + |sep|] == sep;
    }
    var window := head + sep[..|sep| - 1];
    assert window == s[..|head| + |sep| - 1];
    assert i == |head| by {
      if 0 <= i < |head| {
        assert window[i..i + |sep|] == s[i..i + |sep|];
        assert OccursAt(window, sep, i);
        assert false;
      }
    }
    assert s[..i] == head && s[i + |sep|..] == rest;
  }

  /** Joining two non-empty lists of pieces joins their joins. */
  lemma {:induction false} JoinAppend(xs: seq<string>, ys: seq<string>, sep: string)
    requires |xs| > 0 && |ys| > 0
    ensures Join(xs + ys, sep) == Join(xs, sep) + sep + Join(ys, sep)
    decreases |xs|
  {
    if |xs| == 1 {
      assert (xs + ys)[1..] == ys;
    } else {
      assert (xs + ys)[1..] == xs[1..] + ys;
      JoinAppend(xs[1..], ys, sep);
    }
  }

  /** Appending is associative; stated once so long proofs need not rederive it. */
  lemma AppendAssoc<T>(a: seq<T>, b: seq<T>, c: seq<T>)
    ensures (a + b) + c == a + (b + c)
  {
  }

  /** The strings of `parts` one after another. */
  function Concat(parts: seq<string>): string
    decreases |parts|
  {
    if |parts| == 0 then "" else parts[0] + Concat(parts[1..])
  }

  /** Part `i` sits between the parts before it and the parts after it. */
  lemma {:induction false} ConcatAt(parts: seq<string>, i: nat)
    requires i < |parts|
    ensures Concat(parts) == Concat(parts[..i]) + parts[i] + Concat(parts[i + 1..])
    decreases i
  {
    if i == 0 {
      assert parts[..0] == [];
    } else {
      ConcatAt(parts[1..], i - 1);
      assert parts[1..][..i - 1] == parts[1..i];
      assert parts[1..][i - 1] == parts[i];
      assert parts[1..][i..] == parts[i + 1..];
      assert parts[..i][1..] == parts[1..i];
      assert parts[..i][0] == parts[0];
    }
  }

  /** `s.replace(pat, rep)` with a string pattern: only the first occurrence
      is replaced. */
  function ReplaceFirst(s: string, pat: string, rep: string): (r: string)
    requires |pat| > 0
    ensures !Contains(s, pat) ==> r == s
    ensures StartsWith(s, pat) ==> r == rep + s[|pat|..]
  {
    var i := IndexFrom(s, pat, 0);
    if i < 0 then s else s[..i] + rep + s[i + |pat|..]
  }

  /** `s.replace(/c/g, "")`: every occurrence of the character removed. */
  function RemoveChar(s: string, c: char): (r: string)
    ensures c !in r
    ensures |r| <= |s|
    ensures c !in s ==> r == s
    ensures s == [c] ==> r == ""
  {
    if |s| == 0 then ""
    else if s[0] == c then RemoveChar(s[1..], c)
    else [s[0]] + RemoveChar(s[1..], c)
  }

  /** Removing a character distributes over concatenation. */
  lemma {:induction false} RemoveCharAppend(a: string, b: string, c: char)
    ensures RemoveChar(a + b, c) == RemoveChar(a, c) + RemoveChar(b, c)
    decreases |a|
  {
    if |a| > 0 {
      assert (a + b)[1..] == a[1..] + b;
      RemoveCharAppend(a[1..], b, c);
    } else {
      assert a + b == b;
    }
  }

  /** `s.slice(0, end)` for an integral `end`: a negative end counts back
      from the end of the string; the result never runs past either end. */
  function SliceTo(s: string, end: int): (r: string)
    ensures 0 <= end ==> |r| == Min(end, |s|)
    ensures end < 0 ==> |r| == (if |s| + end < 0 then 0 else |s| + end)
    ensures StartsWith(s, r)
  {
    var stop := if end < 0 then (if |s| + end < 0 then 0 else |s| + end)
                else Min(end, |s|);
    s[..stop]
  }

  /** `s.padStart(width, fill)` with a one-character fill: `s` preceded by
      as many copies of `fill` as it takes to reach `width`. */
  function PadStart(s: string, width: nat, fill: char): (r: string)
    ensures |r| == (if |s| >= width then |s| else width)
    ensures r[|r| - |s|..] == s
    ensures forall i :: 0 <= i < |r| - |s| ==> r[i] == fill
    decreases width - |s|
  {
    if |s| >= width then s else PadStart([fill] + s, width, fill)
  }

  /** Leading zeros do not change the value of a numeral. */
  lemma {:induction false} LeadingZeros(z: string, s: string, radix: nat)
    requires 2 <= radix <= 36
    requires forall i :: 0 <= i < |z| ==> z[i] == '0'
    ensures NumeralValue(z + s, radix) == NumeralValue(s, radix)
    decreases |s|
  {
    if |s| == 0 {
      assert z + s == z;
      ZerosValue(z, radix);
    } else {
      var n := |z + s|;
      assert (z + s)[..n - 1] == z + s[..|s| - 1];
      assert (z + s)[n - 1] == s[|s| - 1];
      LeadingZeros(z, s[..|s| - 1], radix);
    }
  }

  lemma {:induction false} ZerosValue(z: string, radix: nat)
    requires 2 <= radix <= 36
    requires forall i :: 0 <= i < |z| ==> z[i] == '0'
    ensures NumeralValue(z, radix) == 0
    decreases |z|
  {
    if |z| > 0 {
      ZerosValue(z[..|z| - 1], radix);
    }
  }

  /** The white space and line terminators that `String.prototype.trim`
      removes (section 22.1.3.32 of ECMA-262). */
  predicate IsJsSpace(c: char) {
    c == '\t' || c == '\n' || c == '\U{000B}' || c == '\U{000C}' || c == '\r' ||
    c == ' ' || c == '\U{00A0}' || c == '\U{1680}' ||
    ('\U{2000}' <= c <= '\U{200A}') || c == '\U{2028}' || c == '\U{2029}' ||
    c == '\U{202F}' || c == '\U{205F}' || c == '\U{3000}' || c == '\U{FEFF}'
  }

  /** How many white-space characters `s` starts with. */
  function LeadingSpace(s: string): (n: nat)
    ensures n <= |s|
    ensures forall i :: 0 <= i < n ==> IsJsSpace(s[i])
    ensures n < |s| ==> !IsJsSpace(s[n])
  {
    if |s| > 0 && IsJsSpace(s[0]) then 1 + LeadingSpace(s[1..]) else 0
  }

  /** How many white-space characters `s` ends with. */
  function TrailingSpace(s: string): (n: nat)
    ensures n <= |s|
    ensures forall i :: |s| - n <= i < |s| ==> IsJsSpace(s[i])
    ensures n < |s| ==> !IsJsSpace(s[|s| - n - 1])
  {
    if |s| > 0 && IsJsSpace(s[|s| - 1]) then 1 + TrailingSpace(s[..|s| - 1]) else 0
  }

  /** `r` is `s[a..b]` and everything outside `a..b` is white space. */
  predicate CutAt(s: string, r: string, a: int, b: int) {
    0 <= a <= b <= |s| && r == s[a..b] &&
    (forall i :: 0 <= i < a ==> IsJsSpace(s[i])) &&
    (forall i :: b <= i < |s| ==> IsJsSpace(s[i]))
  }

  /** `s.trim()`: a contiguous piece of `s` that neither starts nor ends with
      white space, everything cut away being white space. */
  function Trim(s: string): (r: string)
    ensures exists a, b :: CutAt(s, r, a, b)
    ensures |r| > 0 ==> !IsJsSpace(r[0]) && !IsJsSpace(r[|r| - 1])
    ensures r == "" <==> forall i :: 0 <= i < |s| ==> IsJsSpace(s[i])
  {
    var a := LeadingSpace(s);
    if a == |s| then
      assert CutAt(s, "", a, a);
      ""
    else
      var z := TrailingSpace(s);
      assert !IsJsSpace(s[a]);
      assert CutAt(s, s[a..|s| - z], a, |s| - z);
      s[a..|s| - z]
  }

  // ---------------------------------------------------------------------
  // Numerals: `Number.prototype.toString(radix)` for integral values.
  // ---------------------------------------------------------------------

  /** The value of a digit character: 0-9 then a-z; 36 for anything else. */
  function DigitValue(c: char): (d: nat)
    ensures d <= 36
  {
    if '0' <= c <= '9' then (c as int) - ('0' as int)
    else if 'a' <= c <= 'z' then (c as int) - ('a' as int) + 10
    else 36
  }

  predicate IsDigitIn(c: char, radix: nat) {
    DigitValue(c) < radix
  }

  /** The digit character of value `d`, lower-case letters above 9. */
  function DigitChar(d: nat): (c: char)
    requires d < 36
    ensures DigitValue(c) == d
  {
    if d < 10 then ('0' as int + d) as char else ('a' as int + d - 10) as char
  }

  /** The digits of `n` in the given radix, most significant first, without
      leading zeros ("0" for zero). */
  function Numeral(n: nat, radix: nat): (s: string)
    requires 2 <= radix <= 36
    ensures |s| >= 1
    ensures forall i :: 0 <= i < |s| ==> IsDigitIn(s[i], radix)
    ensures |s| > 1 ==> s[0] != '0'
    decreases n
  {
    if n < radix then [DigitChar(n)]
    else
      QuotientFacts(n, radix);
      var hi := Numeral(n / radix, radix);
      assert hi[0] != '0' by {
        if |hi| == 1 { assert DigitValue(hi[0]) == n / radix; }
      }
      hi + [DigitChar(n % radix)]
  }

  /** The quotient of a number of at least one radix is a smaller, positive
      number. */
  lemma QuotientFacts(n: nat, radix: nat)
    requires 2 <= radix <= n
    ensures 1 <= n / radix < n && n % radix < radix
  {
    DivMod(n, radix);
  }

  /** The value of a string of digits in the given radix (the inverse of
      `Numeral`; leading zeros are allowed). */
  function NumeralValue(s: string, radix: nat): nat
    requires 2 <= radix <= 36
  {
    if |s| == 0 then 0
    else NumeralValue(s[..|s| - 1], radix) * radix + Min(DigitValue(s[|s| - 1]), radix - 1)
  }

  function Pow(b: nat, k: nat): (r: nat)
    ensures b >= 1 ==> r >= 1
  {
    if k == 0 then 1 else b * Pow(b, k - 1)
  }

  /** Reading back a numeral gives the number it was rendered from. */
  lemma {:induction false} NumeralRoundTrip(n: nat, radix: nat)
    requires 2 <= radix <= 36
    ensures NumeralValue(Numeral(n, radix), radix) == n
    decreases n
  {
    var s := Numeral(n, radix);
    if n < radix {
      assert s == [DigitChar(n)];
      assert s[..0] == [];
      assert NumeralValue(s, radix) == NumeralValue([], radix) * radix + Min(n, radix - 1);
    } else {
      var q, d := n / radix, n % radix;
      DivLess(n, radix);
      NumeralRoundTrip(q, radix);
      var front := Numeral(q, radix);
      assert s == front + [DigitChar(d)];
      assert s[..|s| - 1] == front;
      assert s[|s| - 1] == DigitChar(d);
      assert NumeralValue(s, radix) == q * radix + d;
      DivMod(n, radix);
    }
  }

  lemma DivMod(n: nat, radix: nat)
    requires radix >= 2
    ensures n == (n / radix) * radix + n % radix
  {
  }

  /** A numeral has at most `k` digits exactly when the number is below
      `radix^k`. */
  lemma {:induction false} NumeralLength(n: nat, radix: nat, k: nat)
    requires 2 <= radix <= 36 && k >= 1
    ensures |Numeral(n, radix)| <= k <==> n < Pow(radix, k)
    decreases n
  {
    if n < radix {
      assert |Numeral(n, radix)| == 1;
      PowMonotone(radix, 1, k);
      assert Pow(radix, 1) == radix * Pow(radix, 0);
    } else {
      var q := n / radix;
      NumeralStep(n, radix);
      if k == 1 {
        assert Pow(radix, 1) == radix;
      } else {
        DivLess(n, radix);
        NumeralLength(q, radix, k - 1);
        var p := Pow(radix, k - 1);
        assert Pow(radix, k) == radix * p;
        DivBelow(n, radix, p);
      }
    }
  }

  /** A numeral of at least one radix is the numeral of the quotient
      followed by one digit. */
  lemma NumeralStep(n: nat, radix: nat)
    requires 2 <= radix <= n && radix <= 36
    ensures |Numeral(n, radix)| == |Numeral(n / radix, radix)| + 1
    ensures |Numeral(n, radix)| >= 2
  {
  }

  lemma DivLess(n: nat, radix: nat)
    requires radix >= 2 && n >= 1
    ensures n / radix < n
  {
    DivMod(n, radix);
  }

  lemma DivBelow(n: nat, radix: nat, p: nat)
    requires radix >= 2
    ensures n / radix < p <==> n < radix * p
  {
    var q, r := n / radix, n % radix;
    DivMod(n, radix);
    if q < p {
      MulMonotone(radix, q + 1, p);
    } else {
      MulMonotone(radix, p, q);
    }
  }

  lemma MulMonotone(a: nat, x: nat, y: nat)
    requires x <= y
    ensures a * x <= a * y
  {
  }

  lemma {:induction false} PowMonotone(b: nat, i: nat, j: nat)
    requires b >= 1 && i <= j
    ensures Pow(b, i) <= Pow(b, j)
    decreases j
  {
    if i < j {
      PowMonotone(b, i, j - 1);
      MulMonotone(Pow(b, j - 1), 1, b);
    }
  }

  /** `String(n)` for an integral number: a minus sign, then the decimal
      digits of the magnitude. */
  function DecimalText(n: int): (s: string)
    ensures |s| >= 1
    ensures n < 0 <==> s[0] == '-'
  {
    if n < 0 then "-" + Numeral(-n, 10) else Numeral(n, 10)
  }

  /** Reads back an optionally signed decimal numeral. */
  function ParseDecimal(s: string): Option<int> {
    if |s| > 0 && s[0] == '-' then
      (if |s| > 1 && forall i :: 1 <= i < |s| ==> IsDigitIn(s[i], 10)
       then Some(-(NumeralValue(s[1..], 10) as int)) else None)
    else if |s| > 0 && forall i :: 0 <= i < |s| ==> IsDigitIn(s[i], 10)
      then Some(NumeralValue(s, 10) as int)
    else None
  }

  /** Decimal text is read back as the number it came from. */
  lemma DecimalRoundTrip(n: int)
    ensures ParseDecimal(DecimalText(n)) == Some(n)
  {
    if n < 0 {
      var digits := Numeral(-n, 10);
      assert ("-" + digits)[1..] == digits;
      NumeralRoundTrip(-n, 10);
      assert forall i :: 1 <= i < |"-" + digits| ==> ("-" + digits)[i] == digits[i - 1];
    } else {
      NumeralRoundTrip(n, 10);
      assert DecimalText(n)[0] != '-' by {
        assert IsDigitIn(DecimalText(n)[0], 10);
      }
    }
  }
}
