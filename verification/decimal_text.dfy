/**
 * new BigDecimal(String): an optional sign, a significand of decimal digits
 * with at most one '.', at least one digit, and an optional exponent
 * introduced by 'e' or 'E'. The exponent and the resulting scale must fit a
 * 32-bit int. The plain rendering of a decimal of non-negative scale reads
 * back to the same decimal.
 */
module DecimalText {
  import opened Wrappers
  import opened Decimals
  import opened Text

  const IntMin: int := -0x8000_0000
  const IntMax: int := 0x7fff_ffff

  predicate IsExponentMark(c: char) {
    c == 'e' || c == 'E'
  }

  /** The characters a numeral may contain: digits, the point, signs and exponent marks. */
  predicate IsNumeralChar(c: char) {
    IsDigit(c) || c == '.' || c == '+' || c == '-' || IsExponentMark(c)
  }

  predicate AllNumeralChars(s: string) {
    forall i :: 0 <= i < |s| ==> IsNumeralChar(s[i])
  }

  /** Index of the first exponent mark at or after i, or |s| when there is none. */
  function ExponentIndex(s: string, i: nat := 0): (r: nat)
    requires i <= |s|
    ensures i <= r <= |s|
    ensures forall j :: i <= j < r ==> !IsExponentMark(s[j])
    ensures r < |s| ==> IsExponentMark(s[r])
    decreases |s| - i
  {
    if i == |s| || IsExponentMark(s[i]) then i else ExponentIndex(s, i + 1)
  }

  /** Index of the first '.' at or after i, or |s| when there is none. */
  function DotIndex(s: string, i: nat := 0): (r: nat)
    requires i <= |s|
    ensures i <= r <= |s|
    ensures forall j :: i <= j < r ==> s[j] != '.'
    ensures r < |s| ==> s[r] == '.'
    decreases |s| - i
  {
    if i == |s| || s[i] == '.' then i else DotIndex(s, i + 1)
  }

  /** The exponent after the mark: an optional sign and at least one digit, within the int range. */
  function ParseExponent(s: string): (r: Option<int>)
    ensures r.Some? ==> IntMin <= r.value <= IntMax
  {
    var neg := |s| > 0 && s[0] == '-';
    var digits := if |s| > 0 && (s[0] == '-' || s[0] == '+') then s[1..] else s;
    if |digits| == 0 || !AllDigits(digits) then None
    else
      var v: int := if neg then -(DigitsValue(digits) as int) else DigitsValue(digits);
      if IntMin <= v <= IntMax then Some(v) else None
  }

  /** The digits around the first '.' of a significand: its magnitude and its number of fraction digits. */
  function ParseSignificand(t: string): (r: Option<(nat, nat)>)
    ensures r.Some? ==> r.value.1 <= |t| && |t| > 0
  {
    var dot := DotIndex(t);
    var whole := t[..dot];
    var fraction := if dot < |t| then t[dot + 1..] else "";
    if !AllDigits(whole) || !AllDigits(fraction) || |whole| + |fraction| == 0 then None
    else Some((DigitsValue(whole) * Pow10(|fraction|) + DigitsValue(fraction), |fraction|))
  }

  /** An unsigned decimal: a significand and an optional exponent, with the scale they give within the int range. */
  function ParseUnsigned(body: string): (r: Option<Decimal>)
    ensures r.Some? ==> r.value.unscaled >= 0 && IntMin <= r.value.scale <= IntMax
    ensures r.Some? ==> |body| > 0
  {
    var e := ExponentIndex(body);
    var significand := ParseSignificand(body[..e]);
    var exponent := if e < |body| then ParseExponent(body[e + 1..]) else Some(0);
    if significand.None? || exponent.None? then None
    else
      var scale := significand.value.1 - exponent.value;
      if scale < IntMin || scale > IntMax then None
      else Some(Decimal(significand.value.0, scale))
  }

  /** An optional leading '+' or '-' and the text after it. */
  function SplitSign(s: string): (r: (bool, string))
    ensures |r.1| <= |s|
  {
    if |s| > 0 && (s[0] == '+' || s[0] == '-') then (s[0] == '-', s[1..]) else (false, s)
  }

  function Negated(d: Decimal): Decimal {
    Decimal(-d.unscaled, d.scale)
  }

  /** new BigDecimal(s), with None for the inputs on which Java throws NumberFormatException. */
  function ParseDecimal(s: string): (r: Option<Decimal>)
    ensures r.Some? ==> IntMin <= r.value.scale <= IntMax
    ensures r.Some? ==> |s| > 0
    ensures r.Some? && s[0] == '-' ==> r.value.unscaled <= 0
    ensures r.Some? && s[0] != '-' ==> r.value.unscaled >= 0
  {
    var (neg, body) := SplitSign(s);
    match ParseUnsigned(body)
    case None => None
    case Some(d) => Some(if neg then Negated(d) else d)
  }

  lemma SignificandChars(t: string)
    requires ParseSignificand(t).Some?
    ensures AllNumeralChars(t)
  {
    var dot := DotIndex(t);
    forall i | 0 <= i < |t|
      ensures IsNumeralChar(t[i])
    {
      if i < dot {
        assert t[i] == t[..dot][i];
      } else if i > dot {
        assert t[i] == t[dot + 1..][i - dot - 1];
      }
    }
  }

  lemma ExponentChars(s: string)
    requires ParseExponent(s).Some?
    ensures AllNumeralChars(s)
  {
    if s[0] == '-' || s[0] == '+' {
      forall i | 1 <= i < |s|
        ensures IsDigit(s[i])
      {
        assert s[i] == s[1..][i - 1];
      }
    }
  }

  lemma UnsignedChars(body: string)
    requires ParseUnsigned(body).Some?
    ensures AllNumeralChars(body)
  {
    var e := ExponentIndex(body);
    var head := body[..e];
    var tail := if e < |body| then body[e + 1..] else "";
    assert ParseSignificand(head).Some?;
    SignificandChars(head);
    if e < |body| {
      assert ParseExponent(tail).Some?;
      ExponentChars(tail);
    }
    forall i | 0 <= i < |body|
      ensures IsNumeralChar(body[i])
    {
      if i < e {
        assert body[i] == head[i] && IsNumeralChar(head[i]);
      } else if i > e {
        assert body[i] == tail[i - e - 1] && IsNumeralChar(tail[i - e - 1]);
      }
    }
  }

  /**
   * new BigDecimal accepts nothing but digits, the point, signs and exponent
   * marks: in particular no surrounding whitespace.
   */
  lemma ParsedIsNumeral(s: string)
    requires ParseDecimal(s).Some?
    ensures AllNumeralChars(s)
  {
    var (neg, body) := SplitSign(s);
    UnsignedChars(body);
    if |body| < |s| {
      forall i | 1 <= i < |s|
        ensures IsNumeralChar(s[i])
      {
        assert s[i] == body[i - 1];
      }
    }
  }

  /** A numeral with leading whitespace or control characters is rejected, as it is not trimmed first. */
  lemma LeadingSpaceRejected(pad: string, x: string)
    requires pad != "" && AllTrimmed(pad)
    ensures ParseDecimal(pad + x).None?
  {
    if ParseDecimal(pad + x).Some? {
      ParsedIsNumeral(pad + x);
    }
  }

  /** n written with exactly w digits, leading zeros included. */
  function PadDigits(n: nat, w: nat): (r: string)
    requires n < Pow10(w)
    ensures |r| == w && AllDigits(r) && DigitsValue(r) == n
  {
    if w == 0 then ""
    else
      var (q, d) := DivMod(n, 10);
      var r := PadDigits(q, w - 1) + [DigitChar(d)];
      assert r[..|r| - 1] == PadDigits(q, w - 1);
      r
  }

  /** BigDecimal.toPlainString for a decimal of non-negative scale. */
  function PlainString(d: Decimal): (r: string)
    requires d.scale >= 0
  {
    var m := Abs(d.unscaled);
    var p := Pow10(d.scale);
    var sign := if d.unscaled < 0 then "-" else "";
    if d.scale == 0 then sign + NatToString(m)
    else
      var (whole, fraction) := DivMod(m, p);
      sign + (NatToString(whole) + ("." + PadDigits(fraction, d.scale)))
  }

  lemma DotIndexAfterDigits(w: string, rest: string)
    requires AllDigits(w) && |rest| > 0 && rest[0] == '.'
    ensures DotIndex(w + rest) == |w|
  {
    var s := w + rest;
    var i := DotIndex(s);
    assert s[|w|] == '.';
    assert i < |w| ==> IsDigit(s[i]);
  }

  lemma ExponentIndexOfPlain(s: string)
    requires forall j :: 0 <= j < |s| ==> IsDigit(s[j]) || s[j] == '.'
    ensures ExponentIndex(s) == |s|
  {
    var i := ExponentIndex(s);
    assert i < |s| ==> IsExponentMark(s[i]);
  }

  /** The magnitude of digits w followed by fraction digits f. */
  function Magnitude(w: string, f: string): nat
    requires AllDigits(w) && AllDigits(f)
  {
    DigitsValue(w) * Pow10(|f|) + DigitsValue(f)
  }

  /** Digits, optionally followed by '.' and more digits, form a significand. */
  lemma SignificandOfParts(whole: string, fraction: string, hasDot: bool)
    requires |whole| > 0 && AllDigits(whole) && AllDigits(fraction)
    requires hasDot || fraction == ""
    ensures ParseSignificand(if hasDot then whole + ("." + fraction) else whole)
      == Some((Magnitude(whole, fraction), |fraction|))
  {
    if hasDot {
      var body := whole + ("." + fraction);
      DotIndexAfterDigits(whole, "." + fraction);
      assert body[..|whole|] == whole;
      assert body[|whole| + 1..] == fraction;
    } else {
      assert DotIndex(whole) == |whole|;
      assert whole[..|whole|] == whole;
    }
  }

  /** Without an exponent mark, the value is the significand's at the scale of its fraction digits. */
  lemma UnsignedWithoutExponent(body: string)
    requires ExponentIndex(body) == |body|
    requires ParseSignificand(body).Some? && ParseSignificand(body).value.1 <= IntMax
    ensures ParseUnsigned(body) == Some(Decimal(ParseSignificand(body).value.0, ParseSignificand(body).value.1))
  {
    assert body[..|body|] == body;
  }

  /** A significand with no exponent parses at the scale of its fraction digits. */
  lemma UnsignedOfParts(whole: string, fraction: string, hasDot: bool, body: string)
    requires |whole| > 0 && AllDigits(whole) && AllDigits(fraction)
    requires hasDot || fraction == ""
    requires |fraction| <= IntMax
    requires body == if hasDot then whole + ("." + fraction) else whole
    ensures ParseUnsigned(body) == Some(Decimal(Magnitude(whole, fraction), |fraction|))
  {
    SignificandOfParts(whole, fraction, hasDot);
    ExponentIndexOfPlain(body);
    UnsignedWithoutExponent(body);
  }

  lemma SplitSignOf(neg: bool, body: string)
    requires |body| > 0 && IsDigit(body[0])
    ensures SplitSign((if neg then "-" else "") + body) == (neg, body)
  {
    var s := (if neg then "-" else "") + body;
    if neg {
      assert s[1..] == body;
    } else {
      assert s == body;
    }
  }

  /** Reading the plain rendering of a decimal gives back the same decimal, scale included. */
  lemma PlainStringRoundTrip(d: Decimal)
    requires 0 <= d.scale <= IntMax
    ensures ParseDecimal(PlainString(d)) == Some(d)
  {
    if d.scale == 0 {
      WholeRoundTrip(d);
    } else {
      FractionRoundTrip(d);
    }
  }

  lemma WholeRoundTrip(d: Decimal)
    requires d.scale == 0
    ensures ParseDecimal(PlainString(d)) == Some(d)
  {
    var whole := NatToString(Abs(d.unscaled));
    UnsignedOfParts(whole, "", false, whole);
    SplitSignOf(d.unscaled < 0, whole);
  }

  /** The parts of the plain rendering of a decimal with a fraction. */
  lemma PlainStringParts(d: Decimal, q: nat, r: nat)
    requires d.scale > 0
    requires (q, r) == DivMod(Abs(d.unscaled), Pow10(d.scale))
    ensures r < Pow10(d.scale)
    ensures PlainString(d)
      == (if d.unscaled < 0 then "-" else "") + (NatToString(q) + ("." + PadDigits(r, d.scale)))
  {
  }

  lemma FractionRoundTrip(d: Decimal)
    requires 0 < d.scale <= IntMax
    ensures ParseDecimal(PlainString(d)) == Some(d)
  {
    var (q, r) := DivMod(Abs(d.unscaled), Pow10(d.scale));
    var whole, fraction := NatToString(q), PadDigits(r, d.scale);
    var body := whole + ("." + fraction);
    PlainStringParts(d, q, r);
    UnsignedOfParts(whole, fraction, true, body);
    assert body[0] == whole[0];
    SplitSignOf(d.unscaled < 0, body);
  }
}
