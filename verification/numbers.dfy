/** Python's `float()` on a stripped text, with exact rational results, and a
    decimal formatter that `float()` reads back exactly. */
module Numbers {
  import opened Wrappers
  import Text

  predicate IsDigit(c: char)
  {
    '0' <= c <= '9'
  }

  predicate AllDigits(s: string)
  {
    forall k :: 0 <= k < |s| ==> IsDigit(s[k])
  }

  function DigitValue(c: char): (d: nat)
    requires IsDigit(c)
    ensures d < 10
  {
    c as int - '0' as int
  }

  function DigitChar(d: nat): (c: char)
    requires d < 10
    ensures IsDigit(c) && DigitValue(c) == d
  {
    (d + '0' as int) as char
  }

  function Pow10(n: nat): (p: nat)
    ensures p >= 1
  {
    if n == 0 then 1 else 10 * Pow10(n - 1)
  }

  /** The number a run of decimal digits denotes, most significant first. */
  function DigitsValue(s: string): nat
    requires AllDigits(s)
    decreases |s|
  {
    if |s| == 0 then 0 else DigitsValue(s[..|s| - 1]) * 10 + DigitValue(s[|s| - 1])
  }

  lemma ShiftDigit(x: int, p: int, y: int, d: int)
    ensures (x * p + y) * 10 + d == x * (10 * p) + (y * 10 + d)
  {
  }

  /** Appending digits shifts the value of the leading ones. */
  lemma {:induction false} DigitsValueAppend(a: string, b: string)
    requires AllDigits(a) && AllDigits(b)
    ensures AllDigits(a + b)
    ensures DigitsValue(a + b) == DigitsValue(a) * Pow10(|b|) + DigitsValue(b)
    decreases |b|
  {
    if |b| == 0 {
      assert a + b == a;
    } else {
      var b', last := b[..|b| - 1], b[|b| - 1];
      assert (a + b)[..|a + b| - 1] == a + b';
      assert (a + b)[|a + b| - 1] == last;
      DigitsValueAppend(a, b');
      var x, p, y := DigitsValue(a), Pow10(|b'|), DigitsValue(b');
      assert DigitsValue(a + b) == (x * p + y) * 10 + DigitValue(last);
      assert DigitsValue(b) == y * 10 + DigitValue(last);
      assert Pow10(|b|) == 10 * p;
      ShiftDigit(x, p, y, DigitValue(last));
    }
  }

  /** Position of the first exponent marker `e` or `E`, if any. */
  function ExponentAt(s: string): (r: Option<nat>)
    ensures r.None? ==> forall k :: 0 <= k < |s| ==> s[k] != 'e' && s[k] != 'E'
    ensures r.Some? ==> (r.value < |s| && (s[r.value] == 'e' || s[r.value] == 'E'))
    ensures r.Some? ==> forall k :: 0 <= k < r.value ==> s[k] != 'e' && s[k] != 'E'
  {
    if |s| == 0 then None
    else if s[0] == 'e' || s[0] == 'E' then Some(0)
    else match ExponentAt(s[1..])
      case None => None
      case Some(i) => Some(i + 1)
  }

  /** `m * 10^e` for a possibly negative exponent. */
  function Scale(m: real, e: int): (r: real)
    ensures m >= 0.0 ==> r >= 0.0
  {
    if e >= 0 then m * Pow10(e) as real else m / Pow10(-e) as real
  }

  /** The characters a decimal literal is written with. */
  predicate IsNumeral(c: char)
  {
    IsDigit(c) || c == '+' || c == '-' || c == '.' || c == 'e' || c == 'E'
  }

  predicate Numeral(s: string)
  {
    forall k :: 0 <= k < |s| ==> IsNumeral(s[k])
  }

  /** Digits with at most one decimal point and at least one digit: `12`, `12.`, `.5`, `12.50`. */
  function ParseMantissa(s: string): (r: Option<real>)
    ensures r.Some? ==> |s| > 0 && Numeral(s) && r.value >= 0.0
  {
    if '.' in s then
      var i := Text.IndexOf(s, '.');
      var whole, frac := s[..i], s[i + 1..];
      if AllDigits(whole) && AllDigits(frac) && |whole| + |frac| > 0 then
        assert s == whole + "." + frac;
        Some(DigitsValue(whole) as real + DigitsValue(frac) as real / Pow10(|frac|) as real)
      else None
    else if AllDigits(s) && |s| > 0 then Some(DigitsValue(s) as real)
    else None
  }

  /** An optionally signed run of digits, as written after `e`. */
  function ParseExponent(s: string): (r: Option<int>)
    ensures r.Some? ==> |s| > 0 && Numeral(s)
  {
    if |s| > 0 && (s[0] == '+' || s[0] == '-') then
      if |s| > 1 && AllDigits(s[1..]) then
        var v: int := DigitsValue(s[1..]);
        Some(if s[0] == '-' then -v else v)
      else None
    else if |s| > 0 && AllDigits(s) then Some(DigitsValue(s))
    else None
  }

  /** A mantissa with an optional exponent; never negative. */
  function ParseUnsigned(s: string): (r: Option<real>)
    ensures r.Some? ==> |s| > 0 && Numeral(s) && r.value >= 0.0
  {
    match ExponentAt(s)
    case None => ParseMantissa(s)
    case Some(i) =>
      match (ParseMantissa(s[..i]), ParseExponent(s[i + 1..]))
      case (Some(m), Some(e)) =>
        assert s == s[..i] + [s[i]] + s[i + 1..];
        Some(Scale(m, e))
      case _ => None
  }

  /** Python's `float()` on finite decimal literals: an optional sign, a
      mantissa and an optional exponent.  Every accepted text is made of
      numeral characters only, and the value is negative only when the text
      starts with a minus sign. */
  function ParseNum(s: string): (r: Option<real>)
    ensures r.Some? ==> |s| > 0 && Numeral(s)
    ensures r.Some? && r.value < 0.0 ==> s[0] == '-'
  {
    if |s| > 0 && (s[0] == '+' || s[0] == '-') then
      match ParseUnsigned(s[1..])
      case None => None
      case Some(v) =>
        assert s == [s[0]] + s[1..];
        Some(if s[0] == '-' then -v else v)
    else ParseUnsigned(s)
  }

  /** A plain run of digits reads as the whole number it spells. */
  lemma ParseNumDigits(s: string)
    requires |s| > 0 && AllDigits(s)
    ensures ParseNum(s) == Some(DigitsValue(s) as real)
  {
    UnsignedDigits(s);
  }

  /** A decimal number written as an integer scaled by a power of ten. */
  datatype Decimal = Decimal(digits: int, scale: nat)

  function Value(d: Decimal): real
  {
    d.digits as real / Pow10(d.scale) as real
  }

  /** The decimal digits of a natural number, without leading zeros. */
  function NatText(n: nat): (s: string)
    ensures |s| >= 1 && AllDigits(s)
    ensures DigitsValue(s) == n
  {
    if n < 10 then [DigitChar(n)]
    else
      var s := NatText(n / 10) + [DigitChar(n % 10)];
      assert s[..|s| - 1] == NatText(n / 10);
      s
  }

  function Zeros(k: nat): (s: string)
    ensures |s| == k && AllDigits(s) && DigitsValue(s) == 0
  {
    if k == 0 then "" else
      var s := Zeros(k - 1) + "0";
      assert s[..|s| - 1] == Zeros(k - 1);
      s
  }

  /** The digits of `|d.digits|`, padded with leading zeros to at least one
      more digit than the scale, so that a digit stands before the point. */
  function Padded(d: Decimal): (s: string)
    ensures |s| > d.scale && AllDigits(s)
    ensures DigitsValue(s) == if d.digits < 0 then -d.digits else d.digits
  {
    var mag := NatText(if d.digits < 0 then -d.digits else d.digits);
    var z := if |mag| <= d.scale then Zeros(d.scale + 1 - |mag|) else "";
    DigitsValueAppend(z, mag);
    z + mag
  }

  /** The unsigned positional notation of a decimal: `12.50` for `Decimal(-1250, 2)`. */
  function Magnitude(d: Decimal): string
  {
    var p := Padded(d);
    var cut := |p| - d.scale;
    p[..cut] + (if d.scale == 0 then "" else "." + p[cut..])
  }

  /** The magnitude is digits with at most a point inside, never at either end. */
  lemma MagnitudeShape(d: Decimal)
    ensures var t := Magnitude(d);
      && |t| > 0 && IsDigit(t[0]) && IsDigit(t[|t| - 1])
      && forall k :: 0 <= k < |t| ==> IsDigit(t[k]) || t[k] == '.'
  {
    var p := Padded(d);
    var cut := |p| - d.scale;
    var whole := p[..cut];
    if d.scale == 0 {
      assert Magnitude(d) == p;
    } else {
      DotShape(whole, p[cut..]);
    }
  }

  /** Digits, a point, digits: every character is a digit or the point, and
      both ends are digits. */
  lemma DotShape(whole: string, frac: string)
    requires AllDigits(whole) && AllDigits(frac) && |whole| > 0 && |frac| > 0
    ensures var t := whole + "." + frac;
      && IsDigit(t[0]) && IsDigit(t[|t| - 1])
      && forall k :: 0 <= k < |t| ==> IsDigit(t[k]) || t[k] == '.'
  {
    var t := whole + "." + frac;
    assert t[0] == whole[0];
    assert t[|t| - 1] == frac[|frac| - 1];
    forall k | 0 <= k < |t|
      ensures IsDigit(t[k]) || t[k] == '.'
    {
      if k < |whole| {
        assert t[k] == whole[k];
      } else if k > |whole| {
        assert t[k] == frac[k - |whole| - 1];
      }
    }
  }

  /** Plain positional notation: `-12.50` for `Decimal(-1250, 2)`. */
  function Format(d: Decimal): string
  {
    (if d.digits < 0 then "-" else "") + Magnitude(d)
  }

  /** A formatted decimal is made of digits, a leading minus sign and a point;
      it ends with a digit and starts with a digit or the sign. */
  lemma FormatShape(d: Decimal)
    ensures var t := Format(d);
      && |t| > 0
      && (forall k :: 0 <= k < |t| ==> IsDigit(t[k]) || t[k] == '-' || t[k] == '.')
      && IsDigit(t[|t| - 1]) && (IsDigit(t[0]) || t[0] == '-')
  {
    MagnitudeShape(d);
    var u := Magnitude(d);
    var t := Format(d);
    if d.digits < 0 {
      assert t == "-" + u;
      forall k | 0 <= k < |t|
        ensures IsDigit(t[k]) || t[k] == '-' || t[k] == '.'
      {
        if k > 0 {
          assert t[k] == u[k - 1];
        }
      }
    } else {
      assert t == u;
    }
  }

  /** Moving the decimal point: `whole.frac` is the digits of both over a power of ten. */
  lemma PointValue(whole: string, frac: string)
    requires AllDigits(whole) && AllDigits(frac)
    ensures AllDigits(whole + frac)
    ensures DigitsValue(whole) as real + DigitsValue(frac) as real / Pow10(|frac|) as real
      == DigitsValue(whole + frac) as real / Pow10(|frac|) as real
  {
    DigitsValueAppend(whole, frac);
    PointAlgebra(DigitsValue(whole), DigitsValue(frac), Pow10(|frac|), DigitsValue(whole + frac));
  }

  lemma PointAlgebra(w: int, f: int, q: int, all: int)
    requires q >= 1 && all == w * q + f
    ensures w as real + f as real / q as real == all as real / q as real
  {
    assert all as real == w as real * q as real + f as real;
    ShiftPoint(w as real, f as real, q as real);
  }

  lemma ShiftPoint(w: real, f: real, q: real)
    requires q > 0.0
    ensures w + f / q == (w * q + f) / q
  {
    var x := f / q;
    assert x * q == f;
    assert (w + x) * q == w * q + f;
  }

  /** A mantissa written with a point reads as its digits over a power of ten. */
  lemma ParseMantissaPoint(whole: string, frac: string)
    requires AllDigits(whole) && AllDigits(frac) && |whole| > 0
    ensures AllDigits(whole + frac)
    ensures ParseMantissa(whole + "." + frac) == Some(DigitsValue(whole + frac) as real / Pow10(|frac|) as real)
  {
    var u := whole + "." + frac;
    assert u[|whole|] == '.';
    assert u[..|whole|] == whole && u[|whole| + 1..] == frac;
    Text.IndexOfIs(u, '.', |whole|);
    PointValue(whole, frac);
  }

  lemma NegateQuotient(a: real, q: real)
    requires q > 0.0
    ensures -(a / q) == -a / q
  {
    var x := a / q;
    assert x * q == a;
    assert (-x) * q == -a;
  }

  /** A text of digits and points has no exponent marker. */
  lemma NoExponent(s: string)
    requires forall k :: 0 <= k < |s| ==> IsDigit(s[k]) || s[k] == '.'
    ensures ExponentAt(s).None?
  {
  }

  /** A plain run of digits, as a mantissa, reads as the whole number it spells. */
  lemma UnsignedDigits(s: string)
    requires |s| > 0 && AllDigits(s)
    ensures ParseUnsigned(s) == Some(DigitsValue(s) as real)
  {
    NoExponent(s);
    assert '.' !in s;
  }

  /** The unsigned part of a formatted decimal reads as the magnitude. */
  lemma ParseMagnitude(d: Decimal)
    ensures ParseUnsigned(Magnitude(d)) == Some(DigitsValue(Padded(d)) as real / Pow10(d.scale) as real)
  {
    if d.scale == 0 {
      ParseWhole(d);
    } else {
      ParseFraction(d);
    }
  }

  lemma ParseWhole(d: Decimal)
    requires d.scale == 0
    ensures ParseUnsigned(Magnitude(d)) == Some(DigitsValue(Padded(d)) as real / Pow10(d.scale) as real)
  {
    WholeMagnitude(d);
    DigitsOverOne(Padded(d), d.scale);
  }

  /** Without a scale the magnitude is the padded digits themselves. */
  lemma WholeMagnitude(d: Decimal)
    requires d.scale == 0
    ensures Magnitude(d) == Padded(d)
  {
    var p := Padded(d);
    assert p[..|p|] == p;
  }

  /** A run of digits over a zero scale.  The scale stays a parameter so that
      the power of ten is not unfolded from a literal exponent. */
  lemma DigitsOverOne(p: string, n: nat)
    requires |p| > 0 && AllDigits(p) && n == 0
    ensures ParseUnsigned(p) == Some(DigitsValue(p) as real / Pow10(n) as real)
  {
    UnsignedDigits(p);
  }

  lemma ParseFraction(d: Decimal)
    requires d.scale > 0
    ensures ParseUnsigned(Magnitude(d)) == Some(DigitsValue(Padded(d)) as real / Pow10(d.scale) as real)
  {
    var p := Padded(d);
    var cut := |p| - d.scale;
    var whole, frac := p[..cut], p[cut..];
    var u := Magnitude(d);
    assert p == whole + frac;
    assert u == whole + "." + frac;
    DotShape(whole, frac);
    NoExponent(u);
    ParseMantissaPoint(whole, frac);
  }

  lemma SignedQuotient(digits: int, mag: int, q: int, x: real)
    requires q >= 1 && x == mag as real / q as real
    requires mag == if digits < 0 then -digits else digits
    ensures (if digits < 0 then -x else x) == digits as real / q as real
  {
    if digits < 0 {
      NegateQuotient(mag as real, q as real);
    }
  }

  lemma ParseNegated(u: string)
    requires ParseUnsigned(u).Some?
    ensures ParseNum("-" + u) == Some(-ParseUnsigned(u).value)
  {
    assert ("-" + u)[1..] == u;
  }

  lemma ParseUnsignedFirst(u: string)
    requires |u| > 0 && IsDigit(u[0])
    ensures ParseNum(u) == ParseUnsigned(u)
  {
  }

  /** The sign of a formatted decimal applies to its magnitude. */
  lemma ParseSigned(d: Decimal, v: real)
    requires ParseUnsigned(Magnitude(d)) == Some(v)
    ensures ParseNum(Format(d)) == Some(if d.digits < 0 then -v else v)
  {
    var u := Magnitude(d);
    if d.digits < 0 {
      ParseMinus(Format(d), u, v);
    } else {
      MagnitudeShape(d);
      assert Format(d) == u;
      ParseUnsignedFirst(u);
    }
  }

  lemma ParseMinus(t: string, u: string, v: real)
    requires t == "-" + u && ParseUnsigned(u) == Some(v)
    ensures ParseNum(t) == Some(-v)
  {
    ParseNegated(u);
  }

  /** `float()` reads a formatted decimal back exactly. */
  lemma ParseFormat(d: Decimal)
    ensures ParseNum(Format(d)) == Some(Value(d))
  {
    var mag, q := DigitsValue(Padded(d)), Pow10(d.scale);
    var x := mag as real / q as real;
    ParseMagnitude(d);
    ParseSigned(d, x);
    SignedQuotient(d.digits, mag, q, x);
  }
}
