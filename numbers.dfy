/** The global parseFloat and isFinite (ECMAScript 2019, sections 18.2.4 and
    18.2.2), with exact decimal values in place of IEEE-754 doubles. */
module Numbers {
  import opened Text

  /** A JavaScript number as far as the ranking needs it: NaN, an infinity, or
      a finite value kept as an exact rational; isFinite is the `Finite?`
      test. */
  datatype Num = NaN | Infinite(negative: bool) | Finite(value: real)

  predicate IsDigit(c: char) {
    '0' <= c <= '9'
  }

  predicate AllDigits(s: string) {
    forall i :: 0 <= i < |s| ==> IsDigit(s[i])
  }

  /** Length of the run of decimal digits at the head of s. */
  function DigitRun(s: string): (n: nat)
    ensures n <= |s| && AllDigits(s[..n])
    ensures n == |s| || !IsDigit(s[n])
  {
    if s != [] && IsDigit(s[0]) then
      var n := 1 + DigitRun(s[1..]);
      assert s[..n] == [s[0]] + s[1..][..n - 1];
      n
    else 0
  }

  function DigitValue(c: char): nat
    requires IsDigit(c)
  {
    c as int - '0' as int
  }

  /** The value of a string of decimal digits, most significant first. */
  function DigitsValue(ds: string): nat
    requires AllDigits(ds)
  {
    if ds == [] then 0 else DigitsValue(ds[..|ds| - 1]) * 10 + DigitValue(ds[|ds| - 1])
  }

  function Pow10(n: nat): (p: nat)
    ensures p >= 1
  {
    if n == 0 then 1 else 10 * Pow10(n - 1)
  }

  /** Ten to an integer power, exactly. */
  function Scale(e: int): (r: real)
    ensures r > 0.0
  {
    if e >= 0 then Pow10(e) as real else 1.0 / (Pow10(-e) as real)
  }

  /** The signed value of an ExponentPart (`e`/`E`, an optional sign, digits)
      at the head of t; 0 when t does not start with a complete one, in which
      case the `e` is not part of the numeric prefix. */
  function ExponentPart(t: string): int {
    if |t| >= 2 && (t[0] == 'e' || t[0] == 'E') then
      if IsDigit(t[1]) then
        DigitsValue(t[1..][..DigitRun(t[1..])])
      else if |t| >= 3 && (t[1] == '+' || t[1] == '-') && IsDigit(t[2]) then
        var v: int := DigitsValue(t[2..][..DigitRun(t[2..])]);
        if t[1] == '-' then -v else v
      else 0
    else 0
  }

  /** digits * 10^e, exactly. */
  function Magnitude(digits: nat, e: int): real {
    digits as real * Scale(e)
  }

  /** The text after an optional leading sign. */
  function Unsigned(t: string): string {
    if t != [] && (t[0] == '+' || t[0] == '-') then t[1..] else t
  }

  /** The digits after the '.' of a literal whose integer digits are `whole`:
      NaN when neither part has a digit. */
  function ParseFraction(whole: string, after: string): Num
    requires AllDigits(whole)
  {
    var f := DigitRun(after);
    if whole == [] && f == 0 then NaN
    else
      assert AllDigits(whole + after[..f]);
      Finite(Magnitude(DigitsValue(whole + after[..f]), ExponentPart(after[f..]) - f))
  }

  /** The longest unsigned decimal literal at the head of u. */
  function ParseUnsigned(u: string): Num {
    if StartsWith(u, "Infinity") then Infinite(false)
    else
      var w := DigitRun(u);
      if w < |u| && u[w] == '.' then ParseFraction(u[..w], u[w + 1..])
      else if w == 0 then NaN
      else Finite(Magnitude(DigitsValue(u[..w]), ExponentPart(u[w..])))
  }

  function Negate(n: Num): Num {
    match n
    case NaN => NaN
    case Infinite(_) => Infinite(true)
    case Finite(v) => Finite(-v)
  }

  /** parseFloat: skip leading white space, take an optional sign, then the
      longest prefix that is `Infinity` or a decimal literal (digits with at
      most one `.`, then an optional exponent); NaN when there is none.  A
      finite result always comes from some digit of the text. */
  function ParseFloat(s: string): (r: Num)
    ensures r.Finite? ==> exists i :: 0 <= i < |s| && IsDigit(s[i])
  {
    var t := TrimStart(s);
    var u := Unsigned(t);
    FiniteNeedsDigit(s, u);
    var n := ParseUnsigned(u);
    if t != [] && t[0] == '-' then Negate(n) else n
  }

  /** A finite unsigned literal read from a suffix u of s has a digit in s. */
  lemma FiniteNeedsDigit(s: string, u: string)
    requires |u| <= |s| && u == s[|s| - |u|..]
    ensures ParseUnsigned(u).Finite? ==> exists i :: 0 <= i < |s| && IsDigit(s[i])
  {
    var w := DigitRun(u);
    var off := |s| - |u|;
    if w > 0 {
      assert u[..w][0] == u[0] == s[off];
    } else if w < |u| && u[w] == '.' && ParseUnsigned(u).Finite? {
      var after := u[w + 1..];
      var f := DigitRun(after);
      assert after[..f][0] == u[1] == s[off + 1];
    }
  }

  /** With no `Infinity`, no digit and no '.' followed by a digit after the
      white space and the optional sign, there is no numeric prefix: the
      result is NaN ("-", "+.", "-x", ".e5"). */
  lemma ParseFloatWithoutNumberIsNaN(s: string)
    requires var u := Unsigned(TrimStart(s));
      && !StartsWith(u, "Infinity")
      && (u == [] || !IsDigit(u[0]))
      && !(|u| >= 2 && u[0] == '.' && IsDigit(u[1]))
    ensures ParseFloat(s) == NaN
  {
    var u := Unsigned(TrimStart(s));
    assert DigitRun(u) == 0;
    if u != [] && u[0] == '.' {
      assert u[0..] == u;
      assert DigitRun(u[1..]) == 0;
    }
    assert ParseUnsigned(u) == NaN;
  }

  /** Text whose first non-space character cannot start a number (no digit,
      '.', sign or `I`) parses to NaN. */
  lemma ParseFloatOfNonNumeric(s: string)
    requires var t := TrimStart(s);
      t == [] || !(IsDigit(t[0]) || t[0] == '.' || t[0] == '+' || t[0] == '-' || t[0] == 'I')
    ensures ParseFloat(s) == NaN
  {
    var u := TrimStart(s);
    NotInfinity(u);
    assert Unsigned(u) == u;
    ParseFloatWithoutNumberIsNaN(s);
  }

  lemma NotInfinity(u: string)
    requires u == [] || u[0] != 'I'
    ensures !StartsWith(u, "Infinity")
  {
    if |u| >= 8 {
      assert u[0] == u[..8][0];
    }
  }

  /** Decimal digits of a natural number, most significant first. */
  function NatToDecimal(n: nat): (ds: string)
    ensures ds != [] && AllDigits(ds)
  {
    if n < 10 then ['0' + n as char]
    else NatToDecimal(n / 10) + ['0' + (n % 10) as char]
  }

  /** Printing a natural number and reading its digits back gives the number. */
  lemma {:induction false} DigitsOfNat(n: nat)
    ensures DigitsValue(NatToDecimal(n)) == n
  {
    if n >= 10 {
      var ds := NatToDecimal(n);
      assert ds[..|ds| - 1] == NatToDecimal(n / 10);
      DigitsOfNat(n / 10);
    }
  }

  /** Digit strings concatenate like place values. */
  lemma {:induction false} DigitsValueAppend(a: string, b: string)
    requires AllDigits(a) && AllDigits(b)
    ensures AllDigits(a + b)
    ensures DigitsValue(a + b) == DigitsValue(a) * Pow10(|b|) + DigitsValue(b)
    decreases |b|
  {
    assert AllDigits(a + b);
    if b == [] {
      assert a + b == a;
    } else {
      var b' := b[..|b| - 1];
      var d := DigitValue(b[|b| - 1]);
      assert (a + b)[..|a + b| - 1] == a + b';
      assert (a + b)[|a + b| - 1] == b[|b| - 1];
      DigitsValueAppend(a, b');
      var x, y, p := DigitsValue(a), DigitsValue(b'), Pow10(|b'|);
      assert DigitsValue(a + b) == (x * p + y) * 10 + d;
      PlaceValueStep(x, p, y, d);
    }
  }

  lemma PlaceValueStep(x: int, p: int, y: int, d: int)
    ensures (x * p + y) * 10 + d == x * (p * 10) + (y * 10 + d)
  {
  }

  /** A character that cannot continue a decimal literal that has no '.' yet. */
  predicate EndsInteger(t: string) {
    t == [] || !(IsDigit(t[0]) || t[0] == '.' || t[0] == 'e' || t[0] == 'E')
  }

  /** The digit run of ds + t stops exactly where ds ends. */
  lemma {:induction false} DigitRunStopsAt(ds: string, t: string)
    requires AllDigits(ds) && (t == [] || !IsDigit(t[0]))
    ensures DigitRun(ds + t) == |ds|
    ensures (ds + t)[..|ds|] == ds && (ds + t)[|ds|..] == t
  {
    if ds == [] {
      assert ds + t == t;
    } else {
      assert (ds + t)[1..] == ds[1..] + t;
      DigitRunStopsAt(ds[1..], t);
    }
  }

  /** Text that starts with a digit has no leading space, no sign and is not
      `Infinity`: parseFloat reads it as an unsigned literal. */
  lemma StartsWithDigit(u: string)
    requires u != [] && IsDigit(u[0])
    ensures ParseFloat(u) == ParseUnsigned(u)
    ensures !StartsWith(u, "Infinity")
  {
    assert !IsSpace(u[0]);
    assert TrimStart(u) == u;
    if |u| >= 8 {
      assert u[..8][0] == u[0];
    }
  }

  /** Longest prefix: a run of digits followed by anything that cannot extend
      it parses to the value of the digits ("1299 only" is 1299). */
  lemma ParseFloatOfDigits(ds: string, t: string)
    requires ds != [] && AllDigits(ds) && EndsInteger(t)
    ensures ParseFloat(ds + t) == Finite(DigitsValue(ds) as real)
  {
    var u := ds + t;
    DigitRunStopsAt(ds, t);
    StartsWithDigit(u);
    var w := DigitRun(u);
    assert !(w < |u| && u[w] == '.');
    assert ParseUnsigned(u) == Finite(Magnitude(DigitsValue(ds), ExponentPart(t)));
    assert ExponentPart(t) == 0;
    MagnitudeAtZero(DigitsValue(ds));
  }

  lemma MagnitudeAtZero(d: nat)
    ensures Magnitude(d, 0) == d as real
  {
    assert Pow10(0) == 1;
    assert Scale(0) == 1.0;
  }

  /** parseFloat inverts the decimal printing of a natural number. */
  lemma ParseFloatOfNat(n: nat)
    ensures ParseFloat(NatToDecimal(n)) == Finite(n as real)
  {
    DigitsOfNat(n);
    ParseFloatOfDigits(NatToDecimal(n), []);
    assert NatToDecimal(n) + [] == NatToDecimal(n);
  }

  /** The value written `a.b` when b has k digits. */
  function FixedPoint(a: nat, b: nat, k: nat): real {
    a as real + b as real / Pow10(k) as real
  }

  /** Exact arithmetic behind a fixed-point literal. */
  lemma FixedPointValue(n: nat, a: nat, b: nat, k: nat)
    requires n == a * Pow10(k) + b
    ensures Magnitude(n, 0 - k) == FixedPoint(a, b, k)
  {
    var p := Pow10(k) as real;
    assert Scale(0 - k) == 1.0 / p by {
      if k == 0 {
        assert Pow10(0) == 1;
      }
    }
    assert n as real == a as real * p + b as real;
    assert (a as real * p + b as real) * (1.0 / p) == a as real + b as real / p;
  }

  /** Digits after the '.' that run to the end of the text: no exponent. */
  lemma ParseFractionToEnd(whole: string, fraction: string)
    requires whole != [] && AllDigits(whole) && AllDigits(fraction)
    ensures AllDigits(whole + fraction)
    ensures ParseFraction(whole, fraction) == Finite(Magnitude(DigitsValue(whole + fraction), 0 - |fraction|))
  {
    DigitRunStopsAt(fraction, []);
    assert fraction + [] == fraction;
    assert fraction[..|fraction|] == fraction;
    assert fraction[|fraction|..] == [];
    assert ExponentPart([]) == 0;
  }

  /** Text of the form `whole.after` is read as the fraction branch of a literal. */
  lemma FixedPointText(whole: string, after: string)
    requires whole != [] && AllDigits(whole)
    ensures ParseFloat(whole + "." + after) == ParseFraction(whole, after)
  {
    var u := whole + ("." + after);
    assert whole + "." + after == u;
    DigitRunStopsAt(whole, "." + after);
    StartsWithDigit(u);
    assert u[|whole| + 1..] == after;
    assert u[..|whole|] == whole;
  }

  /** The digits after the '.' stop where the tail t starts, and t cannot
      start an exponent: the fraction is exactly those digits. */
  lemma ParseFractionStops(whole: string, fraction: string, t: string)
    requires AllDigits(whole) && AllDigits(fraction) && (whole != [] || fraction != [])
    requires t == [] || !(IsDigit(t[0]) || t[0] == 'e' || t[0] == 'E')
    ensures AllDigits(whole + fraction)
    ensures ParseFraction(whole, fraction + t) == Finite(Magnitude(DigitsValue(whole + fraction), 0 - |fraction|))
  {
    DigitRunStopsAt(fraction, t);
    assert ExponentPart(t) == 0;
    assert AllDigits(whole + fraction);
  }

  /** Longest prefix with a '.': `whole.fraction` followed by text that cannot
      extend it parses to the fixed-point value ("1.2.3" is 1.2 and
      "1299.00 onwards" is 1299). */
  lemma ParseFloatOfDecimalPrefix(whole: string, fraction: string, t: string)
    requires whole != [] && AllDigits(whole) && AllDigits(fraction)
    requires t == [] || !(IsDigit(t[0]) || t[0] == 'e' || t[0] == 'E')
    ensures ParseFloat(whole + "." + fraction + t)
         == Finite(FixedPoint(DigitsValue(whole), DigitsValue(fraction), |fraction|))
  {
    assert whole + "." + fraction + t == whole + "." + (fraction + t);
    FixedPointText(whole, fraction + t);
    ParseFractionStops(whole, fraction, t);
    FixedPointDigits(whole, fraction);
  }

  /** Text that starts with '.' is read as the fraction branch with no whole digits. */
  lemma BareFractionText(after: string)
    ensures ParseFloat("." + after) == ParseFraction([], after)
  {
    var u := "." + after;
    assert u[0] == '.' && u[1..] == after;
    assert TrimStart(u) == u;
    assert Unsigned(u) == u;
    NotInfinity(u);
    assert DigitRun(u) == 0;
    assert u[..0] == [];
  }

  /** A literal without whole digits: `.fraction` followed by text that cannot
      extend it parses to fraction / 10^|fraction| (".5" is 0.5). */
  lemma ParseFloatOfBareFraction(fraction: string, t: string)
    requires fraction != [] && AllDigits(fraction)
    requires t == [] || !(IsDigit(t[0]) || t[0] == 'e' || t[0] == 'E')
    ensures ParseFloat("." + fraction + t) == Finite(FixedPoint(0, DigitsValue(fraction), |fraction|))
  {
    assert "." + fraction + t == "." + (fraction + t);
    BareFractionText(fraction + t);
    ParseFractionStops([], fraction, t);
    FixedPointDigits([], fraction);
    assert [] + fraction == fraction;
  }

  /** A fixed-point literal `whole.fraction` parses to whole + fraction / 10^|fraction|,
      exactly (so "1299.00" is 1299). */
  lemma ParseFloatOfFixedPoint(whole: string, fraction: string)
    requires whole != [] && AllDigits(whole) && AllDigits(fraction)
    ensures ParseFloat(whole + "." + fraction)
         == Finite(FixedPoint(DigitsValue(whole), DigitsValue(fraction), |fraction|))
  {
    FixedPointText(whole, fraction);
    ParseFractionToEnd(whole, fraction);
    FixedPointDigits(whole, fraction);
  }

  /** The digits of `whole` followed by those of `fraction`, scaled down by
      the length of `fraction`, make the fixed-point value. */
  lemma FixedPointDigits(whole: string, fraction: string)
    requires AllDigits(whole) && AllDigits(fraction)
    ensures AllDigits(whole + fraction)
    ensures Magnitude(DigitsValue(whole + fraction), 0 - |fraction|)
         == FixedPoint(DigitsValue(whole), DigitsValue(fraction), |fraction|)
  {
    DigitsValueAppend(whole, fraction);
    FixedPointValue(DigitsValue(whole + fraction), DigitsValue(whole), DigitsValue(fraction), |fraction|);
  }

  /** Leading white space never changes the value. */
  lemma ParseFloatSkipsSpace(ws: string, s: string)
    requires forall i :: 0 <= i < |ws| ==> IsSpace(ws[i])
    ensures ParseFloat(ws + s) == ParseFloat(s)
  {
    assert TrimStart(ws + s) == TrimStart(s) by {
      TrimStartSkips(ws, s);
    }
  }

  lemma {:induction false} TrimStartSkips(ws: string, s: string)
    requires forall i :: 0 <= i < |ws| ==> IsSpace(ws[i])
    ensures TrimStart(ws + s) == TrimStart(s)
    decreases |ws|
  {
    if ws != [] {
      assert (ws + s)[1..] == ws[1..] + s;
      TrimStartSkips(ws[1..], s);
    } else {
      assert ws + s == s;
    }
  }

  /** An exponent part `e` + digits, followed by a non-digit, is worth its digits. */
  lemma ExponentOfDigits(es: string, t: string)
    requires es != [] && AllDigits(es) && (t == [] || !IsDigit(t[0]))
    ensures ExponentPart("e" + es + t) == DigitsValue(es)
  {
    var x := "e" + es + t;
    DigitRunStopsAt(es, t);
    assert x[1..] == es + t;
    assert IsDigit(x[1]);
  }

  /** An exponent part `e` + sign + digits, followed by a non-digit, is worth
      its digits, negated for '-'. */
  lemma ExponentOfSignedDigits(sign: char, es: string, t: string)
    requires sign == '+' || sign == '-'
    requires es != [] && AllDigits(es) && (t == [] || !IsDigit(t[0]))
    ensures ExponentPart("e" + [sign] + es + t) == if sign == '-' then -(DigitsValue(es) as int) else DigitsValue(es)
  {
    var x := "e" + [sign] + es + t;
    DigitRunStopsAt(es, t);
    assert x[1] == sign && !IsDigit(x[1]);
    assert x[2..] == es + t;
  }

  /** Digits followed by an `e` are read as an integer literal with an exponent part. */
  lemma ExponentText(ds: string, rest: string)
    requires ds != [] && AllDigits(ds) && rest != [] && rest[0] == 'e'
    ensures ParseFloat(ds + rest) == Finite(Magnitude(DigitsValue(ds), ExponentPart(rest)))
  {
    var u := ds + rest;
    DigitRunStopsAt(ds, rest);
    StartsWithDigit(u);
    assert u[|ds|] == 'e';
  }

  /** digits * 10^v and digits * 10^-v, exactly. */
  lemma MagnitudeOfExponent(d: nat, v: nat)
    ensures Magnitude(d, v) == (d * Pow10(v)) as real
    ensures Magnitude(d, -(v as int)) == d as real / Pow10(v) as real
  {
    var p := Pow10(v) as real;
    if v == 0 {
      assert Scale(0) == 1.0;
      assert Scale(-(v as int)) == 1.0 / p;
    }
    assert d as real * (1.0 / p) == d as real / p;
  }

  /** Scientific notation: digits, `e` and exponent digits, followed by a
      tail that cannot extend the literal, parse to digits * 10^exponent
      exactly ("15e2" is 1500). */
  lemma ParseFloatOfScientific(ds: string, es: string, t: string)
    requires ds != [] && AllDigits(ds)
    requires es != [] && AllDigits(es) && (t == [] || !IsDigit(t[0]))
    ensures ParseFloat(ds + "e" + es + t) == Finite((DigitsValue(ds) * Pow10(DigitsValue(es))) as real)
  {
    var rest := "e" + es + t;
    assert ds + "e" + es + t == ds + rest;
    ExponentText(ds, rest);
    ExponentOfDigits(es, t);
    PositiveMagnitude(ParseFloat(ds + rest), DigitsValue(ds), ExponentPart(rest), DigitsValue(es));
  }

  /** A magnitude with exponent v >= 0 is digits * 10^v. */
  lemma PositiveMagnitude(r: Num, d: nat, e: int, v: nat)
    requires r == Finite(Magnitude(d, e)) && e == v
    ensures r == Finite((d * Pow10(v)) as real)
  {
    MagnitudeOfExponent(d, v);
  }

  /** A negative exponent divides: digits, `e-` and exponent digits, followed
      by a tail that cannot extend the literal, parse to digits / 10^exponent
      exactly ("15e-1" is 1.5). */
  lemma ParseFloatOfNegativeExponent(ds: string, es: string, t: string)
    requires ds != [] && AllDigits(ds)
    requires es != [] && AllDigits(es) && (t == [] || !IsDigit(t[0]))
    ensures ParseFloat(ds + "e-" + es + t) == Finite(DigitsValue(ds) as real / Pow10(DigitsValue(es)) as real)
  {
    var rest := "e" + ['-'] + es + t;
    assert ds + "e-" + es + t == ds + rest;
    ExponentText(ds, rest);
    ExponentOfSignedDigits('-', es, t);
    NegativeMagnitude(ParseFloat(ds + rest), DigitsValue(ds), ExponentPart(rest), DigitsValue(es));
  }

  /** A magnitude with exponent -v is digits / 10^v. */
  lemma NegativeMagnitude(r: Num, d: nat, e: int, v: nat)
    requires r == Finite(Magnitude(d, e)) && e == -(v as int)
    ensures r == Finite(d as real / Pow10(v) as real)
  {
    MagnitudeOfExponent(d, v);
  }

  /** A leading plus changes nothing. */
  lemma ParseFloatPositive(s: string)
    requires s != [] && !IsSpace(s[0]) && s[0] != '+' && s[0] != '-'
    ensures ParseFloat("+" + s) == ParseFloat(s)
  {
    var t := "+" + s;
    assert t[0] == '+' && t[1..] == s;
    assert TrimStart(t) == t;
    assert Unsigned(t) == s;
    assert TrimStart(s) == s;
    assert Unsigned(s) == s;
  }

  /** A leading minus negates whatever the unsigned text parses to. */
  lemma ParseFloatNegative(s: string)
    requires s != [] && !IsSpace(s[0]) && s[0] != '+' && s[0] != '-'
    ensures ParseFloat("-" + s) == Negate(ParseFloat(s))
  {
    var t := "-" + s;
    assert t[0] == '-' && t[1..] == s;
    assert TrimStart(t) == t;
    assert Unsigned(t) == s;
    assert TrimStart(s) == s;
    assert Unsigned(s) == s;
  }
}
