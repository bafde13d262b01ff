/**
  JavaScript's rendering of a number as text (`Number.prototype.toString`),
  for the numbers the generators produce: a value `scaled / 10^places` with
  at most `places` fraction digits and a magnitude well below 10^21, which
  JavaScript writes in plain decimal notation with no trailing fraction
  zeros, and `ParseNumber`, which reads such text back.
 */
module Decimal {
  import opened Strings

  predicate IsDigit(c: char)
  {
    '0' <= c <= '9'
  }

  function Digit(d: nat): (c: char)
    requires d < 10
    ensures IsDigit(c)
  {
    (d + '0' as int) as char
  }

  function DigitValue(c: char): nat
  {
    if IsDigit(c) then c as int - '0' as int else 0
  }

  function Pow10(p: nat): (r: nat)
    ensures r >= 1
  {
    if p == 0 then 1 else 10 * Pow10(p - 1)
  }

  /** Decimal digits of `n`, most significant first, without leading zeros. */
  function NatText(n: nat): (s: string)
    ensures |s| >= 1
    ensures forall i | 0 <= i < |s| :: IsDigit(s[i])
    ensures s[0] == '0' ==> n == 0
  {
    if n < 10 then [Digit(n)] else NatText(n / 10) + [Digit(n % 10)]
  }

  /** The number a string of decimal digits denotes (leading zeros allowed). */
  function ParseDigits(s: string): nat
  {
    if s == [] then 0 else ParseDigits(s[..|s| - 1]) * 10 + DigitValue(s[|s| - 1])
  }

  lemma {:induction false} ParseNatText(n: nat)
    ensures ParseDigits(NatText(n)) == n
  {
    if n >= 10 {
      var s := NatText(n);
      assert s[..|s| - 1] == NatText(n / 10);
      ParseNatText(n / 10);
    }
  }

  /** The low `width` decimal digits of `n`, padded with leading zeros. */
  function FixedDigits(n: nat, width: nat): (s: string)
    ensures |s| == width
    ensures forall i | 0 <= i < |s| :: IsDigit(s[i])
  {
    if width == 0 then [] else FixedDigits(n / 10, width - 1) + [Digit(n % 10)]
  }

  lemma {:induction false} ParseFixedDigits(n: nat, width: nat)
    requires n < Pow10(width)
    ensures ParseDigits(FixedDigits(n, width)) == n
  {
    if width > 0 {
      var s := FixedDigits(n, width);
      assert s[..|s| - 1] == FixedDigits(n / 10, width - 1);
      ParseFixedDigits(n / 10, width - 1);
    }
  }

  function Zeros(n: nat): (s: string)
  {
    seq(n, _ => '0')
  }

  lemma {:induction false} ParseZeros(n: nat)
    ensures ParseDigits(Zeros(n)) == 0
  {
    if n > 0 {
      assert Zeros(n)[..n - 1] == Zeros(n - 1);
      ParseZeros(n - 1);
    }
  }

  /** `s` without its trailing zeros. */
  function TrimZeros(s: string): (t: string)
    ensures |t| <= |s| && t == s[..|t|]
    ensures |t| > 0 ==> t[|t| - 1] != '0'
    ensures s == t + Zeros(|s| - |t|)
  {
    if |s| > 0 && s[|s| - 1] == '0' then
      var t := TrimZeros(s[..|s| - 1]);
      assert s == s[..|s| - 1] + ['0'];
      assert Zeros(|s| - |t|) == Zeros(|s| - 1 - |t|) + ['0'];
      t
    else s
  }

  /** `s` extended with zeros on the right to `width` characters. */
  function PadZeros(s: string, width: nat): string
  {
    if |s| < width then s + Zeros(width - |s|) else s
  }

  /** Every character of `t` is a digit, a minus sign or a decimal point. */
  predicate NumericChars(t: string)
  {
    forall i | 0 <= i < |t| :: t[i] == '-' || t[i] == '.' || IsDigit(t[i])
  }

  /** The fraction part of a number's text: empty for a whole number, else a point and the digits without trailing zeros. */
  function FractionText(frac: nat, places: nat): (f: string)
    requires frac < Pow10(places)
    ensures f == "" <==> frac == 0
    ensures f != "" ==> 2 <= |f| <= places + 1 && f[0] == '.' && IsDigit(f[|f| - 1]) && f[|f| - 1] != '0'
    ensures forall i | 1 <= i < |f| :: IsDigit(f[i])
  {
    if frac == 0 then ""
    else
      FractionNotZeros(frac, places);
      "." + TrimZeros(FixedDigits(frac, places))
  }

  lemma FractionNotZeros(frac: nat, places: nat)
    requires 0 < frac < Pow10(places)
    ensures |TrimZeros(FixedDigits(frac, places))| >= 1
  {
    if |TrimZeros(FixedDigits(frac, places))| == 0 {
      ParseZeros(places);
      ParseFixedDigits(frac, places);
    }
  }

  /** Absolute value of a scaled number. */
  function Magnitude(scaled: int): nat
  {
    if scaled < 0 then -scaled else scaled
  }

  /** Integer part of `mag / 10^places`. */
  function WholePart(mag: nat, places: nat): nat
  {
    var unit := Pow10(places);
    assert mag / unit >= 0 by { QuotientOfNaturals(mag, unit); }
    mag / unit
  }

  lemma QuotientOfNaturals(a: nat, d: nat)
    requires d >= 1
    ensures a / d >= 0
  {
  }

  /** The `places` fraction digits of `mag / 10^places`, as a number. */
  function FracPart(mag: nat, places: nat): (f: nat)
    ensures f < Pow10(places)
  {
    mag % Pow10(places)
  }

  lemma WholeAndFraction(mag: nat, places: nat)
    ensures mag == WholePart(mag, places) * Pow10(places) + FracPart(mag, places)
  {
  }

  /**
    JavaScript's text for the number `scaled / 10^places`: an optional minus
    sign, the integer part, and, when the fraction is not zero, a point and the
    fraction digits without trailing zeros (so negative zero does not arise).
   */
  function NumberText(scaled: int, places: nat): (t: string)
    ensures |t| >= 1 && IsDigit(t[|t| - 1])
    ensures NumericChars(t)
    ensures forall i | 1 <= i < |t| :: t[i] != '-'
    ensures forall i, j | 0 <= i < j < |t| :: !(t[i] == '.' && t[j] == '.')
  {
    var sign := if scaled < 0 then "-" else "";
    var whole := NatText(WholePart(Magnitude(scaled), places));
    var fraction := FractionText(FracPart(Magnitude(scaled), places), places);
    assert NumericChars(sign + whole + fraction) by {
      NumericCharsConcat(sign, whole);
      NumericCharsConcat(sign + whole, fraction);
    }
    SignAndPointPlaces(sign, whole, fraction);
    sign + whole + fraction
  }

  /** In a sign, then digits, then an optional point and digits, a minus sign can only come first and a point occurs at most once. */
  lemma SignAndPointPlaces(sign: string, whole: string, fraction: string)
    requires sign == "" || sign == "-"
    requires forall i | 0 <= i < |whole| :: IsDigit(whole[i])
    requires forall i | 1 <= i < |fraction| :: IsDigit(fraction[i])
    requires fraction == "" || fraction[0] == '.'
    ensures var t := sign + whole + fraction;
      (forall i | 1 <= i < |t| :: t[i] != '-') &&
      (forall i, j | 0 <= i < j < |t| :: !(t[i] == '.' && t[j] == '.'))
  {
    var t := sign + whole + fraction;
    var p := |sign| + |whole|;
    assert forall i | 0 <= i < |t| && i != p :: t[i] == '-' || IsDigit(t[i]) by {
      forall i | 0 <= i < |t| && i != p ensures t[i] == '-' || IsDigit(t[i]) {
        if i < |sign| {
        } else if i < p {
          assert t[i] == whole[i - |sign|];
        } else {
          assert t[i] == fraction[i - p];
        }
      }
    }
    assert forall i | 1 <= i < |t| :: t[i] != '-' by {
      forall i | 1 <= i < |t| ensures t[i] != '-' {
        if i < p {
          assert t[i] == whole[i - |sign|];
        } else {
          assert t[i] == fraction[i - p];
        }
      }
    }
  }

  lemma NumericCharsConcat(a: string, b: string)
    requires NumericChars(a) && NumericChars(b)
    ensures NumericChars(a + b)
  {
    forall i | 0 <= i < |a + b| ensures (a + b)[i] == '-' || (a + b)[i] == '.' || IsDigit((a + b)[i]) {
      if i >= |a| {
        assert (a + b)[i] == b[i - |a|];
      }
    }
  }

  /** Number of characters after the first decimal point of `t`; zero when there is no point. */
  function FractionDigits(t: string): nat
  {
    var i := Find(t, ".");
    if i < |t| then |t| - 1 - i else 0
  }

  /** A float keeps at most two decimals and a double at most six: the text of a value with `places` places has at most `places` fraction digits, and none when the value is whole. */
  lemma NumberTextFractionDigits(scaled: int, places: nat)
    ensures FractionDigits(NumberText(scaled, places)) <= places
    ensures FractionDigits(NumberText(scaled, places)) == 0 <==> FracPart(Magnitude(scaled), places) == 0
  {
    var sign := if scaled < 0 then "-" else "";
    var head := sign + NatText(WholePart(Magnitude(scaled), places));
    var f := FractionText(FracPart(Magnitude(scaled), places), places);
    assert NumberText(scaled, places) == head + f;
    assert '.' !in head;
    FractionDigitsAfterPoint(head, f);
  }

  /** The fraction digits of a text with no point in its head are those after the point that starts its tail. */
  lemma FractionDigitsAfterPoint(head: string, f: string)
    requires '.' !in head
    requires f == "" || f[0] == '.'
    ensures FractionDigits(head + f) == if f == "" then 0 else |f| - 1
  {
    if f == "" {
      FindAbsent(head, ".");
      assert head + f == head;
    } else {
      FindAfter(head, ".", f[1..]);
      assert head + "." + f[1..] == head + f;
    }
  }

  /** The digits before and after the point, read back as a value in units of 10^-places. */
  function ParseUnsigned(body: string, places: nat): nat
  {
    var parts := Split(body, ".");
    var fraction := if |parts| > 1 then parts[1] else "";
    ParseDigits(parts[0]) * Pow10(places) + ParseDigits(PadZeros(fraction, places))
  }

  /** The value, in units of 10^-places, of a decimal text with an optional sign and point. */
  function ParseNumber(t: string, places: nat): int
  {
    if |t| > 0 && t[0] == '-' then 0 - ParseUnsigned(t[1..], places) else ParseUnsigned(t, places)
  }

  /** The digits of the fraction part of a number's text, without the point. */
  function FractionDigitsOf(frac: nat, places: nat): string
    requires frac < Pow10(places)
  {
    var f := FractionText(frac, places);
    if f == "" then "" else f[1..]
  }

  lemma SplitNumberBody(whole: nat, frac: nat, places: nat)
    requires frac < Pow10(places)
    ensures var parts := Split(NatText(whole) + FractionText(frac, places), ".");
      |parts| == (if frac == 0 then 1 else 2) && parts[0] == NatText(whole) &&
      (frac != 0 ==> parts[1] == FractionDigitsOf(frac, places))
  {
    var head := NatText(whole);
    var f := FractionText(frac, places);
    if frac == 0 {
      assert head + f == Join([head], ".");
      SplitJoin([head], ".");
    } else {
      var fraction := f[1..];
      assert head + f == Join([head, fraction], ".");
      SplitJoin([head, fraction], ".");
    }
  }

  lemma PadFractionDigits(frac: nat, places: nat)
    requires frac < Pow10(places)
    ensures ParseDigits(PadZeros(FractionDigitsOf(frac, places), places)) == frac
  {
    if frac == 0 {
      ParseZeros(places);
      assert PadZeros("", places) == Zeros(places);
    } else {
      var digits := FixedDigits(frac, places);
      assert FractionDigitsOf(frac, places) == TrimZeros(digits);
      assert PadZeros(TrimZeros(digits), places) == digits;
      ParseFixedDigits(frac, places);
    }
  }

  lemma ParseUnsignedRoundTrip(whole: nat, frac: nat, places: nat)
    requires frac < Pow10(places)
    ensures ParseUnsigned(NatText(whole) + FractionText(frac, places), places) == whole * Pow10(places) + frac
  {
    SplitNumberBody(whole, frac, places);
    ParseNatText(whole);
    PadFractionDigits(frac, places);
  }

  lemma ParseSigned(body: string, places: nat)
    requires |body| > 0 && IsDigit(body[0])
    ensures ParseNumber("-" + body, places) == 0 - ParseUnsigned(body, places)
    ensures ParseNumber(body, places) == ParseUnsigned(body, places)
  {
    assert ("-" + body)[1..] == body;
  }

  /** The digits of the magnitude read back as the magnitude. */
  lemma MagnitudeRoundTrip(mag: nat, places: nat)
    ensures ParseUnsigned(NatText(WholePart(mag, places)) + FractionText(FracPart(mag, places), places), places) == mag
  {
    ParseUnsignedRoundTrip(WholePart(mag, places), FracPart(mag, places), places);
    WholeAndFraction(mag, places);
  }

  /** The text of a number is its sign followed by the digits of its magnitude. */
  lemma NumberTextParts(scaled: int, places: nat)
    ensures var mag := Magnitude(scaled);
      var body := NatText(WholePart(mag, places)) + FractionText(FracPart(mag, places), places);
      |body| > 0 && IsDigit(body[0]) &&
      NumberText(scaled, places) == (if scaled < 0 then "-" + body else body)
  {
    var mag := Magnitude(scaled);
    var whole := NatText(WholePart(mag, places));
    assert (whole + FractionText(FracPart(mag, places), places))[0] == whole[0];
  }

  /** The rendered text denotes exactly the number it renders. */
  lemma NumberTextRoundTrip(scaled: int, places: nat)
    ensures ParseNumber(NumberText(scaled, places), places) == scaled
  {
    NumberTextParts(scaled, places);
    var mag := Magnitude(scaled);
    MagnitudeRoundTrip(mag, places);
    ParseSigned(NatText(WholePart(mag, places)) + FractionText(FracPart(mag, places), places), places);
  }

  /**
    The text is in JavaScript's shortest form: the sign shows exactly for a
    negative value, there is no negative zero, the integer part has no leading
    zero, and a fraction never ends in zero.
   */
  lemma NumberTextCanonical(scaled: int, places: nat)
    ensures var t := NumberText(scaled, places);
      (t[0] == '-' <==> scaled < 0) &&
      ('.' in t ==> t[|t| - 1] != '0') &&
      (var u := if t[0] == '-' then t[1..] else t;
       |u| >= 1 && IsDigit(u[0]) && (u[0] == '0' ==> |u| == 1 || u[1] == '.') &&
       (t[0] == '-' ==> u != "0"))
  {
    var t := NumberText(scaled, places);
    var mag := Magnitude(scaled);
    var whole := NatText(WholePart(mag, places));
    var f := FractionText(FracPart(mag, places), places);
    var sign := if scaled < 0 then "-" else "";
    assert t == sign + whole + f;
    var u := whole + f;
    assert t == sign + u;
    assert u[0] == whole[0];
    assert t[0] == '-' <==> scaled < 0;
    assert (if t[0] == '-' then t[1..] else t) == u;
    if '.' in t {
      assert '.' !in sign + whole;
      assert f != "";
      assert t[|t| - 1] == f[|f| - 1];
    }
    if u[0] == '0' {
      assert WholePart(mag, places) == 0;
      assert whole == "0";
      if f != "" {
        assert u[1] == f[0];
      }
    }
    if scaled < 0 && u == "0" {
      assert whole == "0" && f == "";
      WholeAndFraction(mag, places);
    }
  }

  /** Hundredths rendered as JavaScript writes the numbers: 12.50 as 12.5, -0.05 as -0.05, 1000.00 as 1000. */
  lemma NumberTextExamples()
    ensures NumberText(1250, 2) == "12.5"
    ensures NumberText(-5, 2) == "-0.05"
    ensures NumberText(100000, 2) == "1000"
  {
    assert Pow10(2) == 100;
    assert FixedDigits(50, 2) == "50";
    assert FixedDigits(5, 2) == "05";
    assert NatText(12) == "12";
    assert NatText(1000) == "1000";
  }
}
