/** `format_double` of `detection_json.cpp`: `%.6f` into a 32-byte buffer, and
    what an RFC 8259 reader gets back from it. */
module NumberFormat {
  import opened Prelude
  import opened Decimal
  import opened Doubles
  import opened Json
  import Division
  import JsonRoundTrip
  import JsonEscape

  /** Nearest integer, ties to even, as `printf` rounds. */
  function RoundHalfEven(x: Magnitude): (r: nat)
    ensures -0.5 <= r as real - x <= 0.5
    ensures r as real - x == 0.5 || r as real - x == -0.5 ==> r % 2 == 0
  {
    var f := x.Floor;
    var diff := x - f as real;
    if diff < 0.5 then f
    else if diff > 0.5 then f + 1
    else if f % 2 == 0 then f else f + 1
  }

  /** Millionths in the printed value. */
  function Millionths(mag: Magnitude): nat {
    RoundHalfEven(mag * 1000000.0)
  }

  function Sign(neg: bool): string {
    if neg then "-" else ""
  }

  /** The text `%.6f` produces before the buffer cuts it. */
  function FixedText(neg: bool, micro: nat): string {
    (Sign(neg) + Digits(micro / 1000000)) + ("." + Padded(micro % 1000000, 6))
  }

  /** `snprintf` into `size` bytes, one of them the terminator. */
  function Snprintf(text: string, size: nat): string
    requires size > 0
  {
    if |text| < size then text else text[..size - 1]
  }

  function FormatDouble(d: Double): string {
    match d
    case Finite(neg, mag) => Snprintf(FixedText(neg, Millionths(mag)), 32)
    case _ => "0.0"
  }

  /** Characters in front of the decimal point. */
  function Width(neg: bool, micro: nat): nat {
    |Sign(neg)| + |Digits(micro / 1000000)|
  }

  // -------------------------------------------------- the value of a lexeme

  /** plus or minus `mantissa` times ten to the minus `scale`. */
  datatype Number = Number(neg: bool, mantissa: nat, scale: int)

  lemma SpanIsDigits(s: string, i: nat, j: nat)
    requires i <= j <= |s| && j - i <= DigitSpan(s[i..])
    ensures AllDigits(s[i..j])
  {
    var d := DigitSpan(s[i..]);
    assert forall k :: 0 <= k < j - i ==> s[i..j][k] == s[i..][..d][k];
  }

  function DigitsBetween(s: string, i: nat, j: nat): (r: string)
    requires i <= j <= |s| && j - i <= DigitSpan(s[i..])
    ensures AllDigits(r)
  {
    SpanIsDigits(s, i, j);
    s[i..j]
  }

  /** Digits in front of the decimal point. */
  function WholePart(t: string): (r: string)
    requires IsNumber(t)
    ensures AllDigits(r)
  {
    DigitsBetween(t, SignEnd(t), IntEnd(t, SignEnd(t)).value)
  }

  /** Digits behind it, if there is one. */
  function FracPart(t: string): (r: string)
    requires IsNumber(t)
    ensures AllDigits(r)
  {
    var j := IntEnd(t, SignEnd(t)).value;
    var k := FracEnd(t, j).value;
    if k > j then DigitsBetween(t, j + 1, k) else ""
  }

  /** The power of ten, 0 without an exponent part. */
  function Exponent(t: string): int
    requires IsNumber(t)
  {
    var k := FracEnd(t, IntEnd(t, SignEnd(t)).value).value;
    if k == |t| then 0
    else
      var magnitude: int := ValueOf(DigitsBetween(t, ExpDigits(t, k), |t|));
      if t[k + 1] == '-' then -magnitude else magnitude
  }

  /** The number a lexeme denotes (RFC 8259, section 6). */
  function ReadNumber(t: string): Number
    requires IsNumber(t)
  {
    var frac := FracPart(t);
    Number(SignEnd(t) == 1, ValueOf(WholePart(t) + frac), |frac| - Exponent(t))
  }

  // --------------------------------------------------------- shapes of text

  lemma {:induction false} SpanOf(a: string, b: string)
    requires AllDigits(a) && (b == "" || !IsDigit(b[0]))
    ensures DigitSpan(a + b) == |a|
  {
    if a == "" {
      assert a + b == b;
    } else {
      assert (a + b)[1..] == a[1..] + b;
      SpanOf(a[1..], b);
    }
  }

  predicate PlainInteger(a: string) {
    a != "" && AllDigits(a) && (|a| > 1 ==> a[0] != '0')
  }

  lemma IntEndOf(neg: bool, a: string, b: string)
    requires PlainInteger(a) && (b == "" || !IsDigit(b[0]))
    ensures var t := (Sign(neg) + a) + b;
            SignEnd(t) == |Sign(neg)| && IntEnd(t, SignEnd(t)) == Some(|Sign(neg)| + |a|)
            && DigitSpan(t[SignEnd(t)..]) == |a|
            && t[SignEnd(t)..SignEnd(t) + |a|] == a
  {
    var t := (Sign(neg) + a) + b;
    assert t[|Sign(neg)|..] == a + b;
    assert IsDigit(a[0]);
    SpanOf(a, b);
    assert t[|Sign(neg)|] == a[0];
  }

  lemma IntegerShape(neg: bool, a: string)
    requires PlainInteger(a)
    ensures IsNumber(Sign(neg) + a) && ReadNumber(Sign(neg) + a) == Number(neg, ValueOf(a), 0)
  {
    IntEndOf(neg, a, "");
    assert (Sign(neg) + a) + "" == Sign(neg) + a;
    assert a + "" == a;
  }

  lemma DottedShape(neg: bool, a: string)
    requires PlainInteger(a)
    ensures JsonRoundTrip.Dotted((Sign(neg) + a) + ".")
  {
    IntEndOf(neg, a, ".");
  }

  lemma FracEndOf(t: string, j: nat, f: string)
    requires j < |t| && t[j] == '.' && t[j + 1..] == f && f != "" && AllDigits(f)
    ensures FracEnd(t, j) == Some(|t|)
  {
    hide DigitSpan;
    SpanOf(f, "");
    assert f + "" == f;
  }

  lemma FractionSplits(neg: bool, a: string, f: string)
    ensures var t := (Sign(neg) + a) + ("." + f); var i, j := |Sign(neg)|, |Sign(neg)| + |a|;
            |t| == j + 1 + |f| && t[j] == '.' && t[i..j] == a && t[j + 1..] == f && t[j + 1..|t|] == f
  {
  }

  lemma FractionEnds(neg: bool, a: string, f: string)
    requires PlainInteger(a) && f != "" && AllDigits(f)
    ensures var t := (Sign(neg) + a) + ("." + f); var j := |Sign(neg)| + |a|;
            SignEnd(t) == |Sign(neg)| && IntEnd(t, SignEnd(t)) == Some(j) && FracEnd(t, j) == Some(|t|)
  {
    hide DigitSpan, IntEnd, FracEnd, SignEnd, Sign, PlainInteger, AllDigits;
    var t := (Sign(neg) + a) + ("." + f);
    FractionSplits(neg, a, f);
    IntEndOf(neg, a, "." + f);
    FracEndOf(t, |Sign(neg)| + |a|, f);
  }

  lemma FractionIsNumber(neg: bool, a: string, f: string)
    requires PlainInteger(a) && f != "" && AllDigits(f)
    ensures IsNumber((Sign(neg) + a) + ("." + f))
  {
    hide DigitSpan, IntEnd, FracEnd, SignEnd, Sign, PlainInteger, AllDigits;
    FractionEnds(neg, a, f);
  }

  lemma FractionParts(neg: bool, a: string, f: string)
    requires PlainInteger(a) && f != "" && AllDigits(f)
    ensures var t := (Sign(neg) + a) + ("." + f);
            IsNumber(t) && WholePart(t) == a && FracPart(t) == f && Exponent(t) == 0 && SignEnd(t) == |Sign(neg)|
  {
    FractionIsNumber(neg, a, f);
    hide DigitSpan, IntEnd, FracEnd, SignEnd, Sign, PlainInteger, AllDigits, IsNumber;
    FractionEnds(neg, a, f);
    FractionSplits(neg, a, f);
  }

  lemma DigitsAppend(a: string, b: string)
    ensures AllDigits(a + b) <==> AllDigits(a) && AllDigits(b)
  {
    if AllDigits(a + b) {
      assert forall i :: 0 <= i < |a| ==> a[i] == (a + b)[i];
      assert forall i :: 0 <= i < |b| ==> b[i] == (a + b)[|a| + i];
    }
  }

  lemma FractionShape(neg: bool, a: string, f: string)
    requires PlainInteger(a) && f != "" && AllDigits(f)
    ensures var t := (Sign(neg) + a) + ("." + f);
            IsNumber(t) && AllDigits(a + f) && ReadNumber(t) == Number(neg, ValueOf(a + f), |f|)
  {
    hide DigitSpan, IntEnd, FracEnd, SignEnd, AllDigits, IsNumber, WholePart, FracPart, Exponent, ValueOf;
    FractionParts(neg, a, f);
    DigitsAppend(a, f);
  }

  // ---------------------------------------------------------- what is printed

  /** What 32 bytes hold of a number with six decimals. */
  lemma CutShape(head: string, frac: string)
    requires |frac| == 6
    ensures var w, text := |head|, Snprintf(head + ("." + frac), 32);
            && (w <= 24 ==> text == head + ("." + frac))
            && (24 < w <= 29 ==> text == head + ("." + frac[..30 - w]))
            && (w == 30 ==> text == head + ".")
            && (w > 30 ==> text == head[..31])
  {
    var w, text := |head|, head + ("." + frac);
    if 24 < w <= 29 {
      assert text[..31] == head + ("." + frac[..30 - w]);
    } else if w == 30 {
      assert text[..31] == head + ".";
    } else if w > 30 {
      assert text[..31] == head[..31];
    }
  }

  lemma SignCut(neg: bool, whole: string)
    requires |Sign(neg)| + |whole| >= 31
    ensures (Sign(neg) + whole)[..31] == Sign(neg) + whole[..31 - |Sign(neg)|]
  {
  }

  /** What `%.6f` leaves in the buffer, by the width in front of the point:
      up to 24 everything, up to 29 fewer decimals, at 30 a bare point, and
      beyond that the leading digits alone. */
  lemma PrintedShape(neg: bool, mag: Magnitude)
    ensures var micro := Millionths(mag); var whole := Digits(micro / 1000000); var w := Width(neg, micro);
            var text := FormatDouble(Finite(neg, mag));
            && PlainInteger(whole)
            && (w <= 24 ==> text == (Sign(neg) + whole) + ("." + Padded(micro % 1000000, 6)))
            && (24 < w <= 29 ==> text == (Sign(neg) + whole) + ("." + Padded(micro % 1000000, 6)[..30 - w]))
            && (w == 30 ==> text == (Sign(neg) + whole) + ".")
            && (w > 30 ==> text == Sign(neg) + whole[..31 - |Sign(neg)|])
  {
    hide Digits, Padded, Snprintf, Millionths, Sign, ValueOf, AllDigits;
    var micro := Millionths(mag);
    ReadDigits(micro / 1000000);
    var whole := Digits(micro / 1000000);
    CutShape(Sign(neg) + whole, Padded(micro % 1000000, 6));
    if Width(neg, micro) > 30 { SignCut(neg, whole); }
  }

  /** The printed text is a JSON number unless exactly 30 characters stand in
      front of the decimal point; then it ends in the point. */
  lemma PrintedIsNumberIff(d: Double)
    ensures IsNumber(FormatDouble(d)) <==> !(d.Finite? && Width(d.neg, Millionths(d.mag)) == 30)
    ensures !IsNumber(FormatDouble(d)) ==> JsonRoundTrip.Dotted(FormatDouble(d))
  {
    hide IsNumber, ReadNumber, FormatDouble, Millionths, Digits, JsonRoundTrip.Dotted, NumberLength;
    match d
    case Finite(neg, mag) =>
      PrintedShape(neg, mag);
      var micro := Millionths(mag);
      var whole := Digits(micro / 1000000);
      var w := Width(neg, micro);
      if w <= 24 {
        FractionShape(neg, whole, Padded(micro % 1000000, 6));
      } else if w <= 29 {
        FractionShape(neg, whole, Padded(micro % 1000000, 6)[..30 - w]);
      } else if w == 30 {
        DottedShape(neg, whole);
        JsonRoundTrip.DottedIsNoNumber((Sign(neg) + whole) + ".");
      } else {
        IntegerShape(neg, whole[..31 - |Sign(neg)|]);
      }
    case _ =>
      NonFiniteText(d);
  }

  lemma NonFiniteText(d: Double)
    requires !d.Finite?
    ensures IsNumber(FormatDouble(d)) && ReadNumber(FormatDouble(d)) == Number(false, 0, 1)
  {
    hide IsNumber, ReadNumber;
    FractionShape(false, "0", "0");
    assert (Sign(false) + "0") + ("." + "0") == "0.0";
    ReadConcat("0", "0");
    assert ValueOf("0") == 0 by { assert "0"[..0] == ""; }
  }

  /** The digit bound inside which nothing is cut: 24 digits, 23 behind a sign. */
  predicate InBound(d: Double) {
    d.Finite? ==> Millionths(d.mag) / 1000000 < Pow10(if d.neg then 23 else 24)
  }

  lemma InBoundIsWidth(neg: bool, mag: Magnitude)
    ensures InBound(Finite(neg, mag)) <==> Width(neg, Millionths(mag)) <= 24
  {
    DigitsLength(Millionths(mag) / 1000000, if neg then 23 else 24);
  }

  /** Inside the bound the reader gets the six-decimal rounding, exactly. */
  lemma PrintedReadsBack(d: Double)
    requires InBound(d)
    ensures IsNumber(FormatDouble(d))
    ensures ReadNumber(FormatDouble(d)) ==
            if d.Finite? then Number(d.neg, Millionths(d.mag), 6) else Number(false, 0, 1)
  {
    match d
    case Finite(neg, mag) =>
      PrintedShape(neg, mag);
      InBoundIsWidth(neg, mag);
      var micro := Millionths(mag);
      var whole, frac := Digits(micro / 1000000), Padded(micro % 1000000, 6);
      FractionShape(neg, whole, frac);
      ReadDigits(micro / 1000000);
      Tens();
      ReadPadded(micro % 1000000, 6);
      ReadConcat(whole, frac);
    case _ =>
      NonFiniteText(d);
  }

  function RealOf(d: Number): real
    requires d.scale >= 0
  {
    (if d.neg then -(d.mantissa as real) else d.mantissa as real) / Pow10(d.scale) as real
  }

  lemma RoundingIsClose(neg: bool, mag: Magnitude)
    ensures -0.0000005 <= RealOf(Number(neg, Millionths(mag), 6)) - Finite(neg, mag).Value() <= 0.0000005
  {
    Tens();
  }

  /** ... which is within half a millionth of the value printed. */
  lemma PrintedIsClose(d: Double)
    requires d.Finite? && InBound(d)
    ensures IsNumber(FormatDouble(d)) && ReadNumber(FormatDouble(d)).scale >= 0
    ensures -0.0000005 <= RealOf(ReadNumber(FormatDouble(d))) - d.Value() <= 0.0000005
  {
    PrintedReadsBack(d);
    Tens();
  }

  // ------------------------------------------------------- beyond the bound

  /** Decimals that do not fit the buffer. */
  function Dropped(w: nat): nat {
    if w <= 24 then 0 else if w <= 30 then w - 24 else 6
  }

  /** The text is read as the six-decimal rounding. */
  predicate ReadsRounding(text: string, neg: bool, micro: nat) {
    IsNumber(text) && ReadNumber(text).scale >= 0 && RealOf(ReadNumber(text)) == RealOf(Number(neg, micro, 6))
  }

  lemma ScaledQuotient(a: nat, p: nat, q: nat)
    requires p > 0 && q > 0 && p * q == 1000000
    ensures a as real / q as real == (a * p) as real / 1000000.0
  {
    var x := a as real / q as real;
    assert x * q as real == a as real;
    assert (a * p) as real == a as real * p as real == x * (q as real * p as real);
    assert q as real * p as real == (p * q) as real == 1000000.0;
  }

  lemma CutQuotient(whole: nat, frac: nat, p: nat, q: nat)
    requires p > 0 && q > 0 && p * q == 1000000
    ensures (whole * q + frac / p) * p == whole * 1000000 + frac <==> frac % p == 0
  {
    assert (whole * q + frac / p) * p == whole * (p * q) + frac / p * p;
  }

  lemma WholeMultiple(micro: nat, p: nat, q: nat)
    requires p > 0 && q > 0 && p * q == 1000000
    ensures micro % p == micro % 1000000 % p
  {
    var whole, frac := micro / 1000000, micro % 1000000;
    assert micro == p * (q * whole + frac / p) + frac % p by {
      assert whole * (p * q) == p * (q * whole);
    }
    Division.Unique(micro, p, q * whole + frac / p, frac % p);
  }

  lemma NegatedQuotient(a: real, p: real)
    requires p > 0.0
    ensures (-a) / p == -(a / p)
  {
    var x, y := a / p, (-a) / p;
    assert x * p == a && y * p == -a;
    assert (x + y) * p == 0.0;
  }

  lemma SameSign(neg: bool, a: nat, j: nat, b: nat, k: nat)
    ensures RealOf(Number(neg, a, j)) == RealOf(Number(neg, b, k))
       <==> a as real / Pow10(j) as real == b as real / Pow10(k) as real
  {
    hide Pow10;
    NegatedQuotient(a as real, Pow10(j) as real);
    NegatedQuotient(b as real, Pow10(k) as real);
  }

  /** Cutting decimals loses nothing exactly when they are zeros. */
  lemma CutDecimals(neg: bool, micro: nat, j: nat)
    requires j <= 6
    ensures var whole, frac := micro / 1000000, micro % 1000000;
            RealOf(Number(neg, whole * Pow10(j) + frac / Pow10(6 - j), j)) == RealOf(Number(neg, micro, 6))
            <==> micro % Pow10(6 - j) == 0
  {
    hide Pow10, RealOf;
    Tens();
    PowersAdd(j, 6 - j);
    var whole, frac, p, q := micro / 1000000, micro % 1000000, Pow10(6 - j), Pow10(j);
    var cut := whole * q + frac / p;
    SameSign(neg, cut, j, micro, 6);
    ScaledQuotient(cut, p, q);
    CutQuotient(whole, frac, p, q);
    WholeMultiple(micro, p, q);
  }

  lemma CutFraction(neg: bool, micro: nat, j: nat)
    requires 1 <= j <= 5
    ensures ReadsRounding((Sign(neg) + Digits(micro / 1000000)) + ("." + Padded(micro % 1000000, 6)[..j]), neg, micro)
            <==> micro % Pow10(6 - j) == 0
  {
    hide IsNumber, ReadNumber, RealOf, Sign, Digits, Padded, Pow10, ValueOf;
    var whole, frac := Digits(micro / 1000000), Padded(micro % 1000000, 6)[..j];
    ReadDigits(micro / 1000000);
    FractionShape(neg, whole, frac);
    PaddedPrefix(micro % 1000000, 6, j);
    Tens();
    var kept := micro % 1000000 / Pow10(6 - j);
    assert kept < Pow10(j) by {
      if j == 1 {} else if j == 2 {} else if j == 3 {} else if j == 4 {} else {}
    }
    ReadPadded(kept, j);
    ReadConcat(whole, frac);
    CutDecimals(neg, micro, j);
  }

  /** A proper prefix of the digits denotes a smaller number. */
  lemma CutInteger(n: nat, k: nat)
    requires k < |Digits(n)|
    ensures AllDigits(Digits(n)[..k])
    ensures k > 0 ==> ValueOf(Digits(n)[..k]) < n
  {
    hide Digits, ValueOf;
    var text := Digits(n);
    ReadDigits(n);
    assert text == text[..k] + text[k..];
    if k > 0 {
      ReadConcat(text[..k], text[k..]);
      var v, p := ValueOf(text[..k]), Pow10(|text| - k);
      assert p >= 10 by { assert p == 10 * Pow10(|text| - k - 1); }
      assert v * p >= v * 10;
      if n == 0 { DigitsLength(0, 1); }
    }
  }

  /** What is read is the six-decimal rounding exactly for up to 31 characters in
      front of the point, 30 excepted, if the decimals that do not fit are zeros.
      Beyond that the leading digits pass for a smaller number. */
  lemma PrintedReadsRoundingIff(neg: bool, mag: Magnitude)
    ensures var micro := Millionths(mag); var w := Width(neg, micro);
            ReadsRounding(FormatDouble(Finite(neg, mag)), neg, micro)
            <==> w <= 31 && w != 30 && micro % Pow10(Dropped(w)) == 0
  {
    hide IsNumber, ReadNumber, RealOf, FormatDouble, Millionths, Digits, Padded, ValueOf, Sign, Snprintf;
    PrintedShape(neg, mag);
    Tens();
    var micro := Millionths(mag);
    var w := Width(neg, micro);
    if w <= 24 {
      InBoundIsWidth(neg, mag);
      PrintedReadsBack(Finite(neg, mag));
    } else if w <= 29 {
      CutFraction(neg, micro, 30 - w);
    } else if w == 30 {
      PrintedIsNumberIff(Finite(neg, mag));
    } else {
      LongInteger(neg, micro);
    }
  }

  lemma LongInteger(neg: bool, micro: nat)
    requires Width(neg, micro) > 30
    ensures ReadsRounding(Sign(neg) + Digits(micro / 1000000)[..31 - |Sign(neg)|], neg, micro)
            <==> Width(neg, micro) == 31 && micro % 1000000 == 0
  {
    hide IsNumber, ReadNumber, Digits, ValueOf;
    var n := micro / 1000000;
    var whole := Digits(n);
    var k := 31 - |Sign(neg)|;
    ReadDigits(n);
    Tens();
    if |whole| == k {
      assert whole[..k] == whole;
      IntegerShape(neg, whole);
    } else {
      CutInteger(n, k);
      IntegerShape(neg, whole[..k]);
    }
  }

  lemma WidthIs(neg: bool, micro: nat, w: nat)
    requires w > |Sign(neg)| + 1
    ensures Width(neg, micro) == w <==>
            Pow10(w - |Sign(neg)| - 1) <= micro / 1000000 < Pow10(w - |Sign(neg)|)
  {
    hide Digits, Pow10;
    DigitsLength(micro / 1000000, w - |Sign(neg)|);
    DigitsLength(micro / 1000000, w - |Sign(neg)| - 1);
  }

  lemma MillionthsOfWhole(n: nat)
    ensures Millionths(n as real) == n * 1000000
  {
    var x := n as real * 1000000.0;
    assert x == (n * 1000000) as real;
    assert x.Floor == n * 1000000;
  }

  /** 2 to the 97th is a double whose text is no JSON number. */
  lemma ThirtyCharactersExist()
    ensures Width(false, Millionths(158456325028528675187087900672.0)) == 30
    ensures !IsNumber(FormatDouble(Finite(false, 158456325028528675187087900672.0)))
  {
    hide IsNumber, FormatDouble, Millionths, Width;
    var n := 158456325028528675187087900672;
    MillionthsOfWhole(n);
    WidthIs(false, n * 1000000, 30);
    TwentyNine();
    PrintedIsNumberIff(Finite(false, 158456325028528675187087900672.0));
  }

  lemma TwentyNine()
    ensures Pow10(29) == 100000000000000000000000000000 && Pow10(30) == 10 * Pow10(29)
  {
    Tens();
    PowersAdd(6, 6);
    PowersAdd(12, 12);
    PowersAdd(24, 5);
  }

  lemma PrintedIsPrintable(d: Double)
    ensures JsonEscape.Printable(FormatDouble(d))
  {
    if d.Finite? {
      var micro := Millionths(d.mag);
      ReadDigits(micro / 1000000);
      var whole, frac := Digits(micro / 1000000), Padded(micro % 1000000, 6);
      assert JsonEscape.Printable(whole) && JsonEscape.Printable(frac);
      JsonEscape.PrintableAppends(Sign(d.neg), whole);
      JsonEscape.PrintableAppends(".", frac);
      JsonEscape.PrintableAppends(Sign(d.neg) + whole, "." + frac);
    }
  }
}
