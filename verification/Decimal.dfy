/** Decimal notation of natural numbers: `%d`-style, zero-padded, and the
    value a digit string denotes. */
module Decimal {
  import Division
  import TextOrder

  function Pow10(k: nat): (r: nat)
    ensures r >= 1
  {
    if k == 0 then 1 else 10 * Pow10(k - 1)
  }

  lemma Tens()
    ensures Pow10(0) == 1 && Pow10(1) == 10 && Pow10(2) == 100 && Pow10(3) == 1000
    ensures Pow10(4) == 10000 && Pow10(5) == 100000 && Pow10(6) == 1000000
  {
    assert Pow10(1) == 10 * Pow10(0);
    assert Pow10(2) == 10 * Pow10(1);
    assert Pow10(3) == 10 * Pow10(2);
    assert Pow10(4) == 10 * Pow10(3);
    assert Pow10(5) == 10 * Pow10(4);
  }

  lemma {:induction false} PowersAdd(a: nat, b: nat)
    ensures Pow10(a + b) == Pow10(a) * Pow10(b)
  {
    if b > 0 {
      PowersAdd(a, b - 1);
      assert Pow10(a + b) == 10 * (Pow10(a) * Pow10(b - 1));
    }
  }

  function DigitChar(d: nat): (c: char)
    requires d < 10
    ensures '0' <= c <= '9'
  {
    '0' + d as char
  }

  predicate IsDigit(c: char) {
    '0' <= c <= '9'
  }

  predicate AllDigits(s: string) {
    forall i :: 0 <= i < |s| ==> IsDigit(s[i])
  }

  /** The shortest decimal text of `n`. */
  function Digits(n: nat): string {
    if n < 10 then [DigitChar(n)] else Digits(n / 10) + [DigitChar(n % 10)]
  }

  /** The last `k` decimal digits of `n`, zeros included. */
  function Padded(n: nat, k: nat): (s: string)
    ensures |s| == k && AllDigits(s)
  {
    if k == 0 then "" else Padded(n / 10, k - 1) + [DigitChar(n % 10)]
  }

  /** `%0kd`: zeros up to width `k`, but never fewer digits than needed. */
  function AtLeast(n: nat, k: nat): string {
    if |Digits(n)| < k then Padded(n, k) else Digits(n)
  }

  function ValueOf(s: string): nat
    requires AllDigits(s)
  {
    if s == "" then 0
    else 10 * ValueOf(s[..|s| - 1]) + (s[|s| - 1] as int - '0' as int)
  }

  lemma {:induction false} ReadDigits(n: nat)
    ensures AllDigits(Digits(n)) && Digits(n) != "" && ValueOf(Digits(n)) == n
    ensures |Digits(n)| > 1 ==> Digits(n)[0] != '0'
  {
    if n < 10 {
      assert ValueOf([DigitChar(n)][..0]) == 0;
    } else {
      ReadDigits(n / 10);
      assert Digits(n)[..|Digits(n)| - 1] == Digits(n / 10);
    }
  }

  lemma {:induction false} DigitsLength(n: nat, k: nat)
    requires k >= 1
    ensures |Digits(n)| <= k <==> n < Pow10(k)
  {
    if k == 1 {
      assert Pow10(1) == 10 * Pow10(0) && Pow10(0) == 1;
      if n >= 10 { ReadDigits(n / 10); }
    } else if n < 10 {
      assert Pow10(k) == 10 * Pow10(k - 1);
    } else {
      DigitsLength(n / 10, k - 1);
    }
  }

  lemma {:induction false} ReadPadded(n: nat, k: nat)
    requires n < Pow10(k)
    ensures ValueOf(Padded(n, k)) == n
  {
    if k > 0 {
      ReadPadded(n / 10, k - 1);
      assert Padded(n, k)[..k - 1] == Padded(n / 10, k - 1);
    }
  }

  lemma DivideTwice(n: nat, b: nat)
    requires b > 0
    ensures n / 10 / b == n / (10 * b)
  {
    var q, r := n / 10, n % 10;
    var q', r' := q / b, q % b;
    assert (10 * b) * q' == 10 * (b * q');
    Division.Unique(n, 10 * b, q', 10 * r' + r);
  }

  /** The leading decimals are those of the number without its last ones. */
  lemma {:induction false} PaddedPrefix(n: nat, k: nat, j: nat)
    requires j <= k
    ensures Padded(n, k)[..j] == Padded(n / Pow10(k - j), j)
    decreases k
  {
    if j < k {
      PaddedPrefix(n / 10, k - 1, j);
      assert Padded(n, k)[..k - 1] == Padded(n / 10, k - 1);
      assert Padded(n, k)[..j] == Padded(n, k)[..k - 1][..j];
      DivideTwice(n, Pow10(k - 1 - j));
    } else {
      assert Pow10(0) == 1;
    }
  }

  lemma TenTimes(v: nat, n: nat)
    ensures v * Pow10(n + 1) == 10 * (v * Pow10(n))
  {
  }

  lemma {:induction false} ReadConcat(a: string, b: string)
    requires AllDigits(a) && AllDigits(b)
    ensures AllDigits(a + b) && ValueOf(a + b) == ValueOf(a) * Pow10(|b|) + ValueOf(b)
  {
    if b == "" {
      assert a + b == a;
    } else {
      var n := |b| - 1;
      ReadConcat(a, b[..n]);
      assert (a + b)[..|a + b| - 1] == a + b[..n];
      TenTimes(ValueOf(a), n);
      hide Pow10;
    }
  }

  lemma {:induction false} PaddedIsDigits(n: nat)
    ensures Padded(n, |Digits(n)|) == Digits(n)
  {
    if n >= 10 {
      PaddedIsDigits(n / 10);
    } else {
      assert Padded(n / 10, 0) == "";
    }
  }

  /** Equal-width decimal texts are ordered as their numbers. */
  lemma {:induction false} PaddedOrder(m: nat, n: nat, k: nat)
    requires m < Pow10(k) && n < Pow10(k)
    ensures TextOrder.Less(Padded(m, k), Padded(n, k)) <==> m < n
    ensures Padded(m, k) == Padded(n, k) <==> m == n
  {
    ReadPadded(m, k);
    ReadPadded(n, k);
    if k > 0 {
      PaddedOrder(m / 10, n / 10, k - 1);
      TextOrder.HeadFirst(Padded(m / 10, k - 1), Padded(n / 10, k - 1), [DigitChar(m % 10)], [DigitChar(n % 10)]);
    }
  }
}
