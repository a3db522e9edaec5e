/** Decimal digits. */
module Decimals {
  predicate IsDigit(c: char) { '0' <= c <= '9' }

  predicate AllDigits(s: string) { forall i :: 0 <= i < |s| ==> IsDigit(s[i]) }

  function DigitsValue(s: string): int {
    if s == "" then 0 else DigitsValue(s[..|s| - 1]) * 10 + (s[|s| - 1] as int - '0' as int)
  }

  function TenTo(n: nat): (r: int)
    ensures 0 < r
  {
    if n == 0 then 1 else 10 * TenTo(n - 1)
  }

  function Digit(n: int): char
    requires 0 <= n < 10
  {
    '0' + n as char
  }

  /** n in decimal, zero-padded to at least width digits. */
  function Pad(n: nat, width: nat): string
    decreases n + width
  {
    if n < 10 && width <= 1 then [Digit(n)] else Pad(n / 10, if width == 0 then 0 else width - 1) + [Digit(n % 10)]
  }

  lemma {:induction false} PadIsDigits(n: nat, w: nat)
    requires 1 <= w && n < TenTo(w)
    ensures |Pad(n, w)| == w && AllDigits(Pad(n, w)) && DigitsValue(Pad(n, w)) == n
  {
    if w == 1 {
      assert Pad(n, w)[..0] == "";
    } else {
      PadIsDigits(n / 10, w - 1);
      assert Pad(n, w)[..w - 1] == Pad(n / 10, w - 1);
    }
  }

  lemma {:induction false} DigitsAreBounded(s: string)
    requires AllDigits(s)
    ensures 0 <= DigitsValue(s) < TenTo(|s|)
  {
    if s != "" {
      DigitsAreBounded(s[..|s| - 1]);
    }
  }

  lemma {:induction false} PadLength(n: nat, w: nat)
    ensures |Pad(n, w)| >= 1 && |Pad(n, w)| >= w && AllDigits(Pad(n, w))
    decreases n + w
  {
    if !(n < 10 && w <= 1) {
      PadLength(n / 10, if w == 0 then 0 else w - 1);
    }
  }

  lemma {:induction false} TooBigIsLonger(n: nat, w: nat)
    requires 1 <= w && TenTo(w) <= n
    ensures |Pad(n, w)| > w
  {
    PadLength(n, w);
    if w > 1 {
      TooBigIsLonger(n / 10, w - 1);
    }
  }

  lemma {:induction false} PadValue(n: nat, w: nat)
    ensures DigitsValue(Pad(n, w)) == n
    decreases n + w
  {
    if n < 10 && w <= 1 {
      assert Pad(n, w)[..0] == "";
    } else {
      var init := Pad(n / 10, if w == 0 then 0 else w - 1);
      PadValue(n / 10, if w == 0 then 0 else w - 1);
      assert Pad(n, w)[..|Pad(n, w)| - 1] == init;
    }
  }

  lemma {:induction false} DigitsConcat(a: string, b: string)
    ensures DigitsValue(a + b) == DigitsValue(a) * TenTo(|b|) + DigitsValue(b)
  {
    if b == "" {
      assert a + b == a;
    } else {
      var init := b[..|b| - 1];
      assert (a + b)[..|a + b| - 1] == a + init;
      DigitsConcat(a, init);
      ShiftDigits(DigitsValue(a), TenTo(|init|), DigitsValue(init));
    }
  }

  lemma ShiftDigits(a: int, p: int, b: int)
    ensures (a * p + b) * 10 == a * (10 * p) + b * 10
  {
  }

  // ---- powers of two ----

  function TwoTo(n: nat): (r: int)
    ensures 0 < r
  {
    if n == 0 then 1 else 2 * TwoTo(n - 1)
  }

  lemma {:induction false} TwoToSum(m: nat, n: nat)
    ensures TwoTo(m + n) == TwoTo(m) * TwoTo(n)
  {
    if n > 0 {
      TwoToSum(m, n - 1);
    }
  }

  lemma TwoToTen()
    ensures TwoTo(7) == 128 && TwoTo(10) == 1024
  {
    assert TwoTo(2) == 4 && TwoTo(4) == 16 && TwoTo(6) == 64;
    assert TwoTo(8) == 256;
  }

  lemma TwoToForty()
    ensures TwoTo(20) == 1048576 && TwoTo(40) == 1099511627776
  {
    TwoToTen();
    TwoToSum(10, 10);
    TwoToSum(20, 20);
  }

  lemma TwoTo63()
    ensures TwoTo(63) == 0x8000_0000_0000_0000
  {
    TwoToForty();
    TwoToSum(40, 20);
    assert TwoTo(63) == 2 * TwoTo(62) && TwoTo(62) == 2 * TwoTo(61) && TwoTo(61) == 2 * TwoTo(60);
  }

  lemma TwoTo54()
    ensures TwoTo(54) == 18014398509481984
  {
    TwoToForty();
    TwoToTen();
    TwoToSum(40, 7);
    TwoToSum(47, 7);
  }
}
