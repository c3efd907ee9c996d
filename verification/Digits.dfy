/** Numbers as digit sequences, least significant digit first. */
module Digits {

  function DigitsOf(n: nat, base: nat): (ds: seq<nat>)
    requires 2 <= base
    ensures ds != [] && forall i :: 0 <= i < |ds| ==> ds[i] < base
  {
    if n < base then [n] else
      Shrinks(n, base);
      [n % base] + DigitsOf(n / base, base)
  }

  lemma Shrinks(n: nat, base: nat)
    requires 2 <= base <= n
    ensures n / base < n
  {
    DivMod(n, base);
    QuotientBelow(n, base, n / base, n % base);
  }

  lemma QuotientBelow(n: nat, base: nat, q: nat, r: nat)
    requires 2 <= base <= n && base * q + r == n
    ensures q < n
  {
    Scale(q, 2, base);
  }

  lemma DivMod(n: nat, base: nat)
    requires 2 <= base
    ensures base * (n / base) + n % base == n && n % base < base
  {
  }

  /** What a digit sequence is worth. */
  function ValueOf(ds: seq<nat>, base: nat): nat {
    if ds == [] then 0 else ds[0] + base * ValueOf(ds[1..], base)
  }

  lemma {:induction false} DigitsValue(n: nat, base: nat)
    requires 2 <= base
    ensures ValueOf(DigitsOf(n, base), base) == n
  {
    if n < base {
      assert DigitsOf(n, base)[1..] == [];
      assert ValueOf([], base) == 0;
    } else {
      Shrinks(n, base);
      DigitsValue(n / base, base);
      DivMod(n, base);
      ValueCons(n % base, DigitsOf(n / base, base), base);
    }
  }

  lemma {:induction false} ValueCons(d: nat, ds: seq<nat>, base: nat)
    ensures ValueOf([d] + ds, base) == d + base * ValueOf(ds, base)
  {
    assert ([d] + ds)[1..] == ds;
  }

  /** No leading zero, except for zero itself. */
  lemma {:induction false} NoLeadingZero(n: nat, base: nat)
    requires 2 <= base
    ensures DigitsOf(n, base)[|DigitsOf(n, base)| - 1] == 0 ==> n == 0
    ensures n == 0 ==> DigitsOf(n, base) == [0]
  {
    if n >= base {
      Shrinks(n, base);
      NoLeadingZero(n / base, base);
      Quotient(n, base);
    }
  }

  lemma Quotient(n: nat, base: nat)
    requires 2 <= base <= n
    ensures 0 < n / base
  {
  }

  function Pow(base: nat, e: nat): nat {
    if e == 0 then 1 else base * Pow(base, e - 1)
  }

  /** A number below base^k has at most k digits. */
  lemma {:induction false} DigitsBound(n: nat, base: nat, k: nat)
    requires 2 <= base && 0 < k && n < Pow(base, k)
    ensures |DigitsOf(n, base)| <= k
    decreases k
  {
    if n >= base {
      Shrinks(n, base);
      if k > 1 {
        DivBelow(n, base, Pow(base, k - 1));
        DigitsBound(n / base, base, k - 1);
      }
    }
  }

  lemma DivBelow(n: nat, base: nat, p: nat)
    requires 2 <= base && n < base * p
    ensures n / base < p
  {
    DivMod(n, base);
    var q := n / base;
    if q >= p { Scale(base, p, q); }
  }

  lemma Scale(base: nat, p: nat, q: nat)
    requires p <= q
    ensures base * p <= base * q
  {
  }

  // ---- decimal, five digits at a time ----

  /** The five low decimal digits, zeros included. */
  function Five(q: nat): seq<nat> {
    [q % 10, q / 10 % 10, q / 100 % 10, q / 1000 % 10, q / 10000 % 10]
  }

  lemma DivDiv(n: nat)
    ensures n / 10 / 10 == n / 100
    ensures n / 100 / 10 == n / 1000
    ensures n / 1000 / 10 == n / 10000
    ensures n / 10000 / 10 == n / 100000
  {
  }

  lemma Div10(n: nat, q: nat, m: nat)
    requires n == 10 * q + m && m < 10
    ensures n / 10 == q && n % 10 == m
  {
  }

  /** A multiple of ten added below does not reach the last digit. */
  lemma LastDigit(a: nat, k: nat)
    ensures (10 * a + k) % 10 == k % 10 && (10 * a + k) / 10 == a + k / 10
  {
    Div10(10 * a + k, a + k / 10, k % 10);
  }

  lemma LowDigits(n: nat)
    ensures Five(n % 100000) == Five(n)
  {
    var h, r := n / 100000, n % 100000;
    DivDiv(n);
    DivDiv(r);
    assert n == 10 * (10000 * h) + r;
    LastDigit(10000 * h, r);
    LastDigit(1000 * h, r / 10);
    LastDigit(100 * h, r / 100);
    LastDigit(10 * h, r / 1000);
    LastDigit(h, r / 10000);
  }

  lemma {:induction false} PeelDigit(n: nat)
    requires 10 <= n
    ensures DigitsOf(n, 10) == [n % 10] + DigitsOf(n / 10, 10)
  {
  }

  /** Splitting off the five low digits. */
  lemma {:induction false} SplitFive(n: nat)
    requires 100000 <= n
    ensures DigitsOf(n, 10) == Five(n % 100000) + DigitsOf(n / 100000, 10)
  {
    DivDiv(n);
    LowDigits(n);
    PeelDigit(n);
    PeelDigit(n / 10);
    PeelDigit(n / 100);
    PeelDigit(n / 1000);
    PeelDigit(n / 10000);
  }

  /** The digits of a number below 100000, one case per length. */
  lemma {:induction false} UpToFive(q: nat)
    requires q < 100000
    ensures DigitsOf(q, 10) ==
      if q / 10 == 0 then Five(q)[..1]
      else if q / 100 == 0 then Five(q)[..2]
      else if q / 1000 == 0 then Five(q)[..3]
      else if q / 10000 == 0 then Five(q)[..4]
      else Five(q)
  {
    DivDiv(q);
    if 10 <= q { PeelDigit(q); }
    if 100 <= q { PeelDigit(q / 10); }
    if 1000 <= q { PeelDigit(q / 100); }
    if 10000 <= q { PeelDigit(q / 1000); }
  }

  // ---- multiply and shift ----

  /** Multiplying by 205 and dropping eleven bits divides by ten below 1029. */
  lemma Div205(x: nat)
    requires x < 1029
    ensures x * 0xcd / 2048 == x / 10
  {
    var d, r := x / 10, x % 10;
    assert x * 0xcd == 2048 * d + (2 * d + 205 * r);
  }

  /** Multiplying by 13 and dropping seven bits divides by ten below 69. */
  lemma Div13(x: nat)
    requires x < 69
    ensures x * 0xd / 128 == x / 10
  {
    var d, r := x / 10, x % 10;
    assert x * 0xd == 128 * d + (2 * d + 13 * r);
  }

  /** The bounds are sharp. */
  lemma MultiplyShiftLimits()
    ensures 1029 * 0xcd / 2048 != 1029 / 10
    ensures 69 * 0xd / 128 != 69 / 10
  {
  }

  /** The running sums of the nibble method. */
  datatype Sums = Sums(s0: nat, s1: nat, s2: nat, s3: nat)

  function NibbleSums(q: nat): Sums {
    var d1, d2, d3 := q / 16 % 16, q / 256 % 16, q / 4096;
    var s0 := 6 * (d3 + d2 + d1) + q % 16;
    var s1 := s0 / 10 + 9 * d3 + 5 * d2 + d1;
    var s2 := s1 / 10 + 2 * d2;
    Sums(s0, s1, s2, s2 / 10 + 4 * d3)
  }

  /** The sums stay where multiply-and-shift is exact. */
  lemma NibbleBounds(q: nat)
    requires q < 100000
    ensures var s := NibbleSums(q); s.s0 < 1029 && s.s1 < 1029 && s.s2 < 69 && s.s3 < 1029
  {
    assert q / 4096 <= 24;
  }

  /** Each running sum carries the digits above the ones already emitted: the linear part. */
  lemma CarryLinear(q: nat, d1: nat, d2: nat, d3: nat, r: nat, t0: nat, t1: nat)
    requires q == 4096 * d3 + 256 * d2 + 16 * d1 + r
    ensures q == (6 * (d3 + d2 + d1) + r) + 10 * (409 * d3 + 25 * d2 + d1)
    ensures t0 + (409 * d3 + 25 * d2 + d1) == (t0 + 9 * d3 + 5 * d2 + d1) + 10 * (40 * d3 + 2 * d2)
    ensures t1 + (40 * d3 + 2 * d2) == (t1 + 2 * d2) + 10 * (4 * d3)
  {
  }

  lemma CarryChain(q: nat, d1: nat, d2: nat, d3: nat, r: nat, s: Sums)
    requires q == 4096 * d3 + 256 * d2 + 16 * d1 + r
    requires s.s0 == 6 * (d3 + d2 + d1) + r && s.s1 == s.s0 / 10 + 9 * d3 + 5 * d2 + d1
    requires s.s2 == s.s1 / 10 + 2 * d2 && s.s3 == s.s2 / 10 + 4 * d3
    ensures q % 10 == s.s0 % 10 && q / 10 == s.s1 + 10 * (40 * d3 + 2 * d2)
    ensures q / 10 % 10 == s.s1 % 10 && q / 10 / 10 == s.s2 + 10 * (4 * d3)
    ensures q / 10 / 10 % 10 == s.s2 % 10 && q / 10 / 10 / 10 == s.s3
  {
    var q1, q2 := q / 10, q / 10 / 10;
    CarryLinear(q, d1, d2, d3, r, s.s0 / 10, s.s1 / 10);
    TenDown(q, s.s0, 409 * d3 + 25 * d2 + d1);
    TenDown(q1, s.s1, 40 * d3 + 2 * d2);
    TenDown(q2, s.s2, 4 * d3);
  }

  lemma NibbleSplit(q: nat)
    ensures q == 4096 * (q / 4096) + 256 * (q / 256 % 16) + 16 * (q / 16 % 16) + q % 16
  {
    assert q / 16 / 16 == q / 256;
    assert q / 256 / 16 == q / 4096;
  }

  lemma TenDown(q: nat, s: nat, c: nat)
    requires q == s + 10 * c
    ensures q / 10 == s / 10 + c && q % 10 == s % 10
  {
  }

  /** Each running sum yields the next decimal digit, and vanishes when no digits are left. */
  lemma NibbleDigits(q: nat)
    requires q < 100000
    ensures var s, d3 := NibbleSums(q), q / 4096;
      && s.s0 % 10 == q % 10 && s.s1 % 10 == q / 10 % 10 && s.s2 % 10 == q / 100 % 10
      && s.s3 % 10 == q / 1000 % 10 && s.s3 / 10 == q / 10000 % 10 && s.s3 / 10 == q / 10000
      && (s.s1 == 0 <==> q / 10 == 0)
      && (s.s2 == 0 && d3 == 0 <==> q / 100 == 0)
      && (s.s3 == 0 <==> q / 1000 == 0)
  {
    var s, d1, d2, d3 := NibbleSums(q), q / 16 % 16, q / 256 % 16, q / 4096;
    NibbleSplit(q);
    CarryChain(q, d1, d2, d3, q % 16, s);
    ZeroSums(d1, d2, d3, s, q / 10, q / 10 / 10);
    DivDiv(q);
    TopDigit(q);
  }

  lemma TopDigit(q: nat)
    requires q < 100000
    ensures q / 10000 % 10 == q / 10000
  {
  }

  lemma ZeroSums(d1: nat, d2: nat, d3: nat, s: Sums, q1: nat, q2: nat)
    requires q1 == s.s1 + 10 * (40 * d3 + 2 * d2) && q2 == s.s2 + 10 * (4 * d3)
    requires s.s1 >= 9 * d3 + 5 * d2 + d1
    ensures s.s1 == 0 <==> q1 == 0
    ensures s.s2 == 0 && d3 == 0 <==> q2 == 0
  {
  }
}
