/** What simple_strtoull reads, against the numerals of section 7.20.1.4 of ISO/IEC 9899:1999. */
module Numeral {
  import opened PutDec
  import opened Layout
  import opened Strtoull
  import opened RoundTrip

  /** A zero and an x in front. */
  predicate Prefixed(t: string) { |t| >= 2 && t[0] == '0' && (t[1] == 'x' || t[1] == 'X') }

  /** The texts that the standard expects: digits of the base, with a prefix if they are hexadecimal; without a base,
      digits that do not start with zero are decimal, and others octal. */
  predicate IsNumeral(t: string, base: nat) {
    || ((base == 0 || base == 16) && |t| > 2 && Prefixed(t) && DigitRun(t[2..], 16))
    || (base == 0 && t != "" && DigitRun(t, if t[0] == '0' then 8 else 10))
    || (base != 0 && t != "" && DigitRun(t, base))
  }

  function NumeralValue(t: string, base: nat): nat {
    if (base == 0 || base == 16) && |t| > 2 && Prefixed(t) then TextValue(t[2..], 16)
    else if base == 0 && t != "" then TextValue(t, if t[0] == '0' then 8 else 10)
    else TextValue(t, base)
  }

  /** The longest numeral that starts at i ends at e; there is none if that is i. */
  ghost predicate IsLongest(s: string, i: nat, e: nat, base: nat) {
    && i <= e <= |s|
    && (i < e ==> IsNumeral(s[i..e], base))
    && forall f :: e < f <= |s| ==> !IsNumeral(s[i..f], base)
  }

  /** A prefix without a digit behind it. */
  predicate BarePrefix(s: string, i: nat)
    requires i <= |s|
  {
    Prefixed(s[i..]) && !(i + 2 < |s| && Accepts(s[i + 2], 16))
  }

  /** simple_strtoull reads exactly the longest numeral, for all texts, unless base 16 is named and a prefix stands
      without a digit: then it stops behind the x, where the standard stops behind the zero. */
  lemma {:induction false} ReadsNumeral(s: string, i: nat, e: nat, base: nat)
    requires i <= |s| && (base == 0 || 2 <= base <= 16) && IsLongest(s, i, e, base)
    ensures Parsed(s, i, base) == (NumeralValue(s[i..e], base) % U64, e) <==> !(base == 16 && BarePrefix(s, i))
  {
    SliceFront(s, i);
    if (base == 0 || base == 16) && Prefixed(s[i..]) {
      if BarePrefix(s, i) {
        BareRead(s, i, e, base);
      } else {
        PrefixRead(s, i, e, base);
      }
    } else {
      DigitsRead(s, i, e, base);
    }
  }

  /** simple_strtoll reads a minus sign and then such a numeral; its value is wrapped into 64 bits. No other sign is read. */
  lemma {:induction false} ReadsSigned(s: string, i: nat, e: nat, base: nat, v: int)
    requires i == (if s != "" && s[0] == '-' then 1 else 0) && (base == 0 || 2 <= base <= 16) && IsLongest(s, i, e, base)
    requires if i == 1 then v + NumeralValue(s[i..e], base) == 0 else v == NumeralValue(s[i..e], base)
    ensures var (r, end) := SignedParsed(s, base);
      end == e && (r - v) % U64 == 0 && -0x8000_0000_0000_0000 <= r < 0x8000_0000_0000_0000 <==> !(base == 16 && BarePrefix(s, i))
  {
    ReadsNumeral(s, i, e, base);
    if base == 16 && BarePrefix(s, i) {
      BareRead(s, i, e, base);
    } else {
      Wrapped(NumeralValue(s[i..e], base), i == 1);
    }
  }

  /** Wrapping a value, or the negative of it. */
  lemma {:induction false} Wrapped(n: nat, minus: bool)
    ensures minus ==> (ToSigned((U64 - n % U64) % U64) + n) % U64 == 0
    ensures !minus ==> (ToSigned(n % U64) - n) % U64 == 0
  {
    var q, m := n / U64, n % U64;
    assert n == U64 * q + m;
    if minus {
      var r := ToSigned((U64 - m) % U64);
      var k := if m == 0 then 0 else if U64 - m < U64 / 2 then 1 else 0;
      assert r + m == U64 * k;
      Multiple(r + n, k + q);
    } else {
      var r := ToSigned(m);
      var k := if m < U64 / 2 then 0 else -1;
      assert r - m == U64 * k;
      Multiple(r - n, k - q);
    }
  }

  lemma Multiple(n: int, k: int)
    requires n == U64 * k
    ensures n % U64 == 0
  {
  }

  lemma SliceFront(s: string, i: nat)
    requires i <= |s|
    ensures i < |s| ==> At(s, i) == s[i..][0]
    ensures i + 1 < |s| ==> At(s, i + 1) == s[i..][1]
    ensures Prefixed(s[i..]) <==> At(s, i) == '0' && LowerCode(At(s, i + 1)) == 'x' as int
  {
  }

  /** A run of digits is not longer than the scan. */
  lemma ScanMost(s: string, k: nat, f: nat, b: nat)
    requires k <= f <= |s|
    ensures DigitRun(s[k..f], b) <==> f <= ScanEnd(s, k, b)
  {
    var e := ScanEnd(s, k, b);
    if e < f {
      assert s[k..f][e - k] == s[e];
    } else {
      forall j | 0 <= j < f - k ensures Accepts(s[k..f][j], b) { assert s[k..f][j] == s[k + j]; }
    }
  }

  /** Behind a prefix. */
  lemma {:induction false} PrefixRead(s: string, i: nat, e: nat, base: nat)
    requires i + 2 < |s| && (base == 0 || base == 16) && Prefixed(s[i..]) && Accepts(s[i + 2], 16) && IsLongest(s, i, e, base)
    ensures Parsed(s, i, base) == (NumeralValue(s[i..e], base) % U64, e)
  {
    var f := ScanEnd(s, i + 2, 16);
    SliceFront(s, i);
    assert f > i + 2;
    forall g | i < g <= |s| ensures IsNumeral(s[i..g], base) <==> g == i + 1 || i + 2 < g <= f {
      PrefixNumeral(s, i, g, base);
    }
    assert IsNumeral(s[i..f], base) && (i < e ==> IsNumeral(s[i..e], base));
    assert e == f;
    assert s[i..e][2..] == s[i + 2..e];
    assert Prefixed(s[i..e]);
  }

  lemma {:induction false} PrefixNumeral(s: string, i: nat, g: nat, base: nat)
    requires i < g <= |s| && (base == 0 || base == 16) && Prefixed(s[i..])
    ensures IsNumeral(s[i..g], base) <==> g == i + 1 || i + 2 < g <= ScanEnd(s, i + 2, 16)
  {
    var t := s[i..g];
    assert t[0] == s[i..][0] == '0';
    if g > i + 1 {
      assert t[1] == s[i..][1] && !Accepts(t[1], 16) && !Accepts(t[1], 8);
    }
    if g >= i + 2 {
      assert t[2..] == s[i + 2..g];
      ScanMost(s, i + 2, g, 16);
    }
  }

  /** Without a digit behind it only the zero is a numeral. */
  lemma {:induction false} BareRead(s: string, i: nat, e: nat, base: nat)
    requires i <= |s| && (base == 0 || base == 16) && BarePrefix(s, i) && IsLongest(s, i, e, base)
    ensures e == i + 1
    ensures Parsed(s, i, base) == if base == 16 then (0, i + 2) else (NumeralValue(s[i..e], base) % U64, e)
  {
    SliceFront(s, i);
    assert ScanEnd(s, i + 2, 16) == i + 2;
    forall g | i < g <= |s| ensures IsNumeral(s[i..g], base) <==> g == i + 1 {
      PrefixNumeral(s, i, g, base);
    }
    assert IsNumeral(s[i..i + 1], base) && (i < e ==> IsNumeral(s[i..e], base));
    if base == 0 {
      assert GuessBase(s, i) == 8 && ScanEnd(s, i, 8) == i + 1;
    } else {
      assert s[i + 2..i + 2] == "";
    }
  }

  /** Digits without a prefix. */
  lemma {:induction false} DigitsRead(s: string, i: nat, e: nat, base: nat)
    requires i <= |s| && (base == 0 || 2 <= base <= 16) && IsLongest(s, i, e, base)
    requires (base == 0 || base == 16) ==> !Prefixed(s[i..])
    ensures Parsed(s, i, base) == (NumeralValue(s[i..e], base) % U64, e)
  {
    SliceFront(s, i);
    var b := if base != 0 then base else if At(s, i) == '0' then 8 else 10;
    assert BaseUsed(s, i, base) == b && ScanStart(s, i, base) == i;
    forall g | i < g <= |s| ensures IsNumeral(s[i..g], base) <==> g <= ScanEnd(s, i, b) {
      DigitsNumeral(s, i, g, base, b);
    }
    if i < ScanEnd(s, i, b) { assert IsNumeral(s[i..ScanEnd(s, i, b)], base); }
    assert i < e ==> IsNumeral(s[i..e], base);
    assert e == ScanEnd(s, i, b);
    if i < e {
      DigitsNumeral(s, i, e, base, b);
    } else {
      assert s[i..e] == "";
    }
  }

  lemma {:induction false} DigitsNumeral(s: string, i: nat, g: nat, base: nat, b: nat)
    requires i < g <= |s| && ((base == 0 || base == 16) ==> !Prefixed(s[i..]))
    requires b == if base != 0 then base else if At(s, i) == '0' then 8 else 10
    ensures IsNumeral(s[i..g], base) <==> g <= ScanEnd(s, i, b)
    ensures NumeralValue(s[i..g], base) == TextValue(s[i..g], b)
  {
    var t := s[i..g];
    assert t[0] == s[i] == s[i..][0];
    if |t| > 1 { assert t[1] == s[i..][1]; }
    ScanMost(s, i, g, b);
  }

  /** A prefix without a digit. */
  lemma {:induction false} BareExample(s: string)
    requires s == "0xg"
    ensures Parsed(s, 0, 16) == (0, 2) && IsLongest(s, 0, 1, 16) && NumeralValue(s[0..1], 16) == 0
  {
    assert s[0..] == s && !Accepts(s[1], 16) && !Accepts(s[2], 16);
    assert Accepts('0', 16) && DigitRun(s[0..1], 16);
    forall f | 1 < f <= |s| ensures !IsNumeral(s[0..f], 16) {
      PrefixNumeral(s, 0, f, 16);
      assert ScanEnd(s, 2, 16) == 2;
    }
    BareRead(s, 0, 1, 16);
    assert TextValue(s[0..1], 16) == 0;
  }
}
