/** Printing a number and reading it back. */
module RoundTrip {
  import opened Digits
  import opened PutDec
  import opened Layout
  import opened Strtoull

  // ---- one digit ----

  lemma CaseDigitReads(d: nat, small: bool)
    requires d < 16
    ensures IsXDigit(CaseDigit(d, small)) && DigitVal(CaseDigit(d, small)) == d
    ensures LowerCode(CaseDigit(d, small)) != 'x' as int && CaseDigit(d, small) != '-'
    ensures CaseDigit(d, small) == '0' <==> d == 0
  {
  }

  /** A text of digits of base b, all of them accepted by the reader. */
  predicate DigitRun(t: string, b: nat) {
    forall k :: 0 <= k < |t| ==> Accepts(t[k], b)
  }

  lemma {:induction false} TextDigits(n: nat, base: nat, small: bool)
    requires 2 <= base <= 16
    ensures DigitRun(DigitText(n, base, small), base)
    ensures forall k :: 0 <= k < |DigitText(n, base, small)| ==>
      LowerCode(DigitText(n, base, small)[k]) != 'x' as int && DigitText(n, base, small)[k] != '-'
  {
    var t, ds := DigitText(n, base, small), DigitsOf(n, base);
    forall k | 0 <= k < |t| ensures Accepts(t[k], base) && LowerCode(t[k]) != 'x' as int && t[k] != '-' {
      var d := ds[|ds| - 1 - k];
      assert d < base;
      assert t[k] == CaseDigit(d, small);
      CaseDigitReads(d, small);
    }
  }

  // ---- values ----

  lemma {:induction false} ValueOfText(n: nat, base: nat, small: bool)
    requires 2 <= base <= 16
    ensures DigitRun(DigitText(n, base, small), base)
    ensures TextValue(DigitText(n, base, small), base) == n
    decreases n
  {
    TextDigits(n, base, small);
    var t := DigitText(n, base, small);
    if n < base {
      assert DigitsOf(n, base) == [n];
      assert t[..|t| - 1] == "";
      CaseDigitReads(n, small);
    } else {
      Shrinks(n, base);
      ValueOfText(n / base, base, small);
      DigitTextSnoc(n, base, small);
      assert t[..|t| - 1] == DigitText(n / base, base, small);
      DivMod(n, base);
      CaseDigitReads(n % base, small);
    }
  }

  lemma {:induction false} DigitTextSnoc(n: nat, base: nat, small: bool)
    requires 2 <= base <= 16 && base <= n
    ensures n % base < 16
    ensures DigitText(n, base, small) == DigitText(n / base, base, small) + [CaseDigit(n % base, small)]
  {
    DivMod(n, base);
    assert DigitsOf(n, base) == [n % base] + DigitsOf(n / base, base);
  }

  /** Leading zeros add nothing. */
  lemma {:induction false} LeadingZeros(z: nat, t: string, base: nat)
    requires DigitRun(t, base) && 2 <= base
    ensures DigitRun(Fill('0', z) + t, base)
    ensures TextValue(Fill('0', z) + t, base) == TextValue(t, base)
    decreases |t|, z
  {
    var u := Fill('0', z) + t;
    if t == "" {
      if z > 0 {
        assert u[..|u| - 1] == Fill('0', z - 1) + t;
        LeadingZeros(z - 1, t, base);
      } else {
        assert u == "";
      }
    } else {
      assert u[..|u| - 1] == Fill('0', z) + t[..|t| - 1];
      LeadingZeros(z, t[..|t| - 1], base);
    }
  }

  // ---- whole texts ----

  /** The scan runs through a text of digits up to its end. */
  lemma {:induction false} ScanAll(s: string, i: nat, base: nat)
    requires i <= |s| && forall k :: i <= k < |s| ==> Accepts(s[k], base)
    ensures ScanEnd(s, i, base) == |s|
    decreases |s| - i
  {
    if i < |s| { ScanAll(s, i + 1, base); }
  }

  /** A number printed without blanks around it: it fills its field, or zeros fill it. */
  predicate NoBlanks(num: nat, base: nat, f: Flags, width: int, precision: int)
    requires num < U64 && IsBase(base)
  {
    || (f.zeropad && !f.left)
    || width <= |NumberSign(num, f)| + |NumberPrefix(base, f)| + Max(precision, |DigitText(Magnitude(num, f.sign), base, f.small)|)
  }

  /** The zeros in front of the digits of a number printed without blanks. */
  function Zeros(num: nat, base: nat, f: Flags, width: int, precision: int): (z: nat)
    requires num < U64 && IsBase(base)
  {
    var n := |DigitText(Magnitude(num, f.sign), base, f.small)|;
    var room := width - |NumberSign(num, f)| - |NumberPrefix(base, f)| - Max(precision, n);
    Max(precision, n) - n + (if f.zeropad && !f.left && room > 0 then room else 0)
  }

  lemma {:induction false} PlainShape(num: nat, base: nat, f: Flags, width: int, precision: int)
    requires num < U64 && IsBase(base) && NoBlanks(num, base, f, width, precision)
    ensures NumberText(num, base, f, width, precision) ==
      NumberSign(num, f) + NumberPrefix(base, f)
        + (Fill('0', Zeros(num, base, f, width, precision)) + DigitText(Magnitude(num, f.sign), base, f.small))
  {
    PlainField(NumberSign(num, f), NumberPrefix(base, f), DigitText(Magnitude(num, f.sign), base, f.small),
               width, precision, f.zeropad, f.left, Zeros(num, base, f, width, precision));
  }

  lemma {:induction false} PlainField(sign: string, prefix: string, digits: string, width: int, precision: int, zero: bool, left: bool, z: nat)
    requires (zero && !left) || width <= |sign| + |prefix| + Max(precision, |digits|)
    requires var room := width - |sign| - |prefix| - Max(precision, |digits|);
      z == Max(precision, |digits|) - |digits| + (if zero && !left && room > 0 then room else 0)
    ensures Field(sign, prefix, digits, width, precision, zero, left) == sign + prefix + (Fill('0', z) + digits)
  {
    var zeros := Max(precision, |digits|) - |digits|;
    var room := width - |sign| - |prefix| - zeros - |digits|;
    var a := if zero && !left then Fill('0', room) else "";
    FillSum(room, zeros);
    FillSum(0, zeros);
    assert a + Fill('0', zeros) == Fill('0', z);
    if !(zero && !left) { assert Fill(' ', room) == ""; }
    FieldNoBlanks(sign, prefix, a, Fill('0', zeros), digits, Field(sign, prefix, digits, width, precision, zero, left));
  }

  /** A field whose blanks are all empty. */
  lemma FieldNoBlanks(sign: string, prefix: string, a: string, zeros: string, digits: string, field: string)
    requires field == "" + sign + prefix + a + zeros + digits + ""
    ensures field == sign + prefix + ((a + zeros) + digits)
  {
    Associate(sign + prefix, a, zeros, digits);
  }

  lemma Associate(a: string, b: string, c: string, d: string)
    ensures a + b + c + d == a + ((b + c) + d)
  {
  }

  lemma FillSum(a: int, b: nat)
    ensures Fill('0', a) + Fill('0', b) == Fill('0', (if a > 0 then a else 0) + b)
  {
  }

  /** Reading zeros and digits in their own base. */
  lemma {:induction false} ReadPlain(s: string, i: nat, z: nat, n: nat, base: nat, small: bool)
    requires IsBase(base) && n < U64 && i <= |s|
    requires s[i..] == Fill('0', z) + DigitText(n, base, small)
    ensures Parsed(s, i, base) == (n, |s|)
    ensures !HasHexPrefix(s, i, 16)
  {
    var d := DigitText(n, base, small);
    TextDigits(n, base, small);
    ValueOfText(n, base, small);
    LeadingZeros(z, d, base);
    PlainChars(s, i, z, d, base);
    ReadRun(s, i, base, n);
  }

  lemma {:induction false} PlainChars(s: string, i: nat, z: nat, d: string, base: nat)
    requires i <= |s| && s[i..] == Fill('0', z) + d && 2 <= base && DigitRun(d, base)
    requires forall k :: 0 <= k < |d| ==> LowerCode(d[k]) != 'x' as int
    ensures forall k :: i <= k < |s| ==> Accepts(s[k], base) && LowerCode(s[k]) != 'x' as int
  {
    forall k | i <= k < |s| ensures Accepts(s[k], base) && LowerCode(s[k]) != 'x' as int {
      assert s[k] == s[i..][k - i];
      if k - i < z { assert s[k] == '0'; } else { assert s[k] == d[k - i - z]; }
    }
  }

  lemma {:induction false} ReadRun(s: string, i: nat, base: nat, n: nat)
    requires 0 < base && i <= |s| && n < U64 && TextValue(s[i..], base) == n
    requires forall k :: i <= k < |s| ==> Accepts(s[k], base) && LowerCode(s[k]) != 'x' as int
    ensures Parsed(s, i, base) == (n, |s|)
    ensures !HasHexPrefix(s, i, 16)
  {
    assert LowerCode(At(s, i + 1)) != 'x' as int;
    assert ScanStart(s, i, base) == i;
    ScanAll(s, i, base);
    ModSmall(n);
    assert s[i..|s|] == s[i..];
  }

  /** Unsigned numbers, printed without blanks or '#', read back in their base. */
  lemma {:induction false} UnsignedRoundTrip(num: nat, base: nat, f: Flags, width: int, precision: int)
    requires num < U64 && IsBase(base) && !f.sign && !f.special && NoBlanks(num, base, f, width, precision)
    ensures var t := NumberText(num, base, f, width, precision); Parsed(t, 0, base) == (num, |t|)
  {
    PlainShape(num, base, f, width, precision);
    var t := NumberText(num, base, f, width, precision);
    assert t[0..] == t;
    ReadPlain(t, 0, Zeros(num, base, f, width, precision), num, base, f.small);
  }

  /** Signed numbers, printed without blanks, '#', '+' or ' ', read back with their sign. */
  lemma {:induction false} SignedRoundTrip(num: nat, base: nat, f: Flags, width: int, precision: int)
    requires num < U64 && num != U64 / 2 && IsBase(base)
    requires f.sign && !f.plus && !f.space && !f.special && NoBlanks(num, base, f, width, precision)
    ensures var t := NumberText(num, base, f, width, precision); SignedParsed(t, base) == (ToSigned(num), |t|)
  {
    PlainShape(num, base, f, width, precision);
    var t, n, z := NumberText(num, base, f, width, precision), Magnitude(num, true), Zeros(num, base, f, width, precision);
    if U64 / 2 <= num {
      ReadNegative(t, z, n, base, f.small);
    } else {
      assert t == Fill('0', z) + DigitText(n, base, f.small);
      ReadPositive(t, z, n, base, f.small);
    }
  }

  lemma {:induction false} ReadNegative(t: string, z: nat, n: nat, base: nat, small: bool)
    requires IsBase(base) && 0 < n < U64 / 2 && t == "-" + (Fill('0', z) + DigitText(n, base, small))
    ensures SignedParsed(t, base).0 + n == 0 && SignedParsed(t, base).1 == |t|
  {
    assert t[1..] == Fill('0', z) + DigitText(n, base, small);
    ReadPlain(t, 1, z, n, base, small);
    Negated(t, n, base);
  }

  lemma {:induction false} Negated(t: string, n: nat, base: nat)
    requires 0 < n < U64 / 2 && |t| > 0 && t[0] == '-' && Parsed(t, 1, base) == (n, |t|)
    ensures SignedParsed(t, base).0 + n == 0 && SignedParsed(t, base).1 == |t|
  {
    assert (U64 - n) % U64 == U64 - n;
  }

  lemma {:induction false} ReadPositive(t: string, z: nat, n: nat, base: nat, small: bool)
    requires IsBase(base) && n < U64 / 2 && t == Fill('0', z) + DigitText(n, base, small)
    ensures SignedParsed(t, base) == (n, |t|)
  {
    assert t[0..] == t;
    ReadPlain(t, 0, z, n, base, small);
    NotMinus(z, n, base, small);
  }

  lemma {:induction false} NotMinus(z: nat, n: nat, base: nat, small: bool)
    requires 2 <= base <= 16
    ensures (Fill('0', z) + DigitText(n, base, small))[0] != '-'
  {
    TextDigits(n, base, small);
  }

  // ---- base zero: the reader guesses ----

  /** With '#', hexadecimal and octal numbers read back, padded with zeros or not, whether the base is named or not. */
  lemma {:induction false} PrefixedRoundTrip(num: nat, base: nat, f: Flags, width: int, precision: int)
    requires num < U64 && (base == 8 || base == 16) && !f.sign && f.special && NoBlanks(num, base, f, width, precision)
    ensures var t := NumberText(num, base, f, width, precision); Parsed(t, 0, 0) == Parsed(t, 0, base) == (num, |t|)
  {
    PlainShape(num, base, f, width, precision);
    var t := NumberText(num, base, f, width, precision);
    assert t[0..] == t;
    PrefixedRead(t, 0, NumberPrefix(base, f), Zeros(num, base, f, width, precision), num, base, f.small);
  }

  /** So do signed ones, behind their minus sign. */
  lemma {:induction false} PrefixedSigned(num: nat, base: nat, f: Flags, width: int, precision: int)
    requires num < U64 && num != U64 / 2 && (base == 8 || base == 16)
    requires f.sign && !f.plus && !f.space && f.special && NoBlanks(num, base, f, width, precision)
    ensures var t := NumberText(num, base, f, width, precision); SignedParsed(t, 0) == SignedParsed(t, base) == (ToSigned(num), |t|)
  {
    PlainShape(num, base, f, width, precision);
    SignedRead(NumberText(num, base, f, width, precision), NumberPrefix(base, f), Zeros(num, base, f, width, precision),
               num, Magnitude(num, true), base, f.small);
  }

  lemma {:induction false} SignedRead(t: string, prefix: string, z: nat, num: nat, n: nat, base: nat, small: bool)
    requires (base == 8 && prefix == "0") || (base == 16 && (prefix == "0x" || prefix == "0X"))
    requires num < U64 && num != U64 / 2 && n == Magnitude(num, true)
    requires t == (if U64 / 2 <= num then "-" else "") + prefix + (Fill('0', z) + DigitText(n, base, small))
    ensures forall b :: b == 0 || b == base ==> SignedParsed(t, b) == (ToSigned(num), |t|)
  {
    if U64 / 2 <= num {
      MinusPrefixed(t, prefix, z, n, base, small, prefix + (Fill('0', z) + DigitText(n, base, small)));
    } else {
      PlusPrefixed(t, prefix, z, n, base, small, Fill('0', z) + DigitText(n, base, small));
    }
  }

  lemma {:induction false} MinusPrefixed(t: string, prefix: string, z: nat, n: nat, base: nat, small: bool, rest: string)
    requires (base == 8 && prefix == "0") || (base == 16 && (prefix == "0x" || prefix == "0X"))
    requires 0 < n < U64 / 2 && rest == prefix + (Fill('0', z) + DigitText(n, base, small)) && t == "-" + prefix + (Fill('0', z) + DigitText(n, base, small))
    ensures forall b :: b == 0 || b == base ==> SignedParsed(t, b).0 + n == 0 && SignedParsed(t, b).1 == |t|
  {
    MinusFirst(t, prefix, Fill('0', z) + DigitText(n, base, small), rest);
    PrefixedRead(t, 1, prefix, z, n, base, small);
    Negated(t, n, 0);
    Negated(t, n, base);
  }

  lemma {:induction false} PlusPrefixed(t: string, prefix: string, z: nat, n: nat, base: nat, small: bool, digits: string)
    requires (base == 8 && prefix == "0") || (base == 16 && (prefix == "0x" || prefix == "0X"))
    requires n < U64 / 2 && digits == Fill('0', z) + DigitText(n, base, small) && t == "" + prefix + digits
    ensures forall b :: b == 0 || b == base ==> SignedParsed(t, b) == (n, |t|)
  {
    NothingFirst(t, prefix, digits);
    PrefixedRead(t, 0, prefix, z, n, base, small);
  }

  lemma MinusFirst(t: string, prefix: string, digits: string, rest: string)
    requires t == "-" + prefix + digits && rest == prefix + digits
    ensures t[0] == '-' && t[1..] == rest
  {
  }

  lemma NothingFirst(t: string, prefix: string, digits: string)
    requires t == "" + prefix + digits && prefix != ""
    ensures t[0] == prefix[0] && t[0..] == prefix + digits
  {
  }

  /** Reading a prefix, zeros and digits. */
  lemma {:induction false} PrefixedRead(s: string, i: nat, prefix: string, z: nat, n: nat, base: nat, small: bool)
    requires (base == 8 && prefix == "0") || (base == 16 && (prefix == "0x" || prefix == "0X"))
    requires n < U64 && i <= |s| && s[i..] == prefix + (Fill('0', z) + DigitText(n, base, small))
    ensures Parsed(s, i, 0) == Parsed(s, i, base) == (n, |s|)
  {
    if base == 16 {
      HexText(s, i, prefix, z, n, small);
    } else {
      OctalText(s, i, z, n, small);
    }
  }

  lemma {:induction false} HexText(s: string, i: nat, prefix: string, z: nat, n: nat, small: bool)
    requires n < U64 && (prefix == "0x" || prefix == "0X")
    requires i <= |s| && s[i..] == prefix + (Fill('0', z) + DigitText(n, 16, small))
    ensures Parsed(s, i, 0) == Parsed(s, i, 16) == (n, |s|)
  {
    var d := Fill('0', z) + DigitText(n, 16, small);
    TextDigits(n, 16, small);
    LeadingZeros(z, DigitText(n, 16, small), 16);
    ValueOfText(n, 16, small);
    BehindPrefix(s, i, prefix, d);
    HexScan(s, i, d);
  }

  lemma BehindPrefix(s: string, i: nat, prefix: string, d: string)
    requires i <= |s| && s[i..] == prefix + d && |prefix| == 2
    ensures i + 2 <= |s| && s[i] == prefix[0] && s[i + 1] == prefix[1] && s[i + 2..] == d
  {
    assert s[i] == s[i..][0] && s[i + 1] == s[i..][1];
    assert s[i + 2..] == s[i..][2..];
  }

  lemma {:induction false} HexScan(s: string, i: nat, d: string)
    requires i + 2 <= |s| && s[i] == '0' && (s[i + 1] == 'x' || s[i + 1] == 'X') && s[i + 2..] == d && d != ""
    requires DigitRun(d, 16) && TextValue(d, 16) < U64
    ensures Parsed(s, i, 0) == Parsed(s, i, 16) == (TextValue(d, 16), |s|)
  {
    assert s[i + 2] == d[0];
    forall k | i + 2 <= k < |s| ensures Accepts(s[k], 16) { assert s[k] == d[k - i - 2]; }
    ScanAll(s, i + 2, 16);
    assert s[i + 2..|s|] == d;
  }

  lemma {:induction false} OctalText(s: string, i: nat, z: nat, n: nat, small: bool)
    requires n < U64 && i <= |s| && s[i..] == "0" + (Fill('0', z) + DigitText(n, 8, small))
    ensures Parsed(s, i, 0) == Parsed(s, i, 8) == (n, |s|)
  {
    var d := DigitText(n, 8, small);
    TextDigits(n, 8, small);
    assert "0" + (Fill('0', z) + d) == Fill('0', z + 1) + d;
    ReadPlain(s, i, z + 1, n, 8, small);
    assert At(s, i) == s[i..][0] && At(s, i + 1) == s[i..][1];
    assert At(s, i + 1) == if z > 0 then '0' else d[0];
  }

  /** A decimal number reads back without being told the base exactly if it has no leading zero or is below 8. */
  lemma {:induction false} DecimalGuess(num: nat, f: Flags, width: int, precision: int)
    requires num < U64 && !f.sign && NoBlanks(num, 10, f, width, precision)
    ensures var t := NumberText(num, 10, f, width, precision);
      Parsed(t, 0, 0) == (num, |t|) <==> Zeros(num, 10, f, width, precision) == 0 || num < 8
  {
    PlainShape(num, 10, f, width, precision);
    var t, z := NumberText(num, 10, f, width, precision), Zeros(num, 10, f, width, precision);
    assert t == Fill('0', z) + DigitText(num, 10, f.small);
    assert t[0..] == t;
    ReadPlain(t, 0, z, num, 10, f.small);
    FirstDigit(num, f.small);
    if z == 0 && num > 0 {
      assert t[0] == DigitText(num, 10, f.small)[0];
      assert GuessBase(t, 0) == 10;
    } else {
      assert t[0] == '0';
      OctalGuess(t, z, num, f.small);
    }
  }

  /** The leading digit of a positive number is not zero. */
  lemma {:induction false} FirstDigit(n: nat, small: bool)
    ensures n > 0 ==> DigitText(n, 10, small)[0] != '0'
    ensures n == 0 ==> DigitText(n, 10, small) == "0"
  {
    NoLeadingZero(n, 10);
    var ds := DigitsOf(n, 10);
    var d := ds[|ds| - 1];
    assert d < 10;
    assert DigitText(n, 10, small)[0] == CaseDigit(d, small);
    CaseDigitReads(d, small);
  }

  /** Decimal digits behind a zero are read as octal: right below 8, wrong from there on. */
  lemma {:induction false} OctalGuess(t: string, z: nat, n: nat, small: bool)
    requires n < U64 && t == Fill('0', z) + DigitText(n, 10, small) && t[0] == '0'
    requires z > 0 || n == 0
    ensures Parsed(t, 0, 0) == (n, |t|) <==> n < 8
  {
    var d := DigitText(n, 10, small);
    TextDigits(n, 10, small);
    assert t[0..] == t;
    ReadPlain(t, 0, z, n, 10, small);
    assert GuessBase(t, 0) == 8;
    assert ScanStart(t, 0, 0) == 0;
    if n < 8 {
      assert DigitsOf(n, 10) == [n] && DigitsOf(n, 8) == [n];
      ReadPlain(t, 0, z, n, 8, small);
    } else if ScanEnd(t, 0, 8) == |t| {
      OctalLess(t, z, n, small, d);
    }
  }

  /** Read as octal digits, a decimal number is worth less. */
  lemma {:induction false} OctalLess(t: string, z: nat, n: nat, small: bool, d: string)
    requires 8 <= n < U64 && d == DigitText(n, 10, small) && t == Fill('0', z) + d && t[0] == '0' && ScanEnd(t, 0, 8) == |t|
    ensures Parsed(t, 0, 0) != (n, |t|)
  {
    assert t[0..|t|] == t;
    forall k | 0 <= k < |d| ensures Accepts(d[k], 8) { assert d[k] == t[z + k]; }
    LeadingZeros(z, d, 8);
    OctalBelow(n, small);
  }

  /** Octal digits of a decimal number of two or more digits are worth less than the number. */
  lemma {:induction false} OctalBelow(n: nat, small: bool)
    requires DigitRun(DigitText(n, 10, small), 8)
    ensures TextValue(DigitText(n, 10, small), 8) <= n
    ensures n >= 8 ==> TextValue(DigitText(n, 10, small), 8) < n
    decreases n
  {
    var t := DigitText(n, 10, small);
    if n < 10 {
      assert DigitsOf(n, 10) == [n];
      assert t == [CaseDigit(n, small)] && t[..|t| - 1] == "";
      CaseDigitReads(n, small);
      assert Accepts(t[0], 8);
    } else {
      DigitTextSnoc(n, 10, small);
      var u := DigitText(n / 10, 10, small);
      assert t[..|t| - 1] == u;
      forall k | 0 <= k < |u| ensures Accepts(u[k], 8) { assert u[k] == t[k]; }
      OctalBelow(n / 10, small);
      CaseDigitReads(n % 10, small);
      OctalPositive(n / 10, small);
    }
  }

  lemma {:induction false} OctalPositive(n: nat, small: bool)
    requires n > 0 && DigitRun(DigitText(n, 10, small), 8)
    ensures TextValue(DigitText(n, 10, small), 8) > 0
    decreases n
  {
    var t := DigitText(n, 10, small);
    if n < 10 {
      assert DigitsOf(n, 10) == [n];
      assert t == [CaseDigit(n, small)] && t[..|t| - 1] == "";
      CaseDigitReads(n, small);
    } else {
      DigitTextSnoc(n, 10, small);
      var u := DigitText(n / 10, 10, small);
      assert t[..|t| - 1] == u;
      forall k | 0 <= k < |u| ensures Accepts(u[k], 8) { assert u[k] == t[k]; }
      OctalPositive(n / 10, small);
    }
  }
}
