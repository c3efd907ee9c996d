/** When an integer conversion of vsnprintf prints what section 7.19.6.1 of ISO/IEC 9899:1999 asks for: the value it
    takes from its argument, and then its layout. */
module Standard {
  import opened Bytes
  import opened PutDec
  import opened Layout
  import opened Strtoull
  import opened RoundTrip
  import opened Agreement
  import opened Format
  import opened Vsnprintf

  // ---- the value of an argument ----

  /** The length modifiers of the standard that are for integers, and none; L stands for ll, H for hh. */
  predicate IsModifier(q: char) { q == NOQUALIFIER || q == 'H' || q == 'h' || q == 'l' || q == 'L' || q == 'z' || q == 't' }

  predicate IsInteger(c: char) { c == 'd' || c == 'i' || c == 'o' || c == 'u' || c == 'x' || c == 'X' }

  predicate IsSigned(c: char) { c == 'd' || c == 'i' }

  /** How many values the type has that the modifier stands for, on the 32-bit target. */
  function Range(q: char): nat { if q == 'H' then 0x100 else if q == 'h' then 0x10000 else if q == 'L' then U64 else U32 }

  /** The argument in that type, signed or unsigned as the letter says. */
  function C99Value(q: char, c: char, v: int): int {
    var m := v % Range(q);
    if IsSigned(c) && Range(q) / 2 <= m then m - Range(q) else m
  }

  /** It comes to the same in unsigned long long, but for a negative size and an address difference too large for its type. */
  predicate ValueRight(q: char, c: char, v: int) {
    !(q == 'z' && IsSigned(c) && C99Value(q, c, v) < 0) && !(q == 't' && !IsSigned(c) && U32 / 2 <= C99Value(q, c, v))
  }

  lemma ValueIff(q: char, c: char, v: int)
    requires IsModifier(q) && IsInteger(c)
    ensures NumArg(KindOf(q, IsSigned(c)), v) == C99Value(q, c, v) % U64 <==> ValueRight(q, c, v)
  {
  }

  /** Minus one as a signed size, and as an unsigned address difference. */
  lemma ValueDiffers()
    ensures NumArg(KindOf('z', IsSigned('d')), -1) == 0xFFFF_FFFF && C99Value('z', 'd', -1) == -1
    ensures NumArg(KindOf('t', IsSigned('u')), -1) == 0xFFFF_FFFF_FFFF_FFFF && C99Value('t', 'u', -1) == 0xFFFF_FFFF
  {
  }

  // ---- the digits of a text ----

  /** The characters of t that are digits of that base. */
  function Sieve(t: string, base: nat): string {
    if t == "" then ""
    else if Accepts(t[|t| - 1], base) then Sieve(t[..|t| - 1], base) + [t[|t| - 1]]
    else Sieve(t[..|t| - 1], base)
  }

  lemma {:induction false} SieveConcat(a: string, b: string, base: nat)
    ensures Sieve(a + b, base) == Sieve(a, base) + Sieve(b, base)
    decreases |b|
  {
    if b == "" {
      assert a + b == a;
    } else {
      var t, front := a + b, b[..|b| - 1];
      assert t[..|t| - 1] == a + front && t[|t| - 1] == b[|b| - 1];
      SieveConcat(a, front, base);
    }
  }

  /** Digits stay. */
  lemma {:induction false} SieveRun(t: string, base: nat)
    requires DigitRun(t, base)
    ensures Sieve(t, base) == t
    decreases |t|
  {
    if t != "" { SieveRun(t[..|t| - 1], base); }
  }

  /** Everything else goes. */
  lemma {:induction false} SieveNone(t: string, base: nat)
    requires forall k :: 0 <= k < |t| ==> !Accepts(t[k], base)
    ensures Sieve(t, base) == ""
    decreases |t|
  {
    if t != "" { SieveNone(t[..|t| - 1], base); }
  }

  predicate IsPrefix(h: string) { h == "" || h == "0x" || h == "0X" }

  lemma SievePrefix(h: string, base: nat)
    requires IsPrefix(h) && 2 <= base <= 16
    ensures Sieve(h, base) == if h == "" then "" else "0"
  {
    if h != "" {
      assert h[..1] == "0" && Sieve(h[..1], base) == "0" && !Accepts(h[1], base);
    }
  }

  lemma {:induction false} SieveRow(front: string, head: string, zeros: string, d: string, behind: string, base: nat, t: string)
    requires t == front + head + zeros + d + behind
    ensures Sieve(t, base) == Sieve(front, base) + Sieve(head, base) + Sieve(zeros, base) + Sieve(d, base) + Sieve(behind, base)
  {
    SieveConcat(front + head + zeros + d, behind, base);
    SieveConcat(front + head + zeros, d, base);
    SieveConcat(front + head, zeros, base);
    SieveConcat(front, head, base);
  }

  lemma ZerosJoin(head: string, s: nat, z: nat, d: string, t: string)
    requires head == "" || head == "0"
    requires z == s + |head| && t == "" + head + Fill('0', s) + d + ""
    ensures t == Fill('0', z) + d
  {
  }

  /** The digits of a row without a sign are worth what its digits are. */
  lemma {:induction false} RowWorth(s: Shape, head: string, d: string, base: nat, t: string)
    requires t == Row(s, head, d) && IsPrefix(head) && DigitRun(d, base) && 2 <= base <= 16
    ensures TextValue(Sieve(t, base), base) == TextValue(d, base)
  {
    RowSieve(s, head, d, base, t);
    LeadingZeros(if head == "" then s.z else s.z + 1, d, base);
  }

  lemma {:induction false} RowSieve(s: Shape, head: string, d: string, base: nat, t: string)
    requires t == Row(s, head, d) && IsPrefix(head) && DigitRun(d, base) && 2 <= base <= 16
    ensures Sieve(t, base) == Fill('0', if head == "" then s.z else s.z + 1) + d
  {
    SieveRow(Fill(' ', s.l), head, Fill('0', s.z), d, Fill(' ', s.r), base, t);
    SieveNone(Fill(' ', s.l), base);
    SieveNone(Fill(' ', s.r), base);
    SievePrefix(head, base);
    SieveRun(Fill('0', s.z), base);
    SieveRun(d, base);
    ZerosJoin(Sieve(head, base), s.z, if head == "" then s.z else s.z + 1, d, Sieve(t, base));
  }

  // ---- texts of different values ----

  /** Two unsigned numbers never print the same. */
  lemma {:induction false} UnsignedApart(num: nat, m: nat, base: nat, f: Flags, width: int, precision: int, t: string, u: string)
    requires 0 < num < U64 && 0 < m < U64 && num != m && IsBase(base) && !f.sign
    requires t == NumberText(num, base, f, width, precision) && u == C99Text(m, base, f, width, precision)
    ensures t != u
  {
    var head, d, e, octal := C99Prefix(num, base, f), DigitText(num, base, f.small), DigitText(m, base, f.small), f.special && base == 8;
    assert NumberSign(num, f) + head == head && NumberSign(m, f) + head == head;
    DigitsSolid(num, base, f.small);
    DigitsSolid(m, base, f.small);
    var a := NumberShape(width, precision, |d|, octal, |head|, f.zeropad, f.left);
    var b := Spread(width, |head| + |e|, C99Zeros(|e|, precision, octal, false), f.zeropad && precision < 0, f.left);
    AnyRow(num, base, f, width, precision, d, head, a);
    C99Row(m, base, f, width, precision, e, head, b);
    ValueOfText(num, base, f.small);
    ValueOfText(m, base, f.small);
    RowWorth(a, head, d, base, t);
    RowWorth(b, head, e, base, u);
  }

  /** A number without a minus never prints like a negative one. */
  lemma {:induction false} MinusApart(num: nat, m: nat, f: Flags, width: int, precision: int, t: string, u: string)
    requires num < U64 / 2 <= m < U64 && f.sign
    requires t == NumberText(num, 10, f, width, precision) && u == C99Text(m, 10, f, width, precision)
    ensures t != u
  {
    var d, sign := DigitText(num, 10, f.small), NumberSign(num, f);
    DigitsSolid(num, 10, f.small);
    var s := NumberShape(width, precision, |d|, false, |sign|, f.zeropad, f.left);
    NumberRow(num, 10, f, width, precision, d, sign, s);
    RowHas(s, sign, d, '-');
    var head, body := NumberSign(m, f) + C99Prefix(Magnitude(m, f.sign), 10, f), C99Body(Magnitude(m, f.sign), 10, f, precision);
    C99Field(m, 10, f, width, precision, head, body);
    assert head[0] == '-';
    PlacedHas(head, body, width, f.zeropad && precision < 0, f.left, '-');
  }

  lemma PlacedHas(head: string, body: string, width: int, zero: bool, left: bool, c: char)
    requires c in head
    ensures c in Placed(head, body, width, zero, left)
  {
  }

  // ---- one conversion ----

  /** The flags and the base that a letter brings. */
  function LetterFlags(f: Flags, c: char): Flags { f.(small := c == 'x', sign := IsSigned(c)) }

  function LetterBase(c: char): (b: nat)
    ensures IsBase(b)
  {
    if c == 'o' then 8 else if c == 'x' || c == 'X' then 16 else 10
  }

  /** What the standard asks of a conversion. */
  function C99Conversion(q: char, c: char, f: Flags, width: int, precision: int, v: int): string {
    C99Text(C99Value(q, c, v) % U64, LetterBase(c), LetterFlags(f, c), width, precision)
  }

  /** Its value is taken right, and it is laid out right. */
  predicate ConversionRight(q: char, c: char, f: Flags, width: int, precision: int, v: int) {
    ValueRight(q, c, v) && C99Agrees(C99Value(q, c, v) % U64, LetterBase(c), LetterFlags(f, c), width, precision)
  }

  /** What vsnprintf prints for it. */
  function OwnConversion(q: char, c: char, f: Flags, width: int, precision: int, v: int): string {
    NumberText(NumArg(KindOf(q, IsSigned(c)), v), LetterBase(c), LetterFlags(f, c), width, precision)
  }

  lemma {:induction false} ConversionIff(q: char, c: char, f: Flags, width: int, precision: int, v: int)
    requires IsModifier(q) && IsInteger(c)
    ensures OwnConversion(q, c, f, width, precision, v) == C99Conversion(q, c, f, width, precision, v) <==> ConversionRight(q, c, f, width, precision, v)
  {
    TextsIff(q, c, v, NumArg(KindOf(q, IsSigned(c)), v), C99Value(q, c, v) % U64, LetterBase(c), LetterFlags(f, c), width, precision,
             OwnConversion(q, c, f, width, precision, v), C99Conversion(q, c, f, width, precision, v));
  }

  lemma {:induction false} TextsIff(q: char, c: char, v: int, num: nat, m: nat, base: nat, g: Flags, width: int, precision: int, t: string, u: string)
    requires IsModifier(q) && IsInteger(c) && num == NumArg(KindOf(q, IsSigned(c)), v) && m == C99Value(q, c, v) % U64
    requires base == LetterBase(c) && g.sign == IsSigned(c)
    requires t == NumberText(num, base, g, width, precision) && u == C99Text(m, base, g, width, precision)
    ensures t == u <==> ValueRight(q, c, v) && C99Agrees(m, base, g, width, precision)
  {
    ValueIff(q, c, v);
    if ValueRight(q, c, v) {
      C99Iff(m, base, g, width, precision);
    } else {
      WrongValue(q, c, v, num, m);
      if IsSigned(c) {
        MinusApart(num, m, g, width, precision, t, u);
      } else {
        UnsignedApart(num, m, base, g, width, precision, t, u);
      }
    }
  }

  lemma WrongValue(q: char, c: char, v: int, num: nat, m: nat)
    requires IsInteger(c) && !ValueRight(q, c, v) && num == NumArg(KindOf(q, IsSigned(c)), v) && m == C99Value(q, c, v) % U64
    ensures if IsSigned(c) then num < U64 / 2 <= m else 0 < num && 0 < m && num != m
  {
  }

  lemma LetterSpec(s: Spec, c: char)
    requires IsModifier(s.qualifier) && IsInteger(c) && !s.flags.small && !s.flags.sign && s.base == 10
    ensures Converted(s, c) == s.(flags := LetterFlags(s.flags, c), base := LetterBase(c), kind := KindOf(s.qualifier, IsSigned(c)))
  {
  }

  lemma NumberKind(q: char, sign: bool)
    requires IsModifier(q)
    ensures IsNumber(KindOf(q, sign))
  {
  }

  lemma NumberConverted(s: Spec, args: seq<Arg>)
    requires IsNumber(s.kind) && IsBase(s.base)
    ensures ConvertText(s, args) == NumberText(NumArg(s.kind, NextInt(args)), s.base, s.flags, s.width as int, s.precision as int)
  {
  }

  /** The text that ConvertText prints. */
  lemma ConvertedText(s: Spec, c: char, args: seq<Arg>)
    requires IsModifier(s.qualifier) && IsInteger(c) && !s.flags.small && !s.flags.sign && s.base == 10
    ensures ConvertText(Converted(s, c), args) == OwnConversion(s.qualifier, c, s.flags, s.width as int, s.precision as int, NextInt(args))
  {
    LetterSpec(s, c);
    NumberKind(s.qualifier, IsSigned(c));
    NumberConverted(Converted(s, c), args);
  }
}
