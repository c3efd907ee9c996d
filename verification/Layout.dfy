/** The text that the two number formatters lay out, as functions. */
module Layout {
  import opened Bytes
  import opened Digits
  import opened PutDec

  /** n times the character c; nothing for a negative count. */
  function Fill(c: char, n: int): (s: string)
    ensures |s| == (if n < 0 then 0 else n) && forall i :: 0 <= i < |s| ==> s[i] == c
  {
    seq(if n < 0 then 0 else n, _ => c)
  }

  function Reverse(s: string): (r: string)
    ensures |r| == |s| && forall i :: 0 <= i < |s| ==> r[i] == s[|s| - 1 - i]
  {
    seq(|s|, i requires 0 <= i < |s| => s[|s| - 1 - i])
  }

  function Max(a: int, b: int): int { if a < b then b else a }

  /** The code of c with the bit set that makes a letter lower case. */
  function LowerCode(c: char): int {
    if (c as int / 32) % 2 == 1 then c as int else c as int + 32
  }

  function Lower(c: char): char
    requires c < 128 as char
  {
    LowerCode(c) as char
  }

  predicate IsBase(base: nat) { base == 8 || base == 10 || base == 16 }

  lemma DigitsBelow16(n: nat, base: nat)
    requires 2 <= base <= 16
    ensures forall i :: 0 <= i < |DigitsOf(n, base)| ==> DigitsOf(n, base)[i] < 16
  {
    forall i | 0 <= i < |DigitsOf(n, base)| ensures DigitsOf(n, base)[i] < 16 {
      assert DigitsOf(n, base)[i] < base;
    }
  }

  /** The digit for d, lower case if asked for: digits[d] | locase. */
  function CaseDigit(d: nat, small: bool): char
    requires d < 16
  {
    if small then Lower(HexDigit(d)) else HexDigit(d)
  }

  /** The digits of n, least significant first, in the given case. */
  function ReversedText(n: nat, base: nat, small: bool): (s: string)
    requires 2 <= base <= 16
    ensures |s| == |DigitsOf(n, base)| > 0
  {
    DigitsBelow16(n, base);
    var ds := DigitsOf(n, base);
    seq(|ds|, i requires 0 <= i < |ds| => CaseDigit(ds[i], small))
  }

  /** The digits of n as they are read. */
  function DigitText(n: nat, base: nat, small: bool): string
    requires 2 <= base <= 16
  {
    Reverse(ReversedText(n, base, small))
  }

  /** Letters are small or capital, as asked for. */
  lemma {:induction false} DigitCase(n: nat, base: nat, small: bool)
    requires 2 <= base <= 16
    ensures var t := DigitText(n, base, small);
      forall k :: 0 <= k < |t| ==> '0' <= t[k] <= '9' || (if small then 'a' <= t[k] <= 'f' else 'A' <= t[k] <= 'F')
  {
    DigitsBelow16(n, base);
    var t, ds := DigitText(n, base, small), DigitsOf(n, base);
    forall k | 0 <= k < |t| ensures '0' <= t[k] <= '9' || (if small then 'a' <= t[k] <= 'f' else 'A' <= t[k] <= 'F') {
      CaseOf(ds[|ds| - 1 - k], small, t[k]);
    }
  }

  lemma CaseOf(d: nat, small: bool, c: char)
    requires d < 16 && c == CaseDigit(d, small)
    ensures '0' <= c <= '9' || (if small then 'a' <= c <= 'f' else 'A' <= c <= 'F')
  {
  }

  datatype Flags = Flags(zeropad: bool, sign: bool, plus: bool, space: bool, left: bool, small: bool, special: bool)

  /** sign character, if any: minus for negative numbers, else what the flags ask for */
  function SignText(negative: bool, plus: bool, space: bool): string {
    if negative then "-" else if plus then "+" else if space then " " else ""
  }

  /** A field: blanks or zeros on the left, sign, prefix, zeros up to the precision, digits, blanks on the right. */
  function Field(sign: string, prefix: string, digits: string, width: int, precision: int, zero: bool, left: bool): string {
    var zeros := Max(precision, |digits|) - |digits|;
    var room := width - |sign| - |prefix| - zeros - |digits|;
    (if left || zero then "" else Fill(' ', room))
      + sign + prefix
      + (if zero && !left then Fill('0', room) else "")
      + Fill('0', zeros) + digits
      + (if left then Fill(' ', room) else "")
  }

  /** A field is as wide as asked for, or as what must be printed. */
  lemma {:induction false} FieldWidth(sign: string, prefix: string, digits: string, width: int, precision: int, zero: bool, left: bool)
    ensures |Field(sign, prefix, digits, width, precision, zero, left)| == Max(width, |sign| + |prefix| + Max(precision, |digits|))
  {
  }

  /** The room that is left in the field. */
  function Room(head: nat, digits: nat, width: int, precision: int): (room: nat)
    ensures head + Max(precision, digits) + room == Max(width, head + Max(precision, digits))
  {
    Max(width, head + Max(precision, digits)) - head - Max(precision, digits)
  }

  lemma FillRoom(c: char, n: int, room: nat)
    requires room == if n < 0 then 0 else n
    ensures Fill(c, n) == Fill(c, room)
  {
  }

  lemma Regroup(a: string, s: string, p: string, z: string, y: string, d: string, b: string)
    ensures a + s + p + z + y + d + b == a + (s + p) + (z + y) + d + b
  {
    assert a + s + p + z + y == a + (s + p) + (z + y);
  }

  /** What must be printed stands at the left end, at the right end, or around a run of zeros; the rest is blank. */
  lemma {:induction false} FieldShape(sign: string, prefix: string, digits: string, width: int, precision: int, zero: bool, left: bool,
                                      zeros: nat, room: nat)
    requires zeros == Max(precision, |digits|) - |digits| && room == Room(|sign| + |prefix|, |digits|, width, precision)
    ensures Field(sign, prefix, digits, width, precision, zero, left) ==
      (if left || zero then "" else Fill(' ', room)) + (sign + prefix)
      + Fill('0', if zero && !left then room + zeros else zeros) + digits + (if left then Fill(' ', room) else "")
  {
    var asked := width - |sign| - |prefix| - zeros - |digits|;
    FillRoom(' ', asked, room);
    FillRoom('0', asked, room);
    var a := if left || zero then "" else Fill(' ', room);
    var z := if zero && !left then Fill('0', room) else "";
    var y, b := Fill('0', zeros), if left then Fill(' ', room) else "";
    Regroup(a, sign, prefix, z, y, digits, b);
    assert z + y == Fill('0', if zero && !left then room + zeros else zeros);
  }

  // ---- number() of the bounded printer ----

  /** The sign-free magnitude of a 64-bit argument. */
  function Magnitude(num: nat, sign: bool): nat
    requires num < U64
  {
    if sign && U64 / 2 <= num then U64 - num else num
  }

  function NumberSign(num: nat, f: Flags): string {
    if f.sign then SignText(U64 / 2 <= num, f.plus, f.space) else ""
  }

  function NumberPrefix(base: nat, f: Flags): string {
    if !f.special || base == 10 then ""
    else if base == 16 then (if f.small then "0x" else "0X")
    else "0"
  }

  /** What number() prints. */
  function NumberText(num: nat, base: nat, f: Flags, width: int, precision: int): string
    requires num < U64 && IsBase(base)
  {
    Field(NumberSign(num, f), NumberPrefix(base, f), DigitText(Magnitude(num, f.sign), base, f.small), width, precision, f.zeropad, f.left)
  }

  // ---- number_to_string() of the unbounded printer ----

  /** The magnitude of a 32-bit argument, by sign or as unsigned long. */
  function LongMagnitude(num: int, sign: bool): nat
    requires -U32 / 2 <= num < U32 / 2
  {
    if num < 0 then (if sign then -num else num + U32) else num
  }

  function LongSign(num: int, f: Flags): string {
    SignText(f.sign && num < 0, f.plus, f.space)
  }

  function LongPrefix(num: int, base: nat, f: Flags): string {
    if !f.special || num == 0 then ""
    else if base == 8 then "0"
    else if base == 16 then (if f.small then "0x" else "0X")
    else ""
  }

  /** What number_to_string() prints for a base from 2 to 16. In octal '#' costs one digit of precision. */
  function LongText(num: int, base: nat, f: Flags, width: int, precision: int): string
    requires -U32 / 2 <= num < U32 / 2 && 2 <= base <= 16
  {
    var octal := f.special && base == 8;
    var prefix := LongPrefix(num, base, f);
    var digits := DigitText(LongMagnitude(num, f.sign), base, f.small);
    // the prefix of octal zero is counted but not printed
    Field(LongSign(num, f), prefix, digits,
          if octal then width - 1 + |prefix| else width, if octal then precision - 1 else precision, f.zeropad, f.left)
  }

  // ---- the two agree ----

  /** The 64-bit argument that the bounded printer gets for a 32-bit one. */
  function Widen(num: int, sign: bool): nat
    requires -U32 / 2 <= num < U32 / 2
  {
    if num < 0 then (if sign then num + U64 else num + U32) else num
  }

  /** Both formatters print the same, where they are meant to. */
  lemma {:induction false} SameText(num: int, base: nat, f: Flags, width: int, precision: int)
    requires -U32 / 2 <= num < U32 / 2 && IsBase(base)
    requires f.plus || f.space ==> f.sign
    requires f.special ==> base == 10 || (base == 16 && num != 0)
    ensures LongText(num, base, f, width, precision) == NumberText(Widen(num, f.sign), base, f, width, precision)
  {
    assert Magnitude(Widen(num, f.sign), f.sign) == LongMagnitude(num, f.sign);
    assert NumberSign(Widen(num, f.sign), f) == LongSign(num, f);
    assert NumberPrefix(base, f) == LongPrefix(num, base, f);
  }
}
