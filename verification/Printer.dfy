/** The conversions of the bounded printer: every character goes through a cursor that keeps
    counting after the buffer is full. */
module Printer {
  import opened Digits
  import opened PutDec
  import opened Layout

  newtype short = x: int | -0x8000 <= x <= 0x7fff

  /** The largest precision for which the short arithmetic of number() cannot wrap. */
  const MAXPRECISION := 32700

  /** Buffer b once text t has been written from its start and cut at end. */
  function Shown(b: seq<char>, end: nat, t: string): seq<char>
    requires end <= |b|
  {
    var k := if |t| < end then |t| else end;
    t[..k] + b[k..]
  }

  lemma ShownSnoc(b: seq<char>, end: nat, t: string, c: char)
    requires end <= |b|
    ensures |t| < end ==> Shown(b, end, t)[|t| := c] == Shown(b, end, t + [c])
    ensures end <= |t| ==> Shown(b, end, t) == Shown(b, end, t + [c])
  {
  }

  /** The cursor str of the printer over its buffer; text is everything printed so far. */
  class Out {
    const buf: array<char>
    const end: nat
    var str: nat
    ghost var text: string
    ghost const before: seq<char>

    ghost predicate Valid()
      reads this, buf
    {
      && end <= buf.Length == |before|
      && str == |text|
      && buf[..] == Shown(before, end, text)
    }

    constructor (b: array<char>, size: nat)
      requires size <= b.Length
      ensures Valid() && text == "" && buf == b && end == size && before == b[..]
    {
      buf := b;
      end := size;
      str := 0;
      text := "";
      before := b[..];
    }

    /** Stores c unless the buffer is full; the cursor counts on in any case. */
    method Emit(c: char)
      requires Valid()
      modifies this`str, this`text, buf
      ensures Valid() && text == old(text) + [c]
    {
      ShownSnoc(before, end, text, c);
      if str < end {
        buf[str] := c;
      }
      str := str + 1;
      text := text + [c];
    }

    /** Emits c n times, and tells what is left of the count: below zero, and one less if there was nothing to do. */
    method Pad(c: char, n: short) returns (rest: short)
      requires Valid() && -0x8000 < n as int
      modifies this`str, this`text, buf
      ensures Valid() && text == old(text) + Fill(c, n as int)
      ensures rest == if n > 0 then -1 else n - 1
    {
      rest := n - 1;
      ghost var done: int := 0;
      assert old(text) + Fill(c, 0) == old(text);
      while rest >= 0
        invariant Valid() && 0 <= done && done + rest as int + 1 == (if n > 0 then n as int else done + rest as int + 1)
        invariant n > 0 ==> -1 <= rest
        invariant n <= 0 ==> rest == n - 1 && done == 0
        invariant text == old(text) + Fill(c, done)
      {
        assert Fill(c, done + 1) == Fill(c, done) + [c];
        Emit(c);
        done := done + 1;
        rest := rest - 1;
      }
      assert n <= 0 ==> Fill(c, n as int) == Fill(c, 0);
    }

    /** Emits a whole text. */
    method EmitAll(s: string)
      requires Valid()
      modifies this`str, this`text, buf
      ensures Valid() && text == old(text) + s
    {
      assert old(text) + s[..0] == old(text);
      for i := 0 to |s|
        invariant Valid() && text == old(text) + s[..i]
      {
        assert s[..i + 1] == s[..i] + [s[i]];
        Emit(s[i]);
      }
      assert s[..|s|] == s;
    }

    /** Emits the first n characters of tmp, the last of them first. */
    method EmitReversed(tmp: array<char>, n: nat)
      requires Valid() && n <= tmp.Length && tmp != buf
      modifies this`str, this`text, buf
      ensures Valid() && text == old(text) + Reverse(tmp[..n])
    {
      ghost var t := tmp[..n];
      var i: int := n - 1;
      assert old(text) + Reverse(t)[..0] == old(text);
      while i >= 0
        invariant -1 <= i < n && Valid() && tmp[..n] == t
        invariant text == old(text) + Reverse(t)[..n - 1 - i]
      {
        assert Reverse(t)[..n - i] == Reverse(t)[..n - 1 - i] + [t[i]];
        Emit(tmp[i]);
        i := i - 1;
      }
      assert Reverse(t)[..n] == Reverse(t);
    }

    /** number(): prints num in the given base. */
    method Number(num: nat, base: nat, f: Flags, width: short, precision: short)
      requires Valid() && num < U64 && IsBase(base)
      requires -1 <= width && -1 <= precision && precision as int <= MAXPRECISION
      requires f.sign ==> num != U64 / 2
      modifies this`str, this`text, buf
      ensures Valid() && text == old(text) + NumberText(num, base, f, width as int, precision as int)
    {
      var n, sign, w := Signed(num, base, f, width);
      var tmp := new char[66];
      var i := Convert(tmp, n, base, f.small);
      PrintDigits(tmp, i, num, base, f, sign, w, width, precision);
    }

    /** number() from the point where the digits are in tmp. */
    method PrintDigits(tmp: array<char>, i: nat, ghost num: nat, base: nat, f: Flags, sign: string, w: short, ghost width: short, precision: short)
      requires Valid() && tmp != buf && num < U64 && IsBase(base) && -1 <= precision && precision as int <= MAXPRECISION
      requires i <= 22 && i <= tmp.Length && tmp[..i] == ReversedText(Magnitude(num, f.sign), base, f.small)
      requires sign == NumberSign(num, f) && -4 <= w
      requires w as int == width as int - |NumberSign(num, f)| - |NumberPrefix(base, f)|
      modifies this`str, this`text, buf
      ensures Valid() && text == old(text) + NumberText(num, base, f, width as int, precision as int)
    {
      var prec := precision;
      if i > prec as int {
        prec := i as short;
      }
      NumberPieces(num, base, f, width as int, precision as int, w as int, i, prec as int);
      LayOut(tmp, i, base, f, sign, w - prec, prec);
    }

    /** Magnitude and sign, and the width that is left for the digits. */
    method Signed(num: nat, base: nat, f: Flags, width: short) returns (n: nat, sign: string, w: short)
      requires num < U64 && IsBase(base) && -1 <= width && (f.sign ==> num != U64 / 2)
      ensures n == Magnitude(num, f.sign) && sign == NumberSign(num, f)
      ensures w as int == width as int - |NumberSign(num, f)| - |NumberPrefix(base, f)| >= -4
    {
      n, sign, w := num, "", width;
      if f.sign {
        if U64 / 2 <= n {
          sign := "-";
          n := U64 - n;
          w := w - 1;
        } else if f.plus {
          sign := "+";
          w := w - 1;
        } else if f.space {
          sign := " ";
          w := w - 1;
        }
      }
      if f.special && base != 10 {
        w := w - 1;
        if base == 16 {
          w := w - 1;
        }
      }
    }

    /** Padding, sign, prefix, zeros, digits and padding again. */
    method LayOut(tmp: array<char>, i: nat, base: nat, f: Flags, sign: string, width: short, prec: short)
      requires Valid() && tmp != buf && i <= tmp.Length && IsBase(base)
      requires i <= prec as int <= MAXPRECISION && -0x7ff0 <= width
      modifies this`str, this`text, buf
      ensures Valid() && text == old(text) + Pieces(sign, NumberPrefix(base, f), Reverse(tmp[..i]), width as int, prec as int - i, f.zeropad, f.left)
    {
      ghost var digits := tmp[..i];
      var w := width;
      var zeropad := f.zeropad && !f.left;
      ghost var t0 := text;
      if !zeropad && !f.left {
        w := Pad(' ', w);
      }
      ghost var t1 := text;
      EmitAll(sign);
      if f.special && base != 10 {
        EmitPrefix(base, f);
      }
      ghost var t2 := text;
      if !f.left {
        w := Pad(if zeropad then '0' else ' ', w);
      }
      ghost var t3 := text;
      LayOutDigits(tmp, i, w, prec);
      Joined(t0, t1, t2, t3, text, sign, NumberPrefix(base, f), Reverse(digits), width as int, prec as int - i, f.zeropad, f.left);
    }

    /** Zeros, digits and trailing blanks. */
    method LayOutDigits(tmp: array<char>, i: nat, width: short, prec: short)
      requires Valid() && tmp != buf && i <= tmp.Length
      requires i <= prec as int <= MAXPRECISION && -0x7ff8 <= width
      modifies this`str, this`text, buf
      ensures Valid() && text == old(text) + Fill('0', prec as int - i) + Reverse(tmp[..i]) + Fill(' ', width as int)
    {
      ghost var digits := tmp[..i];
      var zeros := Pad('0', prec - i as short);
      assert tmp[..i] == digits;
      EmitReversed(tmp, i);
      var rest := Pad(' ', width);
    }

    method EmitPrefix(base: nat, f: Flags)
      requires Valid() && f.special && (base == 8 || base == 16)
      modifies this`str, this`text, buf
      ensures Valid() && text == old(text) + NumberPrefix(base, f)
    {
      Emit('0');
      if base == 16 {
        Emit(if f.small then 'x' else 'X');
      }
    }

    /** The digits of num into tmp, least significant first. */
    method Convert(tmp: array<char>, num: nat, base: nat, small: bool) returns (i: nat)
      requires num < U64 && IsBase(base) && tmp.Length == 66
      modifies tmp
      ensures i <= 22 && tmp[..i] == ReversedText(num, base, small)
    {
      if num == 0 {
        tmp[0] := '0';
        i := 1;
        assert DigitsOf(0, base) == [0];
      } else if base != 10 {
        i := ConvertShift(tmp, num, base, small);
      } else {
        i := PutDecimal(tmp, 0, num);
        DecimalText(num, small);
      }
    }

    /** The loop for bases 8 and 16. */
    method ConvertShift(tmp: array<char>, num: nat, base: nat, small: bool) returns (i: nat)
      requires 0 < num < U64 && (base == 8 || base == 16) && tmp.Length == 66
      modifies tmp
      ensures i <= 22 && tmp[..i] == ReversedText(num, base, small)
    {
      ShiftBound(num, base);
      ghost var all := ReversedText(num, base, small);
      var n: nat := num;
      i := 0;
      while n != 0
        invariant i <= |all| <= 22
        invariant n != 0 ==> i < |all| && ReversedText(n, base, small) == all[i..]
        invariant n == 0 ==> i == |all|
        invariant tmp[..i] == all[..i]
        decreases n
      {
        ShiftDigit(n, base, small);
        tmp[i] := CaseDigit(n % 256 % base, small);
        assert tmp[..i + 1] == all[..i + 1];
        Shrinking(n, base);
        n := n / base;
        i := i + 1;
      }
    }
  }

  lemma Shrinking(n: nat, base: nat)
    requires 0 < n && (base == 8 || base == 16)
    ensures n / base < n
  {
  }

  /** One turn of the shift loop: the low byte's low bits are the next digit. */
  lemma {:induction false} ShiftDigit(n: nat, base: nat, small: bool)
    requires 0 < n && (base == 8 || base == 16)
    ensures n % 256 % base == n % base < 16
    ensures ReversedText(n, base, small)[0] == CaseDigit(n % base, small)
    ensures n / base == 0 ==> |ReversedText(n, base, small)| == 1
    ensures n / base != 0 ==> ReversedText(n, base, small)[1..] == ReversedText(n / base, base, small)
  {
    if base == 8 { LowByte8(n); } else { LowByte16(n); }
    if n / base != 0 {
      assert DigitsOf(n, base) == [n % base] + DigitsOf(n / base, base);
    } else {
      assert DigitsOf(n, base) == [n];
    }
  }

  lemma LowByte8(n: nat)
    ensures n % 256 % 8 == n % 8
  {
  }

  lemma LowByte16(n: nat)
    ensures n % 256 % 16 == n % 16
  {
  }

  lemma ShiftBound(n: nat, base: nat)
    requires n < U64 && (base == 8 || base == 16)
    ensures |DigitsOf(n, base)| <= 22
  {
    assert Pow(8, 22) == 0x4_0000_0000_0000_0000 by {
      assert Pow(8, 6) == 0x4_0000;
      assert Pow(8, 12) == 0x4_0000 * Pow(8, 6);
      assert Pow(8, 18) == 0x4_0000 * Pow(8, 12);
      assert Pow(8, 22) == 4096 * Pow(8, 18);
    }
    assert Pow(16, 16) == U64 by {
      assert Pow(16, 4) == 0x1_0000;
      assert Pow(16, 8) == 0x1_0000 * Pow(16, 4);
      assert Pow(16, 12) == 0x1_0000 * Pow(16, 8);
      assert Pow(16, 16) == 0x1_0000 * Pow(16, 12);
    }
    if base == 8 { DigitsBound(n, 8, 22); } else { DigitsBound(n, 16, 16); }
  }

  /** In decimal the case does not matter. */
  lemma {:induction false} DecimalText(n: nat, small: bool)
    ensures ReversedText(n, 10, small) == Decimal(n)
  {
    forall i | 0 <= i < |DigitsOf(n, 10)| ensures ReversedText(n, 10, small)[i] == Decimal(n)[i] {
      assert DigitsOf(n, 10)[i] < 10;
    }
  }

  /** The parts of a field in the order the printer emits them. */
  function Pieces(sign: string, prefix: string, digits: string, room: int, zeros: int, zero: bool, left: bool): string {
    var w1 := if zero || left then room else if room > 0 then -1 else room - 1;
    var w2 := if left then w1 else if w1 > 0 then -1 else w1 - 1;
    (if zero || left then "" else Fill(' ', room)) + sign + prefix
      + (if left then "" else Fill(if zero then '0' else ' ', w1)) + Fill('0', zeros) + digits + Fill(' ', w2)
  }

  /** The texts after each part, put together. */
  lemma Joined(t0: string, t1: string, t2: string, t3: string, t4: string,
               sign: string, prefix: string, digits: string, room: int, zeros: int, zero: bool, left: bool)
    requires var w1 := if zero || left then room else if room > 0 then -1 else room - 1;
      var w2 := if left then w1 else if w1 > 0 then -1 else w1 - 1;
      && t1 == t0 + (if zero || left then "" else Fill(' ', room))
      && t2 == t1 + sign + prefix
      && t3 == t2 + (if left then "" else Fill(if zero then '0' else ' ', w1))
      && t4 == t3 + Fill('0', zeros) + digits + Fill(' ', w2)
    ensures t4 == t0 + Pieces(sign, prefix, digits, room, zeros, zero, left)
  {
  }

  /** The emitted parts are the field. */
  lemma FieldParts(sign: string, prefix: string, digits: string, room: int, zeros: int, zero: bool, left: bool)
    requires 0 <= zeros
    ensures Pieces(sign, prefix, digits, room, zeros, zero, left)
      == Field(sign, prefix, digits, room + |sign| + |prefix| + zeros + |digits|, zeros + |digits|, zero, left)
  {
  }

  /** The parts number() emits are NumberText. */
  lemma NumberPieces(num: nat, base: nat, f: Flags, width: int, precision: int, w: int, i: nat, prec: int)
    requires num < U64 && IsBase(base)
    requires w == width - |NumberSign(num, f)| - |NumberPrefix(base, f)|
    requires i == |DigitText(Magnitude(num, f.sign), base, f.small)| && prec == Max(precision, i)
    ensures Pieces(NumberSign(num, f), NumberPrefix(base, f), DigitText(Magnitude(num, f.sign), base, f.small), w - prec, prec - i, f.zeropad, f.left)
      == NumberText(num, base, f, width, precision)
  {
    var sign, prefix, digits := NumberSign(num, f), NumberPrefix(base, f), DigitText(Magnitude(num, f.sign), base, f.small);
    FieldParts(sign, prefix, digits, w - prec, prec - i, f.zeropad, f.left);
  }
}
