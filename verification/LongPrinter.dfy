/** The unbounded printer's formatter, which divides. */
module LongPrinter {
  import opened Bytes
  import opened Digits
  import opened PutDec
  import opened Layout

  /** Stores c n times, and tells what is left of the count: below zero, and one less if there was nothing to do. */
  method PadTo(out: array<char>, s: nat, c: char, n: int) returns (next: nat, rest: int)
    requires s + |Fill(c, n)| <= out.Length
    modifies out
    ensures next == s + |Fill(c, n)| && rest == if n > 0 then -1 else n - 1
    ensures out[..] == Stored(old(out[..]), s, Fill(c, n))
  {
    next, rest := s, n;
    ghost var done: nat := 0;
    assert Stored(old(out[..]), s, Fill(c, 0)) == old(out[..]);
    while rest > 0
      invariant next == s + done && (n > 0 ==> done + rest == n && 0 <= rest) && (n <= 0 ==> done == 0 && rest == n)
      invariant out[..] == Stored(old(out[..]), s, Fill(c, done))
      decreases rest
    {
      assert Fill(c, done + 1) == Fill(c, done) + [c];
      StoredSnoc(old(out[..]), s, Fill(c, done), c);
      out[next] := c;
      next := next + 1;
      rest := rest - 1;
      done := done + 1;
    }
    assert n <= 0 ==> Fill(c, n) == Fill(c, 0);
    rest := rest - 1;
  }

  method PutText(out: array<char>, s: nat, t: string) returns (next: nat)
    requires s + |t| <= out.Length
    modifies out
    ensures next == s + |t| && out[..] == Stored(old(out[..]), s, t)
  {
    next := s;
    assert Stored(old(out[..]), s, t[..0]) == old(out[..]);
    for i := 0 to |t|
      invariant next == s + i && out[..] == Stored(old(out[..]), s, t[..i])
    {
      assert t[..i + 1] == t[..i] + [t[i]];
      StoredSnoc(old(out[..]), s, t[..i], t[i]);
      out[next] := t[i];
      next := next + 1;
    }
    assert t[..|t|] == t;
  }

  /** Stores the first n characters of tmp, the last of them first. */
  method PutReversed(out: array<char>, s: nat, tmp: array<char>, n: nat) returns (next: nat)
    requires n <= tmp.Length && s + n <= out.Length && tmp != out
    modifies out
    ensures next == s + n && out[..] == Stored(old(out[..]), s, Reverse(tmp[..n]))
  {
    ghost var t, r, b := tmp[..n], Reverse(tmp[..n]), out[..];
    next := s;
    var i := n;
    assert Stored(b, s, r[..0]) == b;
    while i > 0
      invariant 0 <= i <= n && next == s + (n - i) && tmp[..n] == t
      invariant out[..] == Stored(b, s, r[..n - i])
    {
      i := i - 1;
      TakeOneMore(r, n - i - 1);
      StoredSnoc(b, s, r[..n - i - 1], t[i]);
      out[next] := tmp[i];
      next := next + 1;
    }
    assert r[..n] == r;
  }

  lemma TakeOneMore(s: string, k: nat)
    requires k < |s|
    ensures s[..k + 1] == s[..k] + [s[k]]
  {
  }

  lemma {:induction false} PowGrows(base: nat, e: nat)
    requires 2 <= base
    ensures Pow(2, e) <= Pow(base, e)
  {
    if e > 0 {
      PowGrows(base, e - 1);
      Scale(2, Pow(2, e - 1), Pow(base, e - 1));
      Scale(Pow(base, e - 1), 2, base);
    }
  }

  lemma LongBound(n: nat, base: nat)
    requires n < U32 && 2 <= base
    ensures |DigitsOf(n, base)| <= 32
  {
    assert Pow(2, 32) == U32 by {
      assert Pow(2, 8) == 256;
      assert Pow(2, 16) == 256 * Pow(2, 8);
      assert Pow(2, 24) == 256 * Pow(2, 16);
      assert Pow(2, 32) == 256 * Pow(2, 24);
    }
    PowGrows(base, 32);
    DigitsBound(n, base, 32);
  }

  lemma {:induction false} DivideDigit(n: nat, base: nat, small: bool)
    requires 0 < n && 2 <= base <= 16
    ensures n / base < n && n % base < 16
    ensures ReversedText(n, base, small)[0] == CaseDigit(n % base, small)
    ensures n / base == 0 ==> |ReversedText(n, base, small)| == 1
    ensures n / base != 0 ==> ReversedText(n, base, small)[1..] == ReversedText(n / base, base, small)
  {
    DivMod(n, base);
    if n < base {
      SmallQuotient(n, base);
    } else {
      Shrinks(n, base);
      Quotient(n, base);
      assert DigitsOf(n, base) == [n % base] + DigitsOf(n / base, base);
    }
  }

  lemma SmallQuotient(n: nat, base: nat)
    requires n < base
    ensures n / base == 0 && n % base == n
  {
  }

  /** The digits of n into tmp by plain division, least significant first. */
  method Divide(tmp: array<char>, num: nat, base: nat, small: bool) returns (i: nat)
    requires num < U32 && 2 <= base <= 16 && tmp.Length == 32
    modifies tmp
    ensures i <= 32 && tmp[..i] == ReversedText(num, base, small)
  {
    LongBound(num, base);
    ghost var all := ReversedText(num, base, small);
    i := 0;
    if num == 0 {
      tmp[0] := '0';
      i := 1;
      assert DigitsOf(0, base) == [0];
    }
    var n: nat := num;
    while n != 0
      invariant i <= |all| <= 32
      invariant n != 0 ==> i < |all| && ReversedText(n, base, small) == all[i..]
      invariant n == 0 ==> i == |all|
      invariant tmp[..i] == all[..i]
      decreases n
    {
      DivideDigit(n, base, small);
      tmp[i] := CaseDigit(n % base, small);
      assert tmp[..i + 1] == all[..i + 1];
      n := n / base;
      i := i + 1;
    }
  }

  /** Sign, and the width and precision left once sign and prefix are accounted for. */
  method LongSigned(num: int, base: nat, f: Flags, width: int, precision: int)
      returns (n: nat, sign: string, w: int, prec: int)
    requires -U32 / 2 < num < U32 / 2 && 2 <= base <= 16
    ensures n == LongMagnitude(num, f.sign) && sign == LongSign(num, f)
    ensures w == width - |sign| - (if f.special && base == 8 then 1 else |LongPrefix(num, base, f)|)
    ensures prec == if f.special && base == 8 then precision - 1 else precision
  {
    w, prec := width, precision;
    if f.sign && num < 0 {
      sign := "-";
      n := -num;
    } else {
      sign := if f.plus then "+" else if f.space then " " else "";
      n := if num < 0 then num + U32 else num;
    }
    if sign != "" {
      w := w - 1;
    }
    if f.special {
      if base == 16 && num != 0 {
        w := w - 2;
      }
      if base == 8 {
        w := w - 1;
        prec := prec - 1;
      }
    }
  }

  /** number_to_string(): writes LongText at s and moves s behind it; a base it does not know prints nothing. */
  method NumberToString(num: int, base: int, f: Flags, width: int, precision: int, out: array<char>, s: nat) returns (next: nat)
    requires -U32 / 2 < num < U32 / 2
    requires 2 <= base <= 16 ==> s + |LongText(num, base, f, width, precision)| <= out.Length
    modifies out
    ensures 2 <= base <= 16 ==>
      && next == s + |LongText(num, base, f, width, precision)|
      && out[..] == Stored(old(out[..]), s, LongText(num, base, f, width, precision))
    ensures !(2 <= base <= 16) ==> next == s && out[..] == old(out[..])
  {
    if base < 2 || base > 16 {
      return s;
    }
    var n, sign, w, prec := LongSigned(num, base, f, width, precision);
    var tmp := new char[32];
    var i := Divide(tmp, n, base, f.small);
    if i > prec {
      prec := i;
    }
    w := w - prec;
    LongPieces(num, base, f, width, precision, w, i, prec);
    next := LongLayOut(tmp, i, base, f, num != 0, sign, w, prec, out, s);
  }

  lemma LongPieces(num: int, base: nat, f: Flags, width: int, precision: int, w: int, i: nat, prec: int)
    requires -U32 / 2 < num < U32 / 2 && 2 <= base <= 16
    requires i == |DigitText(LongMagnitude(num, f.sign), base, f.small)|
    requires var octal := f.special && base == 8;
      && prec == Max(if octal then precision - 1 else precision, i)
      && w == width - |LongSign(num, f)| - (if octal then 1 else |LongPrefix(num, base, f)|) - prec
    ensures LongRow(LongSign(num, f), LongPrefix(num, base, f), DigitText(LongMagnitude(num, f.sign), base, f.small), w, prec - i, f.zeropad, f.left)
      == LongText(num, base, f, width, precision)
  {
  }

  /** The parts in the order they are written. */
  function LongRow(sign: string, prefix: string, digits: string, room: int, zeros: int, zero: bool, left: bool): string {
    var w1 := if zero || left then room else if room > 0 then -1 else room - 1;
    var w2 := if left then w1 else if w1 > 0 then -1 else w1 - 1;
    (if zero || left then "" else Fill(' ', room)) + sign + prefix
      + (if left then "" else Fill('0', w1)) + Fill('0', zeros) + digits + Fill(' ', w2)
  }

  method LongLayOut(tmp: array<char>, i: nat, base: nat, f: Flags, nonzero: bool, sign: string, width: int, prec: int,
                    out: array<char>, s: nat) returns (next: nat)
    requires i <= tmp.Length && tmp != out && i <= prec
    requires s + |LongRow(sign, PrefixOf(base, f, nonzero), Reverse(tmp[..i]), width, prec - i, f.zeropad, f.left)| <= out.Length
    modifies out
    ensures var row := LongRow(sign, PrefixOf(base, f, nonzero), Reverse(tmp[..i]), width, prec - i, f.zeropad, f.left);
      next == s + |row| && out[..] == Stored(old(out[..]), s, row)
  {
    ghost var b, prefix, digits := out[..], PrefixOf(base, f, nonzero), tmp[..i];
    ghost var head, tail, row := RowParts(sign, prefix, Reverse(digits), width, prec - i, f.zeropad, f.left);
    StoredTwice(b, s, head, tail);
    var w;
    next, w := LayOutHead(sign, PrefixOf(base, f, nonzero), f, width, out, s);
    assert tmp[..i] == digits;
    next := LongDigits(tmp, i, w, prec, out, next);
  }

  /** The width that is left behind the head. */
  function LongRest(room: int, zero: bool, left: bool): int {
    var w1 := if zero || left then room else if room > 0 then -1 else room - 1;
    if left then w1 else if w1 > 0 then -1 else w1 - 1
  }

  lemma RowParts(sign: string, prefix: string, digits: string, room: int, zeros: int, zero: bool, left: bool)
    returns (head: string, tail: string, row: string)
    ensures head == LongHead(sign, prefix, room, zero, left)
    ensures tail == Fill('0', zeros) + digits + Fill(' ', LongRest(room, zero, left))
    ensures row == LongRow(sign, prefix, digits, room, zeros, zero, left) == head + tail
  {
    head, row := LongHead(sign, prefix, room, zero, left), LongRow(sign, prefix, digits, room, zeros, zero, left);
    tail := Fill('0', zeros) + digits + Fill(' ', LongRest(room, zero, left));
    RowJoined(head, Fill('0', zeros), digits, Fill(' ', LongRest(room, zero, left)));
  }

  /** Everything in front of the digits. */
  function LongHead(sign: string, prefix: string, room: int, zero: bool, left: bool): string {
    var w1 := if zero || left then room else if room > 0 then -1 else room - 1;
    (if zero || left then "" else Fill(' ', room)) + sign + prefix + (if left then "" else Fill('0', w1))
  }

  method LayOutHead(sign: string, prefix: string, f: Flags, width: int, out: array<char>, s: nat) returns (next: nat, w: int)
    requires s + |LongHead(sign, prefix, width, f.zeropad, f.left)| <= out.Length
    modifies out
    ensures var head := LongHead(sign, prefix, width, f.zeropad, f.left);
      next == s + |head| && out[..] == Stored(old(out[..]), s, head)
    ensures w == LongRest(width, f.zeropad, f.left)
  {
    ghost var b := out[..];
    ghost var front := (if f.zeropad || f.left then "" else Fill(' ', width)) + sign + prefix;
    next, w := LayOutFront(sign, prefix, f, width, out, s, front);
    if !f.left {
      next, w := AddPad(out, next, '0', w, b, s, front);
    } else {
      assert front + "" == front;
    }
  }

  /** Blanks, sign and prefix. */
  method LayOutFront(sign: string, prefix: string, f: Flags, width: int, out: array<char>, s: nat, ghost front: string) returns (next: nat, w: int)
    requires front == (if f.zeropad || f.left then "" else Fill(' ', width)) + sign + prefix
    requires s + |front| <= out.Length
    modifies out
    ensures next == s + |front| && out[..] == Stored(old(out[..]), s, front)
    ensures w == if f.zeropad || f.left then width else if width > 0 then -1 else width - 1
  {
    ghost var b, t: string := out[..], "";
    assert Stored(b, s, "") == b;
    next, w := s, width;
    if !f.left && !f.zeropad {
      next, w := AddPad(out, next, ' ', w, b, s, t);
      t := Fill(' ', width);
    }
    next := AddText(out, next, sign, b, s, t);
    next := AddText(out, next, prefix, b, s, t + sign);
  }

  /** PadTo behind the text t that has been written since position start. */
  method AddPad(out: array<char>, s: nat, c: char, n: int, ghost b: seq<char>, ghost start: nat, ghost t: string) returns (next: nat, rest: int)
    requires s + |Fill(c, n)| <= out.Length && |b| == out.Length && s == start + |t| && out[..] == Stored(b, start, t)
    modifies out
    ensures next == s + |Fill(c, n)| && rest == if n > 0 then -1 else n - 1
    ensures out[..] == Stored(b, start, t + Fill(c, n))
  {
    StoredTwice(b, start, t, Fill(c, n));
    next, rest := PadTo(out, s, c, n);
  }

  /** PutText behind the text t that has been written since position start. */
  method AddText(out: array<char>, s: nat, u: string, ghost b: seq<char>, ghost start: nat, ghost t: string) returns (next: nat)
    requires s + |u| <= out.Length && |b| == out.Length && s == start + |t| && out[..] == Stored(b, start, t)
    modifies out
    ensures next == s + |u| && out[..] == Stored(b, start, t + u)
  {
    StoredTwice(b, start, t, u);
    next := PutText(out, s, u);
  }

  lemma RowJoined(a: string, b: string, c: string, d: string)
    ensures a + (b + c + d) == a + b + c + d
  {
  }

  method LongDigits(tmp: array<char>, i: nat, width: int, prec: int, out: array<char>, s: nat) returns (next: nat)
    requires i <= tmp.Length && tmp != out && i <= prec
    requires s + |Fill('0', prec - i) + Reverse(tmp[..i]) + Fill(' ', width)| <= out.Length
    modifies out
    ensures var row := Fill('0', prec - i) + Reverse(tmp[..i]) + Fill(' ', width);
      next == s + |row| && out[..] == Stored(old(out[..]), s, row)
  {
    ghost var b, digits := out[..], tmp[..i];
    assert Stored(b, s, "") == b;
    var rest;
    next, rest := AddPad(out, s, '0', prec - i, b, s, "");
    assert tmp[..i] == digits;
    next := AddReversed(out, next, tmp, i, b, s, Fill('0', prec - i));
    next, rest := AddPad(out, next, ' ', width, b, s, Fill('0', prec - i) + Reverse(digits));
  }

  /** PutReversed behind the text t that has been written since position start. */
  method AddReversed(out: array<char>, s: nat, tmp: array<char>, n: nat, ghost b: seq<char>, ghost start: nat, ghost t: string) returns (next: nat)
    requires n <= tmp.Length && s + n <= out.Length && tmp != out
    requires |b| == out.Length && s == start + |t| && out[..] == Stored(b, start, t)
    modifies out
    ensures next == s + n && out[..] == Stored(b, start, t + Reverse(tmp[..n]))
  {
    ghost var digits := tmp[..n];
    StoredTwice(b, start, t, Reverse(digits));
    next := PutReversed(out, s, tmp, n);
    assert tmp[..n] == digits;
  }

  /** The prefix that is written. */
  function PrefixOf(base: nat, f: Flags, nonzero: bool): string {
    if !f.special || !nonzero then ""
    else if base == 8 then "0"
    else if base == 16 then (if f.small then "0x" else "0X")
    else ""
  }
}
