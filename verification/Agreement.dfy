/** Where the printed numbers are what section 7.19.6.1 of ISO/IEC 9899:1999 asks for, and where the two
    formatters print the same. */
module Agreement {
  import opened Bytes
  import opened Digits
  import opened PutDec
  import opened Layout
  import opened Strtoull
  import opened RoundTrip

  // ---- rows ----

  /** How a field spreads: blanks in front, zeros before the digits, blanks behind. */
  datatype Shape = Shape(l: nat, z: nat, r: nat)

  function Row(s: Shape, head: string, digits: string): string {
    Fill(' ', s.l) + head + Fill('0', s.z) + digits + Fill(' ', s.r)
  }

  /** A head of one sign and perhaps a prefix. */
  predicate IsHead(h: string) {
    h == "" || (h[0] != ' ' && forall k :: 0 <= k < |h| ==> h[k] != ' ') || (h[0] == ' ' && forall k :: 1 <= k < |h| ==> h[k] != ' ')
  }

  predicate Solid(d: string) { d != "" && forall k :: 0 <= k < |d| ==> d[k] != ' ' }

  /** The characters of a row. */
  lemma {:induction false} RowChars(s: Shape, head: string, d: string, t: string)
    requires t == Row(s, head, d)
    ensures |t| == s.l + |head| + s.z + |d| + s.r
    ensures forall k :: 0 <= k < s.l ==> t[k] == ' '
    ensures forall k :: 0 <= k < |head| ==> t[s.l + k] == head[k]
    ensures forall k :: s.l + |head| <= k < s.l + |head| + s.z ==> t[k] == '0'
    ensures forall k :: 0 <= k < |d| ==> t[s.l + |head| + s.z + k] == d[k]
    ensures forall k :: |t| - s.r <= k < |t| ==> t[k] == ' '
  {
  }

  /** Behind its blanks a row has at most one blank, the sign. */
  lemma {:induction false} RowFront(s: Shape, head: string, d: string, t: string)
    requires t == Row(s, head, d) && IsHead(head) && Solid(d)
    ensures s.l < |t| - s.r && t[|t| - s.r - 1] != ' '
    ensures head == "" || head[0] != ' ' ==> t[s.l] != ' '
    ensures head != "" && head[0] == ' ' ==> s.l + 1 < |t| && t[s.l] == ' ' && t[s.l + 1] != ' '
  {
    RowChars(s, head, d, t);
    var i := s.l + |head| + s.z;
    assert t[i + (|d| - 1)] == d[|d| - 1] && t[i + 0] == d[0];
    if head == "" {
      if s.z > 0 { assert t[s.l] == '0'; }
    } else {
      assert t[s.l + 0] == head[0];
      if head[0] == ' ' {
        if |head| > 1 { assert t[s.l + 1] == head[1]; } else if s.z > 0 { assert t[s.l + 1] == '0'; }
      }
    }
  }

  /** How many blanks a row with that head starts with, a blank sign included. */
  function Lead(s: Shape, head: string): nat { if head != "" && head[0] == ' ' then s.l + 1 else s.l }

  lemma {:induction false} RowLead(s: Shape, head: string, d: string, t: string)
    requires t == Row(s, head, d) && IsHead(head) && Solid(d)
    ensures Lead(s, head) < |t| && t[Lead(s, head)] != ' ' && forall k :: 0 <= k < Lead(s, head) ==> t[k] == ' '
  {
    RowFront(s, head, d, t);
    RowChars(s, head, d, t);
  }

  /** Rows that differ in the blanks in front differ. */
  lemma {:induction false} FrontApart(a: Shape, b: Shape, head: string, d: string, t: string, u: string)
    requires IsHead(head) && Solid(d) && t == Row(a, head, d) && u == Row(b, head, d) && a.l < b.l
    ensures t != u
  {
    RowLead(a, head, d, t);
    RowLead(b, head, d, u);
    assert t[Lead(a, head)] != u[Lead(a, head)];
  }

  /** So do rows that differ in the blanks behind. */
  lemma {:induction false} BackApart(a: Shape, b: Shape, head: string, d: string, t: string, u: string)
    requires IsHead(head) && Solid(d) && t == Row(a, head, d) && u == Row(b, head, d) && a.r < b.r
    ensures t != u
  {
    RowFront(a, head, d, t);
    RowChars(b, head, d, u);
    if |t| == |u| {
      var k := |t| - a.r - 1;
      assert t[k] != ' ' && u[k] == ' ';
    }
  }

  /** Rows with the same head and digits are the same only if they spread the same. */
  lemma {:induction false} RowUnique(a: Shape, b: Shape, head: string, d: string, t: string, u: string)
    requires IsHead(head) && Solid(d) && t == Row(a, head, d) && u == Row(b, head, d)
    ensures t == u <==> a == b
  {
    if a.r < b.r { BackApart(a, b, head, d, t, u); }
    else if b.r < a.r { BackApart(b, a, head, d, u, t); }
    else if a.l < b.l { FrontApart(a, b, head, d, t, u); }
    else if b.l < a.l { FrontApart(b, a, head, d, u, t); }
    else {
      RowChars(a, head, d, t);
      RowChars(b, head, d, u);
    }
  }

  /** A character that neither pads nor is a digit comes from the head. */
  lemma {:induction false} RowHas(s: Shape, head: string, d: string, c: char)
    requires c != ' ' && c != '0' && c !in d
    ensures c in Row(s, head, d) <==> c in head
  {
    var t := Row(s, head, d);
    RowChars(s, head, d, t);
    if c in head {
      var k :| 0 <= k < |head| && head[k] == c;
      assert t[s.l + k] == c;
    }
    if c in t {
      var k :| 0 <= k < |t| && t[k] == c;
      if s.l <= k < s.l + |head| {
        assert t[s.l + (k - s.l)] == head[k - s.l];
      } else if s.l + |head| + s.z <= k < |t| - s.r {
        assert t[s.l + |head| + s.z + (k - s.l - |head| - s.z)] == d[k - s.l - |head| - s.z];
      }
    }
  }

  /** A sign that is a blank is one more blank in front. */
  lemma BlankHead(s: Shape, q: string, d: string)
    ensures Row(s, " " + q, d) == Row(s.(l := s.l + 1), q, d)
  {
    assert Fill(' ', s.l) + (" " + q) == Fill(' ', s.l + 1) + q;
  }

  /** A zero behind the head is one more zero. */
  lemma ZeroHead(s: Shape, head: string, d: string)
    ensures Row(s, head + "0", d) == Row(s.(z := s.z + 1), head, d)
  {
    assert Fill(' ', s.l) + (head + "0") + Fill('0', s.z) == Fill(' ', s.l) + head + Fill('0', s.z + 1);
  }

  /** The shape of a field with so many characters beside the zeros. */
  function Spread(width: int, content: nat, zeros: nat, zero: bool, left: bool): Shape {
    var room := if width > content + zeros then width - content - zeros else 0;
    Shape(if left || zero then 0 else room, if zero && !left then zeros + room else zeros, if left then room else 0)
  }

  lemma {:induction false} FieldRow(sign: string, q: string, d: string, width: int, precision: int, zero: bool, left: bool, zeros: nat)
    requires zeros == Max(precision, |d|) - |d|
    ensures Field(sign, q, d, width, precision, zero, left) == Row(Spread(width, |sign| + |q| + |d|, zeros, zero, left), sign + q, d)
  {
    FieldShape(sign, q, d, width, precision, zero, left, zeros, Room(|sign| + |q|, |d|, width, precision));
  }

  lemma {:induction false} OctalRow(sign: string, d: string, width: int, precision: int, zero: bool, left: bool, zeros: nat)
    requires zeros == Max(precision, |d|) - |d|
    ensures Field(sign, "0", d, width, precision, zero, left) == Row(Spread(width, |sign| + |d|, zeros + 1, zero, left), sign, d)
  {
    FieldRow(sign, "0", d, width, precision, zero, left, zeros);
    ZeroHead(Spread(width, |sign| + 1 + |d|, zeros, zero, left), sign, d);
  }

  // ---- digits ----

  lemma {:induction false} DigitsSolid(n: nat, base: nat, small: bool)
    requires 2 <= base <= 16
    ensures var d := DigitText(n, base, small);
      Solid(d) && '+' !in d && '-' !in d && 'x' !in d && 'X' !in d
  {
    TextDigits(n, base, small);
    var d := DigitText(n, base, small);
    forall k | 0 <= k < |d| ensures d[k] != ' ' && d[k] != '+' && d[k] != '-' && d[k] != 'x' && d[k] != 'X' {
      assert Accepts(d[k], base);
    }
  }

  lemma {:induction false} LeadingDigit(n: nat, base: nat, small: bool)
    requires 2 <= base <= 16
    ensures n > 0 ==> DigitText(n, base, small)[0] != '0'
    ensures n == 0 ==> DigitText(n, base, small) == "0"
  {
    var ds := DigitsOf(n, base);
    DigitsBelow16(n, base);
    NoLeadingZero(n, base);
    CaseDigitReads(ds[|ds| - 1], small);
    assert DigitText(n, base, small)[0] == CaseDigit(ds[|ds| - 1], small);
  }

  // ---- the two formatters ----

  /** Exactly when number_to_string prints a 32-bit value as number does. A plus without a sign conversion, and
      hexadecimal or octal zero with '#', never agree. In octal '#' costs number_to_string a digit of precision,
      which only zeros that fill the field make up for. A blank without a sign conversion agrees if it is one
      of the blanks in front. */
  predicate FormattersAgree(num: int, base: nat, f: Flags, width: int, precision: int)
    requires -U32 / 2 <= num < U32 / 2 && IsBase(base)
  {
    var n := |DigitText(LongMagnitude(num, f.sign), base, f.small)|;
    var sign := |NumberSign(Widen(num, f.sign), f)|;
    if f.special && base != 10 && num == 0 then false
    else if f.plus && !f.sign then false
    else if f.special && base == 8 && precision > n then (f.sign || !f.space) && f.zeropad && !f.left && width > sign + precision
    else if f.space && !f.sign then !f.zeropad && !f.left && width > |NumberPrefix(base, f)| + Max(precision, n)
    else true
  }

  /** The rows of the two formatters, over the same digits. */
  lemma {:induction false} NumberRow(num: nat, base: nat, f: Flags, width: int, precision: int, d: string, sign: string, s: Shape)
    requires num < U64 && IsBase(base) && d == DigitText(Magnitude(num, f.sign), base, f.small) && sign == NumberSign(num, f)
    requires f.special ==> base != 16
    requires s == NumberShape(width, precision, |d|, f.special && base == 8, |sign|, f.zeropad, f.left)
    ensures NumberText(num, base, f, width, precision) == Row(s, sign, d)
  {
    var q := if f.special && base == 8 then "0" else "";
    NumberField(num, base, f, width, precision, d, sign, q);
    PrefixRow(sign, q, d, width, precision, f.zeropad, f.left, s);
  }

  lemma NumberField(num: nat, base: nat, f: Flags, width: int, precision: int, d: string, sign: string, q: string)
    requires num < U64 && IsBase(base) && d == DigitText(Magnitude(num, f.sign), base, f.small) && sign == NumberSign(num, f)
    requires q == NumberPrefix(base, f)
    ensures NumberText(num, base, f, width, precision) == Field(sign, q, d, width, precision, f.zeropad, f.left)
  {
  }

  /** A field without prefix or with that of octal. */
  lemma {:induction false} PrefixRow(sign: string, q: string, d: string, width: int, precision: int, zero: bool, left: bool, s: Shape)
    requires q == "" || q == "0"
    requires s == NumberShape(width, precision, |d|, q == "0", |sign|, zero, left)
    ensures Field(sign, q, d, width, precision, zero, left) == Row(s, sign, d)
  {
    var zeros := Max(precision, |d|) - |d|;
    if q == "0" {
      OctalRow(sign, d, width, precision, zero, left, zeros);
    } else {
      FieldRow(sign, "", d, width, precision, zero, left, zeros);
      assert sign + "" == sign;
    }
  }

  lemma {:induction false} NumberHexRow(num: nat, base: nat, f: Flags, width: int, precision: int, d: string, head: string, s: Shape)
    requires num < U64 && base == 16 && f.special && d == DigitText(Magnitude(num, f.sign), base, f.small)
    requires head == NumberSign(num, f) + NumberPrefix(base, f)
    requires s == Spread(width, |head| + |d|, Max(precision, |d|) - |d|, f.zeropad, f.left)
    ensures NumberText(num, base, f, width, precision) == Row(s, head, d)
  {
    var sign, q := NumberSign(num, f), NumberPrefix(base, f);
    NumberField(num, base, f, width, precision, d, sign, q);
    HeadRow(sign, q, d, width, precision, f.zeropad, f.left, head, s);
  }

  lemma {:induction false} HeadRow(sign: string, q: string, d: string, width: int, precision: int, zero: bool, left: bool, head: string, s: Shape)
    requires head == sign + q && s == Spread(width, |head| + |d|, Max(precision, |d|) - |d|, zero, left)
    ensures Field(sign, q, d, width, precision, zero, left) == Row(s, head, d)
  {
    FieldRow(sign, q, d, width, precision, zero, left, Max(precision, |d|) - |d|);
  }

  /** The shape of number's field around so many sign characters and n digits. */
  function NumberShape(width: int, precision: int, n: nat, octal: bool, sign: nat, zero: bool, left: bool): Shape {
    var zeros := Max(precision, n) - n;
    Spread(width, sign + n, if octal then zeros + 1 else zeros, zero, left)
  }

  /** The shape of number_to_string's. */
  function LongShape(width: int, precision: int, n: nat, octal: bool, isZero: bool, sign: nat, zero: bool, left: bool): Shape {
    var zeros := Max(if octal then precision - 1 else precision, n) - n;
    Spread(if octal && isZero then width - 1 else width, sign + n, if octal && !isZero then zeros + 1 else zeros, zero, left)
  }

  lemma {:induction false} LongRow(num: int, base: nat, f: Flags, width: int, precision: int, d: string, sign: string, s: Shape)
    requires -U32 / 2 <= num < U32 / 2 && IsBase(base) && d == DigitText(LongMagnitude(num, f.sign), base, f.small) && sign == LongSign(num, f)
    requires f.special ==> base != 16
    requires s == LongShape(width, precision, |d|, f.special && base == 8, num == 0, |sign|, f.zeropad, f.left)
    ensures LongText(num, base, f, width, precision) == Row(s, sign, d)
  {
    var octal := f.special && base == 8;
    var q := if octal && num != 0 then "0" else "";
    var w, p := if octal && num == 0 then width - 1 else width, if octal then precision - 1 else precision;
    LongField(num, base, f, width, precision, d, sign, q, w, p);
    PrefixRow(sign, q, d, w, p, f.zeropad, f.left, s);
  }

  lemma LongField(num: int, base: nat, f: Flags, width: int, precision: int, d: string, sign: string, q: string, w: int, p: int)
    requires -U32 / 2 <= num < U32 / 2 && IsBase(base) && d == DigitText(LongMagnitude(num, f.sign), base, f.small) && sign == LongSign(num, f)
    requires q == LongPrefix(num, base, f)
    requires w == (if f.special && base == 8 then width - 1 + |q| else width) && p == (if f.special && base == 8 then precision - 1 else precision)
    ensures LongText(num, base, f, width, precision) == Field(sign, q, d, w, p, f.zeropad, f.left)
  {
  }

  lemma {:induction false} LongHexRow(num: int, base: nat, f: Flags, width: int, precision: int, d: string, head: string, s: Shape)
    requires -U32 / 2 <= num < U32 / 2 && base == 16 && f.special && d == DigitText(LongMagnitude(num, f.sign), base, f.small)
    requires head == LongSign(num, f) + LongPrefix(num, base, f)
    requires s == Spread(width, |head| + |d|, Max(precision, |d|) - |d|, f.zeropad, f.left)
    ensures LongText(num, base, f, width, precision) == Row(s, head, d)
  {
    var sign, q := LongSign(num, f), LongPrefix(num, base, f);
    LongField(num, base, f, width, precision, d, sign, q, width, precision);
    HeadRow(sign, q, d, width, precision, f.zeropad, f.left, head, s);
  }

  lemma {:induction false} FormattersIff(num: int, base: nat, f: Flags, width: int, precision: int)
    requires -U32 / 2 <= num < U32 / 2 && IsBase(base)
    ensures LongText(num, base, f, width, precision) == NumberText(Widen(num, f.sign), base, f, width, precision)
      <==> FormattersAgree(num, base, f, width, precision)
  {
    var d := DigitText(LongMagnitude(num, f.sign), base, f.small);
    assert Magnitude(Widen(num, f.sign), f.sign) == LongMagnitude(num, f.sign);
    DigitsSolid(LongMagnitude(num, f.sign), base, f.small);
    var t, u := LongText(num, base, f, width, precision), NumberText(Widen(num, f.sign), base, f, width, precision);
    if f.special && base == 16 {
      HexIff(num, base, f, width, precision, d, t, u);
    } else {
      PlainIff(num, base, f, width, precision, d, t, u);
    }
  }

  /** What number_to_string prints, for all inputs, is what number prints with the sign flag set, without '#' for zero, and
      in octal with '#' for a precision less one, and for zero a width less one. */
  lemma {:induction false} LongIs(num: int, base: nat, f: Flags, width: int, precision: int, v: nat, g: Flags, w: int, p: int)
    requires -U32 / 2 <= num < U32 / 2 && IsBase(base) && v == (if f.sign then num % U64 else num % U32)
    requires g == f.(sign := true, special := f.special && num != 0)
    requires w == (if f.special && base == 8 && num == 0 then width - 1 else width)
    requires p == (if f.special && base == 8 then precision - 1 else precision)
    ensures LongText(num, base, f, width, precision) == NumberText(v, base, g, w, p)
  {
    var d, sign, q := DigitText(LongMagnitude(num, f.sign), base, f.small), LongSign(num, f), LongPrefix(num, base, f);
    LongParts(num, base, f, v, g);
    LongField(num, base, f, width, precision, d, sign, q, w, p);
    NumberField(v, base, g, w, p, d, sign, q);
  }

  lemma LongParts(num: int, base: nat, f: Flags, v: nat, g: Flags)
    requires -U32 / 2 <= num < U32 / 2 && IsBase(base) && v == (if f.sign then num % U64 else num % U32)
    requires g == f.(sign := true, special := f.special && num != 0)
    ensures Magnitude(v, true) == LongMagnitude(num, f.sign) && NumberSign(v, g) == LongSign(num, f)
    ensures NumberPrefix(base, g) == LongPrefix(num, base, f)
  {
  }

  /** Rows with the signs of the two formatters in front of the same prefix. */
  lemma {:induction false} SignsIff(num: int, f: Flags, q: string, d: string, a: Shape, b: Shape, t: string, u: string)
    requires -U32 / 2 <= num < U32 / 2 && Solid(d) && '+' !in d && '+' !in q && forall k :: 0 <= k < |q| ==> q[k] != ' '
    requires t == Row(a, LongSign(num, f) + q, d) && u == Row(b, NumberSign(Widen(num, f.sign), f) + q, d)
    ensures f.plus && !f.sign ==> t != u
    ensures f.space && !f.plus && !f.sign ==> (t == u <==> a.(l := a.l + 1) == b)
    ensures f.sign || (!f.plus && !f.space) ==> (t == u <==> a == b)
  {
    var ls, ns := LongSign(num, f), NumberSign(Widen(num, f.sign), f);
    if f.plus && !f.sign {
      RowHas(a, ls + q, d, '+');
      RowHas(b, ns + q, d, '+');
      assert (ls + q)[0] == '+' && ns + q == q;
    } else if f.space && !f.sign {
      BlankHead(a, q, d);
      assert ns + q == q;
      RowUnique(a.(l := a.l + 1), b, q, d, t, u);
    } else {
      assert ls == ns;
      RowUnique(a, b, ls + q, d, t, u);
    }
  }

  lemma {:induction false} HexIff(num: int, base: nat, f: Flags, width: int, precision: int, d: string, t: string, u: string)
    requires -U32 / 2 <= num < U32 / 2 && f.special && base == 16
    requires d == DigitText(LongMagnitude(num, f.sign), base, f.small) == DigitText(Magnitude(Widen(num, f.sign), f.sign), base, f.small)
    requires Solid(d) && '+' !in d && 'x' !in d && 'X' !in d
    requires t == LongText(num, base, f, width, precision) && u == NumberText(Widen(num, f.sign), base, f, width, precision)
    ensures t == u <==> FormattersAgree(num, base, f, width, precision)
  {
    var q := NumberPrefix(base, f);
    var lh, nh := LongSign(num, f) + LongPrefix(num, base, f), NumberSign(Widen(num, f.sign), f) + q;
    var zeros := Max(precision, |d|) - |d|;
    var a, b := Spread(width, |lh| + |d|, zeros, f.zeropad, f.left), Spread(width, |nh| + |d|, zeros, f.zeropad, f.left);
    LongHexRow(num, base, f, width, precision, d, lh, a);
    NumberHexRow(Widen(num, f.sign), base, f, width, precision, d, nh, b);
    if num == 0 {
      PrefixApart(num, f, d, q, lh, nh, a, b, t, u);
    } else {
      SignsIff(num, f, q, d, a, b, t, u);
    }
  }

  /** Only one of the two prefixes zero. */
  lemma {:induction false} PrefixApart(num: int, f: Flags, d: string, q: string, lh: string, nh: string, a: Shape, b: Shape, t: string, u: string)
    requires num == 0 && f.special && q == NumberPrefix(16, f) && 'x' !in d && 'X' !in d
    requires lh == LongSign(num, f) + LongPrefix(num, 16, f) && nh == NumberSign(Widen(num, f.sign), f) + q
    requires t == Row(a, lh, d) && u == Row(b, nh, d)
    ensures t != u
  {
    var x := q[1];
    assert nh[|nh| - 1] == x;
    RowHas(a, lh, d, x);
    RowHas(b, nh, d, x);
  }

  lemma {:induction false} PlainIff(num: int, base: nat, f: Flags, width: int, precision: int, d: string, t: string, u: string)
    requires -U32 / 2 <= num < U32 / 2 && IsBase(base) && (f.special ==> base != 16)
    requires d == DigitText(LongMagnitude(num, f.sign), base, f.small) == DigitText(Magnitude(Widen(num, f.sign), f.sign), base, f.small)
    requires Solid(d) && '+' !in d
    requires t == LongText(num, base, f, width, precision) && u == NumberText(Widen(num, f.sign), base, f, width, precision)
    ensures t == u <==> FormattersAgree(num, base, f, width, precision)
  {
    var ls, ns, octal := LongSign(num, f), NumberSign(Widen(num, f.sign), f), f.special && base == 8;
    var a := LongShape(width, precision, |d|, octal, num == 0, |ls|, f.zeropad, f.left);
    var b := NumberShape(width, precision, |d|, octal, |ns|, f.zeropad, f.left);
    LongRow(num, base, f, width, precision, d, ls, a);
    NumberRow(Widen(num, f.sign), base, f, width, precision, d, ns, b);
    assert ls + "" == ls && ns + "" == ns;
    SignsIff(num, f, "", d, a, b, t, u);
    ShapesIff(num, base, f, width, precision, d, a, b);
  }

  lemma {:induction false} ShapesIff(num: int, base: nat, f: Flags, width: int, precision: int, d: string, a: Shape, b: Shape)
    requires -U32 / 2 <= num < U32 / 2 && IsBase(base) && (f.special ==> base != 16)
    requires d == DigitText(LongMagnitude(num, f.sign), base, f.small) && d != ""
    requires a == LongShape(width, precision, |d|, f.special && base == 8, num == 0, |LongSign(num, f)|, f.zeropad, f.left)
    requires b == NumberShape(width, precision, |d|, f.special && base == 8, |NumberSign(Widen(num, f.sign), f)|, f.zeropad, f.left)
    ensures f.space && !f.plus && !f.sign ==> (a.(l := a.l + 1) == b <==> FormattersAgree(num, base, f, width, precision))
    ensures f.sign || (!f.plus && !f.space) ==> (a == b <==> FormattersAgree(num, base, f, width, precision))
  {
    var octal := f.special && base == 8;
    if num == 0 { LeadingDigit(0, base, f.small); }
    SameSign(width, precision, |d|, octal, num == 0, |NumberSign(Widen(num, f.sign), f)|, f.zeropad, f.left);
    BlankSign(width, precision, |d|, octal, num == 0, f.zeropad, f.left);
  }

  /** The shapes for the same sign. */
  lemma SameSign(width: int, precision: int, n: nat, octal: bool, isZero: bool, sign: nat, zero: bool, left: bool)
    requires n >= 1 && (isZero ==> n == 1)
    ensures LongShape(width, precision, n, octal, isZero, sign, zero, left) == NumberShape(width, precision, n, octal, sign, zero, left)
      <==> !(octal && isZero) && (octal && precision > n ==> zero && !left && width > sign + precision)
  {
  }

  /** The shapes for a blank against no sign. */
  lemma BlankSign(width: int, precision: int, n: nat, octal: bool, isZero: bool, zero: bool, left: bool)
    requires n >= 1 && (isZero ==> n == 1)
    ensures var a := LongShape(width, precision, n, octal, isZero, 1, zero, left);
      a.(l := a.l + 1) == NumberShape(width, precision, n, octal, 0, zero, left)
      <==> !(octal && (isZero || precision > n)) && !zero && !left && width > (if octal then 1 else 0) + Max(precision, n)
  {
  }

  // ---- the layout of the standard ----

  /** The digits of section 7.19.6.1: at least as many as the precision says, one if there is none; zero with
      precision zero has none. A negative precision stands for none. */
  function C99Digits(v: nat, base: nat, small: bool, precision: int): string
    requires IsBase(base)
  {
    var d := DigitText(v, base, small);
    if v == 0 && precision == 0 then "" else Fill('0', precision - |d|) + d
  }

  /** With '#', octal gets one more digit if the first is not zero. */
  function C99Body(v: nat, base: nat, f: Flags, precision: int): string
    requires IsBase(base)
  {
    var d := C99Digits(v, base, f.small, precision);
    if f.special && base == 8 && (d == "" || d[0] != '0') then "0" + d else d
  }

  /** A minus for negative values; of signed conversions, a plus if asked for, else a blank if asked for. */
  function C99Sign(num: nat, f: Flags): string {
    if f.sign && U64 / 2 <= num then "-"
    else if f.sign && f.plus then "+"
    else if f.sign && f.space then " "
    else ""
  }

  /** With '#', hexadecimal gets a prefix if it is not zero. */
  function C99Prefix(v: nat, base: nat, f: Flags): string {
    if f.special && base == 16 && v != 0 then (if f.small then "0x" else "0X") else ""
  }

  /** Head and body in a field. */
  function Placed(head: string, body: string, width: int, zero: bool, left: bool): string {
    var room := width - |head| - |body|;
    if left then head + body + Fill(' ', room)
    else if zero then head + Fill('0', room) + body
    else Fill(' ', room) + head + body
  }

  /** The whole conversion. The flag '0' is ignored beside '-' or a precision; plus and blank ask for a sign only
      of signed conversions; '#' asks for nothing in decimal, where the standard leaves it open. */
  function C99Text(num: nat, base: nat, f: Flags, width: int, precision: int): string
    requires num < U64 && IsBase(base)
  {
    var v := Magnitude(num, f.sign);
    Placed(C99Sign(num, f) + C99Prefix(v, base, f), C99Body(v, base, f, precision), width, f.zeropad && precision < 0, f.left)
  }

  /** Exactly when number prints that. Hexadecimal zero with '#' and zero with precision 0 never do; octal with '#'
      does not beyond a precision, and for zero only if zeros fill the field anyway; and otherwise only a field
      that the flag '0' fills in spite of a precision goes wrong. */
  predicate C99Agrees(num: nat, base: nat, f: Flags, width: int, precision: int)
    requires num < U64 && IsBase(base)
  {
    var v := Magnitude(num, f.sign);
    var n, sign := |DigitText(v, base, f.small)|, |NumberSign(num, f)|;
    if f.special && base == 16 && v == 0 then false
    else if f.special && base == 8 && v == 0 then f.zeropad && !f.left && precision < 0 && width > sign + 1
    else if f.special && base == 8 && precision > n then false
    else if v == 0 && precision == 0 then false
    else !(f.zeropad && !f.left && precision >= 0 && width > sign + |NumberPrefix(base, f)| + Max(precision, n))
  }

  /** The zeros of a body in front of its digits. */
  function C99Zeros(n: nat, precision: int, octal: bool, isZero: bool): nat
    requires n >= 1
  {
    if octal && isZero then Max(precision, 1) - 1
    else if octal then (if precision > n then precision - n else 1)
    else Max(precision, n) - n
  }

  lemma {:induction false} C99BodyZeros(v: nat, base: nat, f: Flags, precision: int, d: string, zeros: nat)
    requires IsBase(base) && d == DigitText(v, base, f.small) && d != "" && !(v == 0 && precision == 0 && !(f.special && base == 8))
    requires zeros == C99Zeros(|d|, precision, f.special && base == 8, v == 0)
    ensures C99Body(v, base, f, precision) == Fill('0', zeros) + d
  {
    LeadingDigit(v, base, f.small);
    if f.special && base == 8 {
      OctalBody(v, f, precision, d, zeros);
    } else {
      assert Fill('0', precision - |d|) == Fill('0', zeros);
    }
  }

  lemma {:induction false} OctalBody(v: nat, f: Flags, precision: int, d: string, zeros: nat)
    requires d == DigitText(v, 8, f.small) && d != "" && f.special && zeros == C99Zeros(|d|, precision, true, v == 0)
    requires if v == 0 then d == "0" else d[0] != '0'
    ensures C99Body(v, 8, f, precision) == Fill('0', zeros) + d
  {
    var t := C99Digits(v, 8, f.small, precision);
    if v == 0 && precision == 0 {
      assert "0" + t == Fill('0', 0) + d;
    } else if precision > |d| || v == 0 {
      FillRoom('0', precision - |d|, zeros);
    } else {
      FillRoom('0', precision - |d|, 0);
      assert t == d;
      assert "0" + d == Fill('0', 1) + d;
    }
  }

  lemma {:induction false} BodyRow(head: string, zeros: nat, d: string, body: string, width: int, zero: bool, left: bool, s: Shape)
    requires body == Fill('0', zeros) + d && s == Spread(width, |head| + |d|, zeros, zero, left)
    ensures Row(s, head, d) == Placed(head, body, width, zero, left)
  {
    var room := width - |head| - |body|;
    var y := Fill('0', zeros);
    if left {
      FillRoom(' ', room, s.r);
      Regroup("", head, "", "", y, d, Fill(' ', room));
    } else if zero {
      FillRoom('0', room, s.z - zeros);
      assert Fill('0', s.z - zeros) + y == Fill('0', s.z);
    } else {
      FillRoom(' ', room, s.l);
    }
  }

  lemma {:induction false} C99Row(num: nat, base: nat, f: Flags, width: int, precision: int, d: string, head: string, s: Shape)
    requires num < U64 && IsBase(base) && d == DigitText(Magnitude(num, f.sign), base, f.small) && d != ""
    requires !(Magnitude(num, f.sign) == 0 && precision == 0 && !(f.special && base == 8))
    requires head == NumberSign(num, f) + C99Prefix(Magnitude(num, f.sign), base, f)
    requires s == Spread(width, |head| + |d|, C99Zeros(|d|, precision, f.special && base == 8, Magnitude(num, f.sign) == 0), f.zeropad && precision < 0, f.left)
    ensures C99Text(num, base, f, width, precision) == Row(s, head, d)
  {
    var v := Magnitude(num, f.sign);
    var zeros := C99Zeros(|d|, precision, f.special && base == 8, v == 0);
    C99BodyZeros(v, base, f, precision, d, zeros);
    var body := C99Body(v, base, f, precision);
    BodyRow(head, zeros, d, body, width, f.zeropad && precision < 0, f.left, s);
    C99Field(num, base, f, width, precision, head, body);
  }

  lemma C99Field(num: nat, base: nat, f: Flags, width: int, precision: int, head: string, body: string)
    requires num < U64 && IsBase(base) && head == NumberSign(num, f) + C99Prefix(Magnitude(num, f.sign), base, f)
    requires body == C99Body(Magnitude(num, f.sign), base, f, precision)
    ensures C99Text(num, base, f, width, precision) == Placed(head, body, width, f.zeropad && precision < 0, f.left)
  {
  }

  /** The shapes of number and of the standard around the same head. */
  lemma C99Shapes(width: int, precision: int, n: nat, octal: bool, isZero: bool, head: nat, zero: bool, left: bool, a: Shape, b: Shape)
    requires n >= 1 && (isZero ==> n == 1)
    requires a == NumberShape(width, precision, n, octal, head, zero, left)
    requires b == Spread(width, head + n, C99Zeros(n, precision, octal, isZero), zero && precision < 0, left)
    ensures a == b <==>
      if octal && isZero then zero && !left && precision < 0 && width > head + 1
      else if octal && precision > n then false
      else !(zero && !left && precision >= 0 && width > head + (if octal then 1 else 0) + Max(precision, n))
  {
  }

  lemma {:induction false} C99Iff(num: nat, base: nat, f: Flags, width: int, precision: int)
    requires num < U64 && IsBase(base)
    ensures NumberText(num, base, f, width, precision) == C99Text(num, base, f, width, precision) <==> C99Agrees(num, base, f, width, precision)
  {
    var v := Magnitude(num, f.sign);
    if f.special && base == 16 && v == 0 {
      HexZero(num, f, width, precision);
    } else if v == 0 && precision == 0 && !(f.special && base == 8) {
      NoDigits(num, base, f, width);
    } else {
      var head, d := NumberSign(num, f) + C99Prefix(v, base, f), DigitText(v, base, f.small);
      C99Rows(num, base, f, width, precision, d, head);
    }
  }

  lemma {:induction false} C99Rows(num: nat, base: nat, f: Flags, width: int, precision: int, d: string, head: string)
    requires num < U64 && IsBase(base) && d == DigitText(Magnitude(num, f.sign), base, f.small)
    requires head == NumberSign(num, f) + C99Prefix(Magnitude(num, f.sign), base, f)
    requires Magnitude(num, f.sign) == 0 ==> !(f.special && base == 16) && (precision != 0 || (f.special && base == 8))
    ensures NumberText(num, base, f, width, precision) == C99Text(num, base, f, width, precision) <==> C99Agrees(num, base, f, width, precision)
  {
    var v, octal := Magnitude(num, f.sign), f.special && base == 8;
    DigitsSolid(v, base, f.small);
    LeadingDigit(v, base, f.small);
    HeadOk(num, base, f, v);
    var a := NumberShape(width, precision, |d|, octal, |head|, f.zeropad, f.left);
    var b := Spread(width, |head| + |d|, C99Zeros(|d|, precision, octal, v == 0), f.zeropad && precision < 0, f.left);
    AnyRow(num, base, f, width, precision, d, head, a);
    C99Row(num, base, f, width, precision, d, head, b);
    RowsIff(num, base, f, width, precision, d, head, a, b, NumberText(num, base, f, width, precision), C99Text(num, base, f, width, precision));
  }

  lemma {:induction false} AnyRow(num: nat, base: nat, f: Flags, width: int, precision: int, d: string, head: string, s: Shape)
    requires num < U64 && IsBase(base) && d == DigitText(Magnitude(num, f.sign), base, f.small)
    requires f.special && base == 16 ==> Magnitude(num, f.sign) != 0
    requires head == NumberSign(num, f) + C99Prefix(Magnitude(num, f.sign), base, f)
    requires s == NumberShape(width, precision, |d|, f.special && base == 8, |head|, f.zeropad, f.left)
    ensures NumberText(num, base, f, width, precision) == Row(s, head, d)
  {
    if f.special && base == 16 {
      NumberHexRow(num, base, f, width, precision, d, head, s);
    } else {
      assert head == NumberSign(num, f);
      NumberRow(num, base, f, width, precision, d, head, s);
    }
  }

  lemma HeadOk(num: nat, base: nat, f: Flags, v: nat)
    ensures IsHead(NumberSign(num, f) + C99Prefix(v, base, f))
  {
  }

  lemma {:induction false} RowsIff(num: nat, base: nat, f: Flags, width: int, precision: int, d: string, head: string, a: Shape, b: Shape, t: string, u: string)
    requires num < U64 && IsBase(base) && d == DigitText(Magnitude(num, f.sign), base, f.small) && Solid(d) && IsHead(head)
    requires Magnitude(num, f.sign) == 0 ==> |d| == 1 && !(f.special && base == 16) && (precision != 0 || (f.special && base == 8))
    requires |head| == |NumberSign(num, f)| + |C99Prefix(Magnitude(num, f.sign), base, f)|
    requires a == NumberShape(width, precision, |d|, f.special && base == 8, |head|, f.zeropad, f.left)
    requires b == Spread(width, |head| + |d|, C99Zeros(|d|, precision, f.special && base == 8, Magnitude(num, f.sign) == 0), f.zeropad && precision < 0, f.left)
    requires t == Row(a, head, d) && u == Row(b, head, d)
    ensures t == u <==> C99Agrees(num, base, f, width, precision)
  {
    RowUnique(a, b, head, d, t, u);
    ConditionIff(num, base, f, width, precision, d, |head|, a, b);
  }

  lemma {:induction false} ConditionIff(num: nat, base: nat, f: Flags, width: int, precision: int, d: string, head: nat, a: Shape, b: Shape)
    requires num < U64 && IsBase(base) && d == DigitText(Magnitude(num, f.sign), base, f.small) && d != ""
    requires Magnitude(num, f.sign) == 0 ==> |d| == 1 && !(f.special && base == 16) && (precision != 0 || (f.special && base == 8))
    requires head == |NumberSign(num, f)| + |C99Prefix(Magnitude(num, f.sign), base, f)|
    requires a == NumberShape(width, precision, |d|, f.special && base == 8, head, f.zeropad, f.left)
    requires b == Spread(width, head + |d|, C99Zeros(|d|, precision, f.special && base == 8, Magnitude(num, f.sign) == 0), f.zeropad && precision < 0, f.left)
    ensures a == b <==> C99Agrees(num, base, f, width, precision)
  {
    C99Shapes(width, precision, |d|, f.special && base == 8, Magnitude(num, f.sign) == 0, head, f.zeropad, f.left, a, b);
  }

  /** The x of hexadecimal zero. */
  lemma {:induction false} HexZero(num: nat, f: Flags, width: int, precision: int)
    requires num < U64 && Magnitude(num, f.sign) == 0 && f.special
    ensures NumberText(num, 16, f, width, precision) != C99Text(num, 16, f, width, precision)
  {
    var d, q := DigitText(0, 16, f.small), NumberPrefix(16, f);
    var head, x := NumberSign(num, f) + q, q[1];
    LeadingDigit(0, 16, f.small);
    var s := Spread(width, |head| + |d|, Max(precision, |d|) - |d|, f.zeropad, f.left);
    NumberHexRow(num, 16, f, width, precision, d, head, s);
    assert head[|head| - 1] == x;
    RowHas(s, head, d, x);
    C99Plain(num, 16, f, width, precision, x);
  }

  lemma {:induction false} C99Plain(num: nat, base: nat, f: Flags, width: int, precision: int, c: char)
    requires num < U64 && IsBase(base) && Magnitude(num, f.sign) == 0
    requires c != ' ' && c != '+' && c != '-' && c != '0'
    ensures c !in C99Text(num, base, f, width, precision)
  {
    LeadingDigit(0, base, f.small);
    var head, body := NumberSign(num, f) + C99Prefix(0, base, f), C99Body(0, base, f, precision);
    C99Field(num, base, f, width, precision, head, body);
    PlacedLacks(head, body, width, f.zeropad && precision < 0, f.left, c);
  }

  lemma PlacedLacks(head: string, body: string, width: int, zero: bool, left: bool, c: char)
    requires c != ' ' && (zero ==> c != '0') && c !in head && c !in body
    ensures c !in Placed(head, body, width, zero, left)
  {
  }

  /** The digit of zero with precision 0. */
  lemma {:induction false} NoDigits(num: nat, base: nat, f: Flags, width: int)
    requires num < U64 && IsBase(base) && Magnitude(num, f.sign) == 0 && !(f.special && base != 10)
    ensures NumberText(num, base, f, width, 0) != C99Text(num, base, f, width, 0)
  {
    var d, sign := DigitText(0, base, f.small), NumberSign(num, f);
    LeadingDigit(0, base, f.small);
    var s := NumberShape(width, 0, |d|, false, |sign|, f.zeropad, f.left);
    NumberRow(num, base, f, width, 0, d, sign, s);
    var t := NumberText(num, base, f, width, 0);
    RowChars(s, sign, d, t);
    assert t[s.l + |sign| + s.z + 0] == '0';
    C99Empty(num, base, f, width);
  }

  lemma {:induction false} C99Empty(num: nat, base: nat, f: Flags, width: int)
    requires num < U64 && IsBase(base) && Magnitude(num, f.sign) == 0 && !(f.special && base != 10)
    ensures '0' !in C99Text(num, base, f, width, 0)
  {
    var head := NumberSign(num, f) + "";
    assert C99Body(0, base, f, 0) == "" && C99Prefix(0, base, f) == "";
    C99Field(num, base, f, width, 0, head, "");
    PlacedLacks(head, "", width, false, f.left, '0');
  }

  // ---- what number prints where it does not agree ----

  /** The flag '0' makes a precision of what the width leaves, whatever the precision is. */
  lemma {:induction false} ZeroPadIs(num: nat, base: nat, f: Flags, width: int, precision: int, p: int)
    requires num < U64 && IsBase(base) && f.zeropad && !f.left
    requires p == Max(precision, width - |NumberSign(num, f)| - |NumberPrefix(base, f)|)
    ensures NumberText(num, base, f, width, precision) == NumberText(num, base, f.(zeropad := false), -1, p)
  {
    var d, sign, q := DigitText(Magnitude(num, f.sign), base, f.small), NumberSign(num, f), NumberPrefix(base, f);
    if f.special && base == 16 {
      ZeroPadHex(num, base, f, f.(zeropad := false), width, precision, p, d, sign + q,
                 Spread(width, |sign + q| + |d|, Max(precision, |d|) - |d|, true, false));
    } else {
      ZeroPadPlain(num, base, f, f.(zeropad := false), width, precision, p, d, sign,
                   NumberShape(width, precision, |d|, f.special && base == 8, |sign|, true, false));
    }
  }

  lemma {:induction false} ZeroPadHex(num: nat, base: nat, f: Flags, g: Flags, width: int, precision: int, p: int, d: string, head: string, s: Shape)
    requires num < U64 && base == 16 && f.special && f.zeropad && !f.left && g == f.(zeropad := false)
    requires d == DigitText(Magnitude(num, f.sign), base, f.small) && head == NumberSign(num, f) + NumberPrefix(base, f)
    requires p == Max(precision, width - |head|) && s == Spread(width, |head| + |d|, Max(precision, |d|) - |d|, true, false)
    ensures NumberText(num, base, f, width, precision) == NumberText(num, base, g, -1, p)
  {
    NumberHexRow(num, base, f, width, precision, d, head, s);
    NumberHexRow(num, base, g, -1, p, d, head, s);
  }

  lemma {:induction false} ZeroPadPlain(num: nat, base: nat, f: Flags, g: Flags, width: int, precision: int, p: int, d: string, sign: string, s: Shape)
    requires num < U64 && IsBase(base) && (f.special ==> base != 16) && f.zeropad && !f.left && g == f.(zeropad := false)
    requires d == DigitText(Magnitude(num, f.sign), base, f.small) && sign == NumberSign(num, f)
    requires p == Max(precision, width - |sign| - |NumberPrefix(base, f)|)
    requires s == NumberShape(width, precision, |d|, f.special && base == 8, |sign|, true, false)
    ensures NumberText(num, base, f, width, precision) == NumberText(num, base, g, -1, p)
  {
    NumberRow(num, base, f, width, precision, d, sign, s);
    NumberRow(num, base, g, -1, p, d, sign, s);
  }

  /** In octal '#' is one digit more than there would be without it. */
  lemma {:induction false} OctalIs(num: nat, f: Flags, width: int, precision: int, p: int)
    requires num < U64 && f.special && p == Max(precision, |DigitText(Magnitude(num, f.sign), 8, f.small)|) + 1
    ensures NumberText(num, 8, f, width, precision) == NumberText(num, 8, f.(special := false), width, p)
  {
    var d, sign := DigitText(Magnitude(num, f.sign), 8, f.small), NumberSign(num, f);
    var s := NumberShape(width, precision, |d|, true, |sign|, f.zeropad, f.left);
    NumberRow(num, 8, f, width, precision, d, sign, s);
    NumberRow(num, 8, f.(special := false), width, p, d, sign, s);
  }

  /** Hexadecimal zero has a prefix with '#' like any other number. */
  lemma {:induction false} HexZeroIs(f: Flags, width: int, precision: int)
    requires f.special && !f.zeropad
    ensures NumberText(0, 16, f, width, precision) ==
      Placed(C99Sign(0, f) + (if f.small then "0x" else "0X"), Fill('0', Max(precision, 1)), width, false, f.left)
  {
    var d, head := DigitText(0, 16, f.small), NumberSign(0, f) + NumberPrefix(16, f);
    LeadingDigit(0, 16, f.small);
    var zeros := Max(precision, 1) - 1;
    var s := Spread(width, |head| + |d|, zeros, false, f.left);
    NumberHexRow(0, 16, f, width, precision, d, head, s);
    assert Fill('0', Max(precision, 1)) == Fill('0', zeros) + d;
    BodyRow(head, zeros, d, Fill('0', Max(precision, 1)), width, false, f.left, s);
  }

  // ---- inputs at which they differ ----

  const NONE := Flags(false, false, false, false, false, false, false)

  /** Hexadecimal zero with '#', zero with precision 0, five in a field of five zeros with three digits, octal zero
      with '#', and octal one with '#' and three digits. */
  lemma C99Differs()
    ensures NumberText(0, 16, NONE.(special := true, small := true), -1, -1) != C99Text(0, 16, NONE.(special := true, small := true), -1, -1)
    ensures NumberText(0, 10, NONE.(sign := true), -1, 0) != C99Text(0, 10, NONE.(sign := true), -1, 0)
    ensures NumberText(5, 10, NONE.(sign := true, zeropad := true), 5, 3) != C99Text(5, 10, NONE.(sign := true, zeropad := true), 5, 3)
    ensures NumberText(0, 8, NONE.(special := true), -1, -1) != C99Text(0, 8, NONE.(special := true), -1, -1)
    ensures NumberText(1, 8, NONE.(special := true), -1, 3) != C99Text(1, 8, NONE.(special := true), -1, 3)
  {
    C99Iff(0, 16, NONE.(special := true, small := true), -1, -1);
    C99Iff(0, 10, NONE.(sign := true), -1, 0);
    C99Iff(5, 10, NONE.(sign := true, zeropad := true), 5, 3);
    C99Iff(0, 8, NONE.(special := true), -1, -1);
    C99Iff(1, 8, NONE.(special := true), -1, 3);
    assert DigitsOf(5, 10) == [5] && DigitsOf(1, 8) == [1];
  }

  /** Zero in hexadecimal and octal with '#', one in octal with '#' and two digits, one unsigned with plus and with a blank. */
  lemma FormattersDiffer()
    ensures LongText(0, 16, NONE.(special := true), -1, -1) != NumberText(0, 16, NONE.(special := true), -1, -1)
    ensures LongText(0, 8, NONE.(special := true), -1, -1) != NumberText(0, 8, NONE.(special := true), -1, -1)
    ensures LongText(1, 8, NONE.(special := true), -1, 2) != NumberText(1, 8, NONE.(special := true), -1, 2)
    ensures LongText(1, 10, NONE.(plus := true), -1, -1) != NumberText(1, 10, NONE.(plus := true), -1, -1)
    ensures LongText(1, 10, NONE.(space := true), -1, -1) != NumberText(1, 10, NONE.(space := true), -1, -1)
  {
    FormattersIff(0, 16, NONE.(special := true), -1, -1);
    FormattersIff(0, 8, NONE.(special := true), -1, -1);
    FormattersIff(1, 8, NONE.(special := true), -1, 2);
    FormattersIff(1, 10, NONE.(plus := true), -1, -1);
    FormattersIff(1, 10, NONE.(space := true), -1, -1);
    assert DigitsOf(1, 8) == [1];
  }
}
