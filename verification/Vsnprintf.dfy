/** vsnprintf: the text of a format, and the printer that cuts it to a buffer. */
module Vsnprintf {
  import opened Bytes
  import opened Layout
  import opened PutDec
  import opened Printer
  import opened Strtoull
  import opened Format
  import opened RoundTrip

  /** What va_arg yields: integers of any type, pointers as their address, and strings. */
  datatype Arg = IntArg(v: int) | StrArg(s: string)

  function NextInt(args: seq<Arg>): int {
    if args != [] && args[0].IntArg? then args[0].v else 0
  }

  function NextStr(args: seq<Arg>): string {
    if args != [] && args[0].StrArg? then args[0].s else ""
  }

  function Rest(args: seq<Arg>): seq<Arg> { if args == [] then [] else args[1..] }

  // ---- arguments of the integer conversions ----

  function Unsigned(v: int, modulus: nat): nat
    requires 0 < modulus
  {
    v % modulus
  }

  /** The signed reading of v in a type with that many values, widened to unsigned long long. */
  function Widened(v: int, modulus: nat): (r: nat)
    requires 2 <= modulus <= U64
    ensures r < U64
  {
    var m := v % modulus;
    if m < modulus / 2 then m else m - modulus + U64
  }

  /** The argument of each integer kind, converted to unsigned long long. */
  function NumArg(kind: Kind, v: int): (num: nat)
    ensures num < U64
  {
    match kind
    case LongLong => Unsigned(v, U64)
    case ULongLong => Unsigned(v, U64)
    case ULong => Unsigned(v, U32)
    case Long => Widened(v, U32)
    case SizeT => Unsigned(v, U32)
    case PtrDiff => Widened(v, U32)
    case UByte => Unsigned(v, 0x100)
    case Byte => Widened(v, 0x100)
    case UShort => Unsigned(v, 0x10000)
    case Short => Widened(v, 0x10000)
    case Int => Widened(v, U32)
    case _ => Unsigned(v, U32)
  }

  predicate IsNumber(kind: Kind) {
    match kind
    case Plain => false
    case WidthArg => false
    case PrecisionArg => false
    case CharKind => false
    case StrKind => false
    case PtrKind => false
    case Percent => false
    case Invalid => false
    case NrChars => false
    case _ => true
  }

  // ---- the text of one step ----

  /** string(): s cut to the precision and padded to the width. */
  function StringText(s: string, spec: Spec): string {
    var len := if 0 <= spec.precision as int < |s| then spec.precision as int else |s|;
    var room := spec.width as int - len;
    if spec.flags.left then s[..len] + Fill(' ', room) else Fill(' ', room) + s[..len]
  }

  /** It is the precision's worth of s, at one end of a field that is as wide as asked for or as it. */
  lemma {:induction false} StringShape(s: string, spec: Spec, t: string)
    requires t == StringText(s, spec)
    ensures var n := if 0 <= spec.precision as int < |s| then spec.precision as int else |s|;
      && |t| == Max(spec.width as int, n)
      && (if spec.flags.left then t[..n] else t[|t| - n..]) == s[..n]
      && forall k :: 0 <= k < |t| && (if spec.flags.left then n <= k else k < |t| - n) ==> t[k] == ' '
  {
    var n := if 0 <= spec.precision as int < |s| then spec.precision as int else |s|;
    if spec.flags.left {
      assert t[..n] == s[..n];
    } else {
      assert t[|t| - n..] == s[..n];
    }
  }

  function CharText(v: int, spec: Spec): string {
    var c := (v % 0x100) as char;
    var room := spec.width as int - 1;
    if spec.flags.left then [c] + Fill(' ', room) else Fill(' ', room) + [c]
  }

  /** pointer() for a plain %p. */
  function PointerSpec(spec: Spec): Spec {
    var s := spec.(flags := spec.flags.(small := true), base := 16);
    if s.width == -1 then s.(width := 8, flags := s.flags.(zeropad := true)) else s
  }

  function PointerText(v: int, spec: Spec): string {
    var ptr := v % U32;
    if ptr == 0 then StringText("(null)", spec)
    else
      var s := PointerSpec(spec);
      NumberText(ptr, 16, s.flags, s.width as int, s.precision as int)
  }

  predicate IsAlnum(c: char) { IsDigit(c) || 'a' <= c <= 'z' || 'A' <= c <= 'Z' }

  function SkipAlnum(fmt: string, i: nat): (j: nat)
    requires i <= |fmt|
    ensures i <= j <= |fmt|
    ensures i < |fmt| && IsAlnum(fmt[i]) ==> i < j
    decreases |fmt| - i
  {
    if IsAlnum(At(fmt, i)) then SkipAlnum(fmt, i + 1) else i
  }

  /** The text of one conversion. */
  function ConvertText(s: Spec, args: seq<Arg>): string {
    var v := NextInt(args);
    match s.kind
    case Plain => ""
    case WidthArg => ""
    case PrecisionArg => ""
    case NrChars => ""
    case CharKind => CharText(v, s)
    case StrKind => StringText(NextStr(args), s)
    case PtrKind => PointerText(v, s)
    case Percent => "%"
    case Invalid => "%"
    case _ =>
      if IsBase(s.base) then NumberText(NumArg(s.kind, v), s.base, s.flags, s.width as int, s.precision as int) else ""
  }

  /** The arguments behind it. */
  function ConvertRest(s: Spec, args: seq<Arg>): seq<Arg> {
    if s.kind.Plain? || s.kind.Percent? || s.kind.Invalid? then args else Rest(args)
  }

  /** What one turn of the main loop adds to the text, and the state it leaves. */
  datatype Turn = Turn(text: string, pos: nat, spec: Spec, args: seq<Arg>)

  /** The turn at i for which s has been decoded up to j. */
  function TurnFrom(fmt: string, i: nat, s: Spec, j: nat, args: seq<Arg>): (t: Turn)
    requires i <= j <= |fmt|
    ensures j <= t.pos <= |fmt|
  {
    if s.kind.Plain? then Turn(fmt[i..j], j, s, args)
    else if s.kind.WidthArg? then Turn("", j, s.(width := ToShort(NextInt(args))), Rest(args))
    else if s.kind.PrecisionArg? then Turn("", j, s.(precision := ToShort(NextInt(args))), Rest(args))
    else Turn(ConvertText(s, args), if s.kind.PtrKind? then SkipAlnum(fmt, j) else j, s, ConvertRest(s, args))
  }

  function TurnOf(fmt: string, i: nat, spec: Spec, args: seq<Arg>): (t: Turn)
    requires i <= |fmt|
    ensures t.pos <= |fmt|
    ensures At(fmt, i) != NUL ==> Left(fmt, t.pos, t.spec) < Left(fmt, i, spec)
  {
    var (s, j) := Decode(fmt, i, spec);
    TurnFrom(fmt, i, s, j, args)
  }

  /** What is left to do: the rest of the format, and one more call while something is pending. */
  function Left(fmt: string, i: nat, spec: Spec): nat
    requires i <= |fmt|
  {
    2 * (|fmt| - i) + (if Pending(spec) then 1 else 0)
  }

  /** The whole text of a format from position i on, as if the buffer had no end. */
  function Rendered(fmt: string, i: nat, spec: Spec, args: seq<Arg>): string
    requires i <= |fmt|
    decreases Left(fmt, i, spec)
  {
    if At(fmt, i) == NUL then ""
    else
      var t := TurnOf(fmt, i, spec, args);
      t.text + Rendered(fmt, t.pos, t.spec, t.args)
  }

  /** The letters behind %p that ask for one of the kernel's extensions. */
  predicate IsExtension(c: char) {
    c in ['F', 'f', 'S', 's', 'R', 'r', 'M', 'm', 'I', 'i', 'U']
  }

  /** A conversion whose short arithmetic cannot wrap and whose argument can be negated. */
  predicate Fine(s: Spec, num: nat) {
    && -1 <= s.width && -1 <= s.precision && s.precision as int <= MAXPRECISION
    && (s.flags.sign ==> num != U64 / 2)
  }

  /** This turn is one of the supported conversions. */
  predicate TurnFine(fmt: string, i: nat, spec: Spec, args: seq<Arg>)
    requires i <= |fmt|
  {
    var (s, j) := Decode(fmt, i, spec);
    match s.kind
    case Plain => true
    case WidthArg => true
    case PrecisionArg => true
    case CharKind => -1 <= s.width
    case StrKind => -1 <= s.width
    case PtrKind => Fine(s, NextInt(args) % U32) && !IsExtension(At(fmt, j + 1))
    case Percent => true
    case Invalid => true
    case NrChars => false
    case _ => Fine(s, NumArg(s.kind, NextInt(args)))
  }

  /** Every turn of the format is supported. */
  predicate Supported(fmt: string, i: nat, spec: Spec, args: seq<Arg>)
    requires i <= |fmt|
    decreases Left(fmt, i, spec)
  {
    At(fmt, i) == NUL ||
    (TurnFine(fmt, i, spec, args) &&
     var t := TurnOf(fmt, i, spec, args);
     Supported(fmt, t.pos, t.spec, t.args))
  }

  /** The conversions of numbers always know their base. */
  lemma NumberBase(fmt: string, i: nat, spec: Spec)
    requires i <= |fmt|
    ensures IsNumber(Decode(fmt, i, spec).0.kind) ==> IsBase(Decode(fmt, i, spec).0.base)
  {
  }

  // ---- the printer ----

  /** Buffer b after a text t has been printed into its first size cells. */
  function Printed(b: seq<char>, size: nat, t: string): seq<char>
    requires size <= |b|
  {
    if size == 0 then b
    else
      var k := if |t| < size then |t| else size - 1;
      t[..k] + [NUL] + b[k + 1..]
  }

  /** As much of the text as there is room for in front of a terminator, and the terminator; nothing behind it changes. */
  lemma PrintedCells(b: seq<char>, size: nat, t: string)
    requires size <= |b|
    ensures |Printed(b, size, t)| == |b|
    ensures size == 0 ==> Printed(b, size, t) == b
    ensures size > 0 ==>
      var k, r := if |t| <= size - 1 then |t| else size - 1, Printed(b, size, t);
      r[..k] == t[..k] && r[k] == NUL && r[k + 1..] == b[k + 1..]
  {
  }

  /** memcpy of a piece of the format, cut at the end of the buffer. */
  method CopyText(o: Out, s: string)
    requires o.Valid()
    modifies o`str, o`text, o.buf
    ensures o.Valid() && o.text == old(o.text) + s
  {
    var copy := |s|;
    if o.str < o.end {
      if copy > o.end - o.str {
        copy := o.end - o.str;
      }
      CopyCells(o, s, copy);
    }
    o.str := o.str + |s|;
    o.text := o.text + s;
  }

  method CopyCells(o: Out, s: string, copy: nat)
    requires o.Valid() && o.str < o.end && copy == (if |s| < o.end - o.str then |s| else o.end - o.str)
    modifies o.buf
    ensures o.buf[..] == Shown(o.before, o.end, o.text + s)
  {
    ghost var b := o.buf[..];
    forall k | 0 <= k < copy {
      o.buf[o.str + k] := s[k];
    }
    ghost var c := Shown(o.before, o.end, o.text + s);
    forall k | 0 <= k < |b| ensures o.buf[k] == c[k] {
      if k < o.str {
        assert o.buf[k] == b[k] == o.text[k];
      } else if k < o.str + copy {
        assert o.buf[k] == s[k - o.str];
      } else {
        assert o.buf[k] == b[k] == o.before[k];
      }
    }
  }

  /** string(): the loops over the width leave it one below what they compare. */
  method PrintString(o: Out, s: string, spec: Spec)
    requires o.Valid() && -1 <= spec.width
    modifies o`str, o`text, o.buf
    ensures o.Valid() && o.text == old(o.text) + StringText(s, spec)
  {
    var len := |s|;
    if 0 <= spec.precision && (spec.precision as int) < len {
      len := spec.precision as int;
    }
    ghost var t := o.text;
    if !spec.flags.left {
      PadField(o, spec.width as int - len);
    }
    o.EmitAll(s[..len]);
    if spec.flags.left {
      PadField(o, spec.width as int - len);
    }
    assert t + Fill(' ', spec.width as int - len) + s[..len] == t + (Fill(' ', spec.width as int - len) + s[..len]);
    assert t + s[..len] + Fill(' ', spec.width as int - len) == t + (s[..len] + Fill(' ', spec.width as int - len));
  }

  /** Blanks, one for every unit of width that is left. */
  method PadField(o: Out, n: int)
    requires o.Valid()
    modifies o`str, o`text, o.buf
    ensures o.Valid() && o.text == old(o.text) + Fill(' ', n)
  {
    var i := n;
    ghost var done: nat := 0;
    assert old(o.text) + Fill(' ', 0) == old(o.text);
    while i > 0
      invariant o.Valid() && (n > 0 ==> 0 <= i && done + i == n) && (n <= 0 ==> done == 0)
      invariant o.text == old(o.text) + Fill(' ', done)
    {
      assert Fill(' ', done + 1) == Fill(' ', done) + [' '];
      o.Emit(' ');
      i := i - 1;
      done := done + 1;
    }
    assert n <= 0 ==> Fill(' ', n) == Fill(' ', 0);
  }

  method PrintChar(o: Out, v: int, spec: Spec)
    requires o.Valid() && -1 <= spec.width
    modifies o`str, o`text, o.buf
    ensures o.Valid() && o.text == old(o.text) + CharText(v, spec)
  {
    ghost var t, c := o.text, (v % 0x100) as char;
    if !spec.flags.left {
      PadField(o, spec.width as int - 1);
    }
    o.Emit((v % 0x100) as char);
    if spec.flags.left {
      PadField(o, spec.width as int - 1);
    }
    assert t + Fill(' ', spec.width as int - 1) + [c] == t + (Fill(' ', spec.width as int - 1) + [c]);
    assert t + [c] + Fill(' ', spec.width as int - 1) == t + ([c] + Fill(' ', spec.width as int - 1));
  }

  method PrintPointer(o: Out, v: int, spec: Spec)
    requires o.Valid() && Fine(spec, v % U32)
    modifies o`str, o`text, o.buf
    ensures o.Valid() && o.text == old(o.text) + PointerText(v, spec)
  {
    var ptr := v % U32;
    if ptr == 0 {
      PrintString(o, "(null)", spec);
      return;
    }
    var s := spec.(flags := spec.flags.(small := true));
    if s.width == -1 {
      s := s.(width := 8, flags := s.flags.(zeropad := true));
    }
    s := s.(base := 16);
    o.Number(ptr, 16, s.flags, s.width, s.precision);
  }

  /** One turn of the main loop. */
  method PrintTurn(o: Out, fmt: string, i: nat, spec: Spec, args: seq<Arg>) returns (pos: nat, s: Spec, rest: seq<Arg>)
    requires o.Valid() && i <= |fmt| && TurnFine(fmt, i, spec, args)
    modifies o`str, o`text, o.buf
    ensures o.Valid()
    ensures var t := TurnOf(fmt, i, spec, args);
      o.text == old(o.text) + t.text && pos == t.pos && s == t.spec && rest == t.args
  {
    s, pos := FormatDecode(fmt, i, spec);
    rest := args;
    NumberBase(fmt, i, spec);
    match s.kind {
      case Plain =>
        CopyText(o, fmt[i..pos]);
      case WidthArg =>
        s, rest := s.(width := ToShort(NextInt(args))), Rest(args);
      case PrecisionArg =>
        s, rest := s.(precision := ToShort(NextInt(args))), Rest(args);
      case CharKind =>
        PrintChar(o, NextInt(args), s);
        rest := Rest(args);
      case StrKind =>
        PrintString(o, NextStr(args), s);
        rest := Rest(args);
      case PtrKind =>
        PrintPointer(o, NextInt(args), s);
        rest := Rest(args);
        ghost var j := pos;
        while IsAlnum(At(fmt, pos))
          invariant j <= pos <= |fmt| && SkipAlnum(fmt, j) == SkipAlnum(fmt, pos)
          decreases |fmt| - pos
        {
          pos := pos + 1;
        }
      case Percent =>
        o.Emit('%');
      case Invalid =>
        o.Emit('%');
      case NrChars =>
        assert false;
      case _ =>
        o.Number(NumArg(s.kind, NextInt(args)), s.base, s.flags, s.width, s.precision);
        rest := Rest(args);
    }
  }

  /** One turn more of the whole text. */
  lemma RenderedTurn(t: string, fmt: string, i: nat, spec: Spec, args: seq<Arg>, turn: Turn)
    requires i <= |fmt| && At(fmt, i) != NUL && turn == TurnOf(fmt, i, spec, args)
    ensures t + Rendered(fmt, i, spec, args) == t + turn.text + Rendered(fmt, turn.pos, turn.spec, turn.args)
    ensures Left(fmt, turn.pos, turn.spec) < Left(fmt, i, spec)
  {
    var more := Rendered(fmt, turn.pos, turn.spec, turn.args);
    assert t + turn.text + more == t + (turn.text + more);
  }

  /** The main loop. */
  method PrintAll(o: Out, fmt: string, args: seq<Arg>)
    requires o.Valid() && NUL !in fmt && Supported(fmt, 0, INITIAL, args)
    modifies o`str, o`text, o.buf
    ensures o.Valid() && o.text == old(o.text) + Rendered(fmt, 0, INITIAL, args)
  {
    ghost var goal := o.text + Rendered(fmt, 0, INITIAL, args);
    var i: nat, spec, rest := 0, INITIAL, args;
    while At(fmt, i) != NUL
      invariant i <= |fmt| && o.Valid() && Supported(fmt, i, spec, rest)
      invariant o.text + Rendered(fmt, i, spec, rest) == goal
      decreases Left(fmt, i, spec)
    {
      RenderedTurn(o.text, fmt, i, spec, rest, TurnOf(fmt, i, spec, rest));
      i, spec, rest := PrintTurn(o, fmt, i, spec, rest);
    }
    assert o.text + "" == o.text;
  }

  /** vsnprintf: prints the text of fmt into the first size cells of buf and returns its full length. */
  method Print(buf: array<char>, size: nat, fmt: string, args: seq<Arg>) returns (n: nat)
    requires size <= buf.Length && NUL !in fmt && Supported(fmt, 0, INITIAL, args)
    modifies buf
    ensures n == |Rendered(fmt, 0, INITIAL, args)|
    ensures size == 0 ==> buf[..] == old(buf[..])
    ensures size > 0 ==>
      var k := if n <= size - 1 then n else size - 1;
      buf[..k] == Rendered(fmt, 0, INITIAL, args)[..k] && buf[k] == NUL && buf[k + 1..] == old(buf[k + 1..])
  {
    var o := new Out(buf, size);
    PrintAll(o, fmt, args);
    n := o.str;
    assert o.text == "" + Rendered(fmt, 0, INITIAL, args) == Rendered(fmt, 0, INITIAL, args);
    Terminate(buf, size, n, old(buf[..]), Rendered(fmt, 0, INITIAL, args));
    PrintedCells(old(buf[..]), size, Rendered(fmt, 0, INITIAL, args));
    if size > 0 {
      ghost var k := if n <= size - 1 then n else size - 1;
      assert buf[..k] == buf[..][..k] && buf[k] == buf[..][k] && buf[k + 1..] == buf[..][k + 1..];
      assert old(buf[k + 1..]) == old(buf[..])[k + 1..];
    }
  }

  /** The terminator, behind the text or in the last cell. */
  method Terminate(buf: array<char>, size: nat, n: nat, ghost b: seq<char>, ghost t: string)
    requires size <= buf.Length == |b| && n == |t| && buf[..] == Shown(b, size, t)
    modifies buf
    ensures buf[..] == Printed(b, size, t)
  {
    if size > 0 {
      if n < size {
        buf[n] := NUL;
      } else {
        buf[size - 1] := NUL;
      }
    }
  }
  // ---- what the printed text says ----

  /** A format without percent signs prints itself. */
  lemma {:induction false} PlainFormat(fmt: string, args: seq<Arg>)
    requires '%' !in fmt && NUL !in fmt
    ensures Rendered(fmt, 0, INITIAL, args) == fmt
  {
    if fmt != "" {
      var k := TextEnd(fmt, 0);
      assert k == |fmt|;
      assert TurnOf(fmt, 0, INITIAL, args) == Turn(fmt[0..k], k, INITIAL, args);
      assert fmt[0..k] == fmt;
      assert Rendered(fmt, k, INITIAL, args) == "";
    }
  }

  /** The spec of a bare signed decimal conversion with that qualifier. */
  function SignedDecimal(kind: Kind, qualifier: char): Spec {
    Spec(kind, NOFLAGS.(sign := true), 10, qualifier, -1, -1)
  }

  lemma {:induction false} DecodeD(fmt: string)
    requires |fmt| == 2 && fmt[0] == '%' && fmt[1] == 'd'
    ensures Decode(fmt, 0, INITIAL) == (SignedDecimal(Int, NOQUALIFIER), 2)
  {
    assert TextEnd(fmt, 0) == 0;
    assert FlagRun(fmt, 1, NOFLAGS) == (NOFLAGS, 1);
    assert QualifierAt(fmt, 1) == (NOQUALIFIER, 1);
  }

  lemma {:induction false} DecodeLLD(fmt: string)
    requires |fmt| == 4 && fmt[0] == '%' && fmt[1] == 'l' && fmt[2] == 'l' && fmt[3] == 'd'
    ensures Decode(fmt, 0, INITIAL) == (SignedDecimal(LongLong, 'L'), 4)
  {
    assert TextEnd(fmt, 0) == 0;
    assert FlagRun(fmt, 1, NOFLAGS) == (NOFLAGS, 1);
    assert QualifierAt(fmt, 1) == ('L', 3);
  }

  /** A format of one bare signed decimal conversion. */
  lemma {:induction false} OneConversion(fmt: string, s: Spec, args: seq<Arg>, num: nat)
    requires s == SignedDecimal(s.kind, s.qualifier) && IsNumber(s.kind) && Decode(fmt, 0, INITIAL) == (s, |fmt|)
    requires fmt != "" && fmt[0] != NUL && num == NumArg(s.kind, NextInt(args)) && num != U64 / 2
    ensures var t := Rendered(fmt, 0, INITIAL, args); SignedParsed(t, 10) == (ToSigned(num), |t|)
  {
    var t := NumberText(num, 10, s.flags, -1, -1);
    assert TurnOf(fmt, 0, INITIAL, args) == Turn(t, |fmt|, s, Rest(args));
    assert Rendered(fmt, |fmt|, s, Rest(args)) == "";
    assert Rendered(fmt, 0, INITIAL, args) == t + "" == t;
    SignedRoundTrip(num, 10, s.flags, -1, -1);
  }

  lemma WidenedInt(v: int)
    requires -U32 / 2 <= v < U32 / 2
    ensures Widened(v, U32) != U64 / 2 && ToSigned(Widened(v, U32)) == v
  {
  }

  lemma WidenedLong(v: int)
    requires -U64 / 2 < v < U64 / 2
    ensures Unsigned(v, U64) != U64 / 2 && ToSigned(Unsigned(v, U64)) == v
  {
  }

  /** Any int printed with %d is read back by simple_strtoll, up to the terminator. */
  lemma {:induction false} IntReadsBack(fmt: string, v: int)
    requires |fmt| == 2 && fmt[0] == '%' && fmt[1] == 'd'
    requires -U32 / 2 <= v < U32 / 2
    ensures var t := Rendered(fmt, 0, INITIAL, [IntArg(v)]); SignedParsed(t, 10) == (v, |t|)
  {
    DecodeD(fmt);
    WidenedInt(v);
    OneConversion(fmt, SignedDecimal(Int, NOQUALIFIER), [IntArg(v)], Widened(v, U32));
  }

  /** So is any long long printed with %lld, but for the most negative. */
  lemma {:induction false} LongLongReadsBack(fmt: string, v: int)
    requires |fmt| == 4 && fmt[0] == '%' && fmt[1] == 'l' && fmt[2] == 'l' && fmt[3] == 'd'
    requires -U64 / 2 < v < U64 / 2
    ensures var t := Rendered(fmt, 0, INITIAL, [IntArg(v)]); SignedParsed(t, 10) == (v, |t|)
  {
    DecodeLLD(fmt);
    WidenedLong(v);
    OneConversion(fmt, SignedDecimal(LongLong, 'L'), [IntArg(v)], Unsigned(v, U64));
  }
}
