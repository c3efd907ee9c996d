/** Decoding printf formats. A format is its characters without the terminator. */
module Format {
  import opened Layout
  import opened Printer
  import opened Strtoull

  /** enum format_type */
  datatype Kind =
    | Plain | WidthArg | PrecisionArg | CharKind | StrKind | PtrKind | Percent | Invalid
    | LongLong | ULong | Long | UByte | Byte | UShort | Short | UInt | Int | NrChars | SizeT | PtrDiff | ULongLong

  /** struct printf_spec */
  datatype Spec = Spec(kind: Kind, flags: Flags, base: nat, qualifier: char, width: short, precision: short)

  const NOFLAGS := Flags(false, false, false, false, false, false, false)
  const INITIAL := Spec(Plain, NOFLAGS, 0, NUL, 0, 0)
  const NOQUALIFIER: char := 255 as char

  /** Assignment of an int to a short. */
  function ToShort(v: int): short {
    var m := v % 0x10000;
    if m < 0x8000 then m as short else (m - 0x10000) as short
  }

  /** It is v modulo 2^16. */
  lemma ToShortIs(v: int)
    ensures (v - ToShort(v) as int) % 0x10000 == 0
  {
  }

  // ---- the parts of a conversion ----

  /** The text up to the next percent sign or the end. */
  function TextEnd(fmt: string, i: nat): (j: nat)
    requires i <= |fmt|
    ensures i <= j <= |fmt|
    ensures forall k :: i <= k < j ==> fmt[k] != '%'
    ensures j < |fmt| ==> fmt[j] == '%' || fmt[j] == NUL
    decreases |fmt| - i
  {
    if At(fmt, i) == NUL || At(fmt, i) == '%' then i else TextEnd(fmt, i + 1)
  }

  function AddFlag(f: Flags, c: char): Flags {
    if c == '-' then f.(left := true)
    else if c == '+' then f.(plus := true)
    else if c == ' ' then f.(space := true)
    else if c == '#' then f.(special := true)
    else f.(zeropad := true)
  }

  predicate IsFlag(c: char) { c == '-' || c == '+' || c == ' ' || c == '#' || c == '0' }

  function FlagRun(fmt: string, i: nat, f: Flags): (r: (Flags, nat))
    requires i <= |fmt|
    ensures i <= r.1 <= |fmt|
    decreases |fmt| - i
  {
    if IsFlag(At(fmt, i)) then FlagRun(fmt, i + 1, AddFlag(f, At(fmt, i))) else (f, i)
  }

  function Atoi(fmt: string, i: nat, v: int): (r: (int, nat))
    requires i <= |fmt|
    ensures i <= r.1 <= |fmt|
    ensures i < |fmt| && IsDigit(fmt[i]) ==> i < r.1
    decreases |fmt| - i
  {
    if IsDigit(At(fmt, i)) then Atoi(fmt, i + 1, v * 10 + (At(fmt, i) as int - '0' as int)) else (v, i)
  }

  function KindOf(qualifier: char, sign: bool): Kind {
    if qualifier == 'L' then (if sign then LongLong else ULongLong)
    else if qualifier == 'l' then (if sign then Long else ULong)
    else if LowerCode(qualifier) == 'z' as int then SizeT
    else if qualifier == 't' then PtrDiff
    else if qualifier == 'H' then (if sign then Byte else UByte)
    else if qualifier == 'h' then (if sign then Short else UShort)
    else if sign then Int else UInt
  }

  predicate IsQualifier(c: char) {
    c == 'h' || LowerCode(c) == 'l' as int || LowerCode(c) == 'z' as int || c == 't'
  }

  /** The qualifier at i and where it ends; a doubled l or h is one qualifier. */
  function QualifierAt(fmt: string, i: nat): (r: (char, nat))
    requires i <= |fmt|
    ensures i <= r.1 <= |fmt|
  {
    var c := At(fmt, i);
    if !IsQualifier(c) then (NOQUALIFIER, i)
    else if At(fmt, i + 1) != c then (c, i + 1)
    else if c == 'l' then ('L', i + 2)
    else if c == 'h' then ('H', i + 2)
    else (c, i + 1)
  }

  /** The spec once the conversion character c has been seen. */
  function Converted(s: Spec, c: char): (r: Spec)
    ensures !r.kind.Plain? && !Pending(r)
    ensures r.kind.PtrKind? <==> c == 'p'
    ensures !Consumed(c) ==> r.kind.PtrKind? || r.kind.Invalid?
  {
    if c == 'c' then s.(kind := CharKind)
    else if c == 's' then s.(kind := StrKind)
    else if c == 'p' then s.(kind := PtrKind)
    else if c == 'n' then s.(kind := NrChars)
    else if c == '%' then s.(kind := Percent)
    else if c == 'o' || c == 'x' || c == 'X' || c == 'd' || c == 'i' || c == 'u' then
      var f := s.flags.(small := s.flags.small || c == 'x', sign := s.flags.sign || c == 'd' || c == 'i');
      s.(flags := f, base := if c == 'o' then 8 else if c == 'x' || c == 'X' then 16 else 10, kind := KindOf(s.qualifier, f.sign))
    else s.(kind := Invalid)
  }

  /** The conversion characters that are read over; p and unknown ones are left to the caller. */
  predicate Consumed(c: char) {
    c == 'c' || c == 's' || c == 'n' || c == '%' || c == 'o' || c == 'x' || c == 'X' || c == 'd' || c == 'i' || c == 'u'
  }

  /** From the label qualifier on. */
  function DecodeQualifier(fmt: string, i: nat, spec: Spec): (r: (Spec, nat))
    requires i <= |fmt|
    ensures i <= r.1 <= |fmt| && !Pending(r.0) && !r.0.kind.Plain?
    ensures r.1 == i ==> r.0.kind.PtrKind? || r.0.kind.Invalid?
    ensures r.0.kind.PtrKind? ==> At(fmt, r.1) == 'p'
  {
    var (q, j) := QualifierAt(fmt, i);
    var c := At(fmt, j);
    (Converted(spec.(qualifier := q, base := 10), c), if Consumed(c) then j + 1 else j)
  }

  /** From the label precision on. */
  function DecodePrecision(fmt: string, i: nat, spec: Spec): (r: (Spec, nat))
    requires i <= |fmt|
    ensures i <= r.1 <= |fmt| && !r.0.kind.Plain?
    ensures r.1 == i ==> r.0.kind.PtrKind? || r.0.kind.Invalid?
    ensures r.0.kind.PtrKind? ==> At(fmt, r.1) == 'p'
  {
    var s := spec.(precision := -1);
    if At(fmt, i) != '.' then DecodeQualifier(fmt, i, s)
    else if IsDigit(At(fmt, i + 1)) then
      var (v, j) := Atoi(fmt, i + 1, 0);
      var p := ToShort(v);
      DecodeQualifier(fmt, j, s.(precision := if p < 0 then 0 else p))
    else if At(fmt, i + 1) == '*' then (s.(kind := PrecisionArg), i + 2)
    else DecodeQualifier(fmt, i + 1, s)
  }

  /** From the percent sign at i on. */
  function DecodeConversion(fmt: string, i: nat, spec: Spec): (r: (Spec, nat))
    requires i < |fmt|
    ensures i < r.1 <= |fmt| && !r.0.kind.Plain?
    ensures r.0.kind.PtrKind? ==> At(fmt, r.1) == 'p'
  {
    var (f, j) := FlagRun(fmt, i + 1, NOFLAGS);
    var s := spec.(kind := Plain, flags := f, width := -1);
    if IsDigit(At(fmt, j)) then
      var (v, k) := Atoi(fmt, j, 0);
      DecodePrecision(fmt, k, s.(width := ToShort(v)))
    else if At(fmt, j) == '*' then (s.(kind := WidthArg), j + 1)
    else DecodePrecision(fmt, j, s)
  }

  /** A width or precision is still to be taken from the arguments. */
  predicate Pending(spec: Spec) { spec.kind.WidthArg? || spec.kind.PrecisionArg? }

  /** One call of format_decode at position i: the new spec and where reading goes on.
      It stands still only when it resumes after an asterisk, and then nothing stays pending. */
  function Decode(fmt: string, i: nat, spec: Spec): (r: (Spec, nat))
    requires i <= |fmt|
    ensures i <= r.1 <= |fmt|
    ensures r.1 == i && At(fmt, i) != NUL ==> Pending(spec) && (r.0.kind.PtrKind? || r.0.kind.Invalid?)
    ensures r.0.kind.PtrKind? ==> At(fmt, r.1) == 'p'
    ensures r.0.kind.Plain? ==> !Pending(spec) && r.1 == TextEnd(fmt, i)
  {
    if spec.kind.WidthArg? then
      var s := if spec.width < 0 then spec.(width := ToShort(-(spec.width as int)), flags := spec.flags.(left := true)) else spec;
      DecodePrecision(fmt, i, s.(kind := Plain))
    else if spec.kind.PrecisionArg? then
      DecodeQualifier(fmt, i, spec.(kind := Plain, precision := if spec.precision < 0 then 0 else spec.precision))
    else
      var k := TextEnd(fmt, i);
      if k != i || At(fmt, i) == NUL then (spec.(kind := Plain), k)
      else DecodeConversion(fmt, i, spec)
  }

  // ---- the decoder itself ----

  method SkipAtoi(fmt: string, i: nat) returns (v: int, j: nat)
    requires i <= |fmt|
    ensures (v, j) == Atoi(fmt, i, 0)
  {
    v, j := 0, i;
    while IsDigit(At(fmt, j))
      invariant i <= j <= |fmt| && Atoi(fmt, i, 0) == Atoi(fmt, j, v)
      decreases |fmt| - j
    {
      v := v * 10 + (At(fmt, j) as int - '0' as int);
      j := j + 1;
    }
  }

  method FormatDecode(fmt: string, i: nat, spec: Spec) returns (s: Spec, j: nat)
    requires i <= |fmt|
    ensures (s, j) == Decode(fmt, i, spec)
  {
    s, j := spec, i;
    if s.kind.WidthArg? {
      if s.width < 0 {
        s := s.(width := ToShort(-(s.width as int)), flags := s.flags.(left := true));
      }
      s, j := ReadPrecision(fmt, j, s.(kind := Plain));
      return;
    }
    if s.kind.PrecisionArg? {
      if s.precision < 0 {
        s := s.(precision := 0);
      }
      s, j := ReadQualifier(fmt, j, s.(kind := Plain));
      return;
    }
    s := s.(kind := Plain);
    while At(fmt, j) != NUL && At(fmt, j) != '%'
      invariant i <= j <= |fmt| && TextEnd(fmt, i) == TextEnd(fmt, j)
      decreases |fmt| - j
    {
      j := j + 1;
    }
    if j != i || At(fmt, j) == NUL {
      return;
    }
    s, j := ReadConversion(fmt, j, s);
  }

  /** Flags and width. */
  method ReadConversion(fmt: string, i: nat, spec: Spec) returns (s: Spec, j: nat)
    requires i < |fmt|
    ensures (s, j) == DecodeConversion(fmt, i, spec)
  {
    s, j := spec.(kind := Plain, flags := NOFLAGS), i + 1;
    while IsFlag(At(fmt, j))
      invariant i + 1 <= j <= |fmt| && FlagRun(fmt, i + 1, NOFLAGS) == FlagRun(fmt, j, s.flags)
      invariant s == spec.(kind := Plain, flags := s.flags)
      decreases |fmt| - j
    {
      s := s.(flags := AddFlag(s.flags, At(fmt, j)));
      j := j + 1;
    }
    s := s.(width := -1);
    if IsDigit(At(fmt, j)) {
      var v;
      v, j := SkipAtoi(fmt, j);
      s := s.(width := ToShort(v));
    } else if At(fmt, j) == '*' {
      s := s.(kind := WidthArg);
      j := j + 1;
      return;
    }
    s, j := ReadPrecision(fmt, j, s);
  }

  method ReadPrecision(fmt: string, i: nat, spec: Spec) returns (s: Spec, j: nat)
    requires i <= |fmt|
    ensures (s, j) == DecodePrecision(fmt, i, spec)
  {
    s, j := spec.(precision := -1), i;
    if At(fmt, j) == '.' {
      j := j + 1;
      if IsDigit(At(fmt, j)) {
        var v;
        v, j := SkipAtoi(fmt, j);
        s := s.(precision := ToShort(v));
        if s.precision < 0 {
          s := s.(precision := 0);
        }
      } else if At(fmt, j) == '*' {
        s := s.(kind := PrecisionArg);
        j := j + 1;
        return;
      }
    }
    s, j := ReadQualifier(fmt, j, s);
  }

  method ReadQualifier(fmt: string, i: nat, spec: Spec) returns (s: Spec, j: nat)
    requires i <= |fmt|
    ensures (s, j) == DecodeQualifier(fmt, i, spec)
  {
    s, j := spec.(qualifier := NOQUALIFIER), i;
    if IsQualifier(At(fmt, j)) {
      s := s.(qualifier := At(fmt, j));
      j := j + 1;
      if s.qualifier == At(fmt, j) {
        if s.qualifier == 'l' {
          s := s.(qualifier := 'L');
          j := j + 1;
        } else if s.qualifier == 'h' {
          s := s.(qualifier := 'H');
          j := j + 1;
        }
      }
    }
    s := s.(base := 10);
    var read;
    s, read := ReadKind(s, At(fmt, j));
    if read {
      j := j + 1;
    }
  }

  /** The switch over the conversion character. */
  method ReadKind(spec: Spec, c: char) returns (s: Spec, read: bool)
    requires spec.base == 10
    ensures s == Converted(spec, c) && read == Consumed(c)
  {
    s := spec;
    match c {
      case 'c' =>
        return s.(kind := CharKind), true;
      case 's' =>
        return s.(kind := StrKind), true;
      case 'p' =>
        return s.(kind := PtrKind), false;
      case 'n' =>
        return s.(kind := NrChars), true;
      case '%' =>
        return s.(kind := Percent), true;
      case 'o' =>
        s := s.(base := 8);
      case 'x' =>
        s := s.(flags := s.flags.(small := true), base := 16);
      case 'X' =>
        s := s.(base := 16);
      case 'd' =>
        s := s.(flags := s.flags.(sign := true));
      case 'i' =>
        s := s.(flags := s.flags.(sign := true));
      case 'u' =>
      case _ =>
        return s.(kind := Invalid), false;
    }
    return s.(kind := KindOf(s.qualifier, s.flags.sign)), true;
  }
}
