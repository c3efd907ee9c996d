/** What the conversions of characters, strings, pointers and percent signs print, and unknown ones. */
module TextRender {
  import opened Bytes
  import Digits
  import opened PutDec
  import opened Layout
  import opened Printer
  import opened Strtoull
  import opened RoundTrip
  import opened Format
  import opened FormatText
  import opened Vsnprintf
  import opened FormatRender
  import opened StandardRender

  /** A text at one end of a blank field. */
  function InField(t: string, width: int, left: bool): (r: string)
    ensures |r| == Max(width, |t|)
    ensures (if left then r[..|t|] else r[|r| - |t|..]) == t
    ensures forall k :: 0 <= k < |r| && (if left then |t| <= k else k < |r| - |t|) ==> r[k] == ' '
  {
    if left then t + Fill(' ', width - |t|) else Fill(' ', width - |t|) + t
  }

  /** The first precision characters of a string, all of it if that is negative, in a field. */
  function C99String(str: string, width: int, precision: int, left: bool): string {
    InField(if 0 <= precision < |str| then str[..precision] else str, width, left)
  }

  lemma StringIs(str: string, s: Spec)
    ensures StringText(str, s) == C99String(str, s.width as int, s.precision as int, s.flags.left)
  {
  }

  lemma CharIs(v: int, s: Spec)
    ensures CharText(v, s) == InField([(v % 0x100) as char], s.width as int, s.flags.left)
  {
  }

  /** The arguments that asterisks take, and what they ask for. */
  lemma {:induction false} TakesStars(fmt: string, i: nat, a: nat, b: nat, d: nat, e: nat, args: seq<Arg>,
                                      f: Flags, w: int, p: int, more: seq<Arg>, rest: seq<Arg>) returns (own: short)
    requires Conversion(fmt, i, a, b, d, e) && Fits(fmt, i, a, b, d, args)
    requires (f, w, more) == C99Front(fmt, i, a, b, args) && (p, rest) == C99Precision(fmt, b, d, more)
    ensures -0x8000 <= w <= 0x7fff
    ensures Takes(fmt, i, a, b, d, e, args) == (Converted(Spec(Plain, f, 10, QualifierOf(fmt[d..e]), w as short, own), fmt[e]), rest)
    ensures own as int == p || (own == -1 && p == 0 && d == b + 1) || (own == 0 && p == -1 && StarPrecision(fmt, b, d) && NextInt(more) < 0)
  {
    FrontSame(fmt, i, a, b, d, args);
    PrecisionSame(fmt, b, d, more);
    own := PrecisionTaken(fmt, b, d, more).0;
  }

  /** Two percent signs print one, and take no argument of their own. */
  lemma {:induction false} PercentRendered(fmt: string, i: nat, a: nat, b: nat, d: nat, e: nat, spec: Spec, args: seq<Arg>,
                                           f: Flags, w: int, p: int, more: seq<Arg>, rest: seq<Arg>)
    requires Conversion(fmt, i, a, b, d, e) && !Pending(spec) && Fits(fmt, i, a, b, d, args) && fmt[e] == '%'
    requires (f, w, more) == C99Front(fmt, i, a, b, args) && (p, rest) == C99Precision(fmt, b, d, more)
    ensures Rendered(fmt, i, spec, args) == "%" + Rendered(fmt, e + 1, spec, rest)
  {
    var own := TakesStars(fmt, i, a, b, d, e, args, f, w, p, more, rest);
    var s := Spec(Plain, f, 10, QualifierOf(fmt[d..e]), w as short, own);
    ConversionRendered(fmt, i, a, b, d, e, spec, args, Converted(s, '%'), rest);
  }

  /** A character prints itself in its field, and takes one argument. */
  lemma {:induction false} CharRendered(fmt: string, i: nat, a: nat, b: nat, d: nat, e: nat, spec: Spec, args: seq<Arg>,
                                        f: Flags, w: int, p: int, more: seq<Arg>, rest: seq<Arg>)
    requires Conversion(fmt, i, a, b, d, e) && !Pending(spec) && Fits(fmt, i, a, b, d, args) && fmt[e] == 'c'
    requires (f, w, more) == C99Front(fmt, i, a, b, args) && (p, rest) == C99Precision(fmt, b, d, more)
    ensures Rendered(fmt, i, spec, args) == InField([(NextInt(rest) % 0x100) as char], w, f.left) + Rendered(fmt, e + 1, spec, Rest(rest))
  {
    var own := TakesStars(fmt, i, a, b, d, e, args, f, w, p, more, rest);
    var s := Spec(Plain, f, 10, QualifierOf(fmt[d..e]), w as short, own);
    CharIs(NextInt(rest), Converted(s, 'c'));
    ConversionRendered(fmt, i, a, b, d, e, spec, args, Converted(s, 'c'), rest);
  }

  /** A string prints what the standard asks for exactly if its precision is not a dot alone and not a negative argument,
      or the string is blank and fits its field. */
  lemma {:induction false} StringRendered(fmt: string, i: nat, a: nat, b: nat, d: nat, e: nat, spec: Spec, args: seq<Arg>,
                                          f: Flags, w: int, p: int, more: seq<Arg>, rest: seq<Arg>, str: string)
    requires Conversion(fmt, i, a, b, d, e) && !Pending(spec) && Fits(fmt, i, a, b, d, args) && fmt[e] == 's'
    requires (f, w, more) == C99Front(fmt, i, a, b, args) && (p, rest) == C99Precision(fmt, b, d, more) && str == NextStr(rest)
    ensures Rendered(fmt, i, spec, args) == C99String(str, w, p, f.left) + Rendered(fmt, e + 1, spec, Rest(rest))
      <==> !(d == b + 1 || (StarPrecision(fmt, b, d) && NextInt(more) < 0)) || (Blank(str) && |str| <= Max(w, 0))
  {
    var own := TakesStars(fmt, i, a, b, d, e, args, f, w, p, more, rest);
    var s := Converted(Spec(Plain, f, 10, QualifierOf(fmt[d..e]), w as short, own), 's');
    ConversionRendered(fmt, i, a, b, d, e, spec, args, s, rest);
    StringIs(str, s);
    StringsIff(str, s, p, f.left, w);
    DotOrStar(fmt, b, d, more);
    Cancel(StringText(str, s), C99String(str, w, p, f.left), Rendered(fmt, e + 1, spec, Rest(rest)));
  }

  lemma {:induction false} StringsIff(str: string, s: Spec, p: int, left: bool, w: int)
    requires s.flags.left == left && s.width as int == w
    requires s.precision as int == p || (s.precision == -1 && p == 0) || (s.precision == 0 && p == -1)
    ensures StringText(str, s) == C99String(str, w, p, left) <==> s.precision as int == p || (Blank(str) && |str| <= Max(w, 0))
  {
    StringIs(str, s);
    if s.precision as int != p {
      DotString(str, s.(precision := -1), StringText(str, s.(precision := -1)), StringText(str, s.(precision := 0)));
      StringIs(str, s.(precision := -1));
      StringIs(str, s.(precision := 0));
    }
  }

  /** When the precision that is taken is not the one that the standard reads. */
  lemma DotOrStar(fmt: string, b: nat, d: nat, more: seq<Arg>)
    requires b <= d <= |fmt| && PrecisionPart(fmt, b, d) && (StarPrecision(fmt, b, d) ==> -0x8000 <= NextInt(more) <= 0x7fff)
    ensures PrecisionTaken(fmt, b, d, more).0 as int != C99Precision(fmt, b, d, more).0
      <==> d == b + 1 || (StarPrecision(fmt, b, d) && NextInt(more) < 0)
  {
  }

  predicate LetterOrDigit(c: char) { '0' <= c <= '9' || 'a' <= c <= 'z' || 'A' <= c <= 'Z' }

  lemma {:induction false} Swallowed(fmt: string, j: nat, k: nat)
    requires j <= k <= |fmt| && (forall n :: j <= n < k ==> LetterOrDigit(fmt[n])) && (k < |fmt| ==> !LetterOrDigit(fmt[k]))
    ensures SkipAlnum(fmt, j) == k
    decreases k - j
  {
    if j < k { Swallowed(fmt, j + 1, k); }
  }

  /** A pointer prints its text, takes one argument, and takes along the letters and digits behind it. */
  lemma {:induction false} PointerRendered(fmt: string, i: nat, a: nat, b: nat, d: nat, e: nat, spec: Spec, args: seq<Arg>,
                                           f: Flags, w: int, p: int, more: seq<Arg>, rest: seq<Arg>, k: nat) returns (own: short)
    requires Conversion(fmt, i, a, b, d, e) && !Pending(spec) && Fits(fmt, i, a, b, d, args) && fmt[e] == 'p'
    requires (f, w, more) == C99Front(fmt, i, a, b, args) && (p, rest) == C99Precision(fmt, b, d, more)
    requires e < k <= |fmt| && (forall n :: e < n < k ==> LetterOrDigit(fmt[n])) && (k < |fmt| ==> !LetterOrDigit(fmt[k]))
    requires e + 1 < |fmt| ==> !IsExtension(fmt[e + 1])
    ensures own as int == p || d == b + 1 || (StarPrecision(fmt, b, d) && NextInt(more) < 0)
    ensures -0x8000 <= w <= 0x7fff
    ensures Rendered(fmt, i, spec, args) ==
      PointerText(NextInt(rest), Spec(PtrKind, f, 10, QualifierOf(fmt[d..e]), w as short, own)) + Rendered(fmt, k, spec, Rest(rest))
  {
    own := TakesStars(fmt, i, a, b, d, e, args, f, w, p, more, rest);
    var s := Spec(Plain, f, 10, QualifierOf(fmt[d..e]), w as short, own);
    Swallowed(fmt, e, k);
    ConversionRendered(fmt, i, a, b, d, e, spec, args, Converted(s, 'p'), rest);
  }

  /** A null pointer prints as a string. */
  lemma NullPointer(v: int, s: Spec)
    requires v % U32 == 0
    ensures PointerText(v, s) == C99String("(null)", s.width as int, s.precision as int, s.flags.left)
  {
    StringIs("(null)", s);
  }

  /** Another one without flags, width and precision prints as eight hexadecimal digits in small letters, and reads back. */
  lemma {:induction false} PlainPointer(v: int, q: char, t: string)
    requires v % U32 != 0 && t == PointerText(v, Spec(PtrKind, NOFLAGS, 10, q, -1, -1))
    ensures |t| == 8 && forall k :: 0 <= k < |t| ==> '0' <= t[k] <= '9' || 'a' <= t[k] <= 'f'
    ensures Parsed(t, 0, 16) == (v % U32, 8)
  {
    var n, g := v % U32, NOFLAGS.(small := true, zeropad := true);
    assert t == NumberText(n, 16, g, 8, -1);
    EightDigits(n);
    UnsignedRoundTrip(n, 16, g, 8, -1);
    PlainShape(n, 16, g, 8, -1);
    var d, z := DigitText(n, 16, true), Zeros(n, 16, g, 8, -1);
    assert t == Fill('0', z) + d;
    DigitCase(n, 16, true);
  }

  lemma EightDigits(n: nat)
    requires n < U32
    ensures 0 < |DigitText(n, 16, true)| <= 8
  {
    Digits.DigitsBound(n, 16, 8);
    assert Digits.Pow(16, 8) == 0x1_0000_0000 by {
      assert Digits.Pow(16, 4) == 0x1_0000;
    }
  }

  /** A percent sign with a character behind it that starts no conversion prints itself, and then that character. */
  lemma {:induction false} UnknownRendered(fmt: string, i: nat, spec: Spec, args: seq<Arg>, c: char)
    requires i < |fmt| && fmt[i] == '%' && !Pending(spec) && c == At(fmt, i + 1)
    requires !IsFlag(c) && !IsDigit(c) && !IsQualifier(c) && c != '*' && c != '.' && c !in "csoxXdiupn%"
    ensures Rendered(fmt, i, spec, args) == "%" + Rendered(fmt, i + 1, spec, args)
  {
    var s := spec.(kind := Invalid, flags := NOFLAGS, base := 10, qualifier := NOQUALIFIER, width := -1, precision := -1);
    UnknownDecoded(fmt, i, spec, c, s);
    assert TurnOf(fmt, i, spec, args) == Turn("%", i + 1, s, args);
    RenderedLike(fmt, i + 1, s, spec, args);
  }

  lemma {:induction false} UnknownDecoded(fmt: string, i: nat, spec: Spec, c: char, s: Spec)
    requires i < |fmt| && fmt[i] == '%' && !Pending(spec) && c == At(fmt, i + 1)
    requires !IsFlag(c) && !IsDigit(c) && !IsQualifier(c) && c != '*' && c != '.' && c !in "csoxXdiupn%"
    requires s == spec.(kind := Invalid, flags := NOFLAGS, base := 10, qualifier := NOQUALIFIER, width := -1, precision := -1)
    ensures Decode(fmt, i, spec) == (s, i + 1)
  {
    assert TextEnd(fmt, i) == i;
    assert FlagRun(fmt, i + 1, NOFLAGS) == (NOFLAGS, i + 1);
    assert QualifierAt(fmt, i + 1) == (NOQUALIFIER, i + 1);
    var letters := "csoxXdiupn%";
    assert letters[0] == 'c' && letters[1] == 's' && letters[2] == 'o' && letters[3] == 'x' && letters[4] == 'X' && letters[5] == 'd';
    assert letters[6] == 'i' && letters[7] == 'u' && letters[8] == 'p' && letters[9] == 'n' && letters[10] == '%';
  }
}
