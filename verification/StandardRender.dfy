/** When an integer conversion in a format prints what section 7.19.6.1 of ISO/IEC 9899:1999 asks for, from the way
    it is written and the arguments it takes. */
module StandardRender {
  import opened Layout
  import opened PutDec
  import opened Printer
  import opened Strtoull
  import opened Agreement
  import opened Format
  import opened FormatText
  import opened Vsnprintf
  import opened FormatRender
  import opened Standard

  /** The flags and the width that the standard reads, and the arguments behind them: a negative width puts it to the left. */
  function C99Front(fmt: string, i: nat, a: nat, b: nat, args: seq<Arg>): (Flags, int, seq<Arg>)
    requires i < a <= b <= |fmt| && WidthPart(fmt, a, b)
  {
    var f := FlagsOf(fmt[i + 1..a]);
    if StarWidth(fmt, a, b) then
      var w := NextInt(args);
      if w < 0 then (f.(left := true), -w, Rest(args)) else (f, w, Rest(args))
    else (f, WidthOf(fmt, a, b) as int, args)
  }

  /** The precision that the standard reads: a dot alone is zero, and a negative argument is none. */
  function C99Precision(fmt: string, b: nat, d: nat, args: seq<Arg>): (int, seq<Arg>)
    requires b <= d <= |fmt| && PrecisionPart(fmt, b, d)
  {
    if b == d then (-1, args)
    else if StarPrecision(fmt, b, d) then (if NextInt(args) < 0 then -1 else NextInt(args), Rest(args))
    else (TextValue(fmt[b + 1..d], 10), args)
  }

  /** Arguments for width and precision that a short holds, negated too. */
  predicate Fits(fmt: string, i: nat, a: nat, b: nat, d: nat, args: seq<Arg>)
    requires i < a <= b <= d <= |fmt| && WidthPart(fmt, a, b) && PrecisionPart(fmt, b, d)
  {
    && (StarWidth(fmt, a, b) ==> -0x7fff <= NextInt(args) <= 0x7fff)
    && (StarPrecision(fmt, b, d) ==> -0x8000 <= NextInt(C99Front(fmt, i, a, b, args).2) <= 0x7fff)
  }

  lemma FrontSame(fmt: string, i: nat, a: nat, b: nat, d: nat, args: seq<Arg>)
    requires i < a <= b <= d <= |fmt| && WidthPart(fmt, a, b) && PrecisionPart(fmt, b, d) && Fits(fmt, i, a, b, d, args)
    ensures var (f, w, more) := FrontTaken(fmt, i, a, b, args); C99Front(fmt, i, a, b, args) == (f, w as int, more)
  {
  }

  /** Both precisions are the same, or one is none and the other zero. */
  lemma PrecisionSame(fmt: string, b: nat, d: nat, args: seq<Arg>)
    requires b <= d <= |fmt| && PrecisionPart(fmt, b, d) && (StarPrecision(fmt, b, d) ==> -0x8000 <= NextInt(args) <= 0x7fff)
    ensures var (p, rest) := PrecisionTaken(fmt, b, d, args);
      var (q, more) := C99Precision(fmt, b, d, args);
      rest == more && (p as int == q || (p == -1 && q == 0) || (p == 0 && q == -1))
  {
  }

  lemma OwnPrecision(q: char, c: char, f: Flags, width: int, p: int, r: int, v: int)
    requires p == r || (p == -1 && r == 0) || (p == 0 && r == -1)
    ensures OwnConversion(q, c, f, width, p, v) == OwnConversion(q, c, f, width, r, v)
  {
    DotNumber(NumArg(KindOf(q, IsSigned(c)), v), LetterBase(c), LetterFlags(f, c), width);
  }

  lemma Cancel(t: string, u: string, rest: string)
    ensures t + rest == u + rest <==> t == u
  {
    if t + rest == u + rest {
      assert t == (t + rest)[..|t|] && u == (u + rest)[..|u|];
    }
  }

  /** Exactly when vsnprintf, at an integer conversion, prints what the standard asks for and then what follows. */
  lemma {:induction false} IntegerRendered(fmt: string, i: nat, a: nat, b: nat, d: nat, e: nat, spec: Spec, args: seq<Arg>,
                                           q: char, c: char, f: Flags, w: int, p: int, more: seq<Arg>, rest: seq<Arg>)
    requires Conversion(fmt, i, a, b, d, e) && !Pending(spec) && Fits(fmt, i, a, b, d, args)
    requires q == QualifierOf(fmt[d..e]) && IsModifier(q) && c == fmt[e] && IsInteger(c)
    requires (f, w, more) == C99Front(fmt, i, a, b, args) && (p, rest) == C99Precision(fmt, b, d, more)
    ensures Rendered(fmt, i, spec, args) == C99Conversion(q, c, f, w, p, NextInt(rest)) + Rendered(fmt, e + 1, spec, Rest(rest))
      <==> ConversionRight(q, c, f, w, p, NextInt(rest))
  {
    FrontSame(fmt, i, a, b, d, args);
    PrecisionSame(fmt, b, d, more);
    var width, own := FrontTaken(fmt, i, a, b, args).1, PrecisionTaken(fmt, b, d, more).0;
    var t := Spec(Plain, f, 10, q, width, own);
    ConvertedText(t, c, rest);
    OwnPrecision(q, c, f, w, own as int, p, NextInt(rest));
    OwnRendered(fmt, i, a, b, d, e, spec, args, t, c, rest);
    ConversionIff(q, c, f, w, p, NextInt(rest));
    Cancel(OwnConversion(q, c, f, w, p, NextInt(rest)), C99Conversion(q, c, f, w, p, NextInt(rest)), Rendered(fmt, e + 1, spec, Rest(rest)));
  }

  lemma {:induction false} OwnRendered(fmt: string, i: nat, a: nat, b: nat, d: nat, e: nat, spec: Spec, args: seq<Arg>, t: Spec, c: char, rest: seq<Arg>)
    requires Conversion(fmt, i, a, b, d, e) && !Pending(spec) && c == fmt[e] && IsInteger(c) && IsModifier(t.qualifier)
    requires Takes(fmt, i, a, b, d, e, args) == (Converted(t, c), rest) && !t.flags.small && !t.flags.sign && t.base == 10
    ensures Rendered(fmt, i, spec, args) == ConvertText(Converted(t, c), rest) + Rendered(fmt, e + 1, spec, Rest(rest))
  {
    LetterSpec(t, c);
    NumberKind(t.qualifier, IsSigned(c));
    ConversionRendered(fmt, i, a, b, d, e, spec, args, Converted(t, c), rest);
  }
}
