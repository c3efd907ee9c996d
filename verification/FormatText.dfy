/** What format_decode reads: the conversions as they are written, and what they ask for. */
module FormatText {
  import opened Layout
  import opened Printer
  import opened Strtoull
  import opened Format

  // ---- flags ----

  predicate FlagsOnly(t: string) { forall k :: 0 <= k < |t| ==> IsFlag(t[k]) }

  /** The flags of a text: each is set if its character is there, wherever and however often. */
  function FlagsOf(t: string): Flags {
    Flags('0' in t, false, '+' in t, ' ' in t, '-' in t, false, '#' in t)
  }

  lemma FlagsSnoc(t: string, c: char)
    requires FlagsOnly(t) && IsFlag(c)
    ensures AddFlag(FlagsOf(t), c) == FlagsOf(t + [c])
  {
    assert forall x: char :: x in t + [c] <==> x in t || x == c;
  }

  /** The flags between i and e have been read up to k. */
  lemma {:induction false} FlagsRead(fmt: string, i: nat, k: nat, e: nat)
    requires i <= k <= e < |fmt| && FlagsOnly(fmt[i..e]) && !IsFlag(fmt[e])
    ensures FlagRun(fmt, k, FlagsOf(fmt[i..k])) == (FlagsOf(fmt[i..e]), e)
    decreases e - k
  {
    if k < e {
      assert fmt[k] == fmt[i..e][k - i] && fmt[i..k + 1] == fmt[i..k] + [fmt[k]];
      assert FlagsOnly(fmt[i..k]) by {
        forall j | 0 <= j < k - i ensures IsFlag(fmt[i..k][j]) { assert fmt[i..k][j] == fmt[i..e][j]; }
      }
      FlagsSnoc(fmt[i..k], fmt[k]);
      FlagsRead(fmt, i, k + 1, e);
    }
  }

  // ---- numbers ----

  predicate Digits(t: string) { forall k :: 0 <= k < |t| ==> IsDigit(t[k]) }

  /** The number between i and e has been read up to k. */
  lemma {:induction false} NumberRead(fmt: string, i: nat, k: nat, e: nat)
    requires i <= k <= e < |fmt| && Digits(fmt[i..e]) && !IsDigit(fmt[e])
    ensures Atoi(fmt, k, TextValue(fmt[i..k], 10)) == (TextValue(fmt[i..e], 10), e)
    decreases e - k
  {
    if k < e {
      assert fmt[k] == fmt[i..e][k - i];
      var t := fmt[i..k + 1];
      assert t[..|t| - 1] == fmt[i..k] && t[|t| - 1] == fmt[k];
      NumberRead(fmt, i, k + 1, e);
    }
  }

  // ---- qualifiers ----

  /** The letters of conversions; p is left to the caller to be read over. */
  predicate IsLetter(c: char) { Consumed(c) || c == 'p' }

  predicate IsQualifierText(q: string) {
    || q == []
    || (|q| == 1 && IsQualifier(q[0]))
    || (|q| == 2 && q[0] == q[1] && (q[0] == 'h' || q[0] == 'l'))
  }

  /** A doubled h or l counts as the capital. */
  function QualifierOf(q: string): char {
    if |q| == 0 then NOQUALIFIER else if |q| == 1 then q[0] else if q[0] == 'l' then 'L' else 'H'
  }

  lemma QualifierRead(fmt: string, i: nat, e: nat)
    requires i <= e < |fmt| && IsQualifierText(fmt[i..e]) && IsLetter(fmt[e])
    ensures QualifierAt(fmt, i) == (QualifierOf(fmt[i..e]), e)
  {
    var q := fmt[i..e];
    if i < e { assert q[0] == fmt[i]; }
    if i + 1 < e { assert q[1] == fmt[i + 1]; }
  }

  // ---- conversions ----

  /** No width, an asterisk, or a number that fits a short. */
  predicate WidthPart(fmt: string, a: nat, b: nat)
    requires a <= b <= |fmt|
  {
    || a == b
    || StarWidth(fmt, a, b)
    || (Digits(fmt[a..b]) && fmt[a] != '0' && TextValue(fmt[a..b], 10) <= 0x7fff)
  }

  /** No precision, a dot with an asterisk, or a dot with a number or nothing. */
  predicate PrecisionPart(fmt: string, b: nat, d: nat)
    requires b <= d <= |fmt|
  {
    || b == d
    || (fmt[b] == '.' && (StarPrecision(fmt, b, d) || (Digits(fmt[b + 1..d]) && TextValue(fmt[b + 1..d], 10) <= 0x7fff)))
  }

  /** A conversion from the percent sign at i to the letter at e: flags up to a, a width up to b, a precision
      up to d, a qualifier up to e. */
  predicate Conversion(fmt: string, i: nat, a: nat, b: nat, d: nat, e: nat) {
    && i < a <= b <= d <= e < |fmt|
    && fmt[i] == '%'
    && FlagsOnly(fmt[i + 1..a])
    && WidthPart(fmt, a, b)
    && PrecisionPart(fmt, b, d)
    && IsQualifierText(fmt[d..e])
    && IsLetter(fmt[e])
  }

  predicate StarWidth(fmt: string, a: nat, b: nat)
    requires a <= b <= |fmt|
  {
    b == a + 1 && fmt[a] == '*'
  }

  predicate StarPrecision(fmt: string, b: nat, d: nat)
    requires b <= d <= |fmt|
  {
    d == b + 2 && fmt[b + 1] == '*'
  }

  /** The width that is written, if it is a number; -1 for none. */
  function WidthOf(fmt: string, a: nat, b: nat): short
    requires a <= b <= |fmt| && WidthPart(fmt, a, b)
  {
    if a == b || StarWidth(fmt, a, b) then -1 else TextValue(fmt[a..b], 10) as short
  }

  /** The precision that is written, if it is a number; -1 for none, which a dot alone counts as. */
  function PrecisionOf(fmt: string, b: nat, d: nat): short
    requires b <= d <= |fmt| && PrecisionPart(fmt, b, d)
  {
    if d <= b + 1 || StarPrecision(fmt, b, d) then -1 else TextValue(fmt[b + 1..d], 10) as short
  }

  /** Where format_decode stops: behind the letter, or at a p. */
  function ReadEnd(fmt: string, e: nat): nat
    requires e < |fmt|
  {
    if Consumed(fmt[e]) then e + 1 else e
  }

  lemma LetterEnds(fmt: string, d: nat, e: nat)
    requires d <= e < |fmt| && IsQualifierText(fmt[d..e]) && IsLetter(fmt[e])
    ensures !IsFlag(fmt[d]) && !IsDigit(fmt[d]) && fmt[d] != '.' && fmt[d] != '*' && fmt[d] != NUL
  {
    if d < e { assert fmt[d] == fmt[d..e][0]; }
  }

  lemma PartEnds(fmt: string, b: nat, d: nat, e: nat)
    requires b <= d <= e < |fmt| && PrecisionPart(fmt, b, d) && IsQualifierText(fmt[d..e]) && IsLetter(fmt[e])
    ensures !IsFlag(fmt[b]) && !IsDigit(fmt[b]) && fmt[b] != '*' && fmt[b] != NUL
  {
    LetterEnds(fmt, d, e);
  }

  /** The qualifier and the letter. */
  lemma {:induction false} TailRead(fmt: string, d: nat, e: nat, spec: Spec)
    requires d <= e < |fmt| && IsQualifierText(fmt[d..e]) && IsLetter(fmt[e])
    ensures DecodeQualifier(fmt, d, spec) == (Converted(spec.(qualifier := QualifierOf(fmt[d..e]), base := 10), fmt[e]), ReadEnd(fmt, e))
  {
    QualifierRead(fmt, d, e);
  }

  lemma {:induction false} PrecisionRead(fmt: string, b: nat, d: nat, e: nat, spec: Spec)
    requires b <= d <= e < |fmt| && IsQualifierText(fmt[d..e]) && IsLetter(fmt[e])
    requires PrecisionPart(fmt, b, d) && !StarPrecision(fmt, b, d)
    ensures DecodePrecision(fmt, b, spec)
      == (Converted(spec.(qualifier := QualifierOf(fmt[d..e]), base := 10, precision := PrecisionOf(fmt, b, d)), fmt[e]), ReadEnd(fmt, e))
  {
    LetterEnds(fmt, d, e);
    TailRead(fmt, d, e, spec.(precision := PrecisionOf(fmt, b, d)));
    if b + 1 < d {
      NumberHere(fmt, b + 1, d);
    }
  }

  lemma PrecisionStar(fmt: string, b: nat, d: nat, spec: Spec)
    requires b <= d <= |fmt| && PrecisionPart(fmt, b, d) && StarPrecision(fmt, b, d)
    ensures DecodePrecision(fmt, b, spec) == (spec.(precision := -1, kind := PrecisionArg), d)
  {
  }

  lemma FlagsHere(fmt: string, i: nat, e: nat)
    requires i <= e < |fmt| && FlagsOnly(fmt[i..e]) && !IsFlag(fmt[e])
    ensures FlagRun(fmt, i, NOFLAGS) == (FlagsOf(fmt[i..e]), e)
  {
    assert FlagsOf(fmt[i..i]) == NOFLAGS;
    FlagsRead(fmt, i, i, e);
  }

  lemma NumberHere(fmt: string, i: nat, e: nat)
    requires i < e < |fmt| && Digits(fmt[i..e]) && !IsDigit(fmt[e])
    ensures IsDigit(fmt[i]) && Atoi(fmt, i, 0) == (TextValue(fmt[i..e], 10), e)
  {
    assert fmt[i] == fmt[i..e][0];
    assert fmt[i..i] == "";
    NumberRead(fmt, i, i, e);
  }

  /** Up to the precision. */
  lemma {:induction false} FrontRead(fmt: string, i: nat, a: nat, b: nat, spec: Spec, s: Spec)
    requires i < a <= b < |fmt| && FlagsOnly(fmt[i + 1..a]) && !IsFlag(fmt[a]) && !IsDigit(fmt[b]) && fmt[b] != '*'
    requires WidthPart(fmt, a, b) && !StarWidth(fmt, a, b)
    requires s == spec.(kind := Plain, flags := FlagsOf(fmt[i + 1..a]), width := WidthOf(fmt, a, b))
    ensures DecodeConversion(fmt, i, spec) == DecodePrecision(fmt, b, s)
  {
    FlagsHere(fmt, i + 1, a);
    if a < b {
      NumberHere(fmt, a, b);
    }
  }

  /** Up to an asterisk for the width. */
  lemma {:induction false} FrontStar(fmt: string, i: nat, a: nat, b: nat, spec: Spec)
    requires i < a <= b < |fmt| && FlagsOnly(fmt[i + 1..a]) && WidthPart(fmt, a, b) && StarWidth(fmt, a, b)
    ensures DecodeConversion(fmt, i, spec) == (spec.(kind := WidthArg, flags := FlagsOf(fmt[i + 1..a]), width := -1), b)
  {
    FlagsHere(fmt, i + 1, a);
  }

  lemma WidthStarts(fmt: string, a: nat, b: nat)
    requires a <= b < |fmt| && WidthPart(fmt, a, b) && !IsFlag(fmt[b])
    ensures !IsFlag(fmt[a])
  {
    if a < b && !StarWidth(fmt, a, b) { assert fmt[a] == fmt[a..b][0]; }
  }

  /** What a conversion without asterisks asks for. */
  function Asks(fmt: string, i: nat, a: nat, b: nat, d: nat, e: nat): Spec
    requires Conversion(fmt, i, a, b, d, e)
  {
    Converted(Spec(Plain, FlagsOf(fmt[i + 1..a]), 10, QualifierOf(fmt[d..e]), WidthOf(fmt, a, b), PrecisionOf(fmt, b, d)), fmt[e])
  }

  /** format_decode reads every such conversion for what it asks, whatever came before. */
  lemma {:induction false} ConversionRead(fmt: string, i: nat, a: nat, b: nat, d: nat, e: nat, spec: Spec)
    requires Conversion(fmt, i, a, b, d, e) && !StarWidth(fmt, a, b) && !StarPrecision(fmt, b, d) && !Pending(spec)
    ensures Decode(fmt, i, spec) == (Asks(fmt, i, a, b, d, e), ReadEnd(fmt, e))
  {
    PartEnds(fmt, b, d, e);
    var s := spec.(kind := Plain, flags := FlagsOf(fmt[i + 1..a]), width := WidthOf(fmt, a, b));
    WidthStarts(fmt, a, b);
    FrontRead(fmt, i, a, b, spec, s);
    PrecisionRead(fmt, b, d, e, s);
    assert TextEnd(fmt, i) == i;
    assert Decode(fmt, i, spec) == DecodeConversion(fmt, i, spec);
  }
}
