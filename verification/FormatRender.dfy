/** The text of a format, put together from its literal texts and its conversions. */
module FormatRender {
  import opened Layout
  import PutDec
  import opened Printer
  import opened Strtoull
  import opened Format
  import opened FormatText
  import opened Vsnprintf

  // ---- what a spec hands on ----

  /** The next call of format_decode cannot tell the two apart. */
  predicate Like(s: Spec, t: Spec) {
    || (!Pending(s) && !Pending(t))
    || (Pending(s) && s.kind == t.kind && s.flags == t.flags && s.width == t.width && (s.kind.PrecisionArg? ==> s.precision == t.precision))
  }

  lemma QualifierLike(fmt: string, i: nat, s: Spec, t: Spec)
    requires i <= |fmt| && s.flags == t.flags && s.width == t.width && s.precision == t.precision
    ensures DecodeQualifier(fmt, i, s) == DecodeQualifier(fmt, i, t)
  {
  }

  lemma {:induction false} PrecisionLike(fmt: string, i: nat, s: Spec, t: Spec)
    requires i <= |fmt| && s.flags == t.flags && s.width == t.width
    ensures var (u, j) := DecodePrecision(fmt, i, s);
      var (v, k) := DecodePrecision(fmt, i, t);
      j == k && u.kind == v.kind && u.flags == v.flags && u.width == v.width && (!Pending(u) ==> u == v)
  {
    if At(fmt, i) != '.' {
      QualifierLike(fmt, i, s.(precision := -1), t.(precision := -1));
    } else if IsDigit(At(fmt, i + 1)) {
      var (v, j) := Atoi(fmt, i + 1, 0);
      var p := if ToShort(v) < 0 then 0 else ToShort(v);
      QualifierLike(fmt, j, s.(precision := p), t.(precision := p));
    } else if At(fmt, i + 1) != '*' {
      QualifierLike(fmt, i + 1, s.(precision := -1), t.(precision := -1));
    }
  }

  lemma {:induction false} ConversionLike(fmt: string, i: nat, s: Spec, t: Spec)
    requires i < |fmt|
    ensures var (u, j) := DecodeConversion(fmt, i, s);
      var (v, k) := DecodeConversion(fmt, i, t);
      j == k && u.kind == v.kind && u.flags == v.flags && u.width == v.width && (!Pending(u) ==> u == v)
  {
    var (f, j) := FlagRun(fmt, i + 1, NOFLAGS);
    if IsDigit(At(fmt, j)) {
      var (v, k) := Atoi(fmt, j, 0);
      PrecisionLike(fmt, k, s.(kind := Plain, flags := f, width := ToShort(v)), t.(kind := Plain, flags := f, width := ToShort(v)));
    } else if At(fmt, j) != '*' {
      PrecisionLike(fmt, j, s.(kind := Plain, flags := f, width := -1), t.(kind := Plain, flags := f, width := -1));
    }
  }

  /** What has been read of the two differs at most in what the next call sets anew. */
  predicate ReadLike(r: (Spec, nat), q: (Spec, nat)) {
    && r.1 == q.1 && r.0.kind == q.0.kind
    && (Pending(r.0) ==> r.0.flags == q.0.flags && r.0.width == q.0.width)
    && (!Pending(r.0) && !r.0.kind.Plain? ==> r.0 == q.0)
  }

  lemma {:induction false} WidthLike(fmt: string, i: nat, s: Spec, t: Spec)
    requires i <= |fmt| && s.kind.WidthArg? && Like(s, t)
    ensures ReadLike(Decode(fmt, i, s), Decode(fmt, i, t))
  {
    var u := if s.width < 0 then s.(width := ToShort(-(s.width as int)), flags := s.flags.(left := true)) else s;
    var v := if t.width < 0 then t.(width := ToShort(-(t.width as int)), flags := t.flags.(left := true)) else t;
    PrecisionLike(fmt, i, u.(kind := Plain), v.(kind := Plain));
  }

  lemma {:induction false} StarLike(fmt: string, i: nat, s: Spec, t: Spec)
    requires i <= |fmt| && s.kind.PrecisionArg? && Like(s, t)
    ensures ReadLike(Decode(fmt, i, s), Decode(fmt, i, t))
  {
    var p := if s.precision < 0 then 0 else s.precision;
    QualifierLike(fmt, i, s.(kind := Plain, precision := p), t.(kind := Plain, precision := p));
  }

  lemma {:induction false} TextLike(fmt: string, i: nat, s: Spec, t: Spec)
    requires i <= |fmt| && !Pending(s) && !Pending(t)
    ensures ReadLike(Decode(fmt, i, s), Decode(fmt, i, t))
  {
    if TextEnd(fmt, i) == i && At(fmt, i) != NUL { ConversionLike(fmt, i, s, t); }
  }

  lemma {:induction false} DecodeLike(fmt: string, i: nat, s: Spec, t: Spec)
    requires i <= |fmt| && Like(s, t)
    ensures ReadLike(Decode(fmt, i, s), Decode(fmt, i, t))
  {
    if s.kind.WidthArg? {
      WidthLike(fmt, i, s, t);
    } else if s.kind.PrecisionArg? {
      StarLike(fmt, i, s, t);
    } else {
      TextLike(fmt, i, s, t);
    }
  }

  /** Outside a conversion the spec does not matter. */
  lemma {:induction false} RenderedLike(fmt: string, i: nat, s: Spec, t: Spec, args: seq<Arg>)
    requires i <= |fmt| && Like(s, t)
    ensures Rendered(fmt, i, s, args) == Rendered(fmt, i, t, args)
    decreases Left(fmt, i, s)
  {
    if At(fmt, i) != NUL {
      DecodeLike(fmt, i, s, t);
      var u, v := TurnOf(fmt, i, s, args), TurnOf(fmt, i, t, args);
      RenderedLike(fmt, u.pos, u.spec, v.spec, u.args);
    }
  }

  // ---- the rest of a format as a format ----

  /** A place of g that is looked at. */
  ghost predicate Spot(g: string, i: nat) { true }

  /** g is what fmt is from k on. */
  ghost predicate Tail(fmt: string, k: nat, g: string) {
    k + |g| == |fmt| && forall i: nat {:trigger Spot(g, i)} :: Spot(g, i) && At(g, i) == At(fmt, k + i)
  }

  lemma TailAt(fmt: string, k: nat, g: string, i: nat)
    requires Tail(fmt, k, g)
    ensures At(g, i) == At(fmt, k + i)
  {
    assert Spot(g, i);
  }

  lemma SliceMoved(fmt: string, k: nat, i: nat, j: nat, g: string)
    requires Tail(fmt, k, g) && i <= j <= |g|
    ensures fmt[k + i..k + j] == g[i..j]
  {
    forall n | i <= n < j ensures fmt[k + n] == g[n] {
      TailAt(fmt, k, g, n);
    }
  }

  lemma {:induction false} TextEndMoved(fmt: string, k: nat, i: nat, g: string)
    requires Tail(fmt, k, g) && i <= |g|
    ensures TextEnd(fmt, k + i) == k + TextEnd(g, i)
    decreases |g| - i
  {
    TailAt(fmt, k, g, i);
    if At(g, i) != NUL && At(g, i) != '%' { TextEndMoved(fmt, k, i + 1, g); }
  }

  lemma {:induction false} FlagRunMoved(fmt: string, k: nat, i: nat, f: Flags, g: string)
    requires Tail(fmt, k, g) && i <= |g|
    ensures FlagRun(fmt, k + i, f) == (FlagRun(g, i, f).0, k + FlagRun(g, i, f).1)
    decreases |g| - i
  {
    TailAt(fmt, k, g, i);
    if IsFlag(At(g, i)) { FlagRunMoved(fmt, k, i + 1, AddFlag(f, At(g, i)), g); }
  }

  lemma {:induction false} AtoiMoved(fmt: string, k: nat, i: nat, v: int, g: string)
    requires Tail(fmt, k, g) && i <= |g|
    ensures Atoi(fmt, k + i, v) == (Atoi(g, i, v).0, k + Atoi(g, i, v).1)
    decreases |g| - i
  {
    TailAt(fmt, k, g, i);
    if IsDigit(At(g, i)) { AtoiMoved(fmt, k, i + 1, v * 10 + (At(g, i) as int - '0' as int), g); }
  }

  lemma {:induction false} AlnumMoved(fmt: string, k: nat, i: nat, g: string)
    requires Tail(fmt, k, g) && i <= |g|
    ensures SkipAlnum(fmt, k + i) == k + SkipAlnum(g, i)
    decreases |g| - i
  {
    TailAt(fmt, k, g, i);
    if IsAlnum(At(g, i)) { AlnumMoved(fmt, k, i + 1, g); }
  }

  lemma {:induction false} QualifierMoved(fmt: string, k: nat, i: nat, s: Spec, g: string)
    requires Tail(fmt, k, g) && i <= |g|
    ensures DecodeQualifier(fmt, k + i, s) == (DecodeQualifier(g, i, s).0, k + DecodeQualifier(g, i, s).1)
  {
    TailAt(fmt, k, g, i);
    TailAt(fmt, k, g, i + 1);
    TailAt(fmt, k, g, i + 2);
  }

  lemma {:induction false} PrecisionMoved(fmt: string, k: nat, i: nat, s: Spec, g: string, r: (Spec, nat))
    requires Tail(fmt, k, g) && i <= |g| && r == DecodePrecision(g, i, s)
    ensures DecodePrecision(fmt, k + i, s) == (r.0, k + r.1)
  {
    TailAt(fmt, k, g, i);
    TailAt(fmt, k, g, i + 1);
    if At(g, i) != '.' {
      QualifierMoved(fmt, k, i, s.(precision := -1), g);
    } else if IsDigit(At(g, i + 1)) {
      NumberMoved(fmt, k, i, s, g, r);
    } else if At(g, i + 1) != '*' {
      QualifierMoved(fmt, k, i + 1, s.(precision := -1), g);
    }
  }

  lemma {:induction false} NumberMoved(fmt: string, k: nat, i: nat, s: Spec, g: string, r: (Spec, nat))
    requires Tail(fmt, k, g) && i <= |g| && r == DecodePrecision(g, i, s) && At(g, i) == '.' && IsDigit(At(g, i + 1))
    ensures DecodePrecision(fmt, k + i, s) == (r.0, k + r.1)
  {
    TailAt(fmt, k, g, i);
    TailAt(fmt, k, g, i + 1);
    AtoiMoved(fmt, k, i + 1, 0, g);
    var (v, j) := Atoi(g, i + 1, 0);
    QualifierMoved(fmt, k, j, s.(precision := if ToShort(v) < 0 then 0 else ToShort(v)), g);
  }

  /** The part of DecodeConversion behind the flags. */
  function DecodeWidth(fmt: string, j: nat, s: Spec): (r: (Spec, nat))
    requires j <= |fmt|
    ensures r.1 <= |fmt|
  {
    if IsDigit(At(fmt, j)) then
      var (v, k) := Atoi(fmt, j, 0);
      DecodePrecision(fmt, k, s.(width := ToShort(v)))
    else if At(fmt, j) == '*' then (s.(kind := WidthArg), j + 1)
    else DecodePrecision(fmt, j, s)
  }

  lemma {:induction false} WidthMoved(fmt: string, k: nat, j: nat, s: Spec, g: string, r: (Spec, nat))
    requires Tail(fmt, k, g) && j <= |g| && r == DecodeWidth(g, j, s)
    ensures DecodeWidth(fmt, k + j, s) == (r.0, k + r.1)
  {
    TailAt(fmt, k, g, j);
    if IsDigit(At(g, j)) {
      AtoiMoved(fmt, k, j, 0, g);
      var (v, n) := Atoi(g, j, 0);
      PrecisionMoved(fmt, k, n, s.(width := ToShort(v)), g, r);
    } else if At(g, j) != '*' {
      PrecisionMoved(fmt, k, j, s, g, r);
    }
  }

  lemma BehindFlags(fmt: string, i: nat, s: Spec, f: Flags, j: nat)
    requires i < |fmt| && (f, j) == FlagRun(fmt, i + 1, NOFLAGS)
    ensures DecodeConversion(fmt, i, s) == DecodeWidth(fmt, j, s.(kind := Plain, flags := f, width := -1))
  {
  }

  lemma {:induction false} ConversionMoved(fmt: string, k: nat, i: nat, s: Spec, g: string, r: (Spec, nat))
    requires Tail(fmt, k, g) && i < |g| && r == DecodeConversion(g, i, s)
    ensures DecodeConversion(fmt, k + i, s) == (r.0, k + r.1)
  {
    FlagRunMoved(fmt, k, i + 1, NOFLAGS, g);
    var (f, j) := FlagRun(g, i + 1, NOFLAGS);
    BehindFlags(g, i, s, f, j);
    BehindFlags(fmt, k + i, s, f, k + j);
    WidthMoved(fmt, k, j, s.(kind := Plain, flags := f, width := -1), g, r);
  }

  lemma {:induction false} ResumedMoved(fmt: string, k: nat, i: nat, s: Spec, g: string, r: (Spec, nat))
    requires Tail(fmt, k, g) && i <= |g| && s.kind.WidthArg? && r == Decode(g, i, s)
    ensures Decode(fmt, k + i, s) == (r.0, k + r.1)
  {
    var u := if s.width < 0 then s.(width := ToShort(-(s.width as int)), flags := s.flags.(left := true)) else s;
    PrecisionMoved(fmt, k, i, u.(kind := Plain), g, r);
  }

  lemma {:induction false} PlainMoved(fmt: string, k: nat, i: nat, s: Spec, g: string, r: (Spec, nat))
    requires Tail(fmt, k, g) && i <= |g| && !Pending(s) && r == Decode(g, i, s)
    ensures Decode(fmt, k + i, s) == (r.0, k + r.1)
  {
    TextEndMoved(fmt, k, i, g);
    TailAt(fmt, k, g, i);
    if TextEnd(g, i) == i && At(g, i) != NUL {
      NotText(g, i, s);
      NotText(fmt, k + i, s);
      ConversionMoved(fmt, k, i, s, g, r);
    }
  }

  lemma NotText(fmt: string, i: nat, s: Spec)
    requires i < |fmt| && !Pending(s) && TextEnd(fmt, i) == i && fmt[i] != NUL
    ensures Decode(fmt, i, s) == DecodeConversion(fmt, i, s)
  {
  }

  lemma {:induction false} DecodeMoved(fmt: string, k: nat, i: nat, s: Spec, g: string, r: (Spec, nat))
    requires Tail(fmt, k, g) && i <= |g| && r == Decode(g, i, s)
    ensures Decode(fmt, k + i, s) == (r.0, k + r.1)
  {
    if s.kind.WidthArg? {
      ResumedMoved(fmt, k, i, s, g, r);
    } else if s.kind.PrecisionArg? {
      QualifierMoved(fmt, k, i, s.(kind := Plain, precision := if s.precision < 0 then 0 else s.precision), g);
    } else {
      PlainMoved(fmt, k, i, s, g, r);
    }
  }

  // ---- any way to print a conversion ----

  type Print = (Spec, seq<Arg>) -> string

  /** A turn, printing conversions that way. */
  function TurnBy(conv: Print, fmt: string, i: nat, s: Spec, j: nat, args: seq<Arg>): (t: Turn)
    requires i <= j <= |fmt|
    ensures j <= t.pos <= |fmt|
  {
    if s.kind.Plain? then Turn(fmt[i..j], j, s, args)
    else if s.kind.WidthArg? then Turn("", j, s.(width := ToShort(NextInt(args))), Rest(args))
    else if s.kind.PrecisionArg? then Turn("", j, s.(precision := ToShort(NextInt(args))), Rest(args))
    else Turn(conv(s, args), if s.kind.PtrKind? then SkipAlnum(fmt, j) else j, s, ConvertRest(s, args))
  }

  lemma {:induction false} ByMoved(conv: Print, fmt: string, k: nat, i: nat, s: Spec, j: nat, args: seq<Arg>, g: string)
    requires Tail(fmt, k, g) && i <= j <= |g|
    ensures var t := TurnBy(conv, g, i, s, j, args); TurnBy(conv, fmt, k + i, s, k + j, args) == t.(pos := k + t.pos)
  {
    if s.kind.PtrKind? {
      AlnumMoved(fmt, k, j, g);
    } else if s.kind.Plain? {
      SliceMoved(fmt, k, i, j, g);
    }
  }

  // ---- any way to make a turn ----

  type Step = (string, nat, Spec, seq<Arg>) -> Turn

  /** A place where a turn is made. */
  ghost predicate Use(fmt: string, i: nat, s: Spec, args: seq<Arg>) { true }

  /** Turns as vsnprintf makes them. */
  ghost predicate IsTurn(step: Step) {
    forall f: string, i: nat, s: Spec, args: seq<Arg> {:trigger Use(f, i, s, args)} ::
      Use(f, i, s, args) && (i <= |f| ==> step(f, i, s, args) == TurnOf(f, i, s, args))
  }

  /** The same, as TurnBy makes them. */
  ghost predicate IsBy(step: Step, conv: Print) {
    forall f: string, i: nat, s: Spec, args: seq<Arg> {:trigger Use(f, i, s, args)} ::
      Use(f, i, s, args) && (i <= |f| ==> step(f, i, s, args) == (var (u, j) := Decode(f, i, s); TurnBy(conv, f, i, u, j, args)))
  }

  /** A turn that gets closer to the end. */
  predicate Closer(fmt: string, i: nat, spec: Spec, t: Turn)
    requires i <= |fmt|
  {
    t.pos <= |fmt| && Left(fmt, t.pos, t.spec) < Left(fmt, i, spec)
  }

  /** Turns in fmt from k on are those in g. */
  ghost predicate SameTurns(step: Step, fmt: string, k: nat, g: string) {
    forall i: nat, s: Spec, args: seq<Arg> {:trigger step(g, i, s, args)} :: i <= |g| ==>
      var t := step(g, i, s, args); step(fmt, k + i, s, args) == t.(pos := k + t.pos)
  }

  /** The text of a format, turn by turn. */
  ghost function TextBy(step: Step, fmt: string, i: nat, spec: Spec, args: seq<Arg>): string
    requires i <= |fmt|
    decreases Left(fmt, i, spec)
  {
    var t := step(fmt, i, spec, args);
    if At(fmt, i) == NUL || !Closer(fmt, i, spec, t) then "" else t.text + TextBy(step, fmt, t.pos, t.spec, t.args)
  }

  lemma {:induction false} TextIs(step: Step, fmt: string, i: nat, spec: Spec, args: seq<Arg>)
    requires IsTurn(step) && i <= |fmt|
    ensures TextBy(step, fmt, i, spec, args) == Rendered(fmt, i, spec, args)
    decreases Left(fmt, i, spec)
  {
    if At(fmt, i) != NUL {
      assert Use(fmt, i, spec, args);
      var t := step(fmt, i, spec, args);
      TextIs(step, fmt, t.pos, t.spec, t.args);
    }
  }

  lemma {:induction false} SameRest(step: Step, fmt: string, k: nat, i: nat, spec: Spec, args: seq<Arg>, g: string)
    requires SameTurns(step, fmt, k, g) && Tail(fmt, k, g) && i <= |g|
    ensures TextBy(step, fmt, k + i, spec, args) == TextBy(step, g, i, spec, args)
    decreases Left(g, i, spec)
  {
    TailAt(fmt, k, g, i);
    var t := step(g, i, spec, args);
    if At(g, i) != NUL && Closer(g, i, spec, t) {
      SameRest(step, fmt, k, t.pos, t.spec, t.args, g);
    }
  }

  /** A turn at k + i in fmt does what one at i in g does. */
  lemma {:induction false} TurnSame(step: Step, conv: Print, fmt: string, k: nat, i: nat, s: Spec, args: seq<Arg>, g: string)
    requires IsBy(step, conv) && Tail(fmt, k, g) && i <= |g|
    ensures var t := step(g, i, s, args); step(fmt, k + i, s, args) == t.(pos := k + t.pos)
  {
    assert Use(g, i, s, args) && Use(fmt, k + i, s, args);
    var r := Decode(g, i, s);
    DecodeMoved(fmt, k, i, s, g, r);
    ByMoved(conv, fmt, k, i, r.0, r.1, args, g);
  }

  lemma {:induction false} TurnsSame(step: Step, conv: Print, fmt: string, k: nat, g: string)
    requires IsBy(step, conv) && Tail(fmt, k, g)
    ensures SameTurns(step, fmt, k, g)
  {
    forall i: nat, s: Spec, args: seq<Arg> | i <= |g| ensures var t := step(g, i, s, args); step(fmt, k + i, s, args) == t.(pos := k + t.pos) {
      TurnSame(step, conv, fmt, k, i, s, args, g);
    }
  }

  lemma {:induction false} MovedBy(step: Step, conv: Print, fmt: string, k: nat, spec: Spec, args: seq<Arg>, g: string, t: string, u: string)
    requires IsTurn(step) && IsBy(step, conv) && Tail(fmt, k, g) && t == Rendered(fmt, k, spec, args) && u == Rendered(g, 0, spec, args)
    ensures t == u
  {
    TurnsSame(step, conv, fmt, k, g);
    TextIs(step, fmt, k, spec, args);
    TextIs(step, g, 0, spec, args);
    SameRest(step, fmt, k, 0, spec, args, g);
  }

  /** What fmt prints from k on is what the rest prints. */
  lemma {:induction false} RenderedMoved(fmt: string, k: nat, spec: Spec, args: seq<Arg>, g: string)
    requires Tail(fmt, k, g)
    ensures Rendered(fmt, k, spec, args) == Rendered(g, 0, spec, args)
  {
    var step := (f: string, i: nat, s: Spec, a: seq<Arg>) => if i <= |f| then TurnOf(f, i, s, a) else Turn("", i, s, a);
    var conv := (s: Spec, a: seq<Arg>) => ConvertText(s, a);
    assert IsTurn(step) && IsBy(step, conv);
    MovedBy(step, conv, fmt, k, spec, args, g, Rendered(fmt, k, spec, args), Rendered(g, 0, spec, args));
  }

  // ---- literal text ----

  lemma {:induction false} TextRuns(fmt: string, i: nat, k: nat)
    requires i <= k <= |fmt| && forall n :: i <= n < k ==> fmt[n] != '%' && fmt[n] != NUL
    ensures TextEnd(fmt, i) == TextEnd(fmt, k)
    decreases k - i
  {
    if i < k { TextRuns(fmt, i + 1, k); }
  }

  /** Text without percent signs prints itself, and then what follows. */
  lemma {:induction false} LiteralRendered(fmt: string, i: nat, k: nat, s: Spec, args: seq<Arg>)
    requires i <= k <= |fmt| && (forall n :: i <= n < k ==> fmt[n] != '%' && fmt[n] != NUL) && !Pending(s)
    ensures Rendered(fmt, i, s, args) == fmt[i..k] + Rendered(fmt, k, s, args)
  {
    if i == k {
      assert fmt[i..k] == "";
    } else {
      TextRuns(fmt, i, k);
      var e, plain := TextEnd(fmt, i), s.(kind := Plain);
      RestOfText(fmt, i, e, s, plain, args);
      RestOfText(fmt, k, e, s, plain, args);
      assert fmt[i..e] == fmt[i..k] + fmt[k..e];
      Glue(fmt[i..k], fmt[k..e], Rendered(fmt, e, plain, args));
    }
  }

  lemma Glue(a: string, b: string, c: string)
    ensures (a + b) + c == a + (b + c)
  {
  }

  lemma {:induction false} RestOfText(fmt: string, k: nat, e: nat, s: Spec, plain: Spec, args: seq<Arg>)
    requires k <= |fmt| && e == TextEnd(fmt, k) && !Pending(s) && plain == s.(kind := Plain)
    ensures Rendered(fmt, k, s, args) == fmt[k..e] + Rendered(fmt, e, plain, args)
  {
    if k == e {
      RenderedLike(fmt, k, s, plain, args);
      assert fmt[k..e] == "";
    } else {
      assert TurnOf(fmt, k, s, args) == Turn(fmt[k..e], e, plain, args);
    }
  }

  // ---- a conversion ----

  /** The text from a turn on for which s has been decoded up to j. */
  function Finish(fmt: string, s: Spec, j: nat, args: seq<Arg>): string
    requires j <= |fmt| && !s.kind.Plain?
  {
    var t := TurnFrom(fmt, j, s, j, args);
    t.text + Rendered(fmt, t.pos, t.spec, t.args)
  }

  lemma {:induction false} RenderedFinish(fmt: string, i: nat, spec: Spec, args: seq<Arg>, s: Spec, j: nat)
    requires i <= |fmt| && At(fmt, i) != NUL && Decode(fmt, i, spec) == (s, j) && !s.kind.Plain?
    ensures Rendered(fmt, i, spec, args) == Finish(fmt, s, j, args)
  {
    assert TurnOf(fmt, i, spec, args) == TurnFrom(fmt, j, s, j, args);
  }

  /** A turn that only takes an argument prints nothing. */
  lemma PendingFinish(fmt: string, s: Spec, j: nat, args: seq<Arg>, taken: Spec)
    requires j <= |fmt| && Pending(s)
    requires taken == if s.kind.WidthArg? then s.(width := ToShort(NextInt(args))) else s.(precision := ToShort(NextInt(args)))
    ensures Finish(fmt, s, j, args) == Rendered(fmt, j, taken, Rest(args))
  {
    assert "" + Rendered(fmt, j, taken, Rest(args)) == Rendered(fmt, j, taken, Rest(args));
  }

  /** The precision that a conversion has, and the arguments behind it: a negative argument counts as zero. */
  function PrecisionTaken(fmt: string, b: nat, d: nat, args: seq<Arg>): (short, seq<Arg>)
    requires b <= d <= |fmt| && PrecisionPart(fmt, b, d)
  {
    if StarPrecision(fmt, b, d) then
      var p := ToShort(NextInt(args));
      (if p < 0 then 0 else p, Rest(args))
    else (PrecisionOf(fmt, b, d), args)
  }

  lemma {:induction false} FinishPrecision(fmt: string, b: nat, d: nat, e: nat, spec: Spec, args: seq<Arg>, p: short, rest: seq<Arg>, s: Spec)
    requires b <= d <= e < |fmt| && PrecisionPart(fmt, b, d) && IsQualifierText(fmt[d..e]) && IsLetter(fmt[e])
    requires (p, rest) == PrecisionTaken(fmt, b, d, args)
    requires s == Converted(spec.(qualifier := QualifierOf(fmt[d..e]), base := 10, precision := p), fmt[e])
    ensures var (t, j) := DecodePrecision(fmt, b, spec); Finish(fmt, t, j, args) == Finish(fmt, s, ReadEnd(fmt, e), rest)
  {
    if StarPrecision(fmt, b, d) {
      PrecisionStar(fmt, b, d, spec);
      StarTurn(fmt, d, e, spec.(precision := -1, kind := PrecisionArg), args, p, s);
    } else {
      PrecisionRead(fmt, b, d, e, spec);
    }
  }

  lemma {:induction false} StarTurn(fmt: string, d: nat, e: nat, pending: Spec, args: seq<Arg>, p: short, s: Spec)
    requires d <= e < |fmt| && IsQualifierText(fmt[d..e]) && IsLetter(fmt[e]) && pending.kind.PrecisionArg?
    requires p == if ToShort(NextInt(args)) < 0 then 0 else ToShort(NextInt(args))
    requires s == Converted(pending.(kind := Plain, qualifier := QualifierOf(fmt[d..e]), base := 10, precision := p), fmt[e])
    ensures Finish(fmt, pending, d, args) == Finish(fmt, s, ReadEnd(fmt, e), Rest(args))
  {
    var taken := pending.(precision := ToShort(NextInt(args)));
    LetterEnds(fmt, d, e);
    TailRead(fmt, d, e, taken.(kind := Plain, precision := p));
    assert Decode(fmt, d, taken) == (s, ReadEnd(fmt, e));
    RenderedFinish(fmt, d, taken, Rest(args), s, ReadEnd(fmt, e));
    PendingFinish(fmt, pending, d, args, taken);
  }

  /** Flags and width that a conversion has, and the arguments behind them: a negative argument puts it to the left. */
  function FrontTaken(fmt: string, i: nat, a: nat, b: nat, args: seq<Arg>): (Flags, short, seq<Arg>)
    requires i < a <= b <= |fmt| && WidthPart(fmt, a, b)
  {
    var f := FlagsOf(fmt[i + 1..a]);
    if StarWidth(fmt, a, b) then
      var w := ToShort(NextInt(args));
      (if w < 0 then f.(left := true) else f, if w < 0 then ToShort(-(w as int)) else w, Rest(args))
    else (f, WidthOf(fmt, a, b), args)
  }

  /** What a conversion comes to for these arguments, and the arguments it leaves for its own value. */
  function Takes(fmt: string, i: nat, a: nat, b: nat, d: nat, e: nat, args: seq<Arg>): (Spec, seq<Arg>)
    requires Conversion(fmt, i, a, b, d, e)
  {
    var (f, w, more) := FrontTaken(fmt, i, a, b, args);
    var (p, rest) := PrecisionTaken(fmt, b, d, more);
    (Converted(Spec(Plain, f, 10, QualifierOf(fmt[d..e]), w, p), fmt[e]), rest)
  }

  lemma {:induction false} FinishFront(fmt: string, i: nat, a: nat, b: nat, spec: Spec, args: seq<Arg>, s: Spec, more: seq<Arg>)
    requires i < a <= b < |fmt| && fmt[i] == '%' && FlagsOnly(fmt[i + 1..a]) && WidthPart(fmt, a, b) && !Pending(spec)
    requires !IsFlag(fmt[b]) && !IsDigit(fmt[b]) && fmt[b] != '*' && fmt[b] != NUL
    requires var (f, w, m) := FrontTaken(fmt, i, a, b, args); s == spec.(kind := Plain, flags := f, width := w) && more == m
    ensures var (t, j) := DecodePrecision(fmt, b, s); Rendered(fmt, i, spec, args) == Finish(fmt, t, j, more)
  {
    var (t, j) := DecodePrecision(fmt, b, s);
    assert TextEnd(fmt, i) == i && Decode(fmt, i, spec) == DecodeConversion(fmt, i, spec);
    if StarWidth(fmt, a, b) {
      var pending := spec.(kind := WidthArg, flags := FlagsOf(fmt[i + 1..a]), width := -1);
      FrontStar(fmt, i, a, b, spec);
      RenderedFinish(fmt, i, spec, args, pending, b);
      WidthTurn(fmt, b, pending, args, s, t, j);
    } else {
      WidthStarts(fmt, a, b);
      FrontRead(fmt, i, a, b, spec, s);
      RenderedFinish(fmt, i, spec, args, t, j);
    }
  }

  lemma {:induction false} WidthTurn(fmt: string, b: nat, pending: Spec, args: seq<Arg>, s: Spec, t: Spec, j: nat)
    requires b < |fmt| && fmt[b] != NUL && pending.kind.WidthArg? && (t, j) == DecodePrecision(fmt, b, s)
    requires var w := ToShort(NextInt(args));
      s.flags == (if w < 0 then pending.flags.(left := true) else pending.flags) && s.width == (if w < 0 then ToShort(-(w as int)) else w)
      && s == pending.(kind := Plain, flags := s.flags, width := s.width)
    ensures Finish(fmt, pending, b, args) == Finish(fmt, t, j, Rest(args))
  {
    var taken := pending.(width := ToShort(NextInt(args)));
    WidthResumed(fmt, b, taken, s, t, j);
    RenderedFinish(fmt, b, taken, Rest(args), t, j);
    PendingFinish(fmt, pending, b, args, taken);
  }

  lemma WidthResumed(fmt: string, b: nat, taken: Spec, s: Spec, t: Spec, j: nat)
    requires b < |fmt| && taken.kind.WidthArg? && (t, j) == DecodePrecision(fmt, b, s)
    requires s == if taken.width < 0 then taken.(kind := Plain, width := ToShort(-(taken.width as int)), flags := taken.flags.(left := true)) else taken.(kind := Plain)
    ensures Decode(fmt, b, taken) == (t, j)
  {
  }

  /** Where the text behind a conversion goes on: a pointer takes the letters and digits behind it along. */
  function TextAfter(fmt: string, e: nat): nat
    requires e < |fmt|
  {
    if fmt[e] == 'p' then SkipAlnum(fmt, e) else e + 1
  }

  /** Every conversion prints its text, and then what follows. */
  lemma {:induction false} ConversionRendered(fmt: string, i: nat, a: nat, b: nat, d: nat, e: nat, spec: Spec, args: seq<Arg>, s: Spec, rest: seq<Arg>)
    requires Conversion(fmt, i, a, b, d, e) && !Pending(spec) && (s, rest) == Takes(fmt, i, a, b, d, e, args)
    ensures TextAfter(fmt, e) <= |fmt|
    ensures Rendered(fmt, i, spec, args) == ConvertText(s, rest) + Rendered(fmt, TextAfter(fmt, e), spec, ConvertRest(s, rest))
  {
    var (f, w, more) := FrontTaken(fmt, i, a, b, args);
    var (p, r) := PrecisionTaken(fmt, b, d, more);
    var u := spec.(kind := Plain, flags := f, width := w);
    PartEnds(fmt, b, d, e);
    FinishFront(fmt, i, a, b, spec, args, u, more);
    FinishPrecision(fmt, b, d, e, u, more, p, rest, s);
    RenderedLike(fmt, TextAfter(fmt, e), s, spec, ConvertRest(s, rest));
  }

  // ---- formats put together ----

  /** The parts of a conversion at the start of conv, and of one at k in fmt, are the same. */
  predicate SameParts(conv: string, a: nat, b: nat, d: nat, e: nat, fmt: string, k: nat)
    requires Conversion(conv, 0, a, b, d, e) && Conversion(fmt, k, k + a, k + b, k + d, k + e)
  {
    && FlagsOf(fmt[k + 1..k + a]) == FlagsOf(conv[1..a]) && QualifierOf(fmt[k + d..k + e]) == QualifierOf(conv[d..e])
    && WidthOf(fmt, k + a, k + b) == WidthOf(conv, a, b) && PrecisionOf(fmt, k + b, k + d) == PrecisionOf(conv, b, d)
    && StarWidth(fmt, k + a, k + b) == StarWidth(conv, a, b) && StarPrecision(fmt, k + b, k + d) == StarPrecision(conv, b, d)
    && fmt[k + e] == conv[e]
  }

  lemma {:induction false} WidthIn(conv: string, fmt: string, k: nat, a: nat, b: nat)
    requires a <= b <= |conv| && WidthPart(conv, a, b) && k + |conv| <= |fmt| && fmt[k..k + |conv|] == conv
    ensures WidthPart(fmt, k + a, k + b)
    ensures WidthOf(fmt, k + a, k + b) == WidthOf(conv, a, b) && StarWidth(fmt, k + a, k + b) == StarWidth(conv, a, b)
  {
    SliceIn(conv, fmt, k, a, b);
    if a < b { SliceIn(conv, fmt, k, a, a + 1); }
  }

  lemma {:induction false} PrecisionIn(conv: string, fmt: string, k: nat, b: nat, d: nat)
    requires b <= d <= |conv| && PrecisionPart(conv, b, d) && k + |conv| <= |fmt| && fmt[k..k + |conv|] == conv
    ensures PrecisionPart(fmt, k + b, k + d)
    ensures PrecisionOf(fmt, k + b, k + d) == PrecisionOf(conv, b, d) && StarPrecision(fmt, k + b, k + d) == StarPrecision(conv, b, d)
  {
    if b < d {
      SliceIn(conv, fmt, k, b, b + 1);
      SliceIn(conv, fmt, k, b + 1, d);
      if b + 1 < d { SliceIn(conv, fmt, k, b + 1, b + 2); }
    }
  }

  /** A conversion is one wherever it stands. */
  lemma {:induction false} ConversionIn(conv: string, fmt: string, k: nat, a: nat, b: nat, d: nat, e: nat)
    requires Conversion(conv, 0, a, b, d, e) && e + 1 == |conv| && k + |conv| <= |fmt| && fmt[k..k + |conv|] == conv
    ensures Conversion(fmt, k, k + a, k + b, k + d, k + e) && SameParts(conv, a, b, d, e, fmt, k)
  {
    SliceIn(conv, fmt, k, 0, 1);
    SliceIn(conv, fmt, k, 1, a);
    WidthIn(conv, fmt, k, a, b);
    PrecisionIn(conv, fmt, k, b, d);
    SliceIn(conv, fmt, k, d, e);
    SliceIn(conv, fmt, k, e, e + 1);
  }

  lemma SliceIn(conv: string, fmt: string, k: nat, i: nat, j: nat)
    requires i <= j <= |conv| && k + |conv| <= |fmt| && fmt[k..k + |conv|] == conv
    ensures fmt[k + i..k + j] == conv[i..j]
    ensures i < j ==> fmt[k + i] == conv[i]
  {
    forall m | i <= m < j ensures fmt[k + m] == conv[m] {
      assert fmt[k..k + |conv|][m] == conv[m];
    }
  }

  /** A format of text, a conversion and a rest prints the text, what the conversion comes to, and the rest. Behind a
      pointer the rest must not go on with a letter or a digit. */
  lemma {:induction false} RenderedParts(lit: string, conv: string, tail: string, a: nat, b: nat, d: nat, e: nat, args: seq<Arg>,
                                         fmt: string, s: Spec, rest: seq<Arg>, t: string, next: seq<Arg>)
    requires NUL !in lit && '%' !in lit && Conversion(conv, 0, a, b, d, e) && e + 1 == |conv|
    requires conv[e] == 'p' ==> !IsAlnum(At(tail, 0))
    requires fmt == lit + conv + tail && (s, rest) == Takes(conv, 0, a, b, d, e, args)
    requires t == ConvertText(s, rest) && next == ConvertRest(s, rest)
    ensures Rendered(fmt, 0, INITIAL, args) == lit + t + Rendered(tail, 0, INITIAL, next)
  {
    var k := |lit|;
    var n := k + |conv|;
    PartsOf(lit, conv, tail, fmt, k, n);
    var u, w := Rendered(tail, 0, INITIAL, next), Rendered(fmt, k, INITIAL, args);
    PartRendered(fmt, k, n, conv, tail, a, b, d, e, args, s, rest, t, next, u, w);
    PartsJoin(lit, conv, tail, fmt, k, args, t, u);
  }

  lemma PartsJoin(lit: string, conv: string, tail: string, fmt: string, k: nat, args: seq<Arg>, t: string, u: string)
    requires fmt == lit + conv + tail && k == |lit| && NUL !in lit && '%' !in lit && Rendered(fmt, k, INITIAL, args) == t + u
    ensures Rendered(fmt, 0, INITIAL, args) == lit + t + u
  {
    PartsOf(lit, conv, tail, fmt, k, k + |conv|);
    LiteralFirst(fmt, k, lit, args);
    Chain(Rendered(fmt, 0, INITIAL, args), lit, Rendered(fmt, k, INITIAL, args), t, u);
  }

  lemma Chain(whole: string, lit: string, w: string, t: string, u: string)
    requires whole == lit + w && w == t + u
    ensures whole == lit + t + u
  {
  }

  lemma LiteralFirst(fmt: string, k: nat, lit: string, args: seq<Arg>)
    requires k <= |fmt| && fmt[0..k] == lit && forall n :: 0 <= n < k ==> fmt[n] != '%' && fmt[n] != NUL
    ensures Rendered(fmt, 0, INITIAL, args) == lit + Rendered(fmt, k, INITIAL, args)
  {
    LiteralRendered(fmt, 0, k, INITIAL, args);
  }

  lemma PartsOf(lit: string, conv: string, tail: string, fmt: string, k: nat, n: nat)
    requires fmt == lit + conv + tail && k == |lit| && n == k + |conv| && NUL !in lit && '%' !in lit
    ensures n <= |fmt| && fmt[0..k] == lit && fmt[k..n] == conv && Tail(fmt, n, tail)
    ensures forall n :: 0 <= n < k ==> fmt[n] != '%' && fmt[n] != NUL
  {
    TailBehind(fmt, lit + conv, tail);
    assert forall n :: 0 <= n < k ==> fmt[n] == lit[n];
  }

  lemma TailBehind(fmt: string, front: string, tail: string)
    requires fmt == front + tail
    ensures Tail(fmt, |front|, tail)
  {
    forall i: nat ensures Spot(tail, i) && At(tail, i) == At(fmt, |front| + i) {
    }
  }

  lemma {:induction false} PartRendered(fmt: string, k: nat, n: nat, conv: string, tail: string, a: nat, b: nat, d: nat, e: nat, args: seq<Arg>,
                                        s: Spec, rest: seq<Arg>, t: string, next: seq<Arg>, u: string, w: string)
    requires Conversion(conv, 0, a, b, d, e) && e + 1 == |conv| && n == k + |conv| <= |fmt| && fmt[k..n] == conv
    requires Tail(fmt, n, tail) && (conv[e] == 'p' ==> !IsAlnum(At(tail, 0)))
    requires (s, rest) == Takes(conv, 0, a, b, d, e, args) && t == ConvertText(s, rest) && next == ConvertRest(s, rest)
    requires u == Rendered(tail, 0, INITIAL, next) && w == Rendered(fmt, k, INITIAL, args)
    ensures w == t + u
  {
    var a', b', d', e' := k + a, k + b, k + d, k + e;
    PartIn(conv, fmt, k, a, b, d, e, args, s, rest, a', b', d', e');
    AfterIn(fmt, e', n, tail);
    PartBoth(fmt, k, a', b', d', e', n, args, s, rest, t, next, tail, u, w);
  }

  lemma {:induction false} PartBoth(fmt: string, k: nat, a: nat, b: nat, d: nat, e: nat, n: nat, args: seq<Arg>, s: Spec, rest: seq<Arg>, t: string, next: seq<Arg>,
                                    tail: string, u: string, w: string)
    requires Conversion(fmt, k, a, b, d, e) && (s, rest) == Takes(fmt, k, a, b, d, e, args) && n <= |fmt| && TextAfter(fmt, e) == n
    requires t == ConvertText(s, rest) && next == ConvertRest(s, rest) && Tail(fmt, n, tail)
    requires u == Rendered(tail, 0, INITIAL, next) && w == Rendered(fmt, k, INITIAL, args)
    ensures w == t + u
  {
    RenderedMoved(fmt, n, INITIAL, next, tail);
    PartHere(fmt, k, a, b, d, e, n, args, s, rest, t, next, INITIAL, u);
  }

  /** A conversion whose rest prints u. */
  lemma {:induction false} PartHere(fmt: string, k: nat, a: nat, b: nat, d: nat, e: nat, n: nat, args: seq<Arg>, s: Spec, rest: seq<Arg>, t: string, next: seq<Arg>,
                                    spec: Spec, u: string)
    requires Conversion(fmt, k, a, b, d, e) && (s, rest) == Takes(fmt, k, a, b, d, e, args) && n <= |fmt| && TextAfter(fmt, e) == n
    requires t == ConvertText(s, rest) && next == ConvertRest(s, rest) && !Pending(spec) && u == Rendered(fmt, n, spec, next)
    ensures Rendered(fmt, k, spec, args) == t + u
  {
    ConversionRendered(fmt, k, a, b, d, e, spec, args, s, rest);
  }

  lemma {:induction false} PartIn(conv: string, fmt: string, k: nat, a: nat, b: nat, d: nat, e: nat, args: seq<Arg>, s: Spec, rest: seq<Arg>,
                                  a': nat, b': nat, d': nat, e': nat)
    requires Conversion(conv, 0, a, b, d, e) && e + 1 == |conv| && k + |conv| <= |fmt| && fmt[k..k + |conv|] == conv
    requires (s, rest) == Takes(conv, 0, a, b, d, e, args) && a' == k + a && b' == k + b && d' == k + d && e' == k + e
    ensures Conversion(fmt, k, a', b', d', e') && Takes(fmt, k, a', b', d', e', args) == (s, rest)
    ensures fmt[e'] == conv[e]
  {
    ConversionIn(conv, fmt, k, a, b, d, e);
    TakesIn(conv, fmt, k, a, b, d, e, args, s, rest);
  }

  lemma AfterIn(fmt: string, e: nat, n: nat, tail: string)
    requires n == e + 1 <= |fmt| && Tail(fmt, n, tail) && (fmt[e] == 'p' ==> !IsAlnum(At(tail, 0)))
    ensures TextAfter(fmt, e) == n
  {
    TailAt(fmt, n, tail, 0);
    if fmt[e] == 'p' { assert SkipAlnum(fmt, n) == n; }
  }

  lemma {:induction false} TakesIn(conv: string, fmt: string, k: nat, a: nat, b: nat, d: nat, e: nat, args: seq<Arg>, s: Spec, rest: seq<Arg>)
    requires Conversion(conv, 0, a, b, d, e) && Conversion(fmt, k, k + a, k + b, k + d, k + e)
    requires SameParts(conv, a, b, d, e, fmt, k) && (s, rest) == Takes(conv, 0, a, b, d, e, args)
    ensures Takes(fmt, k, k + a, k + b, k + d, k + e, args) == (s, rest)
  {
    assert FrontTaken(fmt, k, k + a, k + b, args) == FrontTaken(conv, 0, a, b, args);
    var more := FrontTaken(conv, 0, a, b, args).2;
    assert PrecisionTaken(fmt, k + b, k + d, more) == PrecisionTaken(conv, b, d, more);
  }

  // ---- a dot alone ----

  predicate Blank(t: string) { forall k :: 0 <= k < |t| ==> t[k] == ' ' }

  /** A blank string is a blank field; only blank strings are. */
  lemma {:induction false} BlankField(str: string, s: Spec, t: string)
    requires s.precision == -1 && t == StringText(str, s)
    ensures Blank(t) <==> Blank(str)
  {
    StringShape(str, s, t);
    var at := if s.flags.left then 0 else |t| - |str|;
    assert t[at..at + |str|] == str;
    forall k | 0 <= k < |str| ensures t[at + k] == str[k] {
      assert t[at..at + |str|][k] == str[k];
    }
    forall k | 0 <= k < |t| ensures t[k] == ' ' || (at <= k < at + |str| && t[at + (k - at)] == str[k - at]) {
    }
  }

  /** The standard takes a dot alone for precision 0; here it counts as none. For a string that is the same exactly
      if the string is blank and no longer than the field. */
  lemma {:induction false} DotString(str: string, s: Spec, t: string, u: string)
    requires s.precision == -1 && t == StringText(str, s) && u == StringText(str, s.(precision := 0))
    ensures t == u <==> |str| <= Max(s.width as int, 0) && Blank(str)
  {
    BlankField(str, s, t);
    StringShape(str, s, t);
    StringShape(str, s.(precision := 0), u);
    assert Blank(u);
    if Blank(t) && |t| == |u| {
      assert t == u;
    }
  }

  /** For a number it is the same as precision 0. */
  lemma DotNumber(num: nat, base: nat, f: Flags, width: int)
    requires num < PutDec.U64 && IsBase(base)
    ensures NumberText(num, base, f, width, -1) == NumberText(num, base, f, width, 0)
  {
  }
}
