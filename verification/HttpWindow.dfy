/** The window that range requests fill: what one read does to it, as functions. */
module HttpWindow {
  import opened Bytes

  /** struct http_range_ota without its buffer: file size (0 until a reply tells it), requested range, bytes received. */
  datatype Window = Window(size: nat, start: nat, end: nat, count: nat)

  /** How one http_get and the wait behind it go. The host, path and request text pass through the
      buffer; forget says that the server was looked up again, which also forgets the file size.
      A reply is cut into pieces, the first of them behind a header that tells the file size; it may end early. */
  datatype Try =
    | NoConnection(request: seq<byte>, forget: bool)
    | Reply(request: seq<byte>, forget: bool, head: seq<byte>, total: nat, pieces: seq<seq<byte>>)

  function Flat(pieces: seq<seq<byte>>): seq<byte> {
    if pieces == [] then [] else Flat(pieces[..|pieces| - 1]) + pieces[|pieces| - 1]
  }

  // ---- one read ----

  /** The wanted bytes are in the window. */
  predicate Hit(w: Window, seek: nat, len: nat) {
    w.count != 0 && w.start <= seek && seek + len <= w.start + w.count
  }

  /** Where a request starts: as far back as the buffer allows. */
  function RequestStart(cap: nat, seek: nat, len: nat): nat
    requires len <= cap
  {
    if seek > cap - len then seek - (cap - len) else seek
  }

  function RequestEnd(cap: nat, size: nat, start: nat): nat {
    if size != 0 && start + cap > size then size else start + cap
  }

  function SizeAsked(w: Window, t: Try): nat { if t.forget then 0 else w.size }

  /** The window once the request of a miss is out, before anything is received. */
  function Asked(w: Window, cap: nat, seek: nat, len: nat, t: Try): Window
    requires len <= cap
  {
    var start := RequestStart(cap, seek, len);
    Window(SizeAsked(w, t), start, if t.Reply? then RequestEnd(cap, SizeAsked(w, t), start) else w.end, 0)
  }

  /** The bytes of the file that a request is answered with: section 2.1 of RFC 7233 clips it at the end of the file. */
  function Answer(file: seq<byte>, a: Window): seq<byte>
    requires a.start <= |file| && a.start <= a.end
  {
    file[a.start..if a.end < |file| then a.end else |file|]
  }

  /** Everything wanted has been received: the semaphore is posted. */
  predicate Done(w: Window) {
    w.count != 0 && (w.count >= w.end - w.start || (w.count >= w.size && w.size != 0))
  }

  /** The window after the pieces of a reply. */
  function Received(a: Window, file: seq<byte>, pieces: seq<seq<byte>>): Window {
    if pieces == [] then a else a.(size := |file|, count := |Flat(pieces)|)
  }

  /** The window after one call of http_read. */
  function After(w: Window, cap: nat, file: seq<byte>, seek: nat, len: nat, t: Try): Window
    requires len <= cap
  {
    if Hit(w, seek, len) then w
    else if t.NoConnection? then Asked(w, cap, seek, len, t)
    else Received(Asked(w, cap, seek, len, t), file, t.pieces)
  }

  /** http_read answers the read; the answer to a hit is its length, so an empty one counts as none. */
  predicate Answered(w: Window, cap: nat, file: seq<byte>, seek: nat, len: nat, t: Try)
    requires len <= cap
  {
    if Hit(w, seek, len) then len > 0 else t.Reply? && Done(After(w, cap, file, seek, len, t))
  }

  /** The tries of net_f_read: the window they leave, and whether one of them answers. */
  function AfterAll(w: Window, cap: nat, file: seq<byte>, seek: nat, len: nat, tries: seq<Try>): (Window, bool)
    requires len <= cap
    decreases |tries|
  {
    if tries == [] then (w, false)
    else
      var next := After(w, cap, file, seek, len, tries[0]);
      if Answered(w, cap, file, seek, len, tries[0]) then (next, true)
      else AfterAll(next, cap, file, seek, len, tries[1..])
  }

  // ---- what the environment and the caller promise ----

  /** A server that answers with exactly the bytes asked for, in pieces that fit the buffer. */
  predicate Honest(w: Window, cap: nat, file: seq<byte>, seek: nat, len: nat, t: Try)
    requires len <= cap && seek < |file|
  {
    && |t.request| <= cap
    && (t.Reply? ==>
          var a := Asked(w, cap, seek, len, t);
          && a.start <= a.end
          && 0 < |t.head| && t.total == |file|
          && (forall k :: 0 <= k < |t.pieces| ==> 0 < |t.pieces[k]|)
          && (t.pieces != [] ==> |t.head| + |t.pieces[0]| <= cap)
          && Flat(t.pieces) <= Answer(file, a))
  }

  predicate AllHonest(w: Window, cap: nat, file: seq<byte>, seek: nat, len: nat, tries: seq<Try>)
    requires len <= cap && seek < |file|
    decreases |tries|
  {
    tries == [] ||
    ((!Hit(w, seek, len) ==> Honest(w, cap, file, seek, len, tries[0])) &&
     AllHonest(After(w, cap, file, seek, len, tries[0]), cap, file, seek, len, tries[1..]))
  }

  /** A read inside the file that the buffer can hold. */
  predicate Inside(cap: nat, file: seq<byte>, seek: nat, len: nat) {
    len <= cap && seek < |file| && seek + len <= |file|
  }

  /** The window says nothing wrong about the file: its size, if known, and its bytes lie in the file. */
  predicate Sound(w: Window, cap: nat, file: seq<byte>) {
    && (w.size == 0 || w.size == |file|)
    && w.count <= cap
    && w.start + w.count <= |file|
  }

  // ---- requests ----

  /** Every request with a known file size asks for a range inside the file that fits the buffer and covers what is wanted. */
  lemma MissRange(w: Window, cap: nat, file: seq<byte>, seek: nat, len: nat, t: Try)
    requires 0 < cap && Inside(cap, file, seek, len) && Sound(w, cap, file)
    requires t.Reply? && !t.forget && w.size != 0
    ensures var a := Asked(w, cap, seek, len, t);
      a.start <= seek && seek + len <= a.end <= |file| && 0 < a.end - a.start <= cap
  {
  }

  /** With an unknown size it may reach behind the file; what it asks for inside the file still covers what is wanted. */
  lemma AnswerCovers(w: Window, cap: nat, file: seq<byte>, seek: nat, len: nat, t: Try)
    requires 0 < cap && Inside(cap, file, seek, len) && Sound(w, cap, file) && t.Reply?
    ensures var a := Asked(w, cap, seek, len, t);
      && a.start <= seek && a.start < a.end <= a.start + cap
      && 0 < |Answer(file, a)| <= cap && seek + len <= a.start + |Answer(file, a)|
  {
  }

  // ---- replies ----

  lemma {:induction false} FlatSnoc(pieces: seq<seq<byte>>, k: nat)
    requires k < |pieces|
    ensures Flat(pieces[..k + 1]) == Flat(pieces[..k]) + pieces[k]
  {
    assert pieces[..k + 1][..k] == pieces[..k];
  }

  lemma {:induction false} FlatPrefix(pieces: seq<seq<byte>>, k: nat)
    requires k <= |pieces|
    ensures Flat(pieces[..k]) <= Flat(pieces)
    decreases |pieces| - k
  {
    if k < |pieces| {
      FlatSnoc(pieces, k);
      FlatPrefix(pieces, k + 1);
    } else {
      assert pieces[..k] == pieces;
    }
  }

  lemma {:induction false} FlatGrows(pieces: seq<seq<byte>>)
    requires forall k :: 0 <= k < |pieces| ==> 0 < |pieces[k]|
    ensures |Flat(pieces)| >= |pieces|
  {
    if pieces != [] {
      FlatGrows(pieces[..|pieces| - 1]);
    }
  }

  /** Nothing that http_read does makes the window unsound. */
  lemma {:induction false} AfterSound(w: Window, cap: nat, file: seq<byte>, seek: nat, len: nat, t: Try)
    requires 0 < cap && Inside(cap, file, seek, len) && Sound(w, cap, file)
    requires !Hit(w, seek, len) ==> Honest(w, cap, file, seek, len, t)
    ensures Sound(After(w, cap, file, seek, len, t), cap, file)
  {
    if !Hit(w, seek, len) && t.Reply? {
      AnswerCovers(w, cap, file, seek, len, t);
    }
  }

  /** A reply is complete exactly when the whole answer has come and the request did not reach behind
      the file, or started at its beginning. */
  lemma {:induction false} CompleteIff(w: Window, cap: nat, file: seq<byte>, seek: nat, len: nat, t: Try)
    requires 0 < cap && Inside(cap, file, seek, len) && Sound(w, cap, file)
    requires t.Reply? && Honest(w, cap, file, seek, len, t) && !Hit(w, seek, len)
    ensures var a := Asked(w, cap, seek, len, t);
      Answered(w, cap, file, seek, len, t) <==>
        Flat(t.pieces) == Answer(file, a) && (a.end <= |file| || a.start == 0)
  {
    AnswerCovers(w, cap, file, seek, len, t);
    FlatGrows(t.pieces);
  }

  /** The same in the numbers of the read: a miss is answered exactly if everything came from as far back as the buffer
      allows up to a buffer's length further or the end of the file, and the size was known, or that end was not
      cut off, or the request started at the beginning. */
  lemma {:induction false} MissAnswered(w: Window, cap: nat, file: seq<byte>, seek: nat, len: nat, t: Try, start: nat, stop: nat)
    requires 0 < cap && Inside(cap, file, seek, len) && Sound(w, cap, file)
    requires t.Reply? && Honest(w, cap, file, seek, len, t) && !Hit(w, seek, len)
    requires start == (if seek + len > cap then seek + len - cap else seek)
    requires stop == (if start + cap < |file| then start + cap else |file|)
    ensures Answered(w, cap, file, seek, len, t) <==>
      Flat(t.pieces) == file[start..stop] && ((w.size != 0 && !t.forget) || start + cap <= |file| || start == 0)
  {
    CompleteIff(w, cap, file, seek, len, t);
  }

  /** A miss without a connection leaves an empty window, which nothing hits. */
  lemma NoneLeft(w: Window, cap: nat, file: seq<byte>, seek: nat, len: nat, t: Try, seek': nat, len': nat)
    requires len <= cap && !Hit(w, seek, len) && t.NoConnection?
    ensures !Hit(After(w, cap, file, seek, len, t), seek', len')
  {
  }

  /** A known file size never reaches behind the file, so there the whole answer is enough. */
  lemma {:induction false} KnownSizeCompletes(w: Window, cap: nat, file: seq<byte>, seek: nat, len: nat, t: Try)
    requires 0 < cap && Inside(cap, file, seek, len) && Sound(w, cap, file)
    requires t.Reply? && Honest(w, cap, file, seek, len, t) && !Hit(w, seek, len) && !t.forget && w.size != 0
    ensures Answered(w, cap, file, seek, len, t) <==> Flat(t.pieces) == Answer(file, Asked(w, cap, seek, len, t))
  {
    MissRange(w, cap, file, seek, len, t);
    CompleteIff(w, cap, file, seek, len, t);
  }

  /** A reply that breaks off behind the wanted bytes is not lost: the next try finds them in the window. */
  lemma {:induction false} RetryHits(w: Window, cap: nat, file: seq<byte>, seek: nat, len: nat, t: Try)
    requires 0 < cap && Inside(cap, file, seek, len) && Sound(w, cap, file)
    requires t.Reply? && Honest(w, cap, file, seek, len, t) && !Hit(w, seek, len)
    requires Flat(t.pieces) != [] && seek + len <= Asked(w, cap, seek, len, t).start + |Flat(t.pieces)|
    ensures Hit(After(w, cap, file, seek, len, t), seek, len)
  {
    AnswerCovers(w, cap, file, seek, len, t);
  }

  /** One of the tries but the last brings the wanted bytes, even if its reply then breaks off. */
  predicate Brought(w: Window, cap: nat, file: seq<byte>, seek: nat, len: nat, tries: seq<Try>)
    requires len <= cap
    decreases |tries|
  {
    && 2 <= |tries|
    && (|| (tries[0].Reply? && Flat(tries[0].pieces) != [] &&
            seek + len <= Asked(w, cap, seek, len, tries[0]).start + |Flat(tries[0].pieces)|)
        || Brought(After(w, cap, file, seek, len, tries[0]), cap, file, seek, len, tries[1..]))
  }

  /** Then net_f_read answers. */
  lemma {:induction false} BroughtAnswers(w: Window, cap: nat, file: seq<byte>, seek: nat, len: nat, tries: seq<Try>)
    requires 0 < cap && Inside(cap, file, seek, len) && Sound(w, cap, file)
    requires 0 < len && AllHonest(w, cap, file, seek, len, tries) && Brought(w, cap, file, seek, len, tries)
    ensures AfterAll(w, cap, file, seek, len, tries).1
    decreases |tries|
  {
    if !Hit(w, seek, len) {
      var next := After(w, cap, file, seek, len, tries[0]);
      AfterSound(w, cap, file, seek, len, tries[0]);
      if Brought(next, cap, file, seek, len, tries[1..]) {
        BroughtAnswers(next, cap, file, seek, len, tries[1..]);
      } else {
        RetryHits(w, cap, file, seek, len, tries[0]);
        assert Hit(next, seek, len);
      }
    }
  }

  // ---- whole updates ----

  /** Each request of a read lies in reach of the buffer, covers what is wanted with bytes that the file has,
      and stays inside the file if its size is known. */
  predicate RequestsFit(w: Window, cap: nat, file: seq<byte>, seek: nat, len: nat, tries: seq<Try>)
    requires len <= cap
    decreases |tries|
  {
    tries == [] ||
    (&& (!Hit(w, seek, len) && tries[0].Reply? ==>
           var a := Asked(w, cap, seek, len, tries[0]);
           && a.start <= seek && seek + len <= a.end && 0 < a.end - a.start <= cap && a.start < |file|
           && (a.size != 0 ==> a.end <= |file|))
     && RequestsFit(After(w, cap, file, seek, len, tries[0]), cap, file, seek, len, tries[1..]))
  }

  lemma {:induction false} ReadSound(w: Window, cap: nat, file: seq<byte>, seek: nat, len: nat, tries: seq<Try>)
    requires 0 < cap && Inside(cap, file, seek, len) && Sound(w, cap, file) && AllHonest(w, cap, file, seek, len, tries)
    ensures Sound(AfterAll(w, cap, file, seek, len, tries).0, cap, file) && RequestsFit(w, cap, file, seek, len, tries)
    decreases |tries|
  {
    if tries != [] {
      AfterSound(w, cap, file, seek, len, tries[0]);
      ReadSound(After(w, cap, file, seek, len, tries[0]), cap, file, seek, len, tries[1..]);
    }
  }

  /** A read of the update: where the caller has moved to, how much it wants, and how the tries go. */
  datatype Call = Call(seek: nat, len: nat, tries: seq<Try>)

  function Step(w: Window, cap: nat, file: seq<byte>, c: Call): Window
    requires c.len <= cap
  {
    AfterAll(w, cap, file, c.seek, c.len, c.tries).0
  }

  /** Reads inside the file, answered by an honest server. */
  predicate HonestRun(w: Window, cap: nat, file: seq<byte>, calls: seq<Call>)
    decreases |calls|
  {
    calls == [] ||
    (var c := calls[0];
     && Inside(cap, file, c.seek, c.len) && AllHonest(w, cap, file, c.seek, c.len, c.tries)
     && HonestRun(Step(w, cap, file, c), cap, file, calls[1..]))
  }

  /** Along the whole run the requests fit and the window is sound. */
  predicate GoodRun(w: Window, cap: nat, file: seq<byte>, calls: seq<Call>)
    decreases |calls|
  {
    && Sound(w, cap, file)
    && (calls == [] ||
        (var c := calls[0];
         && c.len <= cap && RequestsFit(w, cap, file, c.seek, c.len, c.tries)
         && GoodRun(Step(w, cap, file, c), cap, file, calls[1..])))
  }

  /** So it is on every run, from an empty window or any other that is sound. */
  lemma {:induction false} RunsGood(w: Window, cap: nat, file: seq<byte>, calls: seq<Call>)
    requires 0 < cap && Sound(w, cap, file) && HonestRun(w, cap, file, calls)
    ensures GoodRun(w, cap, file, calls)
    decreases |calls|
  {
    if calls != [] {
      var c := calls[0];
      ReadSound(w, cap, file, c.seek, c.len, c.tries);
      RunsGood(Step(w, cap, file, c), cap, file, calls[1..]);
    }
  }

  // ---- which way the window reads ahead ----

  /** After an answered miss every read between the start of the window and the end of this read is a hit. */
  lemma {:induction false} BackwardHits(w: Window, cap: nat, file: seq<byte>, seek: nat, len: nat, t: Try, seek': nat, len': nat)
    requires 0 < cap && Inside(cap, file, seek, len) && Sound(w, cap, file)
    requires !Hit(w, seek, len) && t.Reply? && Honest(w, cap, file, seek, len, t) && Answered(w, cap, file, seek, len, t)
    requires RequestStart(cap, seek, len) <= seek' && seek' + len' <= seek + len
    ensures Hit(After(w, cap, file, seek, len, t), seek', len')
  {
    AnswerCovers(w, cap, file, seek, len, t);
    CompleteIff(w, cap, file, seek, len, t);
  }

  /** Going on where an answered miss ended hits exactly if the read was within the first buffer and both together
      are no longer than the buffer: behind it the window ends where the read ends. */
  lemma {:induction false} ForwardIff(w: Window, cap: nat, file: seq<byte>, seek: nat, len: nat, t: Try, len': nat)
    requires 0 < cap && Inside(cap, file, seek, len) && Sound(w, cap, file)
    requires !Hit(w, seek, len) && t.Reply? && Honest(w, cap, file, seek, len, t) && Answered(w, cap, file, seek, len, t)
    requires 0 < len' && seek + len + len' <= |file|
    ensures Hit(After(w, cap, file, seek, len, t), seek + len, len') <==> seek <= cap - len && len + len' <= cap
  {
    AnswerCovers(w, cap, file, seek, len, t);
    CompleteIff(w, cap, file, seek, len, t);
  }
}
