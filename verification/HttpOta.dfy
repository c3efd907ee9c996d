/** Reading the firmware file over HTTP: the buffer, its window and the reads that go through it. */
module HttpOta {
  import opened Bytes
  import opened HttpWindow

  const SEEK_SET := 1
  const TRIES := 3

  class HttpOta {
    const buf: array<byte>
    /** The file on the server. */
    ghost const file: seq<byte>
    // http_ota
    var fileSize: nat
    var rangeStart: nat
    var rangeEnd: nat
    var recvOffset: nat
    // net_local
    var seekAddr: nat
    var readSize: nat

    ghost function W(): Window
      reads this
    {
      Window(fileSize, rangeStart, rangeEnd, recvOffset)
    }

    /** The bytes in the window are the file's. */
    ghost predicate Shows()
      reads this, buf
    {
      && Sound(W(), buf.Length, file)
      && buf[..recvOffset] == file[rangeStart..rangeStart + recvOffset]
    }

    ghost predicate Valid()
      reads this, buf
    {
      0 < buf.Length && 0 < |file| && |file| + buf.Length < U32 && Shows()
    }

    /** A read inside the file, into a buffer of the caller. */
    ghost predicate Wanted(dst: array<byte>)
      reads this
    {
      Inside(buf.Length, file, seekAddr, readSize) && dst != buf && readSize <= dst.Length
    }

    /** net_f_open up to its first read. */
    constructor (cap: nat, ghost f: seq<byte>)
      requires 0 < cap && 0 < |f| && |f| + cap < U32
      ensures Valid() && fresh(buf) && buf.Length == cap && file == f
      ensures W() == Window(0, 0, 0, 0) && seekAddr == 0 && readSize == 0
    {
      buf := new byte[cap](_ => 0);
      file := f;
      fileSize, rangeStart, rangeEnd, recvOffset := 0, 0, 0, 0;
      seekAddr, readSize := 0, 0;
    }

    /** net_f_seek */
    method Seek(kind: nat, offset: nat)
      requires offset < U32
      modifies this`seekAddr
      ensures seekAddr == if kind == SEEK_SET then offset else (old(seekAddr) + offset) % U32
    {
      if kind == SEEK_SET {
        seekAddr := offset;
      } else {
        seekAddr := (seekAddr + offset) % U32;
      }
    }

    /** net_f_read: the bytes of the file at the current position, or nothing. */
    method Read(dst: array<byte>, len: nat, tries: seq<Try>) returns (n: nat)
      requires Valid() && Inside(buf.Length, file, seekAddr, len) && dst != buf && len <= dst.Length
      requires |tries| == TRIES && AllHonest(W(), buf.Length, file, seekAddr, len, tries)
      modifies this`readSize, this`fileSize, this`rangeStart, this`rangeEnd, this`recvOffset, buf, dst
      ensures Valid() && seekAddr == old(seekAddr)
      ensures W() == AfterAll(old(W()), buf.Length, file, seekAddr, len, tries).0
      ensures n == if AfterAll(old(W()), buf.Length, file, seekAddr, len, tries).1 then len else 0
      ensures n == len ==> dst[..len] == file[seekAddr..seekAddr + len]
      ensures dst[len..] == old(dst[len..]) && (n < len ==> dst[..] == old(dst[..]))
    {
      readSize := len;
      var cnt := TRIES;
      ghost var w0 := W();
      ghost var all := AfterAll(w0, buf.Length, file, seekAddr, len, tries);
      assert tries[0..] == tries;
      while true
        invariant 0 < cnt <= TRIES && Valid() && Wanted(dst) && readSize == len
        invariant AllHonest(W(), buf.Length, file, seekAddr, len, tries[TRIES - cnt..])
        invariant all == AfterAll(W(), buf.Length, file, seekAddr, len, tries[TRIES - cnt..])
        invariant dst[..] == old(dst[..])
        decreases cnt
      {
        ghost var rest := tries[TRIES - cnt..];
        assert rest[0] == tries[TRIES - cnt] && rest[1..] == tries[TRIES - cnt + 1..];
        cnt := cnt - 1;
        var got := HttpRead(dst, tries[TRIES - 1 - cnt]);
        if got > 0 {
          return len;
        }
        if cnt == 0 {
          assert tries[TRIES - cnt..] == [];
          return 0;
        }
      }
    }

    /** http_read */
    method HttpRead(dst: array<byte>, t: Try) returns (n: nat)
      requires Valid() && Wanted(dst) && (!Hit(W(), seekAddr, readSize) ==> Honest(W(), buf.Length, file, seekAddr, readSize, t))
      modifies this`fileSize, this`rangeStart, this`rangeEnd, this`recvOffset, buf, dst
      ensures Valid() && W() == After(old(W()), buf.Length, file, seekAddr, readSize, t)
      ensures Answered(old(W()), buf.Length, file, seekAddr, readSize, t) <==> n > 0
      ensures n > 0 ==> dst[..readSize] == file[seekAddr..seekAddr + readSize] && dst[readSize..] == old(dst[readSize..])
      ensures n == 0 ==> dst[..] == old(dst[..])
    {
      ghost var w0 := W();
      var hit := Aim();
      if hit {
        CopyOut(dst);
        return readSize;
      }
      n := Fetch(dst, t, w0);
    }

    /** http_read up to its request: whether the window has what is wanted; if not, it is emptied and aimed. */
    method Aim() returns (hit: bool)
      requires Valid() && Inside(buf.Length, file, seekAddr, readSize)
      modifies this`rangeStart, this`recvOffset
      ensures Valid() && hit == Hit(old(W()), seekAddr, readSize)
      ensures W() == if hit then old(W()) else old(W()).(start := RequestStart(buf.Length, seekAddr, readSize), count := 0)
    {
      if rangeStart == 0 && recvOffset == 0 {
        rangeStart := seekAddr;
      }
      if recvOffset == 0 || seekAddr < rangeStart || seekAddr + readSize > rangeStart + recvOffset {
        recvOffset := 0;
        rangeStart := seekAddr;
      } else {
        return true;
      }
      if rangeStart > buf.Length - readSize {
        rangeStart := rangeStart - (buf.Length - readSize);
      }
      return false;
    }

    /** http_read from its request on. */
    method Fetch(dst: array<byte>, t: Try, ghost w0: Window) returns (n: nat)
      requires Valid() && Wanted(dst) && Sound(w0, buf.Length, file) && Honest(w0, buf.Length, file, seekAddr, readSize, t)
      requires W() == w0.(start := RequestStart(buf.Length, seekAddr, readSize), count := 0) && !Hit(w0, seekAddr, readSize)
      modifies this`fileSize, this`rangeEnd, this`recvOffset, buf, dst
      ensures Valid() && W() == After(w0, buf.Length, file, seekAddr, readSize, t)
      ensures Answered(w0, buf.Length, file, seekAddr, readSize, t) <==> n > 0
      ensures n > 0 ==> dst[..readSize] == file[seekAddr..seekAddr + readSize] && dst[readSize..] == old(dst[readSize..])
      ensures n == 0 ==> dst[..] == old(dst[..])
    {
      var err := HttpGet(t);
      if err {
        return 0;
      }
      AnswerCovers(w0, buf.Length, file, seekAddr, readSize, t);
      var posted := Wait(dst, t);
      if !posted {
        return 0;
      }
      return if readSize > 0 then readSize else buf.Length;
    }

    /** memcpy of the wanted bytes from the window to the caller. */
    method CopyOut(dst: array<byte>)
      requires Valid() && Wanted(dst) && rangeStart <= seekAddr && seekAddr + readSize <= rangeStart + recvOffset
      modifies dst
      ensures Valid() && dst[..readSize] == file[seekAddr..seekAddr + readSize] && dst[readSize..] == old(dst[readSize..])
    {
      forall k | 0 <= k < readSize {
        dst[k] := buf[seekAddr - rangeStart + k];
      }
      forall k | 0 <= k < readSize ensures dst[k] == file[seekAddr + k] {
        var j := seekAddr - rangeStart + k;
        assert buf[j] == buf[..recvOffset][j] == file[rangeStart + j];
      }
    }

    /** http_get: its texts overwrite the window; then the range is fixed. */
    method HttpGet(t: Try) returns (err: bool)
      requires Valid() && recvOffset == 0 && |t.request| <= buf.Length
      modifies this`fileSize, this`rangeEnd, this`recvOffset, buf
      ensures Valid() && err == t.NoConnection?
      ensures var size := if t.forget then 0 else old(fileSize);
        W() == Window(size, rangeStart, if err then old(rangeEnd) else RequestEnd(buf.Length, size, rangeStart), 0)
    {
      recvOffset := 0;
      forall k | 0 <= k < |t.request| {
        buf[k] := t.request[k];
      }
      if t.forget {
        fileSize := 0;
      }
      if t.NoConnection? {
        return true;
      }
      var size := buf.Length;
      if fileSize != 0 && rangeStart + buf.Length > fileSize {
        size := fileSize - rangeStart;
      }
      rangeEnd := rangeStart + size;
      return false;
    }

    /** Waiting for the reply: its pieces arrive until the semaphore is posted or the time is up. */
    method Wait(dst: array<byte>, t: Try) returns (posted: bool)
      requires Valid() && Wanted(dst) && recvOffset == 0 && t.Reply?
      requires Arriving(W(), t) && Covers(W())
      modifies this`fileSize, this`recvOffset, buf, dst
      ensures Valid() && W() == Received(old(W()), file, t.pieces) && posted == Done(W())
      ensures posted ==> dst[..readSize] == file[seekAddr..seekAddr + readSize] && dst[readSize..] == old(dst[readSize..])
      ensures !posted ==> dst[..] == old(dst[..])
    {
      ghost var a := W();
      posted := false;
      var k := 0;
      while k < |t.pieces| && !posted
        invariant k <= |t.pieces| && Valid() && Wanted(dst) && W() == Received(a, file, t.pieces[..k])
        invariant posted == Done(W())
        invariant !posted ==> dst[..] == old(dst[..])
        invariant posted ==> dst[..readSize] == file[seekAddr..seekAddr + readSize] && dst[readSize..] == old(dst[readSize..])
      {
        posted := OnePiece(dst, t, k, a);
        k := k + 1;
      }
      if posted {
        NothingLeft(a, file, t.pieces, k);
      }
      assert t.pieces[..|t.pieces|] == t.pieces;
    }

    /** One more piece of the reply. */
    method OnePiece(dst: array<byte>, t: Try, k: nat, ghost a: Window) returns (posted: bool)
      requires Valid() && Wanted(dst) && t.Reply? && Arriving(a, t) && Covers(a) && a.count == 0
      requires k < |t.pieces| && W() == Received(a, file, t.pieces[..k])
      modifies this`fileSize, this`recvOffset, buf, dst
      ensures Valid() && W() == Received(a, file, t.pieces[..k + 1]) && posted == Done(W())
      ensures posted ==> dst[..readSize] == file[seekAddr..seekAddr + readSize] && dst[readSize..] == old(dst[readSize..])
      ensures !posted ==> dst[..] == old(dst[..])
    {
      Piece(a, file, t.pieces, k);
      var head := if k == 0 then t.head else [];
      posted := MsgRecv(head + t.pieces[k], |head|, t.total, dst);
    }

    /** The rest of the wanted range is still to come. */
    ghost predicate Covers(a: Window)
      reads this
    {
      && a.start < |file| && a.start <= seekAddr && a.start < a.end <= a.start + buf.Length
      && seekAddr + readSize <= a.start + |Answer(file, a)|
    }

    ghost predicate Arriving(a: Window, t: Try)
      requires t.Reply?
      reads this
    {
      && a.start < |file| && a.start < a.end && Flat(t.pieces) <= Answer(file, a) && 0 < |t.head| && t.total == |file|
      && (forall k :: 0 <= k < |t.pieces| ==> 0 < |t.pieces[k]|)
      && (t.pieces != [] ==> |t.head| + |t.pieces[0]| <= buf.Length)
    }

    /** msgrecv: data goes behind what is there; the first piece of a reply has a header of that length. */
    method MsgRecv(data: seq<byte>, head: nat, total: nat, dst: array<byte>) returns (posted: bool)
      requires Valid() && Wanted(dst) && Covers(W()) && total == |file| && Next(data, head)
      modifies this`fileSize, this`recvOffset, buf, dst
      ensures Valid() && W() == Grown(old(W()), |data|, head)
      ensures posted == Done(W())
      ensures posted ==> dst[..readSize] == file[seekAddr..seekAddr + readSize] && dst[readSize..] == old(dst[readSize..])
      ensures !posted ==> dst[..] == old(dst[..])
    {
      if recvOffset + |data| <= buf.Length {
        Append(data, head, total);
      }
      posted := recvOffset != 0 && (recvOffset >= rangeEnd - rangeStart || (recvOffset >= fileSize && fileSize != 0));
      if posted && readSize > 0 {
        CopyOut(dst);
      }
    }

    /** The next bytes of the file, behind a header if they are the first. */
    ghost predicate Next(data: seq<byte>, head: nat)
      reads this
    {
      && (if recvOffset == 0 then 0 < head < |data| else head == 0 < |data|)
      && rangeStart + recvOffset + |data| - head <= |file|
      && data[head..] == file[rangeStart + recvOffset..rangeStart + recvOffset + |data| - head]
    }

    /** The window with n more bytes received, the header among them; what does not fit is dropped. */
    ghost function Grown(w: Window, n: nat, head: nat): Window
      requires head <= n
    {
      if w.count + n > buf.Length then w
      else if w.count == 0 then w.(size := |file|, count := n - head)
      else w.(count := w.count + n)
    }

    /** The copying part of msgrecv: a header is cut away and the body moved to the front. */
    method Append(data: seq<byte>, head: nat, total: nat)
      requires Valid() && total == |file| && recvOffset + |data| <= buf.Length && Next(data, head)
      modifies this`fileSize, this`recvOffset, buf
      ensures Valid() && W() == Grown(old(W()), |data|, head)
    {
      if recvOffset == 0 {
        AppendFirst(data, head, total);
      } else {
        AppendMore(data);
      }
    }

    method AppendFirst(data: seq<byte>, head: nat, total: nat)
      requires Valid() && total == |file| && |data| <= buf.Length && recvOffset == 0 && Next(data, head)
      modifies this`fileSize, this`recvOffset, buf
      ensures Valid() && W() == old(W()).(size := |file|, count := |data| - head)
    {
      forall k | 0 <= k < |data| {
        buf[k] := data[k];
      }
      var len := |data| - head;
      fileSize := total;
      forall k | 0 <= k < len {
        buf[k] := buf[head + k];
      }
      buf[len] := 0;
      recvOffset := recvOffset + len;
      forall k | 0 <= k < len ensures buf[k] == file[rangeStart + k] {
        assert buf[k] == data[head..][k];
      }
    }

    method AppendMore(data: seq<byte>)
      requires Valid() && 0 < recvOffset && recvOffset + |data| <= buf.Length && Next(data, 0)
      modifies this`recvOffset, buf
      ensures Valid() && W() == old(W()).(count := old(recvOffset) + |data|)
    {
      ghost var b, at := buf[..], recvOffset;
      forall k | 0 <= k < |data| {
        buf[recvOffset + k] := data[k];
      }
      recvOffset := recvOffset + |data|;
      forall k | 0 <= k < recvOffset ensures buf[k] == file[rangeStart + k] {
        if k < at {
          assert buf[k] == b[k] == b[..at][k];
        } else {
          assert buf[k] == data[0..][k - at];
        }
      }
    }
  }

  /** The window before and after piece k, which is the next part of the answer. */
  lemma {:induction false} Piece(a: Window, file: seq<byte>, pieces: seq<seq<byte>>, k: nat)
    requires k < |pieces| && a.start < |file| && a.start < a.end && a.count == 0 && Flat(pieces) <= Answer(file, a)
    requires forall i :: 0 <= i < |pieces| ==> 0 < |pieces[i]|
    ensures var w, next := Received(a, file, pieces[..k]), Received(a, file, pieces[..k + 1]);
      && (w.count == 0 <==> k == 0) && next == w.(size := |file|, count := w.count + |pieces[k]|)
      && a.start + next.count <= |file| && next.count <= |Answer(file, a)|
      && pieces[k] == file[a.start + w.count..a.start + next.count]
  {
    FlatSnoc(pieces, k);
    FlatPrefix(pieces, k + 1);
    FlatGrows(pieces[..k]);
    var before, now := Flat(pieces[..k]), Flat(pieces[..k + 1]);
    assert now <= Answer(file, a);
    forall i | 0 <= i < |pieces[k]| ensures pieces[k][i] == file[a.start + |before| + i] {
      assert now[|before| + i] == Answer(file, a)[|before| + i];
    }
  }

  /** Nothing follows the piece that completes the answer. */
  lemma {:induction false} NothingLeft(a: Window, file: seq<byte>, pieces: seq<seq<byte>>, k: nat)
    requires k <= |pieces| && a.start < |file| && a.start < a.end && a.count == 0 && Flat(pieces) <= Answer(file, a)
    requires forall i :: 0 <= i < |pieces| ==> 0 < |pieces[i]|
    requires Done(Received(a, file, pieces[..k]))
    ensures k == |pieces|
  {
    if k < |pieces| {
      FlatSnoc(pieces, k);
      FlatPrefix(pieces, k + 1);
      assert |Flat(pieces[..k])| >= |Answer(file, a)|;
    }
  }
}
