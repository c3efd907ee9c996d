/** Reading the firmware file over Bluetooth, with two pre-read buffers. */
module BleUpdate {
  import opened Bytes
  import opened BlePreRead

  class BleUpdate {
    /** The file of the other side; it answers requests in order. */
    const file: File
    var pending: seq<Request>
    // update_pre_read
    var cnt: nat
    var flag: Flag
    var last: nat
    var curr: nat
    var busy0: bool
    var busy1: bool
    var addr0: nat
    var addr1: nat
    const buf0: array<byte>
    const buf1: array<byte>
    // ble_control_info
    var sw: Switch
    var accept: bool
    var got: nat
    var need: nat
    var readBuf: array?<byte>

    /** The state with that content of the buffer being read into. */
    ghost function S(out: seq<byte>): State
      reads this, buf0, buf1
    {
      State(cnt, flag, last, curr, Slot(busy0, addr0, buf0[..]), Slot(busy1, addr1, buf1[..]), sw, accept, got, need, out, pending)
    }

    ghost predicate Buffers()
      reads this
    {
      && buf0.Length == BLOCK && buf1.Length == BLOCK && buf0 != buf1
      && readBuf != buf0 && readBuf != buf1
    }

    /** Between two reads. */
    ghost predicate Valid()
      reads this, buf0, buf1
    {
      && Buffers() && Quiet(S([]), file)
      && (flag != Disable ==> readBuf != null && BLOCK <= readBuf.Length)
    }

    /** ble_updata_bfu_open; the connection is new. */
    constructor (f: File)
      ensures Valid() && fresh(buf0) && fresh(buf1) && file == f && ModeOf(S([])) == Mode(0, Disable, 0)
    {
      file := f;
      pending := [];
      cnt, flag, last, curr, busy0, busy1, addr0, addr1 := 0, Disable, 0, 0, false, false, 0, 0;
      buf0 := new byte[BLOCK](_ => 0);
      buf1 := new byte[BLOCK](_ => 0);
      sw, accept, got, need, readBuf := Idle, false, 0, 0, null;
    }

    /** A read is going on into dst, and the reply it waits for fits where it will be put. */
    ghost predicate ReadingInto(dst: array<byte>, len: nat)
      reads this
    {
      && Buffers() && dst != buf0 && dst != buf1
      && (sw == Reading ==> readBuf == dst)
      && need <= dst.Length && len <= dst.Length
      && (flag != Disable ==> need <= BLOCK)
    }

    /** dev_read_update_block_handle */
    method Receive(dst: array<byte>, len: nat)
      requires ReadingInto(dst, len) && pending != []
      modifies this, buf0, buf1, dst
      ensures ReadingInto(dst, len) && S(dst[..]) == Arrive(old(S(dst[..])), file) && readBuf == old(readBuf)
    {
      ghost var s := S(dst[..]);
      var r := pending[0];
      pending := pending[1..];
      if sw != Reading || need != r.len {
        return;
      }
      got := r.len;
      if flag != Disable {
        Keep(r);
        return;
      }
      CopyIn(dst, r);
      sw, accept := AcceptOk, true;
    }

    /** The pre-read part of dev_read_update_block_handle. */
    method Keep(r: Request)
      requires Buffers() && r.len <= BLOCK
      modifies this`busy0, this`busy1, this`addr0, this`addr1, this`curr, buf0, buf1
      ensures Buffers() && S([]) == Kept(old(S([])), Block(file, r.addr, r.len))
    {
      if !busy0 {
        CopyIn(buf0, r);
        busy0 := true;
        addr0 := curr;
      } else if !busy1 {
        CopyIn(buf1, r);
        busy1 := true;
        addr1 := curr;
      }
      curr := Back(curr);
    }

    /** memcpy of a reply. */
    method CopyIn(b: array<byte>, r: Request)
      requires r.len <= b.Length
      modifies b
      ensures b[..] == Over(old(b[..]), Block(file, r.addr, r.len))
    {
      ghost var before := b[..];
      forall k | 0 <= k < r.len {
        b[k] := file((r.addr + k) % U32);
      }
      forall k | 0 <= k < b.Length ensures b[k] == Over(before, Block(file, r.addr, r.len))[k] {
        if k < r.len { assert b[k] == Block(file, r.addr, r.len)[k]; } else { assert b[k] == before[k]; }
      }
    }

    /** get_update_pre_read_buf */
    method GetPreReadBuf(dst: array<byte>, addr: nat, len: nat) returns (hit: bool)
      requires ReadingInto(dst, len) && TakesInside(S(dst[..]), addr, len)
      modifies this`busy0, this`busy1, dst
      ensures ReadingInto(dst, len) && (S(dst[..]), hit) == Take(old(S(dst[..])), addr, len)
    {
      hit := false;
      if busy0 || busy1 {
        if addr0 == addr && busy0 {
          CopyOut(dst, buf0, len);
          busy0 := false;
          hit := true;
        } else if addr1 == addr && busy1 {
          CopyOut(dst, buf1, len);
          busy1 := false;
          hit := true;
        }
      }
    }

    method CopyOut(dst: array<byte>, b: array<byte>, len: nat)
      requires dst != b && len <= dst.Length && len <= b.Length
      modifies dst
      ensures dst[..] == Over(old(dst[..]), Cut(b[..], len))
    {
      ghost var before := dst[..];
      forall k | 0 <= k < len {
        dst[k] := b[k];
      }
      forall k | 0 <= k < dst.Length ensures dst[k] == Over(before, Cut(b[..], len))[k] {
        if k < len { assert dst[k] == b[k]; } else { assert dst[k] == before[k]; }
      }
    }

    /** ble_updata_handler for UPDATA_READ. Other tasks let some replies in before each poll; behind the
        schedule all of them, and then a read that still has nothing runs into its timeout. */
    method Handler(dst: array<byte>, addr: nat, len: nat, sched: seq<nat>) returns (n: nat)
      requires ReadingInto(dst, len) && CopiesInside(S(dst[..]), file, addr, len, sched)
      modifies this, buf0, buf1, dst
      ensures Buffers() && (S(dst[..]), n) == Handle(old(S(dst[..])), file, addr, len, sched)
      ensures readBuf == old(readBuf) || (readBuf == null && sw == AcceptOk)
    {
      ghost var goal := Handle(S(dst[..]), file, addr, len, sched);
      var i := 0;
      while true
        invariant i <= |sched| && ReadingInto(dst, len) && readBuf == old(readBuf)
        invariant Handle(S(dst[..]), file, addr, len, sched[i..]) == goal
        invariant CopiesInside(S(dst[..]), file, addr, len, sched[i..])
        decreases |sched| - i
      {
        LetIn(dst, len, sched[i..]);
        var hit := GetPreReadBuf(dst, addr, len);
        if hit {
          return len;
        }
        if accept && sw == AcceptOk {
          readBuf := null;
          return got;
        }
        if i == |sched| {
          return 0;
        }
        assert sched[i..][1..] == sched[i + 1..];
        i := i + 1;
      }
    }

    /** The replies that come in before a poll. */
    method LetIn(dst: array<byte>, len: nat, sched: seq<nat>)
      requires ReadingInto(dst, len)
      modifies this, buf0, buf1, dst
      ensures ReadingInto(dst, len) && readBuf == old(readBuf)
      ensures S(dst[..]) == ArriveAll(old(S(dst[..])), file, Arrivals(old(S(dst[..])), sched))
    {
      ghost var m := Arrivals(S(dst[..]), sched);
      ghost var goal := ArriveAll(S(dst[..]), file, m);
      var n: nat := if sched != [] && sched[0] <= |pending| then sched[0] else |pending|;
      while n > 0
        invariant ReadingInto(dst, len) && n <= |pending| && readBuf == old(readBuf)
        invariant ArriveAll(S(dst[..]), file, n) == goal
      {
        Receive(dst, len);
        n := n - 1;
      }
    }

    /** get_update_pre_read_flag */
    method GetPreReadFlag(addr: nat, len: nat)
      modifies this`cnt, this`flag, this`last
      ensures S([]) == NextFlag(old(S([])), addr, len)
    {
      if addr == (last + (U32 - BLOCK)) % U32 && len == BLOCK {
        if flag == Disable {
          cnt := cnt + 1;
          if cnt >= CONTINUE_READ_TIMES {
            flag := ToggleToEn;
          }
        } else if flag == ToggleToEn {
          flag := Enable;
        }
      } else {
        if flag == Enable {
          flag := ToggleToDis;
        } else if flag == ToggleToDis || flag == ToggleToEn {
          flag := Disable;
        }
        cnt := 0;
      }
      last := addr;
    }

    /** What the buffer of the last read holds. */
    ghost function Prev(): seq<byte>
      reads this, readBuf
    {
      if readBuf == null then [] else readBuf[..]
    }

    /** The wait for what is on its way when the sequence breaks; it still fills the buffer of the last read. */
    method Drain(addr: nat, len: nat, drain: seq<nat>) returns (preReadFlag: Flag)
      requires Valid() && addr < U32 && GoesRight(S([]), file, addr, len)
      modifies this, buf0, buf1, readBuf
      ensures Buffers() && readBuf == old(readBuf) && preReadFlag == NextFlag(old(S([])), addr, len).flag
      ensures S(Prev()) == Drained(old(S(Prev())), file, addr, len, drain)
      ensures preReadFlag != ToggleToDis ==> Prev() == old(Prev())
    {
      ghost var s := S(Prev());
      var lastAddr := last;
      GetPreReadFlag(addr, len);
      preReadFlag := flag;
      if preReadFlag == ToggleToDis {
        BreakDrains(s, file, addr, len, drain);
        DrainInside(s, file, addr, len, drain);
        var n := Handler(readBuf, Back(lastAddr), len, drain);
        flag := Disable;
      }
    }

    /** ble_updata_control: a request is on its way. */
    method Ask(offset: nat, len: nat)
      modifies this`pending
      ensures pending == old(pending) + [Request(offset, len)]
    {
      pending := pending + [Request(offset, len)];
    }

    /** A read of len bytes into dst begins. */
    method Begin(dst: array<byte>, len: nat)
      modifies this`readBuf, this`sw, this`accept, this`got, this`need
      ensures readBuf == dst && sw == Reading && !accept && got == 0 && need == len
    {
      readBuf := dst;
      sw := Reading;
      accept := false;
      got := 0;
      need := len;
    }

    /** Sending the requests of a read. */
    method Send(dst: array<byte>, preReadFlag: Flag, addr: nat, len: nat)
      requires Buffers() && dst != buf0 && dst != buf1
      modifies this`readBuf, this`sw, this`accept, this`got, this`need, this`pending, this`curr
      ensures Buffers() && readBuf == dst && S(dst[..]) == Sent(old(S([])), preReadFlag, addr, len, dst[..])
    {
      var fileOffset := if preReadFlag == Enable then Back(addr) else addr;
      Begin(dst, len);
      Ask(fileOffset, len);
      if preReadFlag == ToggleToEn {
        curr := addr;
        Ask(Back(addr), len);
      }
    }

    /** ble_updata_read up to its wait: draining, and sending the requests. */
    method Start(dst: array<byte>, addr: nat, len: nat, drain: seq<nat>)
      requires Valid() && addr < U32 && len <= dst.Length && dst != buf0 && dst != buf1 && GoesRight(S([]), file, addr, len)
      modifies this, buf0, buf1, readBuf
      ensures ReadingInto(dst, len) && readBuf == dst
      ensures S(dst[..]) == var s := old(S(Prev())); Sent(Drained(s, file, addr, len, drain), NextFlag(s, addr, len).flag, addr, len, dst[..])
      ensures dst != old(readBuf) ==> dst[..] == old(dst[..])
    {
      ghost var s := S(Prev());
      var preReadFlag := Drain(addr, len, drain);
      Send(dst, preReadFlag, addr, len);
      AheadLength(s, file, addr, len, dst[..], drain);
    }

    /** ble_updata_read: the bytes of the file at addr, whenever the replies come in, for every read that goes right. */
    method Read(dst: array<byte>, addr: nat, len: nat, drain: seq<nat>, sched: seq<nat>) returns (n: nat)
      requires Valid() && addr < U32 && len < 0x10000 && len <= dst.Length && dst != buf0 && dst != buf1
      requires GoesRight(S([]), file, addr, len)
      modifies this, buf0, buf1, dst, readBuf
      ensures n == len && dst[..len] == Block(file, addr, len)
      ensures dst != old(readBuf) ==> dst[len..] == old(dst[len..])
      ensures old(Allowed(S([]), addr, len)) ==> Valid() && ModeOf(S([])) == ModeAfter(old(ModeOf(S([]))), addr, len)
    {
      ghost var s := S(Prev());
      Start(dst, addr, len, drain);
      ghost var u := S(dst[..]);
      ReadFacts(s, file, addr, len, dst[..], drain, sched, u, Handle(u, file, addr, len, sched));
      n := Handler(dst, addr, len, sched);
    }
  }

  /** Blocks are read ahead only for reads of one block. */
  lemma {:induction false} AheadLength(s: State, file: File, addr: nat, len: nat, dst: seq<byte>, drain: seq<nat>)
    requires Quiet(s, file) && addr < U32 && GoesRight(s, file, addr, len)
    ensures Sent(Drained(s, file, addr, len, drain), NextFlag(s, addr, len).flag, addr, len, dst).flag != Disable ==> len == BLOCK
  {
  }

  /** What a read that goes right needs and what it leaves, from the state u in which it starts to wait. */
  lemma {:induction false} ReadFacts(s: State, file: File, addr: nat, len: nat, dst: seq<byte>, drain: seq<nat>, sched: seq<nat>, u: State, r: (State, nat))
    requires Quiet(s, file) && addr < U32 && GoesRight(s, file, addr, len)
    requires u == Sent(Drained(s, file, addr, len, drain), NextFlag(s, addr, len).flag, addr, len, dst) && r == Handle(u, file, addr, len, sched)
    ensures CopiesInside(u, file, addr, len, sched)
    ensures r.1 == len && r.0.out == Over(dst, Block(file, addr, len))
    ensures Allowed(s, addr, len) ==> Quiet(r.0, file) && ModeOf(r.0) == ModeAfter(ModeOf(s), addr, len)
  {
    ReadIff(s, file, addr, len, dst, drain, sched);
    if Allowed(s, addr, len) { ReadCorrect(s, file, addr, len, dst, drain, sched); }
  }
}
