/** Reading ahead over Bluetooth: what replies, polls and reads do to the pre-read state, as functions. */
module BlePreRead {
  import opened Bytes

  const BLOCK := 512
  const CONTINUE_READ_TIMES := 5

  datatype Flag = Disable | ToggleToDis | ToggleToEn | Enable

  /** The values of btupdata_sw that matter to a read. */
  datatype Switch = Idle | Reading | AcceptOk

  /** One pre-read buffer. */
  datatype Slot = Slot(busy: bool, addr: nat, data: seq<byte>)

  datatype Request = Request(addr: nat, len: nat)

  /** update_pre_read and ble_control_info; out is what read_buf points to, pending the requests whose replies are on their way. */
  datatype State = State(cnt: nat, flag: Flag, last: nat, curr: nat, slot0: Slot, slot1: Slot,
                         sw: Switch, accept: bool, got: nat, need: nat, out: seq<byte>, pending: seq<Request>)

  /** The file of the other side, by 32-bit address. */
  type File = nat -> byte

  /** The bytes that a request for addr and len is answered with. */
  function Block(file: File, addr: nat, len: nat): (b: seq<byte>)
    ensures |b| == len
  {
    seq(len, i => file((addr + i) % U32))
  }

  /** The address one block further down, in 32 bits. */
  function Back(addr: nat): (b: nat)
    ensures b < U32
  {
    (addr + (U32 - BLOCK)) % U32
  }

  /** memcpy of data to the start of old. */
  function Over(before: seq<byte>, data: seq<byte>): (r: seq<byte>)
    ensures |data| <= |before| ==> |r| == |before|
  {
    if |data| <= |before| then data + before[|data|..] else data
  }

  function Cut(data: seq<byte>, len: nat): seq<byte> { if len <= |data| then data[..len] else data }

  // ---- the steps ----

  /** A block that was asked for ahead goes to the first buffer that is free. */
  function Kept(s: State, data: seq<byte>): State {
    if !s.slot0.busy then s.(slot0 := Slot(true, s.curr, Over(s.slot0.data, data)), curr := Back(s.curr))
    else if !s.slot1.busy then s.(slot1 := Slot(true, s.curr, Over(s.slot1.data, data)), curr := Back(s.curr))
    else s.(curr := Back(s.curr))
  }

  /** dev_read_update_block_handle on the reply to the oldest request. */
  function Arrive(s: State, file: File): State
    requires s.pending != []
  {
    var r, t := s.pending[0], s.(pending := s.pending[1..]);
    if s.sw != Reading || s.need != r.len then t
    else
      var data, u := Block(file, r.addr, r.len), t.(got := r.len);
      if s.flag == Disable then u.(out := Over(s.out, data), sw := AcceptOk, accept := true) else Kept(u, data)
  }

  function ArriveAll(s: State, file: File, n: nat): State
    requires n <= |s.pending|
    decreases n
  {
    if n == 0 then s else ArriveAll(Arrive(s, file), file, n - 1)
  }

  /** get_update_pre_read_buf: the block labelled addr, if one of the buffers has it. */
  function Take(s: State, addr: nat, len: nat): (State, bool) {
    if s.slot0.busy && s.slot0.addr == addr then
      (s.(out := Over(s.out, Cut(s.slot0.data, len)), slot0 := s.slot0.(busy := false)), true)
    else if s.slot1.busy && s.slot1.addr == addr then
      (s.(out := Over(s.out, Cut(s.slot1.data, len)), slot1 := s.slot1.(busy := false)), true)
    else (s, false)
  }

  function Arrivals(s: State, sched: seq<nat>): (n: nat)
    ensures n <= |s.pending|
  {
    if sched != [] && sched[0] <= |s.pending| then sched[0] else |s.pending|
  }

  /** ble_updata_handler for a read: before each poll some replies arrive, and after the schedule all the rest.
      It answers with 0 only when nothing more can come. */
  function Handle(s: State, file: File, addr: nat, len: nat, sched: seq<nat>): (State, nat)
    decreases |sched|
  {
    var t := ArriveAll(s, file, Arrivals(s, sched));
    var (u, hit) := Take(t, addr, len);
    if hit then (u, len)
    else if t.accept && t.sw == AcceptOk then (t, t.got)
    else if sched == [] then (t, 0)
    else Handle(t, file, addr, len, sched[1..])
  }

  /** The read goes on one block below the last one. */
  predicate Sequential(s: State, addr: nat, len: nat) { addr == Back(s.last) && len == BLOCK }

  /** get_update_pre_read_flag */
  function NextFlag(s: State, addr: nat, len: nat): State {
    if Sequential(s, addr, len) then
      match s.flag
      case Disable => s.(cnt := s.cnt + 1, flag := if s.cnt + 1 >= CONTINUE_READ_TIMES then ToggleToEn else Disable, last := addr)
      case ToggleToEn => s.(flag := Enable, last := addr)
      case _ => s.(last := addr)
    else
      s.(cnt := 0, flag := if s.flag == Enable then ToggleToDis else Disable, last := addr)
  }

  /** The first half of ble_updata_read: the flag, and the wait for what is on its way when it goes off. */
  function Drained(s: State, file: File, addr: nat, len: nat, sched: seq<nat>): State {
    var t := NextFlag(s, addr, len);
    if t.flag == ToggleToDis then Handle(t, file, Back(s.last), len, sched).0.(flag := Disable) else t
  }

  /** The requests of a read into dst, sent with that flag. */
  function Sent(s: State, flag: Flag, addr: nat, len: nat, dst: seq<byte>): State {
    var t := s.(out := dst, sw := Reading, accept := false, got := 0, need := len,
                pending := s.pending + [Request(if flag == Enable then Back(addr) else addr, len)]);
    if flag == ToggleToEn then t.(curr := addr, pending := t.pending + [Request(Back(addr), len)]) else t
  }

  /** ble_updata_read into a buffer with content dst. */
  function ReadAt(s: State, file: File, addr: nat, len: nat, dst: seq<byte>, drain: seq<nat>, sched: seq<nat>): (State, nat) {
    Handle(Sent(Drained(s, file, addr, len, drain), NextFlag(s, addr, len).flag, addr, len, dst), file, addr, len, sched)
  }

  // ---- what is on its way ----

  /** The buffer has that block under its true address. */
  predicate Holds(b: Slot, file: File, addr: nat) { b.busy && b.addr == addr && b.data == Block(file, addr, BLOCK) }

  /** The blocks at addr and below, n of them, are expected; the first k have been received. */
  predicate Expecting(s: State, file: File, addr: nat, n: nat, k: nat) {
    && addr < U32 && k <= n <= 2
    && s.flag != Disable && s.sw == Reading && !s.accept && s.need == BLOCK
    && |s.slot0.data| == BLOCK && |s.slot1.data| == BLOCK
    && |s.pending| == n - k
    && (k == 0 && n > 0 ==> s.pending[0] == Request(addr, BLOCK))
    && (k < n == 2 ==> s.pending[1 - k] == Request(Back(addr), BLOCK))
    && s.curr == (if k == 0 then addr else if k == 1 then Back(addr) else Back(Back(addr)))
    && (k == 0 ==> !s.slot0.busy && !s.slot1.busy)
    && (k == 1 ==> (Holds(s.slot0, file, addr) && !s.slot1.busy) || (Holds(s.slot1, file, addr) && !s.slot0.busy))
    && (k == 2 ==> (Holds(s.slot0, file, addr) && Holds(s.slot1, file, Back(addr))) || (Holds(s.slot1, file, addr) && Holds(s.slot0, file, Back(addr))))
  }

  /** Between reads: nothing is on its way while reading ahead is off; else exactly the block below the last read. */
  predicate Quiet(s: State, file: File) {
    && s.last < U32 && |s.slot0.data| == BLOCK && |s.slot1.data| == BLOCK
    && s.flag != ToggleToDis
    && (s.flag == Disable ==> s.pending == [] && !s.slot0.busy && !s.slot1.busy)
    && (s.flag != Disable ==> Expecting(s, file, Back(s.last), 1, 0) || Expecting(s, file, Back(s.last), 1, 1))
  }

  lemma BackApart(addr: nat)
    requires addr < U32
    ensures Back(addr) != addr
  {
  }

  /** A reply finds a free buffer and is kept there under its true address. */
  lemma {:induction false} ArriveLabelled(s: State, file: File, addr: nat, n: nat, k: nat)
    requires Expecting(s, file, addr, n, k) && k < n
    ensures !(s.slot0.busy && s.slot1.busy)
    ensures var r := s.pending[0]; var t := Arrive(s, file);
      (!s.slot0.busy && Holds(t.slot0, file, r.addr) && t.slot1 == s.slot1) || (!s.slot1.busy && Holds(t.slot1, file, r.addr) && t.slot0 == s.slot0)
    ensures Expecting(Arrive(s, file), file, addr, n, k + 1)
    ensures var t := Arrive(s, file); t.out == s.out && ModeOf(t) == ModeOf(s)
  {
    var data := Block(file, s.pending[0].addr, BLOCK);
    assert Over(s.slot0.data, data) == data && Over(s.slot1.data, data) == data;
  }

  lemma {:induction false} ArriveMany(s: State, file: File, addr: nat, n: nat, k: nat, m: nat)
    requires Expecting(s, file, addr, n, k) && m <= n - k
    ensures var t := ArriveAll(s, file, m);
      Expecting(t, file, addr, n, k + m) && t.out == s.out && ModeOf(t) == ModeOf(s)
    decreases m
  {
    if m > 0 {
      ArriveLabelled(s, file, addr, n, k);
      ArriveMany(Arrive(s, file), file, addr, n, k + 1, m - 1);
    }
  }

  /** The first expected block is taken as soon as it is there. */
  lemma {:induction false} TakeFirst(s: State, file: File, addr: nat, n: nat, k: nat, len: nat)
    requires Expecting(s, file, addr, n, k)
    ensures Take(s, addr, len).1 <==> k > 0
    ensures k > 0 ==>
      var t := Take(s, addr, len).0;
      Expecting(t, file, Back(addr), n - 1, k - 1) && t.out == Over(s.out, Cut(Block(file, addr, BLOCK), len)) && ModeOf(t) == ModeOf(s)
  {
    BackApart(addr);
  }

  // ---- what happens to each reply ----

  /** The reply to the oldest request is treated as it should be, while a read of addr waits. Reading ahead, it has
      the length asked for, finds a free buffer and is kept there under the address of its request, and nothing else
      changes in the buffers; not reading ahead, it is the reply to this very read. */
  predicate WellKept(s: State, file: File, addr: nat, len: nat)
    requires s.pending != []
  {
    var r, t := s.pending[0], Arrive(s, file);
    s.sw == Reading &&
    if s.flag == Disable then r == Request(addr, len)
    else
      && r.len == s.need == BLOCK
      && ((!s.slot0.busy && Holds(t.slot0, file, r.addr) && t.slot1 == s.slot1)
          || (s.slot0.busy && !s.slot1.busy && Holds(t.slot1, file, r.addr) && t.slot0 == s.slot0))
  }

  /** So are the next n replies. */
  predicate AllWellKept(s: State, file: File, addr: nat, len: nat, n: nat)
    requires n <= |s.pending|
    decreases n
  {
    n == 0 || (WellKept(s, file, addr, len) && AllWellKept(Arrive(s, file), file, addr, len, n - 1))
  }

  /** So are all replies that come in while the handler waits. */
  predicate HandledWell(s: State, file: File, addr: nat, len: nat, sched: seq<nat>)
    decreases |sched|
  {
    var n := Arrivals(s, sched);
    var t := ArriveAll(s, file, n);
    && AllWellKept(s, file, addr, len, n)
    && (Take(t, addr, len).1 || (t.accept && t.sw == AcceptOk) || sched == [] || HandledWell(t, file, addr, len, sched[1..]))
  }

  /** So are all replies of a read, those it drains first included. */
  predicate ReadWell(s: State, file: File, addr: nat, len: nat, dst: seq<byte>, drain: seq<nat>, sched: seq<nat>) {
    var t := NextFlag(s, addr, len);
    && (t.flag == ToggleToDis ==> HandledWell(t, file, Back(s.last), len, drain))
    && HandledWell(Sent(Drained(s, file, addr, len, drain), t.flag, addr, len, dst), file, addr, len, sched)
  }

  lemma {:induction false} ArriveManyWell(s: State, file: File, addr: nat, n: nat, k: nat, m: nat, a: nat, len: nat)
    requires Expecting(s, file, addr, n, k) && m <= n - k
    ensures AllWellKept(s, file, a, len, m)
    decreases m
  {
    if m > 0 {
      ArriveLabelled(s, file, addr, n, k);
      ArriveManyWell(Arrive(s, file), file, addr, n, k + 1, m - 1, a, len);
    }
  }

  lemma {:induction false} WaitFirstWell(s: State, file: File, addr: nat, n: nat, k: nat, len: nat, sched: seq<nat>)
    requires Expecting(s, file, addr, n, k) && 0 < n
    ensures HandledWell(s, file, addr, len, sched)
    decreases |sched|
  {
    var m := Arrivals(s, sched);
    ArriveMany(s, file, addr, n, k, m);
    ArriveManyWell(s, file, addr, n, k, m, addr, len);
    var t := ArriveAll(s, file, m);
    TakeFirst(t, file, addr, n, k + m, len);
    if k + m == 0 {
      WaitFirstWell(t, file, addr, n, 0, len, sched[1..]);
    }
  }

  /** Waiting for the first expected block brings it, whatever the schedule. */
  lemma {:induction false} WaitFirst(s: State, file: File, addr: nat, n: nat, k: nat, len: nat, sched: seq<nat>) returns (j: nat)
    requires Expecting(s, file, addr, n, k) && 0 < n
    ensures j < n
    ensures var (t, r) := Handle(s, file, addr, len, sched);
      && r == len && Expecting(t, file, Back(addr), n - 1, j) && ModeOf(t) == ModeOf(s)
      && t.out == Over(s.out, Cut(Block(file, addr, BLOCK), len))
    decreases |sched|
  {
    var m := Arrivals(s, sched);
    ArriveMany(s, file, addr, n, k, m);
    var t := ArriveAll(s, file, m);
    TakeFirst(t, file, addr, n, k + m, len);
    if k + m > 0 {
      j := k + m - 1;
    } else {
      j := WaitFirst(t, file, addr, n, 0, len, sched[1..]);
    }
  }

  // ---- reads without reading ahead ----

  /** One request is on its way and nothing else. */
  predicate Asking(s: State, addr: nat, len: nat) {
    && s.flag == Disable && s.sw == Reading && !s.accept && s.need == len && !s.slot0.busy && !s.slot1.busy
    && s.pending == [Request(addr, len)]
  }

  lemma {:induction false} WaitPlain(s: State, file: File, addr: nat, len: nat, sched: seq<nat>)
    requires Asking(s, addr, len)
    ensures var (t, r) := Handle(s, file, addr, len, sched);
      && r == len && t.out == Over(s.out, Block(file, addr, len)) && t.pending == [] && ModeOf(t) == ModeOf(s)
      && t.slot0 == s.slot0 && t.slot1 == s.slot1
    decreases |sched|
  {
    var m := Arrivals(s, sched);
    if m == 0 {
      WaitPlain(s, file, addr, len, sched[1..]);
    } else {
      assert ArriveAll(s, file, 1) == ArriveAll(Arrive(s, file), file, 0) == Arrive(s, file);
    }
  }

  lemma {:induction false} WaitPlainWell(s: State, file: File, addr: nat, len: nat, sched: seq<nat>)
    requires Asking(s, addr, len)
    ensures HandledWell(s, file, addr, len, sched)
    decreases |sched|
  {
    var m := Arrivals(s, sched);
    if m == 0 {
      WaitPlainWell(s, file, addr, len, sched[1..]);
    } else {
      assert ArriveAll(s, file, 1) == ArriveAll(Arrive(s, file), file, 0) == Arrive(s, file);
      assert AllWellKept(Arrive(s, file), file, addr, len, 0);
    }
  }

  // ---- copying out of a pre-read buffer ----

  /** The poll copies no more than the buffer holds. */
  predicate TakesInside(s: State, addr: nat, len: nat) {
    if s.slot0.busy && s.slot0.addr == addr then len <= |s.slot0.data|
    else s.slot1.busy && s.slot1.addr == addr ==> len <= |s.slot1.data|
  }

  predicate CopiesInside(s: State, file: File, addr: nat, len: nat, sched: seq<nat>)
    decreases |sched|
  {
    var t := ArriveAll(s, file, Arrivals(s, sched));
    && TakesInside(t, addr, len)
    && (Take(t, addr, len).1 || (t.accept && t.sw == AcceptOk) || sched == [] || CopiesInside(t, file, addr, len, sched[1..]))
  }

  lemma {:induction false} WaitFirstInside(s: State, file: File, addr: nat, n: nat, k: nat, len: nat, sched: seq<nat>)
    requires Expecting(s, file, addr, n, k) && 0 < n
    ensures CopiesInside(s, file, addr, len, sched) <==> len <= BLOCK
    decreases |sched|
  {
    var m := Arrivals(s, sched);
    ArriveMany(s, file, addr, n, k, m);
    var t := ArriveAll(s, file, m);
    TakeFirst(t, file, addr, n, k + m, len);
    BackApart(addr);
    if k + m == 0 {
      WaitFirstInside(t, file, addr, n, 0, len, sched[1..]);
    }
  }

  /** The source copies as many bytes as the read is long, however many the buffer has: every copy of a read, that
      of the drain included, stays inside. */
  predicate ReadInside(s: State, file: File, addr: nat, len: nat, dst: seq<byte>, drain: seq<nat>, sched: seq<nat>) {
    var t := NextFlag(s, addr, len);
    && (t.flag == ToggleToDis ==> CopiesInside(t, file, Back(s.last), len, drain))
    && CopiesInside(Sent(Drained(s, file, addr, len, drain), t.flag, addr, len, dst), file, addr, len, sched)
  }

  /** While reading ahead is off, replies leave the buffers alone. */
  lemma {:induction false} ArriveOff(s: State, file: File, m: nat)
    requires s.flag == Disable && m <= |s.pending|
    ensures var t := ArriveAll(s, file, m); t.flag == Disable && t.slot0 == s.slot0 && t.slot1 == s.slot1
    decreases m
  {
    if m > 0 { ArriveOff(Arrive(s, file), file, m - 1); }
  }

  /** Then a read of a block that no buffer is labelled with copies nothing out of them. */
  lemma {:induction false} OffInside(s: State, file: File, addr: nat, len: nat, sched: seq<nat>)
    requires s.flag == Disable && (s.slot0.busy ==> s.slot0.addr != addr) && (s.slot1.busy ==> s.slot1.addr != addr)
    ensures CopiesInside(s, file, addr, len, sched)
    decreases |sched|
  {
    var m := Arrivals(s, sched);
    ArriveOff(s, file, m);
    if sched != [] { OffInside(ArriveAll(s, file, m), file, addr, len, sched[1..]); }
  }

  // ---- every read ----

  /** Not a break in the sequence right after reading ahead was switched on, and none longer than a block later. */
  predicate Allowed(s: State, addr: nat, len: nat) {
    && (s.flag == ToggleToEn ==> Sequential(s, addr, len))
    && (s.flag == Enable && !Sequential(s, addr, len) ==> len <= BLOCK)
  }

  /** A read that breaks the sequence first takes in everything that is on its way. */
  lemma {:induction false} BreakDrains(s: State, file: File, addr: nat, len: nat, drain: seq<nat>)
    requires Quiet(s, file) && addr < U32 && s.flag == Enable && !Sequential(s, addr, len)
    ensures var t := Drained(s, file, addr, len, drain);
      t.pending == [] && !t.slot0.busy && !t.slot1.busy && ModeOf(t) == Mode(0, Disable, addr)
      && |t.slot0.data| == BLOCK && |t.slot1.data| == BLOCK && t.sw == Reading
  {
    var t := NextFlag(s, addr, len);
    var k := if Expecting(s, file, Back(s.last), 1, 0) then 0 else 1;
    assert Expecting(t, file, Back(s.last), 1, k);
    var j := WaitFirst(t, file, Back(s.last), 1, k, len, drain);
  }

  /** The wait of a read that breaks the sequence copies that read's length out of a buffer of one block: it stays
      inside exactly if the read is no longer than that. */
  lemma {:induction false} DrainInside(s: State, file: File, addr: nat, len: nat, drain: seq<nat>)
    requires Quiet(s, file) && addr < U32 && s.flag == Enable && !Sequential(s, addr, len)
    ensures CopiesInside(NextFlag(s, addr, len), file, Back(s.last), len, drain) <==> len <= BLOCK
  {
    var k := if Expecting(s, file, Back(s.last), 1, 0) then 0 else 1;
    assert Expecting(NextFlag(s, addr, len), file, Back(s.last), 1, k);
    WaitFirstInside(NextFlag(s, addr, len), file, Back(s.last), 1, k, len, drain);
  }

  /** What a read of len bytes at addr is for. */
  predicate Correct(r: (State, nat), file: File, addr: nat, len: nat, dst: seq<byte>) {
    r.1 == len && r.0.out == Over(dst, Block(file, addr, len))
  }

  /** Every allowed read brings the bytes at its own address, however the replies are timed, and leaves the state in order. */
  lemma {:induction false} ReadCorrect(s: State, file: File, addr: nat, len: nat, dst: seq<byte>, drain: seq<nat>, sched: seq<nat>)
    requires Quiet(s, file) && addr < U32 && Allowed(s, addr, len)
    ensures var r := ReadAt(s, file, addr, len, dst, drain, sched);
      Correct(r, file, addr, len, dst) && Quiet(r.0, file) && ModeOf(r.0) == ModeAfter(ModeOf(s), addr, len)
  {
    var f := NextFlag(s, addr, len).flag;
    var d := Drained(s, file, addr, len, drain);
    var t := Sent(d, f, addr, len, dst);
    if f == ToggleToEn {
      assert Expecting(t, file, addr, 2, 0);
      ReadAhead(t, file, addr, 0, dst, sched);
    } else if f == Enable {
      var k := if Expecting(s, file, Back(s.last), 1, 0) then 0 else 1;
      assert Expecting(t, file, addr, 2, k);
      ReadAhead(t, file, addr, k, dst, sched);
    } else {
      if f == ToggleToDis {
        BreakDrains(s, file, addr, len, drain);
      }
      assert Asking(t, addr, len);
      WaitPlain(t, file, addr, len, sched);
    }
  }

  lemma {:induction false} ReadAhead(t: State, file: File, addr: nat, k: nat, dst: seq<byte>, sched: seq<nat>)
    requires Expecting(t, file, addr, 2, k) && t.last == addr && t.out == dst && t.flag != ToggleToDis
    ensures var r := Handle(t, file, addr, BLOCK, sched);
      Correct(r, file, addr, BLOCK, dst) && Quiet(r.0, file) && ModeOf(r.0) == ModeOf(t)
  {
    var j := WaitFirst(t, file, addr, 2, k, BLOCK, sched);
    assert Cut(Block(file, addr, BLOCK), BLOCK) == Block(file, addr, BLOCK);
  }

  /** Along every allowed read each reply is treated as it should be: a block asked for ahead never finds both
      buffers busy, and is labelled with its own address. */
  lemma {:induction false} ReadKeeps(s: State, file: File, addr: nat, len: nat, dst: seq<byte>, drain: seq<nat>, sched: seq<nat>)
    requires Quiet(s, file) && addr < U32 && Allowed(s, addr, len)
    ensures ReadWell(s, file, addr, len, dst, drain, sched)
  {
    var t := NextFlag(s, addr, len);
    var u := Sent(Drained(s, file, addr, len, drain), t.flag, addr, len, dst);
    var k := if s.flag != Disable && Expecting(s, file, Back(s.last), 1, 0) then 0 else 1;
    if t.flag == ToggleToEn {
      assert Expecting(u, file, addr, 2, 0);
      WaitFirstWell(u, file, addr, 2, 0, len, sched);
    } else if t.flag == Enable {
      assert Expecting(u, file, addr, 2, k);
      WaitFirstWell(u, file, addr, 2, k, len, sched);
    } else {
      if t.flag == ToggleToDis {
        BreakDrains(s, file, addr, len, drain);
        assert Expecting(t, file, Back(s.last), 1, k);
        WaitFirstWell(t, file, Back(s.last), 1, k, len, drain);
      }
      WaitPlainWell(u, file, addr, len, sched);
    }
  }

  /** No allowed read copies more out of a buffer than it has. */
  lemma {:induction false} ReadStays(s: State, file: File, addr: nat, len: nat, dst: seq<byte>, drain: seq<nat>, sched: seq<nat>)
    requires Quiet(s, file) && addr < U32 && Allowed(s, addr, len)
    ensures ReadInside(s, file, addr, len, dst, drain, sched)
  {
    var t := NextFlag(s, addr, len);
    var u := Sent(Drained(s, file, addr, len, drain), t.flag, addr, len, dst);
    var k := if s.flag != Disable && Expecting(s, file, Back(s.last), 1, 0) then 0 else 1;
    if t.flag == ToggleToEn {
      assert Expecting(u, file, addr, 2, 0);
      WaitFirstInside(u, file, addr, 2, 0, len, sched);
    } else if t.flag == Enable {
      assert Expecting(u, file, addr, 2, k);
      WaitFirstInside(u, file, addr, 2, k, len, sched);
    } else {
      if t.flag == ToggleToDis {
        BreakDrains(s, file, addr, len, drain);
        DrainInside(s, file, addr, len, drain);
      }
      OffInside(u, file, addr, len, sched);
    }
  }

  // ---- breaking the sequence right after the switch-on ----

  /** Reading ahead is off, no buffer is labelled addr, and a reply is on its way that fits the read. */
  lemma {:induction false} WaitNext(s: State, file: File, addr: nat, len: nat, sched: seq<nat>)
    requires s.flag == Disable && s.sw == Reading && !s.accept && s.need == len && s.pending != [] && s.pending[0].len == len
    requires (s.slot0.busy ==> s.slot0.addr != addr) && (s.slot1.busy ==> s.slot1.addr != addr)
    ensures var (t, r) := Handle(s, file, addr, len, sched); r == len && t.out == Over(s.out, Block(file, s.pending[0].addr, len))
    decreases |sched|
  {
    var m := Arrivals(s, sched);
    if m == 0 {
      WaitNext(s, file, addr, len, sched[1..]);
    } else {
      var t := Arrive(s, file);
      IgnoredAll(t, file, m - 1);
    }
  }

  /** Replies behind the one that was accepted are ignored. */
  lemma {:induction false} IgnoredAll(s: State, file: File, m: nat)
    requires s.sw == AcceptOk && m <= |s.pending|
    ensures ArriveAll(s, file, m) == s.(pending := s.pending[m..])
    decreases m
  {
    if m > 0 {
      IgnoredAll(Arrive(s, file), file, m - 1);
      assert s.pending[1..][m - 1..] == s.pending[m..];
    }
  }

  /** A reply of another length is thrown away. */
  lemma {:induction false} WaitBehind(s: State, file: File, addr: nat, len: nat, sched: seq<nat>)
    requires s.flag == Disable && s.sw == Reading && !s.accept && s.need == len && !s.slot0.busy && !s.slot1.busy
    requires |s.pending| == 2 && s.pending[0].len != len && s.pending[1] == Request(addr, len)
    ensures var (t, r) := Handle(s, file, addr, len, sched); r == len && t.out == Over(s.out, Block(file, addr, len))
    decreases |sched|
  {
    var m := Arrivals(s, sched);
    if m == 0 {
      WaitBehind(s, file, addr, len, sched[1..]);
    } else {
      var t := Arrive(s, file);
      assert ArriveAll(s, file, m) == ArriveAll(t, file, m - 1);
      if m == 1 {
        WaitNext(t, file, addr, len, sched[1..]);
      } else {
        assert ArriveAll(t, file, 1) == ArriveAll(Arrive(t, file), file, 0);
      }
    }
  }

  /** The block is already in a buffer: it is copied at the first poll. */
  lemma {:induction false} WaitBuffered(s: State, file: File, addr: nat, len: nat, sched: seq<nat>)
    requires s.flag == Disable && s.sw == Reading && s.need == len && s.pending == [Request(addr, len)] && len <= BLOCK
    requires (Holds(s.slot0, file, addr) && !s.slot1.busy) || (Holds(s.slot1, file, addr) && !s.slot0.busy)
    ensures var (t, r) := Handle(s, file, addr, len, sched); r == len && t.out == Over(s.out, Block(file, addr, len))
  {
    assert Cut(Block(file, addr, BLOCK), len) == Block(file, addr, len);
    var m := Arrivals(s, sched);
    if m == 1 {
      assert ArriveAll(s, file, 1) == ArriveAll(Arrive(s, file), file, 0);
      var data := Block(file, addr, len);
      assert Over(Over(s.out, data), data) == Over(s.out, data);
    }
  }

  /** The read copies it whole, and stays inside the buffer exactly if it is no longer than that. */
  lemma {:induction false} BufferedInside(s: State, file: File, addr: nat, len: nat, sched: seq<nat>)
    requires s.flag == Disable
    requires (Holds(s.slot0, file, addr) && !s.slot1.busy) || (Holds(s.slot1, file, addr) && !s.slot0.busy)
    ensures CopiesInside(s, file, addr, len, sched) <==> len <= BLOCK
  {
    ArriveOff(s, file, Arrivals(s, sched));
  }

  /** When such a read is right after all. While the block asked for at the switch-on is still on its way: if it has
      another length than this read, or the same content. Once it has come in: if this read wants another block, or
      no more than that one. */
  predicate BreakRight(s: State, file: File, addr: nat, len: nat) {
    if s.pending != [] then len != BLOCK || Block(file, Back(s.last), BLOCK) == Block(file, addr, BLOCK)
    else addr != Back(s.last) || len <= BLOCK
  }

  /** In the first case the wrong block comes; in the second the source copies beyond its buffer. */
  lemma {:induction false} SwitchOnBreak(s: State, file: File, addr: nat, len: nat, dst: seq<byte>, drain: seq<nat>, sched: seq<nat>)
    requires Quiet(s, file) && addr < U32 && s.flag == ToggleToEn && !Sequential(s, addr, len)
    ensures var r := ReadAt(s, file, addr, len, dst, drain, sched);
      && (Correct(r, file, addr, len, dst) && ReadInside(s, file, addr, len, dst, drain, sched) <==> BreakRight(s, file, addr, len))
      && (ReadInside(s, file, addr, len, dst, drain, sched) <==> s.pending != [] || addr != Back(s.last) || len <= BLOCK)
      && (s.pending != [] && len == BLOCK ==> r.1 == BLOCK && r.0.out == Over(dst, Block(file, Back(s.last), BLOCK)))
  {
    var d := Drained(s, file, addr, len, drain);
    var t := Sent(d, Disable, addr, len, dst);
    if s.pending != [] {
      assert t.pending == [Request(Back(s.last), BLOCK), Request(addr, len)];
      OffInside(t, file, addr, len, sched);
      if len == BLOCK {
        WaitNext(t, file, addr, len, sched);
        OverApart(dst, Block(file, Back(s.last), BLOCK), Block(file, addr, BLOCK));
      } else {
        WaitBehind(t, file, addr, len, sched);
      }
    } else if addr == Back(s.last) {
      BufferedInside(t, file, addr, len, sched);
      if len <= BLOCK { WaitBuffered(t, file, addr, len, sched); }
    } else {
      OffInside(t, file, addr, len, sched);
      WaitNext(t, file, addr, len, sched);
    }
  }

  lemma OverApart(before: seq<byte>, a: seq<byte>, b: seq<byte>)
    requires |a| == |b|
    ensures Over(before, a) == Over(before, b) <==> a == b
  {
    if |a| <= |before| && Over(before, a) == Over(before, b) {
      assert a == Over(before, a)[..|a|] == Over(before, b)[..|b|] == b;
    }
  }

  // ---- any read at all ----

  /** Exactly when a read in any state between reads goes right. */
  predicate GoesRight(s: State, file: File, addr: nat, len: nat) {
    if s.flag == Disable || Sequential(s, addr, len) then true
    else if s.flag == Enable then len <= BLOCK
    else BreakRight(s, file, addr, len)
  }

  /** A read brings its own bytes, with every copy inside its buffer, exactly then, however the replies are timed. */
  lemma {:induction false} ReadIff(s: State, file: File, addr: nat, len: nat, dst: seq<byte>, drain: seq<nat>, sched: seq<nat>)
    requires Quiet(s, file) && addr < U32
    ensures Correct(ReadAt(s, file, addr, len, dst, drain, sched), file, addr, len, dst) && ReadInside(s, file, addr, len, dst, drain, sched)
      <==> GoesRight(s, file, addr, len)
  {
    if Allowed(s, addr, len) {
      ReadCorrect(s, file, addr, len, dst, drain, sched);
      ReadStays(s, file, addr, len, dst, drain, sched);
    } else if s.flag == ToggleToEn {
      SwitchOnBreak(s, file, addr, len, dst, drain, sched);
    } else {
      DrainInside(s, file, addr, len, drain);
    }
  }

  // ---- whole updates ----

  /** What decides about reading ahead; the caller can tell it from the reads so far. */
  datatype Mode = Mode(cnt: nat, flag: Flag, last: nat)

  function ModeOf(s: State): Mode { Mode(s.cnt, s.flag, s.last) }

  function ModeAfter(m: Mode, addr: nat, len: nat): Mode {
    if addr == Back(m.last) && len == BLOCK then
      match m.flag
      case Disable => Mode(m.cnt + 1, if m.cnt + 1 >= CONTINUE_READ_TIMES then ToggleToEn else Disable, addr)
      case ToggleToEn => Mode(m.cnt, Enable, addr)
      case _ => m.(last := addr)
    else Mode(0, Disable, addr)
  }

  /** One call of ble_updata_read and the timing around it. */
  datatype Call = Call(addr: nat, len: nat, dst: seq<byte>, drain: seq<nat>, sched: seq<nat>)

  function Step(s: State, file: File, c: Call): (State, nat) { ReadAt(s, file, c.addr, c.len, c.dst, c.drain, c.sched) }

  /** No call breaks the sequence right after the switch-on, or with more than a block while reading ahead is on. */
  predicate AllAllowed(m: Mode, calls: seq<Call>)
    decreases |calls|
  {
    calls == [] ||
    (var c := calls[0];
     && c.addr < U32
     && ((c.addr == Back(m.last) && c.len == BLOCK) || (m.flag != ToggleToEn && (m.flag == Enable ==> c.len <= BLOCK)))
     && AllAllowed(ModeAfter(m, c.addr, c.len), calls[1..]))
  }

  /** Every call brings its own bytes; along it each reply is treated as it should be, and each copy stays inside. */
  predicate AllCorrect(s: State, file: File, calls: seq<Call>)
    decreases |calls|
  {
    calls == [] ||
    (var c, r := calls[0], Step(s, file, calls[0]);
     && Correct(r, file, c.addr, c.len, c.dst)
     && ReadWell(s, file, c.addr, c.len, c.dst, c.drain, c.sched)
     && ReadInside(s, file, c.addr, c.len, c.dst, c.drain, c.sched)
     && AllCorrect(r.0, file, calls[1..]))
  }

  /** update_pre_read_ctl_init */
  function Opened(s: State): State {
    s.(cnt := 0, flag := Disable, last := 0, slot0 := s.slot0.(busy := false), slot1 := s.slot1.(busy := false))
  }

  lemma {:induction false} RunCorrect(s: State, file: File, calls: seq<Call>)
    requires Quiet(s, file) && AllAllowed(ModeOf(s), calls)
    ensures AllCorrect(s, file, calls)
    decreases |calls|
  {
    if calls != [] {
      var c := calls[0];
      ReadCorrect(s, file, c.addr, c.len, c.dst, c.drain, c.sched);
      ReadKeeps(s, file, c.addr, c.len, c.dst, c.drain, c.sched);
      ReadStays(s, file, c.addr, c.len, c.dst, c.drain, c.sched);
      RunCorrect(Step(s, file, c).0, file, calls[1..]);
    }
  }

  /** From the start of an update on, all reads bring their own bytes. */
  lemma {:induction false} UpdateCorrect(s: State, file: File, calls: seq<Call>)
    requires s.pending == [] && |s.slot0.data| == BLOCK && |s.slot1.data| == BLOCK
    requires AllAllowed(Mode(0, Disable, 0), calls)
    ensures AllCorrect(Opened(s), file, calls)
  {
    RunCorrect(Opened(s), file, calls);
  }

  /** The fifth block downwards, at 4096, switches reading ahead on, and its reply alone comes in. */
  lemma {:induction false} SwitchOn(s: State, file: File, dst: seq<byte>, t: State)
    requires Quiet(s, file) && ModeOf(s) == Mode(4, Disable, 4608) && t == Step(s, file, Call(4096, BLOCK, dst, [], [1])).0
    ensures Quiet(t, file) && ModeOf(t) == Mode(5, ToggleToEn, 4096) && t.pending != []
  {
    ReadCorrect(s, file, 4096, BLOCK, dst, [], [1]);
    var a := Sent(Drained(s, file, 4096, BLOCK, []), ToggleToEn, 4096, BLOCK, dst);
    assert Expecting(a, file, 4096, 2, 0);
    OneReply(a, file, 4096, t);
  }

  lemma {:induction false} OneReply(a: State, file: File, addr: nat, t: State)
    requires Expecting(a, file, addr, 2, 0) && t == Handle(a, file, addr, BLOCK, [1]).0
    ensures t.pending != []
  {
    ArriveMany(a, file, addr, 2, 0, 1);
    TakeFirst(ArriveAll(a, file, 1), file, addr, 2, 1, BLOCK);
  }

  // ---- when reading ahead is on ----

  /** The state after these calls. */
  function Reads(s: State, file: File, calls: seq<Call>): State
    decreases |calls|
  {
    if calls == [] then s else Reads(Step(s, file, calls[0]).0, file, calls[1..])
  }

  lemma {:induction false} ArriveMode(s: State, file: File, n: nat)
    requires n <= |s.pending|
    ensures ModeOf(ArriveAll(s, file, n)) == ModeOf(s)
    decreases n
  {
    if n > 0 { ArriveMode(Arrive(s, file), file, n - 1); }
  }

  /** Waiting does not change the mode. */
  lemma {:induction false} HandleMode(s: State, file: File, addr: nat, len: nat, sched: seq<nat>)
    ensures ModeOf(Handle(s, file, addr, len, sched).0) == ModeOf(s)
    decreases |sched|
  {
    var t := ArriveAll(s, file, Arrivals(s, sched));
    ArriveMode(s, file, Arrivals(s, sched));
    if sched != [] { HandleMode(t, file, addr, len, sched[1..]); }
  }

  /** No read, allowed or not, leaves another mode than ModeAfter says. */
  lemma {:induction false} ReadMode(s: State, file: File, addr: nat, len: nat, dst: seq<byte>, drain: seq<nat>, sched: seq<nat>)
    requires s.flag != ToggleToDis
    ensures ModeOf(ReadAt(s, file, addr, len, dst, drain, sched).0) == ModeAfter(ModeOf(s), addr, len)
    ensures ReadAt(s, file, addr, len, dst, drain, sched).0.flag != ToggleToDis
  {
    var t := NextFlag(s, addr, len);
    HandleMode(t, file, Back(s.last), len, drain);
    HandleMode(Sent(Drained(s, file, addr, len, drain), t.flag, addr, len, dst), file, addr, len, sched);
  }

  /** How many of the last reads each went on one block below the one before, if it was n so far. */
  function Streak(n: nat, last: nat, calls: seq<Call>): nat
    decreases |calls|
  {
    if calls == [] then n
    else
      var c := calls[0];
      Streak(if c.len == 512 && (c.addr + 512) % U32 == last then n + 1 else 0, c.addr, calls[1..])
  }

  /** The mode after so many. */
  predicate InMode(m: Mode, n: nat) {
    && m.cnt == (if n < 5 then n else 5)
    && m.flag == (if n < 5 then Disable else if n == 5 then ToggleToEn else Enable)
  }

  /** Over any run of reads from the start of an update, reading ahead is switched on with the fifth block downwards in
      a row, is on from the sixth, and is off as soon as a read is anything else. */
  lemma {:induction false} ModeIs(s: State, file: File, calls: seq<Call>, n: nat)
    requires InMode(ModeOf(s), n) && s.last < U32 && forall i :: 0 <= i < |calls| ==> calls[i].addr < U32
    ensures InMode(ModeOf(Reads(s, file, calls)), Streak(n, s.last, calls))
    decreases |calls|
  {
    if calls != [] {
      var c := calls[0];
      ReadMode(s, file, c.addr, c.len, c.dst, c.drain, c.sched);
      BackIff(c.addr, s.last);
      var t := Step(s, file, c).0;
      ModeIs(t, file, calls[1..], if c.len == 512 && (c.addr + 512) % U32 == s.last then n + 1 else 0);
    }
  }

  lemma BackIff(addr: nat, last: nat)
    requires addr < U32 && last < U32
    ensures addr == Back(last) <==> (addr + 512) % U32 == last
  {
  }

  lemma {:induction false} OpenedMode(s: State, file: File, calls: seq<Call>)
    requires forall i :: 0 <= i < |calls| ==> calls[i].addr < U32
    ensures InMode(ModeOf(Reads(Opened(s), file, calls)), Streak(0, 0, calls))
  {
    ModeIs(Opened(s), file, calls, 0);
  }

  // ---- a run that goes wrong ----

  function ModesAfter(m: Mode, calls: seq<Call>): Mode
    decreases |calls|
  {
    if calls == [] then m else ModesAfter(ModeAfter(m, calls[0].addr, calls[0].len), calls[1..])
  }

  lemma {:induction false} ReadsQuiet(s: State, file: File, calls: seq<Call>)
    requires Quiet(s, file) && AllAllowed(ModeOf(s), calls)
    ensures Quiet(Reads(s, file, calls), file) && ModeOf(Reads(s, file, calls)) == ModesAfter(ModeOf(s), calls)
    decreases |calls|
  {
    if calls != [] {
      var c := calls[0];
      ReadCorrect(s, file, c.addr, c.len, c.dst, c.drain, c.sched);
      ReadsQuiet(Step(s, file, c).0, file, calls[1..]);
    }
  }

  /** Reads of n blocks downwards to the one at addr. */
  function Down(addr: nat, n: nat, dst: seq<byte>): seq<Call> {
    if n == 0 then [] else [Call(addr + BLOCK * (n - 1), BLOCK, dst, [], [])] + Down(addr, n - 1, dst)
  }

  /** Five blocks downwards from the start of an update: reading ahead is not on yet. */
  lemma {:induction false} DownModes(dst: seq<byte>)
    ensures AllAllowed(Mode(0, Disable, 0), Down(4608, 5, dst)) && ModesAfter(Mode(0, Disable, 0), Down(4608, 5, dst)) == Mode(4, Disable, 4608)
  {
    DownMode(Mode(3, Disable, 5120), dst, 1);
    DownMode(Mode(2, Disable, 5632), dst, 2);
    DownMode(Mode(1, Disable, 6144), dst, 3);
    DownMode(Mode(0, Disable, 6656), dst, 4);
    var calls := Down(4608, 5, dst);
    assert calls[0] == Call(6656, BLOCK, dst, [], []) && calls[1..] == Down(4608, 4, dst);
  }

  lemma {:induction false} DownMode(m: Mode, dst: seq<byte>, n: nat)
    requires 0 < n <= 4 && m == Mode(4 - n, Disable, 4608 + BLOCK * n)
    requires n > 1 ==>
      var k := Mode(5 - n, Disable, 4608 + BLOCK * (n - 1));
      AllAllowed(k, Down(4608, n - 1, dst)) && ModesAfter(k, Down(4608, n - 1, dst)) == Mode(4, Disable, 4608)
    ensures AllAllowed(m, Down(4608, n, dst)) && ModesAfter(m, Down(4608, n, dst)) == Mode(4, Disable, 4608)
  {
    var calls, k := Down(4608, n, dst), Mode(5 - n, Disable, 4608 + BLOCK * (n - 1));
    assert calls[0] == Call(4608 + BLOCK * (n - 1), BLOCK, dst, [], []) && calls[1..] == Down(4608, n - 1, dst);
    assert ModeAfter(m, calls[0].addr, BLOCK) == k;
  }

  lemma {:induction false} FiveReads(s: State, file: File, dst: seq<byte>, five: State)
    requires s.pending == [] && |s.slot0.data| == BLOCK && |s.slot1.data| == BLOCK
    requires five == Reads(Opened(s), file, Down(4608, 5, dst))
    ensures Quiet(five, file) && ModeOf(five) == Mode(4, Disable, 4608)
  {
    DownModes(dst);
    ReadsQuiet(Opened(s), file, Down(4608, 5, dst));
  }

  lemma {:induction false} StaleRead(t: State, file: File, addr: nat, dst: seq<byte>, sched: seq<nat>, r: (State, nat))
    requires Quiet(t, file) && ModeOf(t) == Mode(5, ToggleToEn, 4096) && t.pending != [] && addr == 0
    requires r == ReadAt(t, file, addr, BLOCK, dst, [], sched)
    ensures r.1 == BLOCK && r.0.out == Over(dst, Block(file, 3584, BLOCK))
    ensures Block(file, 3584, BLOCK) != Block(file, addr, BLOCK) ==> !Correct(r, file, addr, BLOCK, dst)
  {
    SwitchOnBreak(t, file, addr, BLOCK, dst, [], sched);
  }

  /** After those the block at 4096 switches reading ahead on, and its reply alone comes in. The next read asks for
      the block at 0, and gets the block at 3584. */
  lemma {:induction false} StaleBlock(s: State, file: File, dst: seq<byte>, sched: seq<nat>, five: State, t: State, addr: nat, r: (State, nat))
    requires s.pending == [] && |s.slot0.data| == BLOCK && |s.slot1.data| == BLOCK && addr == 0
    requires five == Reads(Opened(s), file, Down(4608, 5, dst)) && t == Step(five, file, Call(4096, BLOCK, dst, [], [1])).0
    requires r == ReadAt(t, file, addr, BLOCK, dst, [], sched)
    ensures r.1 == BLOCK && r.0.out == Over(dst, Block(file, 3584, BLOCK))
    ensures Block(file, 3584, BLOCK) != Block(file, addr, BLOCK) ==> !Correct(r, file, addr, BLOCK, dst)
  {
    FiveReads(s, file, dst, five);
    SwitchOn(five, file, dst, t);
    StaleRead(t, file, addr, dst, sched, r);
  }

  lemma {:induction false} BothReplies(a: State, file: File, addr: nat, t: State)
    requires Expecting(a, file, addr, 2, 0) && t == Handle(a, file, addr, BLOCK, []).0
    ensures t.pending == []
  {
    ArriveMany(a, file, addr, 2, 0, 2);
    TakeFirst(ArriveAll(a, file, 2), file, addr, 2, 2, BLOCK);
  }

  /** The same switch-on, after which both replies come in. */
  lemma {:induction false} SwitchOnBoth(s: State, file: File, dst: seq<byte>, t: State)
    requires Quiet(s, file) && ModeOf(s) == Mode(4, Disable, 4608) && t == Step(s, file, Call(4096, BLOCK, dst, [], [])).0
    ensures Quiet(t, file) && ModeOf(t) == Mode(5, ToggleToEn, 4096) && t.pending == []
  {
    ReadCorrect(s, file, 4096, BLOCK, dst, [], []);
    BothReplies(Sent(Drained(s, file, 4096, BLOCK, []), ToggleToEn, 4096, BLOCK, dst), file, 4096, t);
  }

  lemma {:induction false} LongAtOnce(t: State, file: File, addr: nat, len: nat, dst: seq<byte>, sched: seq<nat>)
    requires Quiet(t, file) && ModeOf(t) == Mode(5, ToggleToEn, 4096) && t.pending == [] && addr == 3584 && BLOCK < len
    ensures !ReadInside(t, file, addr, len, dst, [], sched)
  {
    SwitchOnBreak(t, file, addr, len, dst, [], sched);
  }

  lemma {:induction false} LongLater(t: State, file: File, c: Call, u: State, addr: nat, len: nat, dst: seq<byte>, sched: seq<nat>)
    requires Quiet(t, file) && ModeOf(t) == Mode(5, ToggleToEn, 4096) && c.addr == 3584 && c.len == BLOCK && u == Step(t, file, c).0
    requires addr == 0 && BLOCK < len
    ensures !ReadInside(u, file, addr, len, dst, [], sched)
  {
    ReadCorrect(t, file, c.addr, c.len, c.dst, c.drain, c.sched);
    DrainInside(u, file, addr, len, []);
  }

  /** Then a read of two blocks at 3584 copies 1024 bytes out of a buffer of 512. So does, one more block later,
      a read of two blocks at 0. */
  lemma {:induction false} LongBreaks(s: State, file: File, dst: seq<byte>, sched: seq<nat>, five: State, t: State, u: State,
                                      long: seq<byte>, below: nat, far: nat, len: nat)
    requires s.pending == [] && |s.slot0.data| == BLOCK && |s.slot1.data| == BLOCK
    requires five == Reads(Opened(s), file, Down(4608, 5, dst)) && t == Step(five, file, Call(4096, BLOCK, dst, [], [])).0
    requires below == 3584 && far == 0 && len == 1024 && u == Step(t, file, Call(below, BLOCK, dst, [], [])).0
    ensures !ReadInside(t, file, below, len, long, [], sched) && !ReadInside(u, file, far, len, long, [], sched)
  {
    FiveReads(s, file, dst, five);
    SwitchOnBoth(five, file, dst, t);
    LongAtOnce(t, file, below, len, long, sched);
    LongLater(t, file, Call(below, BLOCK, dst, [], []), u, far, len, long, sched);
  }
}
