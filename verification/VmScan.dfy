/** The search for saved parameters, in place on the buffers that wait for them. */
module VmScan {
  import opened Bytes
  import opened VmLog
  import opened VmSearch

  /** The local variables of vm_area_info_find. */
  datatype Locals = Locals(addr: nat, endAddr: nat, sector: nat, lastVm: nat, findVm: bool, find: bool, redo: nat, used: nat, powerOff: bool)

  class VmArea {
    const chip: Chip
    const cap: nat
    // vm_find_index_table
    const indices: seq<nat>
    const bufs: seq<array<byte>>
    // vm_addr_info
    var vmAddr: nat
    var vmLen: nat

    /** The table has a buffer of its own for each entry; the flash has whole sectors and 32-bit addresses. */
    ghost predicate Valid()
      reads this
    {
      && Keeps(chip) && |indices| == |bufs| && (forall i, j :: 0 <= i < j < |bufs| ==> bufs[i] != bufs[j])
      && 0 < cap && cap % SECTOR == 0 && cap + 2 * SECTOR <= U32
    }

    ghost function Table(): (t: seq<Entry>)
      requires |indices| == |bufs|
      reads bufs
      ensures |t| == |indices|
    {
      seq(|indices|, i requires 0 <= i < |indices| && |indices| == |bufs| reads bufs => Entry(indices[i], bufs[i][..]))
    }

    constructor (c: Chip, capability: nat, wanted: seq<nat>, buffers: seq<array<byte>>, addr: nat, len: nat)
      requires Keeps(c) && |wanted| == |buffers| && forall i, j :: 0 <= i < j < |buffers| ==> buffers[i] != buffers[j]
      requires 0 < capability && capability % SECTOR == 0 && capability + 2 * SECTOR <= U32
      ensures Valid() && chip == c && cap == capability && indices == wanted && bufs == buffers && vmAddr == addr && vmLen == len
    {
      chip, cap, indices, bufs, vmAddr, vmLen := c, capability, wanted, buffers, addr, len;
    }

    /** vm_area_info_index_find */
    method IndexFind(index: nat, addr: nat, crc: nat, size: nat) returns (find: bool)
      requires Valid()
      modifies bufs
      ensures (Table(), find) == Visit(chip, old(Table()), index, addr, crc, size)
    {
      ghost var table := Table();
      var i := 0;
      while i < |indices|
        invariant i <= |indices| && Table() == table
        invariant forall j :: 0 <= j < i ==> indices[j] != index
        invariant FirstEntry(table, index, 0) == FirstEntry(table, index, i)
      {
        if indices[i] == index {
          find := Fill(i, index, addr, crc, size);
          return;
        }
        i := i + 1;
      }
      return false;
    }

    /** Reading a payload into entry i, and clearing the buffer if its checksum is wrong. */
    method Fill(i: nat, index: nat, addr: nat, crc: nat, size: nat) returns (find: bool)
      requires Valid() && i < |indices| && indices[i] == index
      modifies bufs[i]
      ensures var got := Load(chip, addr, Min(bufs[i].Length, size));
        |got| <= bufs[i].Length && find == (crc == chip.crc(got) % 256)
        && Table() == old(Table())[i := Entry(index, Filled(chip, old(bufs[i][..]), got, crc))]
    {
      var buf := bufs[i];
      var n := Min(buf.Length, size);
      var got := Load(chip, addr, n);
      ghost var before, table := buf[..], Table();
      forall k | 0 <= k < n {
        buf[k] := got[k];
      }
      find := crc == chip.crc(got) % 256;
      if !find {
        forall k | 0 <= k < buf.Length {
          buf[k] := 0;
        }
      }
      assert buf[..] == Filled(chip, before, got, crc);
      forall j | 0 <= j < |indices| ensures Table()[j] == table[i := Entry(index, buf[..])][j] {
        if j < i { assert bufs[j] != bufs[i]; } else if i < j { assert bufs[i] != bufs[j]; }
      }
    }

    /** All the variables of the search as one state. */
    ghost function S(v: Locals): Scan
      requires |indices| == |bufs|
      reads this, bufs
    {
      Scan(v.addr, v.endAddr, v.sector, v.lastVm, v.findVm, v.find, v.redo, v.used, vmAddr, vmLen, v.powerOff, Table())
    }

    /** Where vm_area_info_find starts: at the area the boot loader names, else at the last sector. */
    ghost function Start(appCode: nat): Scan
      requires |indices| == |bufs| && SECTOR <= cap
      reads this, bufs
    {
      var known := appCode < vmAddr;
      var addr, len := if known then vmAddr else cap - SECTOR, if known then vmLen else SECTOR;
      Scan(addr, addr + len, cap, 0, false, false, 0, LABEL, addr, len, !known, Table())
    }

    /** vm_area_info_find */
    method Find(appCode: nat)
      requires Valid() && (appCode < vmAddr ==> vmAddr + vmLen <= cap)
      modifies this`vmAddr, this`vmLen, bufs
      ensures Valid()
      ensures AtStart(cap, old(Start(appCode)))
      ensures var t := Outcome(chip, cap, old(Start(appCode))); Table() == t.table && vmAddr == t.vmAddr && vmLen == t.vmLen
      ensures var known := appCode < old(vmAddr);
        Remembers(chip, old(Table()), if known then old(vmAddr) else cap - SECTOR, if known then old(vmLen) else SECTOR, known, Table(), vmAddr, vmLen)
    {
      ghost var start := Start(appCode);
      var v := Prepare(appCode);
      ghost var goal := Outcome(chip, cap, start);
      StartRemembers(chip, cap, start, start.addr, start.vmLen, !v.powerOff, goal);
      SearchComes(chip, cap, start, goal);
      if vmAddr != 0 {
        Walk(v, start);
      }
    }

    /** The variables before the loop. */
    method Prepare(appCode: nat) returns (v: Locals)
      requires Valid() && (appCode < vmAddr ==> vmAddr + vmLen <= cap)
      modifies this`vmAddr, this`vmLen
      ensures S(v) == old(Start(appCode)) && AtStart(cap, S(v)) && v.endAddr <= cap && v.powerOff == (old(vmAddr) <= appCode)
      ensures Table() == old(Table())
    {
      var powerOff := false;
      if vmAddr <= appCode {
        vmAddr := cap - SECTOR;
        vmLen := SECTOR;
        powerOff := true;
      }
      v := Locals(vmAddr, vmAddr + vmLen, cap, 0, false, false, 0, LABEL, powerOff);
    }

    /** The loop of vm_area_info_find. */
    method Walk(init: Locals, ghost start: Scan)
      requires Valid() && start == S(init) && Orderly(cap, start) && init.endAddr <= cap
      modifies this`vmAddr, this`vmLen, bufs
      ensures Valid()
      ensures var t := Search(chip, cap, start); Table() == t.table && vmAddr == t.vmAddr && vmLen == t.vmLen
    {
      var v := init;
      ghost var s, goal := start, Search(chip, cap, start);
      while v.addr != 0 && v.addr < v.endAddr
        invariant Valid() && s == S(v) && Orderly(cap, s) && s.end <= cap && goal == Search(chip, cap, s)
        decreases REDOS - v.redo, if v.findVm then 0 else 1, ToGo(s)
      {
        var goOn;
        v, goOn := OneTurn(v, s);
        ghost var t := S(v);
        SearchEnds(chip, cap, s, t, goOn);
        if !goOn {
          break;
        }
        s := t;
      }
    }

    /** One turn of the loop. */
    method OneTurn(v: Locals, ghost s: Scan) returns (w: Locals, goOn: bool)
      requires Valid() && s == S(v) && Orderly(cap, s) && v.addr != 0
      modifies this`vmAddr, this`vmLen, bufs
      ensures Valid() && Turn(chip, cap, s) == (S(w), goOn)
    {
      w := v;
      var next := false;
      if !w.findVm {
        var magic := Load(chip, vmAddr, LABEL);
        w := w.(addr := w.addr + LABEL);
        next := !IsMagic(magic);
      }
      if !next {
        if w.lastVm == 0 {
          w := w.(lastVm := vmAddr);
        }
        w := w.(findVm := true);
        ghost var g := S(w);
        Entering(chip, cap, s, g);
        w, next := Record(w, g);
      }
      if next {
        w, goOn := PassSector(w);
        return;
      }
      goOn := true;
    }

    /** The record at addr: unless its header was never written, it is visited and passed. */
    method Record(v: Locals, ghost s: Scan) returns (w: Locals, erased: bool)
      requires Valid() && s == S(v) && Orderly(cap, s) && s.findVm && (s.lastVm == 0 ==> s.vmAddr == 0) && s.addr != 0
      modifies this`vmLen, bufs
      ensures Valid()
      ensures erased ==> w == v && S(w) == s && Turn(chip, cap, s) == NextSector(cap, s)
      ensures !erased ==> Turn(chip, cap, s) == (S(w), true)
    {
      var flagBuf := Load(chip, v.addr, LABEL);
      var len, index := LenOf(flagBuf), IndexOf(flagBuf);
      RecordTurn(chip, cap, s, flagBuf);
      if index > LASTINDEX {
        return v, true;
      }
      var found := IndexFind(index, v.addr + LABEL, flagBuf[0] as nat, len);
      w := v.(find := v.find || found, addr := v.addr + len + LABEL, used := v.used + len + LABEL);
      if w.powerOff {
        vmLen := w.used;
      }
      erased := false;
    }

    /** From the label next_sector on. */
    method PassSector(v: Locals) returns (w: Locals, goOn: bool)
      requires Valid() && Orderly(cap, S(v)) && v.addr != 0
      modifies this`vmAddr, this`vmLen
      ensures Valid() && (S(w), goOn) == NextSector(cap, old(S(v)))
    {
      w := v;
      if w.findVm && !w.find && w.redo < REDOS {
        w := w.(findVm := false, find := false, redo := w.redo + 1, sector := cap);
      }
      if w.findVm {
        return w, false;
      }
      w := w.(sector := w.sector - SECTOR);
      if w.lastVm != 0 && w.lastVm == w.sector {
        w := w.(sector := w.sector - SECTOR);
      }
      w := w.(addr := w.sector, endAddr := w.sector + SECTOR);
      vmAddr := w.addr;
      vmLen := w.used;
      goOn := true;
    }
  }

  /** A turn at the header h in an area. */
  lemma {:induction false} RecordTurn(chip: Chip, cap: nat, s: Scan, h: seq<byte>)
    requires Orderly(cap, s) && s.addr != 0 && s.findVm && (s.lastVm == 0 ==> s.vmAddr == 0) && h == Load(chip, s.addr, LABEL) && |h| == LABEL
    ensures IndexOf(h) > LASTINDEX ==> Turn(chip, cap, s) == NextSector(cap, s)
    ensures IndexOf(h) <= LASTINDEX ==>
      var (table, found) := Visit(chip, s.table, IndexOf(h), s.addr + LABEL, h[0] as nat, LenOf(h));
      var used := s.used + LenOf(h) + LABEL;
      Turn(chip, cap, s) == (s.(addr := s.addr + LenOf(h) + LABEL, find := s.find || found, used := used, table := table,
                                vmLen := if s.powerOff then used else s.vmLen), true)
  {
  }

  /** A turn that finds the magic goes on like one in the area. */
  lemma {:induction false} Entering(chip: Chip, cap: nat, s: Scan, t: Scan)
    requires Orderly(cap, s) && s.addr != 0
    requires if s.findVm then t == s.(lastVm := t.lastVm) else IsMagic(Load(chip, s.vmAddr, LABEL)) && t == s.(addr := s.addr + LABEL, findVm := true, lastVm := t.lastVm)
    requires t.lastVm == if s.lastVm == 0 then s.vmAddr else s.lastVm
    ensures Orderly(cap, t) && Turn(chip, cap, s) == Turn(chip, cap, t)
  {
  }

  /** A turn leads on to a smaller state with the same outcome, or is the last. */
  lemma {:induction false} SearchEnds(chip: Chip, cap: nat, s: Scan, t: Scan, goOn: bool)
    requires Orderly(cap, s) && More(s) && Turn(chip, cap, s) == (t, goOn) && s.end <= cap
    ensures Orderly(cap, t) && Search(chip, cap, s) == if goOn then Search(chip, cap, t) else t
    ensures t.end <= cap
    ensures goOn ==>
      || t.redo > s.redo
      || (t.redo == s.redo && t.findVm && !s.findVm)
      || (t.redo == s.redo && t.findVm == s.findVm && ToGo(t) < ToGo(s))
  {
  }
}
