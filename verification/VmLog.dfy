/** The records of the parameter area in flash, and the search for the area, as functions. */
module VmLog {
  import opened Bytes

  const LABEL := 4
  const SECTOR := 4096
  const LASTINDEX := 1024
  const REDOS := 2

  /** Flash, decryption with key 0 and checksum: all that the search asks of the chip. */
  datatype Chip = Chip(flash: nat -> byte, doe: seq<byte> -> seq<byte>, crc: seq<byte> -> nat)

  ghost predicate Keeps(chip: Chip) { forall b :: |chip.doe(b)| == |b| }

  /** spi0flash_read and doe */
  function Load(chip: Chip, addr: nat, n: nat): seq<byte> {
    chip.doe(seq(n, (i: nat) => chip.flash(addr + i)))
  }

  /** The little-endian bytes of VM_MAGIC_USING. */
  predicate IsMagic(b: seq<byte>) { |b| == 4 && b[0] == 0x55 && b[1] == 0xAA && b[2] == 0xAA && b[3] == 0x55 }

  // ---- records ----

  function IndexOf(h: seq<byte>): nat
    requires |h| == LABEL
  {
    h[1] as nat + (h[2] as nat % 16) * 256
  }

  function LenOf(h: seq<byte>): nat
    requires |h| == LABEL
  {
    h[3] as nat * 16 + h[2] as nat / 16
  }

  /** A record as it is written: 12 bits of index, 12 bits of length, the low byte of the checksum. */
  datatype Rec = Rec(index: nat, data: seq<byte>, sum: byte)

  predicate Writable(r: Rec) { r.index <= LASTINDEX && |r.data| < 4096 }

  predicate Good(chip: Chip, r: Rec) { r.sum as nat == chip.crc(r.data) % 256 }

  function Header(r: Rec): (h: seq<byte>)
    requires Writable(r)
    ensures |h| == LABEL
  {
    [r.sum, (r.index % 256) as byte, (r.index / 256 + |r.data| % 16 * 16) as byte, (|r.data| / 16) as byte]
  }

  /** The header reads back. */
  lemma {:induction false} HeaderReads(r: Rec)
    requires Writable(r)
    ensures IndexOf(Header(r)) == r.index && LenOf(Header(r)) == |r.data|
  {
    var i, n := r.index / 256, |r.data| % 16;
    assert (i + n * 16) % 16 == i && (i + n * 16) / 16 == n;
  }

  // ---- the table of wanted records ----

  datatype Entry = Entry(index: nat, data: seq<byte>)

  predicate IsFirst(table: seq<Entry>, index: nat, k: nat) {
    k < |table| && table[k].index == index && forall j :: 0 <= j < k ==> table[j].index != index
  }

  function FirstEntry(table: seq<Entry>, index: nat, k: nat): (r: nat)
    requires k <= |table| && forall j :: 0 <= j < k ==> table[j].index != index
    ensures r <= |table|
    ensures r < |table| ==> IsFirst(table, index, r)
    ensures r == |table| ==> forall j :: 0 <= j < |table| ==> table[j].index != index
    decreases |table| - k
  {
    if k == |table| || table[k].index == index then k else FirstEntry(table, index, k + 1)
  }

  function Min(a: nat, b: nat): nat { if a < b then a else b }

  function Zeros(n: nat): (z: seq<byte>)
    ensures |z| == n
  {
    seq(n, _ => 0)
  }

  /** The buffer after a payload has been read into it: kept if the checksum is right, cleared if not. */
  function Filled(chip: Chip, before: seq<byte>, got: seq<byte>, crc: nat): (r: seq<byte>)
    requires |got| <= |before|
    ensures |r| == |before|
  {
    if crc == chip.crc(got) % 256 then got + before[|got|..] else Zeros(|before|)
  }

  /** vm_area_info_index_find: the table and whether the record was wanted and right. */
  function Visit(chip: Chip, table: seq<Entry>, index: nat, addr: nat, crc: nat, size: nat): (seq<Entry>, bool) {
    var k := FirstEntry(table, index, 0);
    if k == |table| then (table, false)
    else
      var got := Load(chip, addr, Min(|table[k].data|, size));
      if |got| > |table[k].data| then (table, false) // doe keeps the length
      else (table[k := Entry(index, Filled(chip, table[k].data, got, crc))], crc == chip.crc(got) % 256)
  }

  /** The first entry with the index gets the payload, or as much of it as it holds; it is cleared if the checksum of
      what was read is wrong. Nothing else changes. */
  lemma {:induction false} VisitSays(chip: Chip, table: seq<Entry>, index: nat, k: nat, addr: nat, crc: nat, size: nat, n: nat)
    requires Keeps(chip) && k < |table| && IsFirst(table, index, k) && n == if size < |table[k].data| then size else |table[k].data|
    ensures var (t, found) := Visit(chip, table, index, addr, crc, size);
      && (found <==> crc == chip.crc(Load(chip, addr, n)) % 256)
      && |t| == |table| && t[k].index == index && |t[k].data| == |table[k].data|
      && (forall j :: 0 <= j < |t| && j != k ==> t[j] == table[j])
      && (found ==> t[k].data[..n] == Load(chip, addr, n) && t[k].data[n..] == table[k].data[n..])
      && (!found ==> forall j :: 0 <= j < |t[k].data| ==> t[k].data[j] == 0)
  {
    OnlyFirst(table, index, k, 0);
  }

  lemma VisitUnwanted(chip: Chip, table: seq<Entry>, index: nat, addr: nat, crc: nat, size: nat)
    requires forall j :: 0 <= j < |table| ==> table[j].index != index
    ensures Visit(chip, table, index, addr, crc, size) == (table, false)
  {
  }

  // ---- the search ----

  /** The variables of vm_area_info_find; sector is last_secter_addr, vmAddr and vmLen are vm_addr_info. */
  datatype Scan = Scan(addr: nat, end: nat, sector: nat, lastVm: nat, findVm: bool, find: bool, redo: nat, used: nat,
                       vmAddr: nat, vmLen: nat, powerOff: bool, table: seq<Entry>)

  /** The sector addresses stay in the flash, and 0 ends the search. */
  predicate Orderly(cap: nat, s: Scan) {
    && cap % SECTOR == 0 && s.sector % SECTOR == 0 && s.sector <= cap && 0 < cap && s.redo <= REDOS
    && (!s.findVm && s.addr != 0 ==> 0 < s.sector)
  }

  /** The label next_sector: the next state, and whether the search goes on. */
  function NextSector(cap: nat, s: Scan): (r: (Scan, bool))
    requires Orderly(cap, s) && s.addr != 0
    ensures Orderly(cap, r.0)
  {
    var t := if s.findVm && !s.find && s.redo < REDOS then s.(findVm := false, redo := s.redo + 1, sector := cap) else s;
    if t.findVm then (t, false)
    else
      var a := t.sector - SECTOR;
      var b := if t.lastVm != 0 && t.lastVm == a then a - SECTOR else a;
      (t.(sector := b, addr := b, end := b + SECTOR, vmAddr := b, vmLen := t.used), true)
  }

  /** One turn of the loop. */
  function Turn(chip: Chip, cap: nat, s: Scan): (r: (Scan, bool))
    requires Orderly(cap, s) && s.addr != 0
    ensures Orderly(cap, r.0)
  {
    if !s.findVm && !IsMagic(Load(chip, s.vmAddr, LABEL)) then NextSector(cap, s.(addr := s.addr + LABEL))
    else
      var at := if s.findVm then s.addr else s.addr + LABEL;
      var t := s.(addr := at, findVm := true, lastVm := if s.lastVm == 0 then s.vmAddr else s.lastVm);
      var h := Load(chip, at, LABEL);
      if |h| != LABEL then (t, false) // doe keeps the length
      else if IndexOf(h) > LASTINDEX then NextSector(cap, t)
      else
        var (table, found) := Visit(chip, t.table, IndexOf(h), at + LABEL, h[0] as nat, LenOf(h));
        var used := t.used + LenOf(h) + LABEL;
        (t.(addr := at + LenOf(h) + LABEL, find := t.find || found, used := used, table := table, vmLen := if t.powerOff then used else t.vmLen), true)
  }

  /** Whether the loop goes on. */
  predicate More(s: Scan) { s.addr != 0 && s.addr < s.end }

  function ToGo(s: Scan): nat {
    if !s.findVm then s.sector else if s.addr < s.end then s.end - s.addr else 0
  }

  /** The whole search: redos left, then whether an area is found, then the way to go, get smaller. */
  function Search(chip: Chip, cap: nat, s: Scan): Scan
    requires Orderly(cap, s)
    decreases REDOS - s.redo, if s.findVm then 0 else 1, ToGo(s)
  {
    if !More(s) then s
    else
      var (t, goOn) := Turn(chip, cap, s);
      if goOn then Search(chip, cap, t) else t
  }

  // ---- an area with records ----

  /** From addr on there are these records and then a header that was never written. */
  predicate LogAt(chip: Chip, addr: nat, recs: seq<Rec>)
    decreases |recs|
  {
    var h := Load(chip, addr, LABEL);
    if recs == [] then |h| == LABEL && IndexOf(h) > LASTINDEX
    else
      var r := recs[0];
      && Writable(r) && h == Header(r) && Load(chip, addr + LABEL, |r.data|) == r.data
      && LogAt(chip, addr + LABEL + |r.data|, recs[1..])
  }

  function LogSize(recs: seq<Rec>): nat {
    if recs == [] then 0 else LABEL + |recs[0].data| + LogSize(recs[1..])
  }

  predicate Wanted(table: seq<Entry>, index: nat) { FirstEntry(table, index, 0) < |table| }

  /** No payload is longer than the buffer that waits for it. */
  predicate Fits(table: seq<Entry>, r: Rec) {
    var k := FirstEntry(table, r.index, 0);
    k < |table| ==> |r.data| <= |table[k].data|
  }

  predicate AllFit(table: seq<Entry>, recs: seq<Rec>) { forall i :: 0 <= i < |recs| ==> Fits(table, recs[i]) }

  /** The table after one record. */
  function Put(chip: Chip, table: seq<Entry>, r: Rec): (t: seq<Entry>)
    requires Fits(table, r)
    ensures |t| == |table| && forall k :: 0 <= k < |t| ==> t[k].index == table[k].index && |t[k].data| == |table[k].data|
  {
    var k := FirstEntry(table, r.index, 0);
    if k == |table| then table else table[k := Entry(r.index, Filled(chip, table[k].data, r.data, r.sum as nat))]
  }

  /** The entries of a table are found by their indices alone. */
  lemma {:induction false} SameFirst(a: seq<Entry>, b: seq<Entry>, index: nat, k: nat)
    requires |a| == |b| && forall j :: 0 <= j < |a| ==> a[j].index == b[j].index
    requires k <= |a| && forall j :: 0 <= j < k ==> a[j].index != index
    ensures FirstEntry(a, index, k) == FirstEntry(b, index, k)
    decreases |a| - k
  {
    if k < |a| && a[k].index != index { SameFirst(a, b, index, k + 1); }
  }

  lemma {:induction false} PutFits(chip: Chip, table: seq<Entry>, recs: seq<Rec>)
    requires recs != [] && AllFit(table, recs)
    ensures AllFit(Put(chip, table, recs[0]), recs[1..])
  {
    var t := Put(chip, table, recs[0]);
    forall i | 0 <= i < |recs[1..]| ensures Fits(t, recs[1..][i]) {
      SameFirst(table, t, recs[i + 1].index, 0);
      assert Fits(table, recs[i + 1]);
    }
  }

  function Replay(chip: Chip, table: seq<Entry>, recs: seq<Rec>): seq<Entry>
    requires AllFit(table, recs)
    decreases |recs|
  {
    if recs == [] then table
    else
      PutFits(chip, table, recs);
      Replay(chip, Put(chip, table, recs[0]), recs[1..])
  }

  /** A record that is wanted and right. */
  predicate Hit(chip: Chip, table: seq<Entry>, r: Rec) { Wanted(table, r.index) && Good(chip, r) }

  lemma {:induction false} VisitRecord(chip: Chip, table: seq<Entry>, r: Rec, at: nat)
    requires Writable(r) && Fits(table, r) && Load(chip, at, |r.data|) == r.data
    ensures Visit(chip, table, r.index, at, r.sum as nat, |r.data|) == (Put(chip, table, r), Hit(chip, table, r))
  {
  }

  // ---- what a buffer ends with ----

  /** The last record with that index. */
  function LastRec(recs: seq<Rec>, index: nat): (k: nat)
    ensures k <= |recs|
    ensures k < |recs| ==> recs[k].index == index && forall j :: k < j < |recs| ==> recs[j].index != index
    ensures k == |recs| ==> forall j :: 0 <= j < |recs| ==> recs[j].index != index
  {
    if recs == [] then 0
    else if recs[|recs| - 1].index == index then |recs| - 1
    else
      var k := LastRec(recs[..|recs| - 1], index);
      if k == |recs| - 1 then |recs| else k
  }

  /** Each wanted index ends with the payload of its last record, or cleared if that record is damaged; the
      buffer of an index without records is untouched. */
  lemma {:induction false} LastWins(chip: Chip, table: seq<Entry>, recs: seq<Rec>, k: nat)
    requires AllFit(table, recs) && k < |table| && IsFirst(table, table[k].index, k)
    ensures var t := Replay(chip, table, recs);
      var j := LastRec(recs, table[k].index);
      && |t| == |table| && t[k].index == table[k].index && |t[k].data| == |table[k].data|
      && (j == |recs| ==> t[k] == table[k])
      && (j < |recs| && Good(chip, recs[j]) ==> |recs[j].data| <= |t[k].data| && t[k].data[..|recs[j].data|] == recs[j].data)
      && (j < |recs| && !Good(chip, recs[j]) ==> t[k].data == Zeros(|table[k].data|))
    decreases |recs|
  {
    if recs != [] {
      var u, r, more := Put(chip, table, recs[0]), recs[0], recs[1..];
      var index := table[k].index;
      PutFits(chip, table, recs);
      OnlyFirst(table, index, k, 0);
      SameFirst(table, u, index, 0);
      OnlyFirst(u, index, k, 0);
      LastWins(chip, u, more, k);
      LastRest(recs, index);
      assert Fits(table, r);
      if r.index == index {
        assert u[k] == Entry(index, Filled(chip, table[k].data, r.data, r.sum as nat));
      } else {
        assert u[k] == table[k];
      }
    }
  }

  lemma {:induction false} OnlyFirst(table: seq<Entry>, index: nat, k: nat, i: nat)
    requires k < |table| && IsFirst(table, index, k) && i <= k
    ensures FirstEntry(table, index, i) == k
    decreases k - i
  {
    if i < k { OnlyFirst(table, index, k, i + 1); }
  }

  lemma {:induction false} LastRest(recs: seq<Rec>, index: nat)
    requires recs != []
    ensures var j := LastRec(recs[1..], index);
      LastRec(recs, index) == if j < |recs| - 1 then j + 1 else if recs[0].index == index then 0 else |recs|
  {
    var j, l := LastRec(recs[1..], index), LastRec(recs, index);
    assert forall i :: 0 < i < |recs| ==> recs[i] == recs[1..][i - 1];
    if j < |recs| - 1 {
      assert recs[j + 1].index == index;
    }
  }
}
