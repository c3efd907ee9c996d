/** Where the search for the parameter area looks, and what it finds, for any content of the flash. */
module VmSearch {
  import opened Bytes
  import opened VmLog

  // ---- walking through an area ----

  /** A record header that has been read: where its payload is, its index, its length, its checksum byte. */
  datatype Mark = Mark(at: nat, index: nat, size: nat, crc: nat)

  /** No record starts here: the index is out of range, as in erased flash. */
  ghost predicate Unwritten(chip: Chip, addr: nat)
    requires Keeps(chip)
  {
    IndexOf(Load(chip, addr, LABEL)) > LASTINDEX
  }

  ghost function MarkAt(chip: Chip, addr: nat): Mark
    requires Keeps(chip)
  {
    var h := Load(chip, addr, LABEL);
    Mark(addr + LABEL, IndexOf(h), LenOf(h), h[0] as nat)
  }

  /** The records from addr on, up to the first header that was never written, or to the end. */
  ghost function Marks(chip: Chip, addr: nat, end: nat): seq<Mark>
    requires Keeps(chip)
    decreases if addr < end then end - addr else 0
  {
    if end <= addr || Unwritten(chip, addr) then []
    else
      var m := MarkAt(chip, addr);
      [m] + Marks(chip, m.at + m.size, end)
  }

  /** Where those records stop. */
  ghost function Stop(chip: Chip, addr: nat, end: nat): (p: nat)
    requires Keeps(chip)
    ensures addr <= p
    ensures p < end ==> Unwritten(chip, p)
    decreases if addr < end then end - addr else 0
  {
    if end <= addr || Unwritten(chip, addr) then addr
    else
      var m := MarkAt(chip, addr);
      Stop(chip, m.at + m.size, end)
  }

  function VisitMark(chip: Chip, table: seq<Entry>, m: Mark): (seq<Entry>, bool) {
    Visit(chip, table, m.index, m.at, m.crc, m.size)
  }

  /** The table after the records, in order. */
  function VisitAll(chip: Chip, table: seq<Entry>, marks: seq<Mark>): seq<Entry>
    decreases |marks|
  {
    if marks == [] then table else VisitAll(chip, VisitMark(chip, table, marks[0]).0, marks[1..])
  }

  /** One of the records is wanted and right. */
  predicate AnyHit(chip: Chip, table: seq<Entry>, marks: seq<Mark>)
    decreases |marks|
  {
    marks != [] && (VisitMark(chip, table, marks[0]).1 || AnyHit(chip, table, marks[1..]))
  }

  predicate SameShape(a: seq<Entry>, b: seq<Entry>) {
    |a| == |b| && forall k :: 0 <= k < |a| ==> a[k].index == b[k].index && |a[k].data| == |b[k].data|
  }

  /** A visit changes no index and no length. */
  lemma {:induction false} VisitShape(chip: Chip, table: seq<Entry>, m: Mark)
    ensures SameShape(table, VisitMark(chip, table, m).0)
  {
  }

  lemma {:induction false} VisitAllShape(chip: Chip, table: seq<Entry>, marks: seq<Mark>)
    ensures SameShape(table, VisitAll(chip, table, marks))
    decreases |marks|
  {
    if marks != [] {
      VisitShape(chip, table, marks[0]);
      VisitAllShape(chip, VisitMark(chip, table, marks[0]).0, marks[1..]);
    }
  }

  /** So what is a hit does not depend on what the buffers hold. */
  lemma {:induction false} SameHits(chip: Chip, a: seq<Entry>, b: seq<Entry>, marks: seq<Mark>)
    requires SameShape(a, b)
    ensures AnyHit(chip, a, marks) == AnyHit(chip, b, marks)
    decreases |marks|
  {
    if marks != [] {
      SameFirst(a, b, marks[0].index, 0);
      SameHits(chip, a, b, marks[1..]);
    }
  }

  lemma {:induction false} FirstMark(chip: Chip, addr: nat, end: nat, marks: seq<Mark>, m: Mark, rest: seq<Mark>)
    requires Keeps(chip) && addr < end && !Unwritten(chip, addr)
    requires marks == Marks(chip, addr, end) && m == MarkAt(chip, addr) && rest == Marks(chip, m.at + m.size, end)
    ensures marks != [] && marks[0] == m && marks[1..] == rest
    ensures Stop(chip, addr, end) == Stop(chip, m.at + m.size, end)
  {
  }

  /** The state behind the records that start at s.addr. */
  ghost function Walked(chip: Chip, s: Scan): Scan
    requires Keeps(chip)
  {
    var marks, p := Marks(chip, s.addr, s.end), Stop(chip, s.addr, s.end);
    var used := s.used + (p - s.addr);
    s.(addr := p, find := s.find || AnyHit(chip, s.table, marks), used := used,
       vmLen := if s.powerOff && marks != [] then used else s.vmLen, table := VisitAll(chip, s.table, marks))
  }

  /** The state behind one record. */
  ghost function Passed(chip: Chip, s: Scan): Scan
    requires Keeps(chip)
  {
    var m := MarkAt(chip, s.addr);
    var (table, found) := VisitMark(chip, s.table, m);
    var used := s.used + m.size + LABEL;
    s.(addr := m.at + m.size, find := s.find || found, used := used, vmLen := if s.powerOff then used else s.vmLen, table := table)
  }

  lemma {:induction false} PassedTurn(chip: Chip, cap: nat, s: Scan, t: Scan)
    requires Keeps(chip) && Orderly(cap, s) && s.findVm && s.lastVm != 0 && s.addr != 0 && !Unwritten(chip, s.addr) && t == Passed(chip, s)
    ensures Turn(chip, cap, s) == (t, true)
  {
  }

  lemma {:induction false} PassedWalk(chip: Chip, s: Scan, t: Scan)
    requires Keeps(chip) && s.addr < s.end && !Unwritten(chip, s.addr) && t == Passed(chip, s)
    ensures Walked(chip, t) == Walked(chip, s)
  {
    var m := MarkAt(chip, s.addr);
    var marks, rest := Marks(chip, s.addr, s.end), Marks(chip, t.addr, s.end);
    FirstMark(chip, s.addr, s.end, marks, m, rest);
    VisitShape(chip, s.table, m);
    SameHits(chip, s.table, t.table, rest);
    assert AnyHit(chip, s.table, marks) == (VisitMark(chip, s.table, m).1 || AnyHit(chip, s.table, rest));
    assert VisitAll(chip, s.table, marks) == VisitAll(chip, t.table, rest);
  }

  lemma {:induction false} SearchTurn(chip: Chip, cap: nat, s: Scan, t: Scan)
    requires Orderly(cap, s) && More(s) && Turn(chip, cap, s) == (t, true)
    ensures Orderly(cap, t) && Search(chip, cap, s) == Search(chip, cap, t)
  {
  }

  /** The search goes through all the records of an area, once each and in order. */
  lemma {:induction false} ThroughArea(chip: Chip, cap: nat, s: Scan, t: Scan)
    requires Keeps(chip) && Orderly(cap, s) && s.findVm && s.lastVm != 0 && s.addr != 0 && t == Walked(chip, s)
    ensures Orderly(cap, t) && Search(chip, cap, s) == Search(chip, cap, t)
    decreases if s.addr < s.end then s.end - s.addr else 0
  {
    if s.end <= s.addr || Unwritten(chip, s.addr) {
      assert t == s;
    } else {
      var u := Passed(chip, s);
      PassedTurn(chip, cap, s, u);
      SearchTurn(chip, cap, s, u);
      PassedWalk(chip, s, u);
      ThroughArea(chip, cap, u, t);
    }
  }

  // ---- where the search looks ----

  /** The highest sector from there down that starts with the magic, leaving out the first area found; 0 if there is none. */
  function HighestArea(chip: Chip, from: nat, lastVm: nat): (a: nat)
    requires from % SECTOR == 0
    ensures a <= from && a % SECTOR == 0
    ensures a != 0 ==> (a != lastVm && IsMagic(Load(chip, a, LABEL)))
  {
    if from == 0 then 0
    else if from != lastVm && IsMagic(Load(chip, from, LABEL)) then from
    else HighestArea(chip, from - SECTOR, lastVm)
  }

  lemma {:induction false} NoneHigher(chip: Chip, from: nat, lastVm: nat, b: nat)
    requires from % SECTOR == 0 && b % SECTOR == 0 && HighestArea(chip, from, lastVm) < b <= from
    ensures b == lastVm || !IsMagic(Load(chip, b, LABEL))
  {
    if b != from {
      NextMultiple(b, from);
      NoneHigher(chip, from - SECTOR, lastVm, b);
    }
  }

  lemma NextMultiple(b: nat, from: nat)
    requires from % SECTOR == 0 && b % SECTOR == 0 && b < from
    ensures b <= from - SECTOR
  {
  }

  /** Looking at the sector b. */
  function LookAt(s: Scan, b: nat): Scan { s.(sector := b, addr := b, end := b + SECTOR, vmAddr := b, vmLen := s.used) }

  function NextDown(s: Scan, b: nat): nat
    requires b % SECTOR == 0 && b != 0
  {
    if s.lastVm != 0 && s.lastVm == b - SECTOR then b - 2 * SECTOR else b - SECTOR
  }

  /** A sector without the magic is passed. */
  lemma {:induction false} DescendStep(chip: Chip, cap: nat, s: Scan, b: nat, c: nat)
    requires b % SECTOR == 0 && b != 0 && b <= cap && !s.findVm && Orderly(cap, LookAt(s, b)) && c == NextDown(s, b)
    requires !IsMagic(Load(chip, b, LABEL))
    ensures c < b && c % SECTOR == 0 && (c == 0 || c != s.lastVm)
    ensures Orderly(cap, LookAt(s, c)) && Search(chip, cap, LookAt(s, b)) == Search(chip, cap, LookAt(s, c))
  {
    var t, u := LookAt(s, b), LookAt(s, c);
    assert Turn(chip, cap, t) == (u, true);
    SearchTurn(chip, cap, t, u);
  }

  lemma {:induction false} HighestStep(chip: Chip, s: Scan, b: nat)
    requires b % SECTOR == 0 && b != 0 && !IsMagic(Load(chip, b, LABEL))
    ensures NextDown(s, b) % SECTOR == 0 && HighestArea(chip, b, s.lastVm) == HighestArea(chip, NextDown(s, b), s.lastVm)
  {
    if NextDown(s, b) != b - SECTOR {
      assert HighestArea(chip, b - SECTOR, s.lastVm) == HighestArea(chip, NextDown(s, b), s.lastVm);
    }
  }

  /** The search from the sector b downwards goes on at the highest area a, or ends at 0 if there is none. */
  lemma {:induction false} Descends(chip: Chip, cap: nat, s: Scan, b: nat, a: nat)
    requires b % SECTOR == 0 && b <= cap && !s.findVm && (b == 0 || b != s.lastVm) && Orderly(cap, LookAt(s, b))
    requires a == HighestArea(chip, b, s.lastVm)
    ensures Orderly(cap, LookAt(s, a)) && Search(chip, cap, LookAt(s, b)) == Search(chip, cap, LookAt(s, a))
    decreases b
  {
    if b != a {
      var c := NextDown(s, b);
      HighestStep(chip, s, b);
      DescendStep(chip, cap, s, b, c);
      Descends(chip, cap, s, c, a);
    }
  }

  // ---- one area ----

  /** What the search is for: the table, whether a record was found, and the area it leaves behind. */
  datatype Result = Result(table: seq<Entry>, find: bool, vmAddr: nat, vmLen: nat)

  function ResultOf(s: Scan): Result { Result(s.table, s.find, s.vmAddr, s.vmLen) }

  /** A look at an area that starts with the magic. */
  predicate AtArea(chip: Chip, s: Scan) {
    !s.findVm && !s.find && s.addr == s.vmAddr != 0 && IsMagic(Load(chip, s.vmAddr, LABEL))
  }

  /** The first header is read even if the area has no room for it. */
  function EndOf(s: Scan): nat { if s.addr + LABEL < s.end then s.end else s.addr + LABEL + 1 }

  function Entered(s: Scan): Scan {
    s.(addr := s.addr + LABEL, end := EndOf(s), findVm := true, lastVm := if s.lastVm == 0 then s.vmAddr else s.lastVm)
  }

  /** The state behind all records of the area at s. */
  ghost function AreaWalked(chip: Chip, s: Scan): Scan
    requires Keeps(chip)
  {
    Walked(chip, Entered(s))
  }

  /** The records of that area. */
  ghost function AreaMarks(chip: Chip, s: Scan): seq<Mark>
    requires Keeps(chip)
  {
    Marks(chip, s.addr + LABEL, EndOf(s))
  }

  /** The records stop inside the area, at a header that was never written. */
  ghost predicate Closed(chip: Chip, s: Scan)
    requires Keeps(chip)
  {
    Stop(chip, s.addr + LABEL, EndOf(s)) < EndOf(s)
  }

  lemma {:induction false} EnterTurn(chip: Chip, cap: nat, s: Scan, e: Scan)
    requires Orderly(cap, s) && AtArea(chip, s) && e == Entered(s)
    ensures Orderly(cap, e)
    ensures Turn(chip, cap, s).1 == Turn(chip, cap, e).1
    ensures Turn(chip, cap, s).0 == Turn(chip, cap, e).0.(end := Turn(chip, cap, s).0.end)
    ensures s.end == e.end ==> Turn(chip, cap, s) == Turn(chip, cap, e)
    ensures s.end != e.end ==> Turn(chip, cap, s) == Turn(chip, cap, e) || !Turn(chip, cap, s).1 || (s.end <= Turn(chip, cap, s).0.addr && e.end <= Turn(chip, cap, e).0.addr)
  {
  }

  lemma SearchStops(chip: Chip, cap: nat, s: Scan, t: Scan, goOn: bool)
    requires Orderly(cap, s) && More(s) && Turn(chip, cap, s) == (t, goOn) && (goOn ==> t.end <= t.addr)
    ensures Search(chip, cap, s) == t
  {
  }

  lemma {:induction false} EnterArea(chip: Chip, cap: nat, s: Scan, e: Scan)
    requires Orderly(cap, s) && AtArea(chip, s) && More(s) && e == Entered(s)
    ensures Orderly(cap, e) && ResultOf(Search(chip, cap, s)) == ResultOf(Search(chip, cap, e))
  {
    EnterTurn(chip, cap, s, e);
    var (t, goOn) := Turn(chip, cap, s);
    var (u, same) := Turn(chip, cap, e);
    if t == u && goOn {
      SearchTurn(chip, cap, s, t);
      SearchTurn(chip, cap, e, t);
    } else {
      SearchStops(chip, cap, s, t, goOn);
      SearchStops(chip, cap, e, u, same);
    }
  }

  /** The search ends at this area: it has a hit, or its records run to its end, or the redos are used up. */
  ghost predicate Final(chip: Chip, s: Scan)
    requires Keeps(chip)
  {
    AnyHit(chip, s.table, AreaMarks(chip, s)) || !Closed(chip, s) || s.redo == REDOS
  }

  lemma {:induction false} AreaFinal(chip: Chip, cap: nat, s: Scan, t: Scan)
    requires Keeps(chip) && Orderly(cap, s) && AtArea(chip, s) && More(s) && t == AreaWalked(chip, s) && Final(chip, s)
    ensures ResultOf(Search(chip, cap, s)) == ResultOf(t)
  {
    var e := Entered(s);
    EnterArea(chip, cap, s, e);
    ThroughArea(chip, cap, e, t);
    if t.addr < t.end {
      StopTurn(chip, cap, t);
      SearchStops(chip, cap, t, t, false);
    }
  }

  lemma {:induction false} StopTurn(chip: Chip, cap: nat, t: Scan)
    requires Keeps(chip) && Orderly(cap, t) && t.findVm && t.lastVm != 0 && t.addr != 0 && Unwritten(chip, t.addr)
    ensures Turn(chip, cap, t) == NextSector(cap, t)
  {
  }

  /** The highest area but the first one found, as the next redo looks at it. */
  function Again(chip: Chip, cap: nat, t: Scan): Scan
    requires cap % SECTOR == 0 && SECTOR <= cap
  {
    LookAt(t.(findVm := false, redo := t.redo + 1), HighestArea(chip, cap - SECTOR, t.lastVm))
  }

  /** Otherwise it goes on, from the top. */
  lemma {:induction false} AreaPassed(chip: Chip, cap: nat, s: Scan, t: Scan, u: Scan)
    requires Keeps(chip) && Orderly(cap, s) && AtArea(chip, s) && More(s) && !Final(chip, s) && SECTOR <= cap
    requires t == AreaWalked(chip, s) && u == Again(chip, cap, t)
    ensures Orderly(cap, u) && ResultOf(Search(chip, cap, s)) == ResultOf(Search(chip, cap, u))
  {
    var e := Entered(s);
    EnterArea(chip, cap, s, e);
    ThroughArea(chip, cap, e, t);
    StopTurn(chip, cap, t);
    FromTop(chip, cap, t, t.(findVm := false, redo := t.redo + 1), u);
  }

  lemma {:induction false} FromTop(chip: Chip, cap: nat, t: Scan, r: Scan, u: Scan)
    requires Orderly(cap, t) && More(t) && t.findVm && !t.find && t.redo < REDOS && SECTOR <= cap && t.lastVm != 0
    requires Turn(chip, cap, t) == NextSector(cap, t) && r == t.(findVm := false, redo := t.redo + 1) && u == Again(chip, cap, t)
    ensures Orderly(cap, u) && Search(chip, cap, t) == Search(chip, cap, u)
  {
    var b := NextDown(r, cap);
    TopTurn(chip, cap, t, r, LookAt(r, b));
    SearchTurn(chip, cap, t, LookAt(r, b));
    TopArea(chip, cap, r, b);
    Descends(chip, cap, r, b, u.addr);
  }

  lemma {:induction false} TopTurn(chip: Chip, cap: nat, t: Scan, r: Scan, v: Scan)
    requires Orderly(cap, t) && More(t) && t.findVm && !t.find && t.redo < REDOS && SECTOR <= cap
    requires r == t.(findVm := false, redo := t.redo + 1) && v == LookAt(r, NextDown(r, cap))
    ensures NextSector(cap, t) == (v, true)
  {
  }

  lemma {:induction false} TopArea(chip: Chip, cap: nat, r: Scan, b: nat)
    requires cap % SECTOR == 0 && SECTOR <= cap && b == NextDown(r, cap) && r.lastVm != 0
    ensures b % SECTOR == 0 && b <= cap && (b == 0 || b != r.lastVm)
    ensures HighestArea(chip, cap - SECTOR, r.lastVm) == HighestArea(chip, b, r.lastVm)
  {
  }

  // ---- the whole search ----

  /** Where vm_area_info_find starts. */
  predicate AtStart(cap: nat, s: Scan) {
    && Orderly(cap, s) && SECTOR <= cap
    && !s.findVm && !s.find && s.redo == 0 && s.lastVm == 0 && s.sector == cap && s.addr == s.vmAddr
  }

  /** The first area: the one the search starts at, if it has the magic, else the highest; none is looked at at 0. */
  function First(chip: Chip, cap: nat, s: Scan): Scan
    requires AtStart(cap, s)
  {
    if !More(s) || IsMagic(Load(chip, s.vmAddr, LABEL)) then s else LookAt(s, HighestArea(chip, cap - SECTOR, 0))
  }

  lemma {:induction false} FirstLook(chip: Chip, cap: nat, s: Scan, f: Scan)
    requires AtStart(cap, s) && f == First(chip, cap, s)
    ensures Orderly(cap, f) && Search(chip, cap, s) == Search(chip, cap, f)
    ensures More(f) ==> AtArea(chip, f)
    ensures f.redo == 0 && f.table == s.table && f.lastVm == 0 && !f.find
  {
    if More(s) && !IsMagic(Load(chip, s.vmAddr, LABEL)) {
      FirstDown(chip, cap, s, cap - SECTOR, f);
    }
  }

  lemma {:induction false} FirstDown(chip: Chip, cap: nat, s: Scan, b: nat, f: Scan)
    requires AtStart(cap, s) && More(s) && !IsMagic(Load(chip, s.vmAddr, LABEL)) && b == cap - SECTOR
    requires f == LookAt(s, HighestArea(chip, b, 0))
    ensures Orderly(cap, f) && Search(chip, cap, s) == Search(chip, cap, f)
  {
    FirstTurn(chip, cap, s, LookAt(s, b));
    SearchTurn(chip, cap, s, LookAt(s, b));
    Descends(chip, cap, s, b, f.addr);
  }

  lemma {:induction false} FirstTurn(chip: Chip, cap: nat, s: Scan, t: Scan)
    requires AtStart(cap, s) && More(s) && !IsMagic(Load(chip, s.vmAddr, LABEL)) && t == LookAt(s, cap - SECTOR)
    ensures Turn(chip, cap, s) == (t, true)
  {
  }

  /** The highest area but f, after f has been walked through, and the same area once more. */
  ghost function Second(chip: Chip, cap: nat, f: Scan): Scan
    requires Keeps(chip) && cap % SECTOR == 0 && SECTOR <= cap
  {
    Again(chip, cap, AreaWalked(chip, f))
  }

  /** What the search comes to: it looks at the first area, and at the highest other one if the first is closed
      and has no hit, and at that one a second time if it is the same there; never at a third. */
  ghost function Outcome(chip: Chip, cap: nat, s: Scan): Scan
    requires Keeps(chip) && AtStart(cap, s)
  {
    var f := First(chip, cap, s);
    if !More(f) then f
    else if Final(chip, f) then AreaWalked(chip, f)
    else
      var g := Second(chip, cap, f);
      if !More(g) then g
      else if Final(chip, g) then AreaWalked(chip, g)
      else AreaWalked(chip, Second(chip, cap, g))
  }

  lemma SearchNothing(chip: Chip, cap: nat, s: Scan)
    requires Orderly(cap, s) && !More(s)
    ensures Search(chip, cap, s) == s
  {
  }

  /** What a redo looks at. */
  lemma {:induction false} SecondLook(chip: Chip, cap: nat, f: Scan, g: Scan)
    requires Keeps(chip) && cap % SECTOR == 0 && SECTOR <= cap && f.vmAddr != 0 && g == Second(chip, cap, f)
    requires !f.find && !AnyHit(chip, f.table, AreaMarks(chip, f))
    ensures g.redo == f.redo + 1 && g.lastVm == (if f.lastVm == 0 then f.vmAddr else f.lastVm) && !g.find
    ensures g.addr == HighestArea(chip, cap - SECTOR, g.lastVm) && g.end == g.addr + SECTOR
    ensures g.table == VisitAll(chip, f.table, AreaMarks(chip, f))
    ensures More(g) <==> g.addr != 0
    ensures More(g) ==> AtArea(chip, g)
  {
  }

  /** A closed area without a hit has none the second time either. */
  lemma {:induction false} SameAgain(chip: Chip, cap: nat, g: Scan, h: Scan)
    requires Keeps(chip) && cap % SECTOR == 0 && SECTOR <= cap && h == Second(chip, cap, g)
    requires More(g) && AtArea(chip, g) && g.lastVm != 0 && g.addr == HighestArea(chip, cap - SECTOR, g.lastVm) && g.end == g.addr + SECTOR
    requires !AnyHit(chip, g.table, AreaMarks(chip, g))
    ensures h.addr == g.addr && AreaMarks(chip, h) == AreaMarks(chip, g) && !AnyHit(chip, h.table, AreaMarks(chip, h))
  {
    var marks := AreaMarks(chip, g);
    SecondLook(chip, cap, g, h);
    SameMarks(chip, g, h);
    VisitAllShape(chip, g.table, marks);
    SameHits(chip, g.table, h.table, marks);
  }

  lemma SameMarks(chip: Chip, g: Scan, h: Scan)
    requires Keeps(chip) && g.addr == h.addr && g.end == h.end
    ensures AreaMarks(chip, h) == AreaMarks(chip, g) && Closed(chip, h) == Closed(chip, g)
  {
  }

  /** For any flash content the whole search is that. */
  lemma {:induction false} SearchOutcome(chip: Chip, cap: nat, s: Scan, t: Scan)
    requires Keeps(chip) && AtStart(cap, s) && t == Outcome(chip, cap, s)
    ensures ResultOf(Search(chip, cap, s)) == ResultOf(t)
  {
    var f := First(chip, cap, s);
    FirstLook(chip, cap, s, f);
    if !More(f) {
      SearchNothing(chip, cap, f);
    } else if Final(chip, f) {
      AreaFinal(chip, cap, f, t);
    } else {
      var g := Second(chip, cap, f);
      SecondLook(chip, cap, f, g);
      AreaPassed(chip, cap, f, AreaWalked(chip, f), g);
      AfterFirst(chip, cap, g, t);
    }
  }

  lemma {:induction false} AfterFirst(chip: Chip, cap: nat, g: Scan, t: Scan)
    requires Keeps(chip) && Orderly(cap, g) && SECTOR <= cap && g.redo == 1 && g.lastVm != 0 && !g.find
    requires g.addr == HighestArea(chip, cap - SECTOR, g.lastVm) && g.end == g.addr + SECTOR && (More(g) ==> AtArea(chip, g))
    requires t == if !More(g) then g else if Final(chip, g) then AreaWalked(chip, g) else AreaWalked(chip, Second(chip, cap, g))
    ensures ResultOf(Search(chip, cap, g)) == ResultOf(t)
  {
    if !More(g) {
      SearchNothing(chip, cap, g);
    } else if Final(chip, g) {
      AreaFinal(chip, cap, g, t);
    } else {
      var h := Second(chip, cap, g);
      SecondLook(chip, cap, g, h);
      AreaPassed(chip, cap, g, AreaWalked(chip, g), h);
      AreaFinal(chip, cap, h, t);
    }
  }

  /** The table the search leaves: the first area's records; then, if that area is closed and has no hit, those
      of the highest other area; and those again if that one is closed and has none either. */
  lemma {:induction false} SearchTable(chip: Chip, cap: nat, s: Scan, f: Scan, g: Scan, one: seq<Entry>, two: seq<Entry>)
    requires Keeps(chip) && AtStart(cap, s) && f == First(chip, cap, s) && More(f) && g == Second(chip, cap, f)
    requires one == VisitAll(chip, s.table, AreaMarks(chip, f)) && two == VisitAll(chip, one, AreaMarks(chip, g))
    ensures Search(chip, cap, s).table ==
      if Final(chip, f) || !More(g) then one
      else if Final(chip, g) then two
      else VisitAll(chip, two, AreaMarks(chip, g))
  {
    var t := Outcome(chip, cap, s);
    SearchOutcome(chip, cap, s, t);
    if Final(chip, f) {
      FinalTable(chip, cap, s, f, t);
    } else {
      FirstLook(chip, cap, s, f);
      SecondLook(chip, cap, f, g);
      NextTable(chip, cap, s, f, g, t, two);
    }
  }

  lemma {:induction false} FinalTable(chip: Chip, cap: nat, s: Scan, f: Scan, t: Scan)
    requires Keeps(chip) && AtStart(cap, s) && f == First(chip, cap, s) && More(f) && Final(chip, f) && t == Outcome(chip, cap, s)
    ensures t.table == VisitAll(chip, s.table, AreaMarks(chip, f))
  {
    FirstLook(chip, cap, s, f);
    assert t == AreaWalked(chip, f);
  }

  lemma {:induction false} NextTable(chip: Chip, cap: nat, s: Scan, f: Scan, g: Scan, t: Scan, two: seq<Entry>)
    requires Keeps(chip) && AtStart(cap, s) && f == First(chip, cap, s) && More(f) && !Final(chip, f) && g == Second(chip, cap, f)
    requires t == Outcome(chip, cap, s) && two == VisitAll(chip, g.table, AreaMarks(chip, g)) && g.lastVm != 0
    requires g.addr == HighestArea(chip, cap - SECTOR, g.lastVm) && g.end == g.addr + SECTOR && (More(g) ==> AtArea(chip, g))
    ensures t.table == if !More(g) then g.table else if Final(chip, g) then two else VisitAll(chip, two, AreaMarks(chip, g))
  {
    OutcomeTable(chip, cap, g, t, two);
  }

  lemma {:induction false} OutcomeTable(chip: Chip, cap: nat, g: Scan, t: Scan, two: seq<Entry>)
    requires Keeps(chip) && cap % SECTOR == 0 && SECTOR <= cap && g.lastVm != 0 && (More(g) ==> AtArea(chip, g))
    requires g.addr == HighestArea(chip, cap - SECTOR, g.lastVm) && g.end == g.addr + SECTOR
    requires t == if !More(g) then g else if Final(chip, g) then AreaWalked(chip, g) else AreaWalked(chip, Second(chip, cap, g))
    requires two == VisitAll(chip, g.table, AreaMarks(chip, g))
    ensures t.table == if !More(g) then g.table else if Final(chip, g) then two else VisitAll(chip, two, AreaMarks(chip, g))
  {
    if More(g) && !Final(chip, g) {
      var h := Second(chip, cap, g);
      SecondLook(chip, cap, g, h);
      SameAgain(chip, cap, g, h);
    }
  }

  /** A wanted and right record is found exactly if it is in the first area, or the first area is closed and it is in
      the highest other one. */
  lemma {:induction false} FoundIff(chip: Chip, cap: nat, s: Scan, f: Scan, g: Scan)
    requires Keeps(chip) && AtStart(cap, s) && f == First(chip, cap, s) && g == Second(chip, cap, f)
    ensures Search(chip, cap, s).find <==>
      More(f) && (AnyHit(chip, s.table, AreaMarks(chip, f))
                  || (Closed(chip, f) && More(g) && AnyHit(chip, s.table, AreaMarks(chip, g))))
  {
    FirstLook(chip, cap, s, f);
    SearchOutcome(chip, cap, s, Outcome(chip, cap, s));
    if More(f) && !Final(chip, f) {
      SecondLook(chip, cap, f, g);
      VisitAllShape(chip, s.table, AreaMarks(chip, f));
      SameHits(chip, s.table, g.table, AreaMarks(chip, g));
      if More(g) && !Final(chip, g) {
        SameAgain(chip, cap, g, Second(chip, cap, g));
      }
    }
  }

  /** The area that is remembered: the first one if the search ends there, else the highest other one, or 0. */
  lemma {:induction false} FoundWhere(chip: Chip, cap: nat, s: Scan, f: Scan, g: Scan)
    requires Keeps(chip) && AtStart(cap, s) && f == First(chip, cap, s) && g == Second(chip, cap, f)
    ensures Search(chip, cap, s).vmAddr == if !More(f) || Final(chip, f) then f.addr else g.addr
    ensures Search(chip, cap, s).find ==> Search(chip, cap, s).vmAddr == if AnyHit(chip, s.table, AreaMarks(chip, f)) then f.addr else g.addr
  {
    FirstLook(chip, cap, s, f);
    FoundIff(chip, cap, s, f, g);
    SearchOutcome(chip, cap, s, Outcome(chip, cap, s));
    if More(f) && !Final(chip, f) {
      SecondLook(chip, cap, f, g);
      if More(g) && !Final(chip, g) {
        SameAgain(chip, cap, g, Second(chip, cap, g));
      }
    }
  }

  // ---- a record that is not found ----

  /** Four sectors; the upper three start with the magic, and the lowest of these three has a record with index 1. */
  function ThreeAreas(a: nat): byte {
    var off := a % SECTOR;
    if off == 0 || off == 3 then 0x55
    else if off == 1 || off == 2 then 0xAA
    else if a == SECTOR + 4 then 0
    else if a == SECTOR + 5 then 1
    else if a == SECTOR + 6 then 0x10
    else if a == SECTOR + 7 then 0
    else 0xFF
  }

  function PlainChip(): Chip { Chip(ThreeAreas, b => b, b => 0) }

  /** The search from the last sector for index 1 in that flash. */
  function ThreeAreasStart(): Scan {
    Scan(3 * SECTOR, 4 * SECTOR, 4 * SECTOR, 0, false, false, 0, LABEL, 3 * SECTOR, SECTOR, true, [Entry(1, [7])])
  }

  lemma EmptyArea(chip: Chip, sector: nat)
    requires chip == PlainChip() && (sector == 2 || sector == 3)
    ensures IsMagic(Load(chip, sector * SECTOR, LABEL)) && Unwritten(chip, sector * SECTOR + LABEL)
  {
    var b := Load(chip, sector * SECTOR, LABEL);
    assert b[0] == ThreeAreas(sector * SECTOR) && b[1] == ThreeAreas(sector * SECTOR + 1);
    assert b[2] == ThreeAreas(sector * SECTOR + 2) && b[3] == ThreeAreas(sector * SECTOR + 3);
    var h := Load(chip, sector * SECTOR + LABEL, LABEL);
    assert h[1] == ThreeAreas(sector * SECTOR + 5) && h[2] == ThreeAreas(sector * SECTOR + 6);
  }

  /** An area that starts with an unwritten header has no records. */
  lemma EmptyMarks(chip: Chip, s: Scan)
    requires Keeps(chip) && Unwritten(chip, s.addr + LABEL)
    ensures AreaMarks(chip, s) == [] && Closed(chip, s)
  {
  }

  lemma {:induction false} LowestArea(chip: Chip)
    requires chip == PlainChip()
    ensures IsMagic(Load(chip, SECTOR, LABEL)) && AnyHit(chip, [Entry(1, [7])], Marks(chip, SECTOR + LABEL, 2 * SECTOR))
  {
    var b, h := Load(chip, SECTOR, LABEL), Load(chip, SECTOR + LABEL, LABEL);
    assert b[0] == ThreeAreas(SECTOR) && b[1] == ThreeAreas(SECTOR + 1) && b[2] == ThreeAreas(SECTOR + 2) && b[3] == ThreeAreas(SECTOR + 3);
    assert h[0] == ThreeAreas(SECTOR + 4) && h[1] == ThreeAreas(SECTOR + 5) && h[2] == ThreeAreas(SECTOR + 6) && h[3] == ThreeAreas(SECTOR + 7);
    assert MarkAt(chip, SECTOR + LABEL) == Mark(SECTOR + 8, 1, 1, 0);
    assert FirstEntry([Entry(1, [7])], 1, 0) == 0;
    assert VisitMark(chip, [Entry(1, [7])], Mark(SECTOR + 8, 1, 1, 0)).1;
  }

  /** The record is wanted and right, but two empty areas are above it, and the search does not find it. */
  lemma {:induction false} ThirdAreaMissed(chip: Chip, cap: nat, s: Scan)
    requires chip == PlainChip() && cap == 4 * SECTOR && s == ThreeAreasStart()
    ensures Keeps(chip) && AtStart(cap, s)
    ensures IsMagic(Load(chip, SECTOR, LABEL)) && AnyHit(chip, s.table, Marks(chip, SECTOR + LABEL, 2 * SECTOR))
    ensures !Search(chip, cap, s).find
  {
    LowestArea(chip);
    EmptyArea(chip, 3);
    EmptyArea(chip, 2);
    TwoEmpty(chip, cap, s, Second(chip, cap, s));
  }

  /** Nothing is found if the last sector is an empty area, and the one below it too. */
  lemma {:induction false} TwoEmpty(chip: Chip, cap: nat, s: Scan, g: Scan)
    requires Keeps(chip) && AtStart(cap, s) && More(s) && 2 * SECTOR < cap && s.addr == cap - SECTOR
    requires IsMagic(Load(chip, s.addr, LABEL)) && Unwritten(chip, s.addr + LABEL)
    requires IsMagic(Load(chip, s.addr - SECTOR, LABEL)) && Unwritten(chip, s.addr - SECTOR + LABEL)
    requires g == Second(chip, cap, s)
    ensures !Search(chip, cap, s).find
  {
    EmptyMarks(chip, s);
    SecondLook(chip, cap, s, g);
    assert HighestArea(chip, cap - SECTOR, s.addr) == HighestArea(chip, cap - 2 * SECTOR, s.addr) == cap - 2 * SECTOR;
    EmptyMarks(chip, g);
    FoundIff(chip, cap, s, s, g);
  }

  // ---- areas that were written as records ----

  ghost predicate LogHits(chip: Chip, table: seq<Entry>, recs: seq<Rec>)
    decreases |recs|
  {
    recs != [] && (Hit(chip, table, recs[0]) || LogHits(chip, table, recs[1..]))
  }

  lemma {:induction false} SameLogHits(chip: Chip, a: seq<Entry>, b: seq<Entry>, recs: seq<Rec>)
    requires SameShape(a, b)
    ensures LogHits(chip, a, recs) == LogHits(chip, b, recs)
    decreases |recs|
  {
    if recs != [] {
      SameFirst(a, b, recs[0].index, 0);
      SameLogHits(chip, a, b, recs[1..]);
    }
  }

  /** If the records from addr on are these, then the walk reads them, and stops behind them. */
  lemma {:induction false} LogMarks(chip: Chip, table: seq<Entry>, addr: nat, end: nat, recs: seq<Rec>, marks: seq<Mark>)
    requires Keeps(chip) && LogAt(chip, addr, recs) && addr + LogSize(recs) < end && AllFit(table, recs) && marks == Marks(chip, addr, end)
    ensures VisitAll(chip, table, marks) == Replay(chip, table, recs)
    ensures AnyHit(chip, table, marks) == LogHits(chip, table, recs)
    ensures Stop(chip, addr, end) == addr + LogSize(recs)
    decreases |recs|
  {
    if recs != [] {
      var r, m, more := recs[0], MarkAt(chip, addr), recs[1..];
      var rest, t := Marks(chip, m.at + m.size, end), Put(chip, table, r);
      LogMark(chip, table, addr, recs, m);
      FirstMark(chip, addr, end, marks, m, rest);
      PutFits(chip, table, recs);
      LogMarks(chip, t, m.at + m.size, end, more, rest);
      FirstVisit(chip, table, t, marks, recs);
      FirstHits(chip, table, t, marks, recs);
    }
  }

  lemma {:induction false} FirstVisit(chip: Chip, table: seq<Entry>, t: seq<Entry>, marks: seq<Mark>, recs: seq<Rec>)
    requires marks != [] && recs != [] && AllFit(table, recs) && t == Put(chip, table, recs[0]) == VisitMark(chip, table, marks[0]).0
    requires AllFit(t, recs[1..]) && VisitAll(chip, t, marks[1..]) == Replay(chip, t, recs[1..])
    ensures VisitAll(chip, table, marks) == Replay(chip, table, recs)
  {
  }

  lemma {:induction false} FirstHits(chip: Chip, table: seq<Entry>, t: seq<Entry>, marks: seq<Mark>, recs: seq<Rec>)
    requires marks != [] && recs != [] && SameShape(table, t) && VisitMark(chip, table, marks[0]).1 == Hit(chip, table, recs[0])
    requires AnyHit(chip, t, marks[1..]) == LogHits(chip, t, recs[1..])
    ensures AnyHit(chip, table, marks) == LogHits(chip, table, recs)
  {
    SameHits(chip, table, t, marks[1..]);
    SameLogHits(chip, table, t, recs[1..]);
  }

  /** One record. */
  lemma {:induction false} LogMark(chip: Chip, table: seq<Entry>, addr: nat, recs: seq<Rec>, m: Mark)
    requires Keeps(chip) && recs != [] && LogAt(chip, addr, recs) && AllFit(table, recs) && m == MarkAt(chip, addr)
    ensures !Unwritten(chip, addr) && m.at + m.size == addr + LABEL + |recs[0].data|
    ensures VisitMark(chip, table, m) == (Put(chip, table, recs[0]), Hit(chip, table, recs[0]))
    ensures SameShape(table, Put(chip, table, recs[0]))
  {
    var r := recs[0];
    HeaderReads(r);
    assert Fits(table, r);
    VisitRecord(chip, table, r, m.at);
  }

  /** So the table is filled from the records of the first area, if one of them is wanted and right. */
  lemma {:induction false} FilledFromFirst(chip: Chip, cap: nat, s: Scan, f: Scan, recs: seq<Rec>)
    requires Keeps(chip) && AtStart(cap, s) && f == First(chip, cap, s) && More(f)
    requires LogAt(chip, f.addr + LABEL, recs) && f.addr + LABEL + LogSize(recs) < EndOf(f) && AllFit(s.table, recs)
    requires LogHits(chip, s.table, recs)
    ensures Search(chip, cap, s).table == Replay(chip, s.table, recs) && Search(chip, cap, s).find
  {
    var g, one := Second(chip, cap, f), VisitAll(chip, s.table, AreaMarks(chip, f));
    LogMarks(chip, s.table, f.addr + LABEL, EndOf(f), recs, AreaMarks(chip, f));
    FirstLook(chip, cap, s, f);
    SearchTable(chip, cap, s, f, g, one, VisitAll(chip, one, AreaMarks(chip, g)));
    FoundIff(chip, cap, s, f, g);
  }

  /** Or else from those of the highest other area. */
  lemma {:induction false} FilledFromSecond(chip: Chip, cap: nat, s: Scan, f: Scan, g: Scan, one: seq<Rec>, two: seq<Rec>)
    requires Keeps(chip) && AtStart(cap, s) && f == First(chip, cap, s) && More(f) && g == Second(chip, cap, f) && More(g)
    requires LogAt(chip, f.addr + LABEL, one) && f.addr + LABEL + LogSize(one) < EndOf(f) && AllFit(s.table, one)
    requires !LogHits(chip, s.table, one)
    requires AllFit(Replay(chip, s.table, one), two)
    requires LogAt(chip, g.addr + LABEL, two) && LABEL + LogSize(two) < SECTOR && LogHits(chip, s.table, two)
    ensures Search(chip, cap, s).table == Replay(chip, Replay(chip, s.table, one), two) && Search(chip, cap, s).find
  {
    var t := Replay(chip, s.table, one);
    LogMarks(chip, s.table, f.addr + LABEL, EndOf(f), one, AreaMarks(chip, f));
    FirstLook(chip, cap, s, f);
    SecondLook(chip, cap, f, g);
    VisitAllShape(chip, s.table, AreaMarks(chip, f));
    SameLogHits(chip, s.table, t, two);
    LogMarks(chip, t, g.addr + LABEL, EndOf(g), two, AreaMarks(chip, g));
    SameHits(chip, s.table, t, AreaMarks(chip, g));
    SearchTable(chip, cap, s, f, g, t, VisitAll(chip, t, AreaMarks(chip, g)));
    FoundIff(chip, cap, s, f, g);
  }

  // ---- the area the search starts at ----

  /** An area with the magic at addr, with these records in its len bytes, one of them wanted and right. */
  ghost predicate HitsIn(chip: Chip, table: seq<Entry>, addr: nat, len: nat, recs: seq<Rec>) {
    && 0 < addr && IsMagic(Load(chip, addr, LABEL))
    && LogAt(chip, addr + LABEL, recs) && LABEL + LogSize(recs) < len
    && AllFit(table, recs) && LogHits(chip, table, recs)
  }

  /** An area with the magic at addr, with a wanted and right record in its len bytes, whatever else is there. */
  ghost predicate HasHit(chip: Chip, table: seq<Entry>, addr: nat, len: nat)
    requires Keeps(chip)
  {
    0 < addr && LABEL < len && IsMagic(Load(chip, addr, LABEL)) && AnyHit(chip, table, Marks(chip, addr + LABEL, addr + len))
  }

  /** What is remembered of such an area: its records, in order, its address, and its length, which is kept if it was
      known and is otherwise the bytes up to the end of its records. */
  ghost predicate Remembers(chip: Chip, before: seq<Entry>, addr: nat, len: nat, known: bool, table: seq<Entry>, vmAddr: nat, vmLen: nat)
    requires Keeps(chip)
  {
    && (HasHit(chip, before, addr, len) ==>
          && table == VisitAll(chip, before, Marks(chip, addr + LABEL, addr + len))
          && vmAddr == addr && vmLen == if known then len else Stop(chip, addr + LABEL, addr + len) - addr)
    && forall recs :: HitsIn(chip, before, addr, len, recs) ==>
         table == Replay(chip, before, recs) && vmAddr == addr && vmLen == if known then len else LABEL + LogSize(recs)
  }

  lemma {:induction false} OutcomeFirst(chip: Chip, cap: nat, s: Scan, len: nat, t: Scan)
    requires Keeps(chip) && AtStart(cap, s) && s.end == s.addr + len && HasHit(chip, s.table, s.addr, len) && t == Outcome(chip, cap, s)
    ensures t == AreaWalked(chip, s) && EndOf(s) == s.end
  {
    assert First(chip, cap, s) == s;
  }

  /** The search ends with the records of such an area, if it starts there. */
  lemma {:induction false} EndsAtStart(chip: Chip, s: Scan, marks: seq<Mark>, p: nat, t: Scan)
    requires Keeps(chip) && t == AreaWalked(chip, s) && EndOf(s) == s.end && s.used == LABEL && AnyHit(chip, s.table, marks)
    requires marks == Marks(chip, s.addr + LABEL, s.end) && p == Stop(chip, s.addr + LABEL, s.end)
    ensures t.table == VisitAll(chip, s.table, marks) && t.vmAddr == s.vmAddr && t.vmLen == if s.powerOff then p - s.addr else s.vmLen
  {
    assert marks != [];
  }

  lemma {:induction false} HitsHas(chip: Chip, table: seq<Entry>, addr: nat, len: nat, recs: seq<Rec>)
    requires Keeps(chip) && HitsIn(chip, table, addr, len, recs)
    ensures HasHit(chip, table, addr, len)
    ensures VisitAll(chip, table, Marks(chip, addr + LABEL, addr + len)) == Replay(chip, table, recs)
    ensures Stop(chip, addr + LABEL, addr + len) == addr + LABEL + LogSize(recs)
  {
    LogMarks(chip, table, addr + LABEL, addr + len, recs, Marks(chip, addr + LABEL, addr + len));
  }

  lemma {:induction false} RemembersHit(chip: Chip, before: seq<Entry>, addr: nat, len: nat, known: bool, table: seq<Entry>, vmAddr: nat, vmLen: nat)
    requires Keeps(chip)
    requires HasHit(chip, before, addr, len) ==>
      && table == VisitAll(chip, before, Marks(chip, addr + LABEL, addr + len))
      && vmAddr == addr && vmLen == if known then len else Stop(chip, addr + LABEL, addr + len) - addr
    ensures Remembers(chip, before, addr, len, known, table, vmAddr, vmLen)
  {
    forall recs | HitsIn(chip, before, addr, len, recs)
      ensures table == Replay(chip, before, recs) && vmAddr == addr && vmLen == if known then len else LABEL + LogSize(recs)
    {
      HitsHas(chip, before, addr, len, recs);
    }
  }

  lemma {:induction false} StartHit(chip: Chip, cap: nat, s: Scan, addr: nat, len: nat, marks: seq<Mark>, p: nat, t: Scan)
    requires Keeps(chip) && AtStart(cap, s) && s.used == LABEL && s.addr == addr && s.end == addr + len && HasHit(chip, s.table, addr, len)
    requires marks == Marks(chip, addr + LABEL, addr + len) && p == Stop(chip, addr + LABEL, addr + len) && t == Outcome(chip, cap, s)
    ensures t.table == VisitAll(chip, s.table, marks) && t.vmAddr == addr && t.vmLen == if s.powerOff then p - addr else s.vmLen
  {
    OutcomeFirst(chip, cap, s, len, t);
    EndsAtStart(chip, s, marks, p, t);
  }

  /** What the search from there comes to. */
  lemma {:induction false} StartRemembers(chip: Chip, cap: nat, s: Scan, addr: nat, len: nat, known: bool, t: Scan)
    requires Keeps(chip) && AtStart(cap, s) && s.used == LABEL && s.addr == addr && s.end == addr + len
    requires s.powerOff == !known && s.vmLen == len && t == Outcome(chip, cap, s)
    ensures Remembers(chip, s.table, addr, len, known, t.table, t.vmAddr, t.vmLen)
  {
    if HasHit(chip, s.table, addr, len) {
      StartHit(chip, cap, s, addr, len, Marks(chip, addr + LABEL, addr + len), Stop(chip, addr + LABEL, addr + len), t);
    }
    RemembersHit(chip, s.table, addr, len, known, t.table, t.vmAddr, t.vmLen);
  }

  lemma {:induction false} SearchComes(chip: Chip, cap: nat, s: Scan, t: Scan)
    requires Keeps(chip) && AtStart(cap, s) && t == Outcome(chip, cap, s)
    ensures ResultOf(Search(chip, cap, s)) == ResultOf(t) && (!More(s) ==> Search(chip, cap, s) == s)
  {
    SearchOutcome(chip, cap, s, t);
    if !More(s) { SearchNothing(chip, cap, s); }
  }

  /** The length that is remembered of the highest other area counts the records of the first one too. */
  lemma {:induction false} SecondLength(chip: Chip, cap: nat, s: Scan, f: Scan, g: Scan, one: seq<Rec>, two: seq<Rec>)
    requires Keeps(chip) && AtStart(cap, s) && f == First(chip, cap, s) && More(f) && g == Second(chip, cap, f) && More(g)
    requires LogAt(chip, f.addr + LABEL, one) && f.addr + LABEL + LogSize(one) < EndOf(f) && AllFit(s.table, one)
    requires !LogHits(chip, s.table, one)
    requires AllFit(Replay(chip, s.table, one), two)
    requires LogAt(chip, g.addr + LABEL, two) && LABEL + LogSize(two) < SECTOR && LogHits(chip, s.table, two)
    ensures Search(chip, cap, s).vmAddr == g.addr
    ensures Search(chip, cap, s).vmLen == s.used + LogSize(one) + (if s.powerOff then LogSize(two) else 0)
  {
    var t := Replay(chip, s.table, one);
    LogMarks(chip, s.table, f.addr + LABEL, EndOf(f), one, AreaMarks(chip, f));
    FirstLook(chip, cap, s, f);
    SecondLook(chip, cap, f, g);
    VisitAllShape(chip, s.table, AreaMarks(chip, f));
    SameLogHits(chip, s.table, t, two);
    LogMarks(chip, t, g.addr + LABEL, EndOf(g), two, AreaMarks(chip, g));
    SearchOutcome(chip, cap, s, Outcome(chip, cap, s));
    SecondUsed(chip, cap, s, f, g, LogSize(one), LogSize(two));
  }

  lemma {:induction false} SecondUsed(chip: Chip, cap: nat, s: Scan, f: Scan, g: Scan, m: nat, n: nat)
    requires Keeps(chip) && AtStart(cap, s) && f == First(chip, cap, s) && More(f) && g == Second(chip, cap, f) && More(g)
    requires !Final(chip, f) && Final(chip, g) && g.end == g.addr + SECTOR && AreaMarks(chip, g) != [] && g.addr != 0
    requires Stop(chip, f.addr + LABEL, EndOf(f)) == f.addr + LABEL + m && Stop(chip, g.addr + LABEL, EndOf(g)) == g.addr + LABEL + n
    ensures Outcome(chip, cap, s).vmAddr == g.addr && Outcome(chip, cap, s).vmLen == s.used + m + (if s.powerOff then n else 0)
  {
    assert f.used == s.used && f.powerOff == s.powerOff;
  }
}
