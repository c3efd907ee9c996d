/** How a pool lies in memory: pool head, block headers, free list and queue. */
module PoolMemory {
  import opened Tiling
  import opened PoolSpec
  import opened Memory

  // the pool head: the links of the queue, then those of the free list
  const FREELIST := 8
  // a free block: links, then its length
  const FLEN := 8
  // a live block: links, owner, length, state byte, reference count
  const OWNER := 8
  const ELEN := 12
  const STATE := 16
  const REF := 17

  ghost predicate FreeHeader(m: Mem, t: Tile) { Rd(m, t.addr + FLEN) == t.len }

  ghost predicate LiveHeader(m: Mem, head: int, t: Tile)
    requires t.Live?
  {
    && Rd(m, t.addr + OWNER) == head
    && Rd(m, t.addr + ELEN) == t.len
    && Rd(m, t.addr + STATE) == t.state
    && Rd(m, t.addr + REF) == t.refs
    && (t.refs == 0 ==> Rd(m, t.addr) == t.addr && Rd(m, t.addr + PREV) == t.addr)
  }

  ghost predicate FreePart(m: Mem, head: int, ts: seq<Tile>) {
    && Linked(m, head + FREELIST, FreeAddrs(ts))
    && forall k :: 0 <= k < |ts| && ts[k].Free? ==> FreeHeader(m, ts[k])
  }

  ghost predicate LivePart(m: Mem, head: int, ts: seq<Tile>) {
    forall k :: 0 <= k < |ts| && ts[k].Live? ==> LiveHeader(m, head, ts[k])
  }

  /** Memory m holds pool p with its head at address head. */
  ghost predicate Rep(m: Mem, head: int, p: Pool) {
    && FreePart(m, head, p.tiles)
    && LivePart(m, head, p.tiles)
    && Linked(m, head, p.queue)
  }

  /** The blocks of the pool lie behind its head. */
  ghost predicate Placed(ts: seq<Tile>, head: int, hi: int) {
    && 0 < head
    && Tiled(ts, head + HPOOL, hi)
    && Sized(ts)
  }

  /** The payload of each of these live blocks reads the same in both memories. */
  ghost predicate PayloadKept(m: Mem, m': Mem, ls: seq<Tile>) {
    forall t, y :: t in ls && t.addr + HENTRY <= y < t.Finish() ==> Rd(m', y) == Rd(m, y)
  }

  lemma PayloadTrans(m: Mem, m': Mem, m'': Mem, ls: seq<Tile>)
    requires PayloadKept(m, m', ls) && PayloadKept(m', m'', ls)
    ensures PayloadKept(m, m'', ls)
  {
  }

  lemma {:induction false} InLives(ts: seq<Tile>, t: Tile)
    requires t in Lives(ts)
    ensures t.Live? && t in ts
  {
    if !(ts[0].Live? && t == ts[0]) {
      InLives(ts[1..], t);
    }
  }

  // ---- where list nodes lie ----

  /** Every node of the free list, its head included, keeps clear of a live block. */
  lemma {:induction false} FreeNodeOutside(ts: seq<Tile>, head: int, hi: int, q: nat, i: nat)
    requires Placed(ts, head, hi) && q <= |FreeAddrs(ts)| + 1 && i < |ts| && ts[i].Live?
    ensures var c := Ring(head + FREELIST, FreeAddrs(ts))[q];
      && (c + HFREE <= ts[i].addr || ts[i].Finish() <= c || c == head + FREELIST)
      && (c == head + FREELIST ==> c + LINKS <= ts[i].addr)
  {
    TiledApart(ts, head + HPOOL, hi);
    if 0 < q <= |FreeAddrs(ts)| {
      var k := FreeTileAt(ts, q - 1);
      if k < i { assert ts[k].Finish() <= ts[i].addr; } else { assert ts[i].Finish() <= ts[k].addr; }
    }
  }

  lemma {:induction false} FreeNodeIn(ts: seq<Tile>, head: int, hi: int, j: nat)
    requires Placed(ts, head, hi) && j < |FreeAddrs(ts)|
    ensures head + HPOOL <= FreeAddrs(ts)[j] && FreeAddrs(ts)[j] + HFREE <= hi
  {
    TiledApart(ts, head + HPOOL, hi);
    var k := FreeTileAt(ts, j);
  }

  lemma {:induction false} FreeSpread(ts: seq<Tile>, head: int, hi: int)
    requires Placed(ts, head, hi)
    ensures Spread(head + FREELIST, FreeAddrs(ts))
  {
    TiledApart(ts, head + HPOOL, hi);
    var f := FreeAddrs(ts);
    forall i | 0 <= i < |f| ensures Distant(head + FREELIST, f[i]) && 0 < f[i] {
      FreeNodeIn(ts, head, hi, i);
    }
    forall i, j | 0 <= i < j < |f| ensures Distant(f[i], f[j]) {
      var a := FreeTileAt(ts, i);
      var b := FreeTileAt(ts, j);
      if a < b { assert ts[a].Finish() <= ts[b].addr; } else { assert ts[b].Finish() <= ts[a].addr; }
    }
  }

  lemma {:induction false} QueuedTile(p: Pool, i: nat) returns (k: nat)
    requires QueueOk(p) && i < |p.queue|
    ensures k < |p.tiles| && p.tiles[k].Live? && p.tiles[k].addr == p.queue[i] && p.tiles[k].refs > 0
  {
    assert p.queue[i] in p.queue;
    k :| 0 <= k < |p.tiles| && p.tiles[k].Live? && p.tiles[k].addr == p.queue[i] && p.tiles[k].refs > 0;
  }

  lemma {:induction false} QueueSpread(p: Pool, head: int, hi: int)
    requires Placed(p.tiles, head, hi) && QueueOk(p)
    ensures Spread(head, p.queue)
  {
    TiledApart(p.tiles, head + HPOOL, hi);
    forall i | 0 <= i < |p.queue| ensures Distant(head, p.queue[i]) && 0 < p.queue[i] {
      var k := QueuedTile(p, i);
    }
    forall i, j | 0 <= i < j < |p.queue| ensures Distant(p.queue[i], p.queue[j]) {
      var a := QueuedTile(p, i);
      var b := QueuedTile(p, j);
      if a < b { assert p.tiles[a].Finish() <= p.tiles[b].addr; } else { assert p.tiles[b].Finish() <= p.tiles[a].addr; }
    }
  }

  // ---- writes that the parts of the pool do not notice ----

  /** Every cell of a live block, and of the queue head, is the same. */
  ghost predicate LiveCellsKept(m: Mem, m': Mem, head: int, ts: seq<Tile>) {
    && Rd(m', head) == Rd(m, head) && Rd(m', head + PREV) == Rd(m, head + PREV)
    && forall k, y :: 0 <= k < |ts| && ts[k].Live? && ts[k].addr <= y < ts[k].Finish() ==> Rd(m', y) == Rd(m, y)
  }

  lemma {:induction false} LivePartFrame(m: Mem, m': Mem, head: int, ts: seq<Tile>)
    requires LivePart(m, head, ts) && LiveCellsKept(m, m', head, ts) && Sized(ts)
    ensures LivePart(m', head, ts) && PayloadKept(m, m', Lives(ts))
  {
    forall t, y | t in Lives(ts) && t.addr + HENTRY <= y < t.Finish() ensures Rd(m', y) == Rd(m, y) {
      InLives(ts, t);
      var k :| 0 <= k < |ts| && ts[k] == t;
    }
  }

  lemma {:induction false} QueueFrame(m: Mem, m': Mem, head: int, p: Pool)
    requires Linked(m, head, p.queue) && LiveCellsKept(m, m', head, p.tiles) && Sized(p.tiles) && QueueOk(p)
    ensures Linked(m', head, p.queue)
  {
    forall i | 0 <= i < |p.queue|
      ensures Rd(m', p.queue[i]) == Rd(m, p.queue[i]) && Rd(m', p.queue[i] + PREV) == Rd(m, p.queue[i] + PREV)
    {
      var k := QueuedTile(p, i);
      assert p.tiles[k].addr <= p.queue[i] < p.tiles[k].Finish();
      assert p.tiles[k].addr <= p.queue[i] + PREV < p.tiles[k].Finish();
    }
    LinkedFrame(m, m', head, p.queue);
  }

  lemma KeptTrans(m: Mem, m': Mem, m'': Mem, head: int, ts: seq<Tile>)
    requires LiveCellsKept(m, m', head, ts) && LiveCellsKept(m', m'', head, ts)
    ensures LiveCellsKept(m, m'', head, ts)
  {
  }

  /** Writing a link of a free list node. */
  lemma {:induction false} FreeLinkKeepsLive(m: Mem, head: int, hi: int, ts: seq<Tile>, q: nat, off: int, v: int)
    requires Placed(ts, head, hi) && q <= |FreeAddrs(ts)| + 1 && (off == 0 || off == PREV)
    ensures LiveCellsKept(m, Wr(m, Ring(head + FREELIST, FreeAddrs(ts))[q] + off, v), head, ts)
  {
    var c := Ring(head + FREELIST, FreeAddrs(ts))[q];
    forall i | 0 <= i < |ts| && ts[i].Live? ensures c + LINKS <= ts[i].addr || ts[i].Finish() <= c {
      FreeNodeOutside(ts, head, hi, q, i);
    }
    assert head + FREELIST <= c by {
      if 0 < q <= |FreeAddrs(ts)| { FreeNodeIn(ts, head, hi, q - 1); }
    }
    LinkWriteKeeps(m, Wr(m, c + off, v), head, ts, c);
  }

  lemma {:induction false} LinkWriteKeeps(m: Mem, m': Mem, head: int, ts: seq<Tile>, c: int)
    requires SameOutside(m, m', c, c + LINKS) && head + FREELIST <= c
    requires forall i :: 0 <= i < |ts| && ts[i].Live? ==> c + LINKS <= ts[i].addr || ts[i].Finish() <= c
    ensures LiveCellsKept(m, m', head, ts)
  {
  }

  /** Writing inside a free block. */
  lemma {:induction false} FreeRangeKeepsLive(m: Mem, m': Mem, head: int, hi: int, ts: seq<Tile>, k: nat)
    requires Placed(ts, head, hi) && k < |ts| && ts[k].Free?
    requires SameOutside(m, m', ts[k].addr, ts[k].Finish())
    ensures LiveCellsKept(m, m', head, ts)
  {
    TiledApart(ts, head + HPOOL, hi);
    forall i, y | 0 <= i < |ts| && ts[i].Live? && ts[i].addr <= y < ts[i].Finish()
      ensures Rd(m', y) == Rd(m, y)
    {
      if k < i { assert ts[k].Finish() <= ts[i].addr; } else { assert ts[i].Finish() <= ts[k].addr; }
    }
  }

  // ---- alloc ----

  /** The header that alloc writes at address a. */
  function EntryWritten(m: Mem, a: int, head: int, len: int): Mem {
    Selfed(Wr(Wr(Wr(Wr(m, a + OWNER, head), a + STATE, 0), a + ELEN, len), a + REF, 0), a)
  }

  lemma EntryReads(m: Mem, a: int, head: int, len: int)
    ensures LiveHeader(EntryWritten(m, a, head, len), head, Live(a, len, 0, 0))
    ensures SameOutside(m, EntryWritten(m, a, head, len), a, a + HENTRY)
  {
  }

  /** The place of free block k in the free list. */
  function FreePos(ts: seq<Tile>, k: nat): nat
    requires k < |ts|
  {
    |FreeAddrs(ts[..k])|
  }

  lemma {:induction false} FreePosFacts(ts: seq<Tile>, k: nat)
    requires k < |ts| && ts[k].Free?
    ensures FreePos(ts, k) < |FreeAddrs(ts)| && FreeAddrs(ts)[FreePos(ts, k)] == ts[k].addr
    ensures FreeAddrs(ts)[..FreePos(ts, k)] == FreeAddrs(ts[..k])
    ensures FreeAddrs(ts)[FreePos(ts, k) + 1..] == FreeAddrs(ts[k + 1..])
  {
    FreeAddrsAround(ts, k);
  }

  /** Memory after alloc has split block k: the rest is written as a free block and linked in its place. */
  function SplitMem(m: Mem, head: int, ts: seq<Tile>, k: nat, n: int): Mem
    requires k < |ts| && ts[k].Free?
  {
    FreePosFacts(ts, k);
    var c := Ring(head + FREELIST, FreeAddrs(ts));
    var j := FreePos(ts, k);
    Added(Wr(m, ts[k].addr + n + FLEN, ts[k].len - n), ts[k].addr + n, c[j], c[j + 2])
  }

  /** Memory after alloc has taken block k off the free list. */
  function TakeMem(m: Mem, head: int, ts: seq<Tile>, k: nat): Mem
    requires k < |ts| && ts[k].Free?
  {
    FreePosFacts(ts, k);
    var c := Ring(head + FREELIST, FreeAddrs(ts));
    var j := FreePos(ts, k);
    Deleted(m, c[j], c[j + 2])
  }

  lemma KeptTrans3(m0: Mem, m1: Mem, m2: Mem, m3: Mem, head: int, ts: seq<Tile>)
    requires LiveCellsKept(m0, m1, head, ts) && LiveCellsKept(m1, m2, head, ts) && LiveCellsKept(m2, m3, head, ts)
    ensures LiveCellsKept(m0, m3, head, ts)
  {
    KeptTrans(m0, m1, m2, head, ts);
    KeptTrans(m0, m2, m3, head, ts);
  }

  /** __list_add into the free list of a node that lies in free block k. */
  lemma {:induction false} AddedKeepsLive(m: Mem, head: int, hi: int, ts: seq<Tile>, k: nat, x: int, q: nat, r: nat)
    requires Placed(ts, head, hi) && k < |ts| && ts[k].Free?
    requires ts[k].addr <= x && x + LINKS <= ts[k].Finish()
    requires q <= |FreeAddrs(ts)| + 1 && r <= |FreeAddrs(ts)| + 1
    ensures var c := Ring(head + FREELIST, FreeAddrs(ts)); LiveCellsKept(m, Added(m, x, c[q], c[r]), head, ts)
  {
    var c := Ring(head + FREELIST, FreeAddrs(ts));
    var m1 := Wr(m, c[r] + PREV, x);
    var m2 := Wr(Wr(m1, x, c[r]), x + PREV, c[q]);
    FreeLinkKeepsLive(m, head, hi, ts, r, PREV, x);
    WrittenInside(m1, x, c[r], x + PREV, c[q], ts[k].addr, ts[k].Finish());
    FreeLinkKeepsLive(m2, head, hi, ts, q, 0, x);
    LinksKeepLive(m, m1, m2, Wr(m2, c[q], x), head, hi, ts, k);
  }

  /** A link elsewhere, the free block's own, and another one elsewhere. */
  lemma LinksKeepLive(m: Mem, m1: Mem, m2: Mem, m': Mem, head: int, hi: int, ts: seq<Tile>, k: nat)
    requires Placed(ts, head, hi) && k < |ts| && ts[k].Free? && LiveCellsKept(m, m1, head, ts) && LiveCellsKept(m2, m', head, ts)
    requires SameOutside(m1, m2, ts[k].addr, ts[k].Finish())
    ensures LiveCellsKept(m, m', head, ts)
  {
    FreeRangeKeepsLive(m1, m2, head, hi, ts, k);
    KeptTrans3(m, m1, m2, m', head, ts);
  }

  lemma WrittenInside(m: Mem, x: int, v: int, y: int, w: int, a: int, b: int)
    requires a <= x < b && a <= y < b
    ensures SameOutside(m, Wr(Wr(m, x, v), y, w), a, b)
  {
  }

  lemma {:induction false} SplitKeepsLive(m: Mem, head: int, hi: int, ts: seq<Tile>, k: nat, n: int)
    requires Placed(ts, head, hi) && k < |ts| && ts[k].Free? && HENTRY <= n && n + HFREE < ts[k].len
    ensures LiveCellsKept(m, EntryWritten(SplitMem(m, head, ts, k, n), ts[k].addr, head, n), head, ts)
  {
    var a := ts[k].addr;
    FreePosFacts(ts, k);
    var m1 := Wr(m, a + n + FLEN, ts[k].len - n);
    var m2 := SplitMem(m, head, ts, k, n);
    FreeRangeKeepsLive(m, m1, head, hi, ts, k);
    AddedKeepsLive(m1, head, hi, ts, k, a + n, FreePos(ts, k), FreePos(ts, k) + 2);
    EntryReads(m2, a, head, n);
    FreeRangeKeepsLive(m2, EntryWritten(m2, a, head, n), head, hi, ts, k);
    KeptTrans3(m, m1, m2, EntryWritten(m2, a, head, n), head, ts);
  }

  lemma {:induction false} DeletedKeepsLive(m: Mem, head: int, hi: int, ts: seq<Tile>, q: nat, r: nat)
    requires Placed(ts, head, hi) && q <= |FreeAddrs(ts)| + 1 && r <= |FreeAddrs(ts)| + 1
    ensures var c := Ring(head + FREELIST, FreeAddrs(ts)); LiveCellsKept(m, Deleted(m, c[q], c[r]), head, ts)
  {
    var c := Ring(head + FREELIST, FreeAddrs(ts));
    FreeLinkKeepsLive(m, head, hi, ts, r, PREV, c[q]);
    FreeLinkKeepsLive(Wr(m, c[r] + PREV, c[q]), head, hi, ts, q, 0, c[r]);
    KeptTrans(m, Wr(m, c[r] + PREV, c[q]), Wr(Wr(m, c[r] + PREV, c[q]), c[q], c[r]), head, ts);
  }

  lemma {:induction false} TakeKeepsLive(m: Mem, m1: Mem, m2: Mem, head: int, hi: int, ts: seq<Tile>, k: nat)
    requires Placed(ts, head, hi) && k < |ts| && ts[k].Free? && HENTRY <= ts[k].len
    requires m1 == TakeMem(m, head, ts, k) && m2 == EntryWritten(m1, ts[k].addr, head, ts[k].len)
    ensures LiveCellsKept(m, m2, head, ts)
  {
    FreePosFacts(ts, k);
    DeletedKeepsLive(m, head, hi, ts, FreePos(ts, k), FreePos(ts, k) + 2);
    EntryReads(m1, ts[k].addr, head, ts[k].len);
    FreeRangeKeepsLive(m1, m2, head, hi, ts, k);
    KeptTrans(m, m1, m2, head, ts);
  }

  // ---- the free list after alloc ----

  lemma {:induction false} SplitFreeAddrs(ts: seq<Tile>, k: nat, n: int)
    requires k < |ts| && ts[k].Free? && n + HFREE < ts[k].len
    ensures FreePos(ts, k) < |FreeAddrs(ts)|
    ensures FreeAddrs(Splice(ts, k, 1, Carve(ts[k], n))) == FreeAddrs(ts)[FreePos(ts, k) := ts[k].addr + n]
  {
    FreePosFacts(ts, k);
    FreeAddrsAround(ts, k);
    var mid := Carve(ts[k], n);
    FreeAddrsConcat(ts[..k] + mid, ts[k + 1..]);
    FreeAddrsConcat(ts[..k], mid);
    assert FreeAddrs(mid) == [ts[k].addr + n] by {
      var rest := [Free(ts[k].addr + n, ts[k].len - n)];
      assert mid[1..] == rest;
      assert FreeAddrs(rest) == [rest[0].addr] + FreeAddrs(rest[1..]);
    }
  }

  lemma {:induction false} TakeFreeAddrs(ts: seq<Tile>, k: nat, t: Tile)
    requires k < |ts| && ts[k].Free? && t.Live?
    ensures FreePos(ts, k) < |FreeAddrs(ts)|
    ensures FreeAddrs(Splice(ts, k, 1, [t])) == FreeAddrs(ts)[..FreePos(ts, k)] + FreeAddrs(ts)[FreePos(ts, k) + 1..]
  {
    FreePosFacts(ts, k);
    FreeAddrsConcat(ts[..k] + [t], ts[k + 1..]);
    FreeAddrsConcat(ts[..k], [t]);
    assert FreeAddrs([t]) == [];
  }

  // ---- free headers that a write leaves alone ----

  /** The length word of every free block but block x. */
  ghost predicate FreeLensKept(m: Mem, m': Mem, ts: seq<Tile>, x: int) {
    forall i :: 0 <= i < |ts| && ts[i].Free? && i != x ==> Rd(m', ts[i].addr + FLEN) == Rd(m, ts[i].addr + FLEN)
  }

  lemma {:induction false} FreeLinkKeepsLens(m: Mem, head: int, hi: int, ts: seq<Tile>, q: nat, off: int, v: int)
    requires Placed(ts, head, hi) && q <= |FreeAddrs(ts)| + 1 && (off == 0 || off == PREV)
    ensures FreeLensKept(m, Wr(m, Ring(head + FREELIST, FreeAddrs(ts))[q] + off, v), ts, -1)
  {
    var c := Ring(head + FREELIST, FreeAddrs(ts))[q];
    TiledApart(ts, head + HPOOL, hi);
    forall i | 0 <= i < |ts| && ts[i].Free? ensures c + off != ts[i].addr + FLEN {
      if 0 < q <= |FreeAddrs(ts)| {
        var k := FreeTileAt(ts, q - 1);
        if k < i { assert ts[k].Finish() <= ts[i].addr; }
        if i < k { assert ts[i].Finish() <= ts[k].addr; }
      }
    }
  }

  lemma {:induction false} RangeKeepsLens(m: Mem, m': Mem, head: int, hi: int, ts: seq<Tile>, k: nat)
    requires Placed(ts, head, hi) && k < |ts| && SameOutside(m, m', ts[k].addr, ts[k].Finish())
    ensures FreeLensKept(m, m', ts, k)
  {
    TiledApart(ts, head + HPOOL, hi);
    forall i | 0 <= i < |ts| && ts[i].Free? && i != k ensures Rd(m', ts[i].addr + FLEN) == Rd(m, ts[i].addr + FLEN) {
      if k < i { assert ts[k].Finish() <= ts[i].addr; } else { assert ts[i].Finish() <= ts[k].addr; }
    }
  }

  lemma {:induction false} AddedKeepsLens(m: Mem, head: int, hi: int, ts: seq<Tile>, k: nat, x: int, q: nat, r: nat)
    requires Placed(ts, head, hi) && k < |ts|
    requires ts[k].addr <= x && x + LINKS <= ts[k].Finish()
    requires q <= |FreeAddrs(ts)| + 1 && r <= |FreeAddrs(ts)| + 1
    ensures var c := Ring(head + FREELIST, FreeAddrs(ts)); FreeLensKept(m, Added(m, x, c[q], c[r]), ts, k)
  {
    var c := Ring(head + FREELIST, FreeAddrs(ts));
    var m1 := Wr(m, c[r] + PREV, x);
    var m2 := Wr(Wr(m1, x, c[r]), x + PREV, c[q]);
    FreeLinkKeepsLens(m, head, hi, ts, r, PREV, x);
    WrittenInside(m1, x, c[r], x + PREV, c[q], ts[k].addr, ts[k].Finish());
    FreeLinkKeepsLens(m2, head, hi, ts, q, 0, x);
    LinksKeepLens(m, m1, m2, Wr(m2, c[q], x), head, hi, ts, k);
  }

  lemma LinksKeepLens(m: Mem, m1: Mem, m2: Mem, m': Mem, head: int, hi: int, ts: seq<Tile>, k: nat)
    requires Placed(ts, head, hi) && k < |ts| && FreeLensKept(m, m1, ts, -1) && FreeLensKept(m2, m', ts, -1)
    requires SameOutside(m1, m2, ts[k].addr, ts[k].Finish())
    ensures FreeLensKept(m, m', ts, k)
  {
    RangeKeepsLens(m1, m2, head, hi, ts, k);
    LensTrans3(m, m1, m2, m', ts, k);
  }

  lemma {:induction false} DeletedKeepsLens(m: Mem, head: int, hi: int, ts: seq<Tile>, q: nat, r: nat)
    requires Placed(ts, head, hi)
    requires q <= |FreeAddrs(ts)| + 1 && r <= |FreeAddrs(ts)| + 1
    ensures var c := Ring(head + FREELIST, FreeAddrs(ts)); FreeLensKept(m, Deleted(m, c[q], c[r]), ts, -1)
  {
    var c := Ring(head + FREELIST, FreeAddrs(ts));
    FreeLinkKeepsLens(m, head, hi, ts, r, PREV, c[q]);
    FreeLinkKeepsLens(Wr(m, c[r] + PREV, c[q]), head, hi, ts, q, 0, c[r]);
  }

  /** The nodes of the free list other than block k keep clear of block k. */
  lemma {:induction false} FreeNodesClear(ts: seq<Tile>, head: int, hi: int, k: nat, i: nat)
    requires Placed(ts, head, hi) && k < |ts| && i < |FreeAddrs(ts)|
    ensures FreeAddrs(ts)[i] + LINKS <= ts[k].addr || ts[k].Finish() <= FreeAddrs(ts)[i] || (ts[k].Free? && i == FreePos(ts, k))
  {
    TiledApart(ts, head + HPOOL, hi);
    var u := FreeTileAt(ts, i);
    if u < k { assert ts[u].Finish() <= ts[k].addr; }
    if k < u { assert ts[k].Finish() <= ts[u].addr; }
  }

  // ---- alloc, free part ----

  /** The links of a free list, as seen from block k of the list: the other nodes lie outside it. */
  lemma {:induction false} OthersClear(ts: seq<Tile>, head: int, hi: int, k: nat)
    requires Placed(ts, head, hi) && k < |ts| && ts[k].Free?
    ensures FreePos(ts, k) < |FreeAddrs(ts)| && FreeAddrs(ts)[FreePos(ts, k)] == ts[k].addr
    ensures head + FREELIST + LINKS <= ts[k].addr
    ensures forall i :: 0 <= i < |FreeAddrs(ts)| ==>
      i == FreePos(ts, k) || FreeAddrs(ts)[i] + LINKS <= ts[k].addr || ts[k].Finish() <= FreeAddrs(ts)[i]
  {
    FreePosFacts(ts, k);
    TiledApart(ts, head + HPOOL, hi);
    forall i | 0 <= i < |FreeAddrs(ts)|
      ensures i == FreePos(ts, k) || FreeAddrs(ts)[i] + LINKS <= ts[k].addr || ts[k].Finish() <= FreeAddrs(ts)[i]
    {
      FreeNodesClear(ts, head, hi, k, i);
    }
  }

  /** Linking the rest in place of block k and writing a live header over block k, on the list alone. */
  lemma {:induction false} SwapLinked(m: Mem, s: int, f: seq<int>, j: nat, a: int, x: int, b: int, head: int, n: int)
    requires Linked(m, s, f) && Spread(s, f) && j < |f| && f[j] == a
    requires a + HENTRY <= x && x + HFREE <= b && s + LINKS <= a
    requires forall i :: 0 <= i < |f| ==> i == j || f[i] + LINKS <= a || b <= f[i]
    ensures Linked(EntryWritten(Added(m, x, Ring(s, f)[j], Ring(s, f)[j + 2]), a, head, n), s, f[j := x])
  {
    ReplaceLinked(m, s, f, j, x);
    var m2 := Added(m, x, Ring(s, f)[j], Ring(s, f)[j + 2]);
    EntryReads(m2, a, head, n);
    LinkedOutside(m2, EntryWritten(m2, a, head, n), s, f[j := x], a, a + HENTRY);
  }

  /** The length word of the rest is no link. */
  lemma {:induction false} RestLinked(m: Mem, s: int, f: seq<int>, j: nat, a: int, y: int, b: int, v: int)
    requires Linked(m, s, f) && j < |f| && f[j] == a
    requires a + LINKS <= y < b && s + LINKS <= a
    requires forall i :: 0 <= i < |f| ==> i == j || f[i] + LINKS <= a || b <= f[i]
    ensures Linked(Wr(m, y, v), s, f)
  {
    LinkedOutside(m, Wr(m, y, v), s, f, y, y + 1);
  }

  lemma {:induction false} SplitRestLinked(m: Mem, head: int, hi: int, ts: seq<Tile>, k: nat, n: int)
    requires Placed(ts, head, hi) && k < |ts| && ts[k].Free? && HENTRY <= n && n + HFREE < ts[k].len
    requires Linked(m, head + FREELIST, FreeAddrs(ts))
    ensures Linked(Wr(m, ts[k].addr + n + FLEN, ts[k].len - n), head + FREELIST, FreeAddrs(ts))
  {
    OthersClear(ts, head, hi, k);
    RestLinked(m, head + FREELIST, FreeAddrs(ts), FreePos(ts, k), ts[k].addr, ts[k].addr + n + FLEN, ts[k].Finish(), ts[k].len - n);
  }

  lemma {:induction false} SplitSwapLinked(m: Mem, m2: Mem, head: int, hi: int, ts: seq<Tile>, k: nat, n: int, f: seq<int>, j: nat, a: int)
    requires Placed(ts, head, hi) && k < |ts| && ts[k].Free? && HENTRY <= n && n + HFREE < ts[k].len
    requires f == FreeAddrs(ts) && j == FreePos(ts, k) && a == ts[k].addr && j < |f|
    requires Linked(m, head + FREELIST, f) && m2 == Added(m, a + n, Ring(head + FREELIST, f)[j], Ring(head + FREELIST, f)[j + 2])
    ensures Linked(EntryWritten(m2, a, head, n), head + FREELIST, f[j := a + n])
  {
    OthersClear(ts, head, hi, k);
    FreeSpread(ts, head, hi);
    SwapLinked(m, head + FREELIST, f, j, a, a + n, ts[k].Finish(), head, n);
  }

  lemma {:induction false} SplitLinked(m: Mem, m2: Mem, head: int, hi: int, ts: seq<Tile>, k: nat, n: int, g: seq<int>)
    requires Placed(ts, head, hi) && k < |ts| && ts[k].Free? && HENTRY <= n && n + HFREE < ts[k].len
    requires Linked(m, head + FREELIST, FreeAddrs(ts)) && m2 == SplitMem(m, head, ts, k, n) && g == FreeAddrs(Splice(ts, k, 1, Carve(ts[k], n)))
    ensures Linked(EntryWritten(m2, ts[k].addr, head, n), head + FREELIST, g)
  {
    var f, j, a := FreeAddrs(ts), FreePos(ts, k), ts[k].addr;
    SplitRestLinked(m, head, hi, ts, k, n);
    SplitFreeAddrs(ts, k, n);
    SplitSwapLinked(Wr(m, a + n + FLEN, ts[k].len - n), m2, head, hi, ts, k, n, f, j, a);
  }

  lemma LensTrans3(m0: Mem, m1: Mem, m2: Mem, m3: Mem, ts: seq<Tile>, k: int)
    requires FreeLensKept(m0, m1, ts, k) && FreeLensKept(m1, m2, ts, k) && FreeLensKept(m2, m3, ts, k)
    ensures FreeLensKept(m0, m3, ts, k)
  {
  }

  lemma {:induction false} SplitLens(m: Mem, m2: Mem, m': Mem, head: int, hi: int, ts: seq<Tile>, k: nat, n: int)
    requires Placed(ts, head, hi) && k < |ts| && ts[k].Free? && HENTRY <= n && n + HFREE < ts[k].len
    requires m2 == SplitMem(m, head, ts, k, n) && m' == EntryWritten(m2, ts[k].addr, head, n)
    ensures FreeLensKept(m, m', ts, k)
  {
    FreePosFacts(ts, k);
    var m1 := Wr(m, ts[k].addr + n + FLEN, ts[k].len - n);
    RangeKeepsLens(m, m1, head, hi, ts, k);
    AddedKeepsLens(m1, head, hi, ts, k, ts[k].addr + n, FreePos(ts, k), FreePos(ts, k) + 2);
    EntryReads(m2, ts[k].addr, head, n);
    RangeKeepsLens(m2, m', head, hi, ts, k);
    LensTrans3(m, m1, m2, m', ts, k);
  }

  lemma {:induction false} SplitRest(m: Mem, m2: Mem, m': Mem, head: int, hi: int, ts: seq<Tile>, k: nat, n: int)
    requires Placed(ts, head, hi) && k < |ts| && ts[k].Free? && HENTRY <= n && n + HFREE < ts[k].len
    requires m2 == SplitMem(m, head, ts, k, n) && m' == EntryWritten(m2, ts[k].addr, head, n)
    ensures Rd(m', ts[k].addr + n + FLEN) == ts[k].len - n
  {
    FreePosFacts(ts, k);
    RestLen(Wr(m, ts[k].addr + n + FLEN, ts[k].len - n), m2, head, hi, ts, k, ts[k].addr + n, FreePos(ts, k), FreePos(ts, k) + 2);
    EntryReads(m2, ts[k].addr, head, n);
  }

  /** The length word of the new rest is not a link. */
  lemma {:induction false} RestLen(m: Mem, m': Mem, head: int, hi: int, ts: seq<Tile>, k: nat, x: int, q: nat, r: nat)
    requires Placed(ts, head, hi) && k < |ts| && ts[k].Free?
    requires ts[k].addr + HENTRY <= x && x + HFREE <= ts[k].Finish()
    requires q <= |FreeAddrs(ts)| + 1 && r <= |FreeAddrs(ts)| + 1
    requires m' == Added(m, x, Ring(head + FREELIST, FreeAddrs(ts))[q], Ring(head + FREELIST, FreeAddrs(ts))[r])
    ensures Rd(m', x + FLEN) == Rd(m, x + FLEN)
  {
    NodeNotInside(ts, head, hi, k, x, q);
    NodeNotInside(ts, head, hi, k, x, r);
  }

  lemma {:induction false} NodeNotInside(ts: seq<Tile>, head: int, hi: int, k: nat, x: int, q: nat)
    requires Placed(ts, head, hi) && k < |ts| && ts[k].Free? && q <= |FreeAddrs(ts)| + 1
    requires ts[k].addr + HENTRY <= x && x + HFREE <= ts[k].Finish()
    ensures var c := Ring(head + FREELIST, FreeAddrs(ts))[q]; c + LINKS <= x || x + HFREE <= c
  {
    TiledApart(ts, head + HPOOL, hi);
    if 0 < q <= |FreeAddrs(ts)| { FreeNodesClear(ts, head, hi, k, q - 1); FreePosFacts(ts, k); }
  }

  lemma {:induction false} TakeLinked(m: Mem, head: int, hi: int, ts: seq<Tile>, k: nat, t: Tile)
    requires Placed(ts, head, hi) && k < |ts| && ts[k].Free? && HENTRY <= ts[k].len && t.Live?
    requires Linked(m, head + FREELIST, FreeAddrs(ts))
    ensures Linked(EntryWritten(TakeMem(m, head, ts, k), ts[k].addr, head, ts[k].len), head + FREELIST,
                   FreeAddrs(Splice(ts, k, 1, [t])))
  {
    var s, f, a, j := head + FREELIST, FreeAddrs(ts), ts[k].addr, FreePos(ts, k);
    TakeFreeAddrs(ts, k, t);
    FreeSpread(ts, head, hi);
    OthersClear(ts, head, hi, k);
    DeleteLinked(m, s, f, j);
    var m2 := TakeMem(m, head, ts, k);
    EntryReads(m2, a, head, ts[k].len);
    LinkedOutside(m2, EntryWritten(m2, a, head, ts[k].len), s, f[..j] + f[j + 1..], a, a + HENTRY);
  }

  lemma {:induction false} TakeLens(m: Mem, head: int, hi: int, ts: seq<Tile>, k: nat)
    requires Placed(ts, head, hi) && k < |ts| && ts[k].Free? && HENTRY <= ts[k].len
    ensures FreeLensKept(m, EntryWritten(TakeMem(m, head, ts, k), ts[k].addr, head, ts[k].len), ts, k)
  {
    FreePosFacts(ts, k);
    DeletedKeepsLens(m, head, hi, ts, FreePos(ts, k), FreePos(ts, k) + 2);
    EntryReads(TakeMem(m, head, ts, k), ts[k].addr, head, ts[k].len);
    RangeKeepsLens(TakeMem(m, head, ts, k), EntryWritten(TakeMem(m, head, ts, k), ts[k].addr, head, ts[k].len), head, hi, ts, k);
  }

  /** Alloc that splits: the new memory holds the new pool, and no payload has changed. */
  lemma {:induction false} SplitRep(m: Mem, head: int, hi: int, p: Pool, k: nat, n: int)
    requires Placed(p.tiles, head, hi) && QueueOk(p) && Rep(m, head, p)
    requires k < |p.tiles| && p.tiles[k].Free? && HENTRY <= n && n + HFREE < p.tiles[k].len
    ensures var m' := EntryWritten(SplitMem(m, head, p.tiles, k, n), p.tiles[k].addr, head, n);
      && Rep(m', head, p.(tiles := Splice(p.tiles, k, 1, Carve(p.tiles[k], n))))
      && PayloadKept(m, m', Lives(p.tiles))
  {
    var ts := p.tiles;
    var m' := EntryWritten(SplitMem(m, head, ts, k, n), ts[k].addr, head, n);
    SplitKeepsLive(m, head, hi, ts, k, n);
    LivePartFrame(m, m', head, ts);
    QueueFrame(m, m', head, p);
    SplitLinked(m, SplitMem(m, head, ts, k, n), head, hi, ts, k, n, FreeAddrs(Splice(ts, k, 1, Carve(ts[k], n))));
    SplitHeaders(m, SplitMem(m, head, ts, k, n), m', head, hi, ts, k, n);
  }

  lemma {:induction false} SplitHeaders(m: Mem, m2: Mem, m': Mem, head: int, hi: int, ts: seq<Tile>, k: nat, n: int)
    requires Placed(ts, head, hi) && k < |ts| && ts[k].Free? && HENTRY <= n && n + HFREE < ts[k].len
    requires forall i :: 0 <= i < |ts| && ts[i].Free? ==> FreeHeader(m, ts[i])
    requires m2 == SplitMem(m, head, ts, k, n) && m' == EntryWritten(m2, ts[k].addr, head, n)
    requires LivePart(m', head, ts)
    ensures var us := Splice(ts, k, 1, Carve(ts[k], n));
      LivePart(m', head, us) && forall i :: 0 <= i < |us| && us[i].Free? ==> FreeHeader(m', us[i])
  {
    SplitLens(m, m2, m', head, hi, ts, k, n);
    SplitRest(m, m2, m', head, hi, ts, k, n);
    EntryReads(m2, ts[k].addr, head, n);
    SplitParts(m, m', head, ts, k, n, Carve(ts[k], n));
  }

  lemma {:induction false} SplitParts(m: Mem, m': Mem, head: int, ts: seq<Tile>, k: nat, n: int, mid: seq<Tile>)
    requires k < |ts| && ts[k].Free? && n + HFREE < ts[k].len && mid == Carve(ts[k], n)
    requires forall i :: 0 <= i < |ts| && ts[i].Free? ==> FreeHeader(m, ts[i])
    requires FreeLensKept(m, m', ts, k) && LivePart(m', head, ts)
    requires Rd(m', ts[k].addr + n + FLEN) == ts[k].len - n && LiveHeader(m', head, Live(ts[k].addr, n, 0, 0))
    ensures var us := Splice(ts, k, 1, mid);
      LivePart(m', head, us) && forall i :: 0 <= i < |us| && us[i].Free? ==> FreeHeader(m', us[i])
  {
    assert mid[0] == Live(ts[k].addr, n, 0, 0) && mid[1] == Free(ts[k].addr + n, ts[k].len - n);
    CarvedHeaders(m, m', head, ts, k, mid);
  }

  lemma {:induction false} TakeRep(m: Mem, head: int, hi: int, p: Pool, k: nat)
    requires Placed(p.tiles, head, hi) && QueueOk(p) && Rep(m, head, p)
    requires k < |p.tiles| && p.tiles[k].Free? && HENTRY <= p.tiles[k].len
    ensures var m' := EntryWritten(TakeMem(m, head, p.tiles, k), p.tiles[k].addr, head, p.tiles[k].len);
      && Rep(m', head, p.(tiles := Splice(p.tiles, k, 1, [Live(p.tiles[k].addr, p.tiles[k].len, 0, 0)])))
      && PayloadKept(m, m', Lives(p.tiles))
  {
    var ts := p.tiles;
    var t := Live(ts[k].addr, ts[k].len, 0, 0);
    var m2 := TakeMem(m, head, ts, k);
    var m' := EntryWritten(m2, ts[k].addr, head, ts[k].len);
    TakeKeepsLive(m, m2, m', head, hi, ts, k);
    LivePartFrame(m, m', head, ts);
    QueueFrame(m, m', head, p);
    TakeLinked(m, head, hi, ts, k, t);
    TakeLens(m, head, hi, ts, k);
    EntryReads(m2, ts[k].addr, head, ts[k].len);
    CarvedHeaders(m, m', head, ts, k, [t]);
  }

  /** Headers of the new tiling, from the headers kept and the ones written. */
  lemma {:induction false} CarvedHeaders(m: Mem, m': Mem, head: int, ts: seq<Tile>, k: nat, mid: seq<Tile>)
    requires k < |ts|
    requires forall i :: 0 <= i < |ts| && ts[i].Free? ==> FreeHeader(m, ts[i])
    requires FreeLensKept(m, m', ts, k) && LivePart(m', head, ts)
    requires forall i :: 0 <= i < |mid| && mid[i].Free? ==> FreeHeader(m', mid[i])
    requires forall i :: 0 <= i < |mid| && mid[i].Live? ==> LiveHeader(m', head, mid[i])
    ensures var us := Splice(ts, k, 1, mid);
      && (forall i :: 0 <= i < |us| && us[i].Free? ==> FreeHeader(m', us[i]))
      && LivePart(m', head, us)
  {
    var us := Splice(ts, k, 1, mid);
    forall i | 0 <= i < |us| ensures if us[i].Free? then FreeHeader(m', us[i]) else LiveHeader(m', head, us[i]) {
      if i < k { assert us[i] == ts[i]; }
      else if i < k + |mid| { assert us[i] == mid[i - k]; }
      else { assert us[i] == ts[i - |mid| + 1]; }
    }
  }
}
