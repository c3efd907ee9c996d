/** What lbuf_free does to memory: unlink from the queue, insert into the free list, coalesce. */
module PoolMemoryFree {
  import opened Tiling
  import opened PoolSpec
  import opened PoolInvariant
  import opened Memory
  import opened PoolMemory

  // ---- unlinking a block from the queue ----

  /** What a write to the links of queued blocks leaves alone: everything but those links. */
  ghost predicate ButQueueKept(m: Mem, m': Mem, head: int, ts: seq<Tile>) {
    && Rd(m', head + FREELIST) == Rd(m, head + FREELIST)
    && Rd(m', head + FREELIST + PREV) == Rd(m, head + FREELIST + PREV)
    && forall k, y :: 0 <= k < |ts| && KeptFrom(ts[k]) <= y < ts[k].Finish() ==> Rd(m', y) == Rd(m, y)
  }

  function KeptFrom(t: Tile): int { if t.Live? && t.refs > 0 then t.addr + LINKS else t.addr }

  /** A node of the queue, its head included, is no cell that must be kept. */
  lemma {:induction false} QueueNodeOutside(p: Pool, head: int, hi: int, q: nat, i: nat)
    requires Placed(p.tiles, head, hi) && QueueOk(p) && q <= |p.queue| + 1 && i < |p.tiles|
    ensures var c := Ring(head, p.queue)[q];
      (c + LINKS <= KeptFrom(p.tiles[i]) || p.tiles[i].Finish() <= c)
  {
    TiledApart(p.tiles, head + HPOOL, hi);
    if 0 < q <= |p.queue| {
      var k := QueuedTile(p, q - 1);
      if k < i { assert p.tiles[k].Finish() <= p.tiles[i].addr; }
      if i < k { assert p.tiles[i].Finish() <= p.tiles[k].addr; }
    }
  }

  lemma {:induction false} QueueLinkKeeps(m: Mem, head: int, hi: int, p: Pool, q: nat, off: int, v: int)
    requires Placed(p.tiles, head, hi) && QueueOk(p) && q <= |p.queue| + 1 && (off == 0 || off == PREV)
    ensures ButQueueKept(m, Wr(m, Ring(head, p.queue)[q] + off, v), head, p.tiles)
  {
    var c := Ring(head, p.queue)[q];
    forall i, y | 0 <= i < |p.tiles| && KeptFrom(p.tiles[i]) <= y < p.tiles[i].Finish()
      ensures Rd(Wr(m, c + off, v), y) == Rd(m, y)
    {
      QueueNodeOutside(p, head, hi, q, i);
    }
    QueueNodeAbove(p, head, hi, q);
  }

  lemma {:induction false} QueueNodeAbove(p: Pool, head: int, hi: int, q: nat)
    requires Placed(p.tiles, head, hi) && QueueOk(p) && q <= |p.queue| + 1
    ensures Ring(head, p.queue)[q] == head || head + HPOOL <= Ring(head, p.queue)[q]
  {
    TiledApart(p.tiles, head + HPOOL, hi);
    if 0 < q <= |p.queue| {
      var k := QueuedTile(p, q - 1);
    }
  }

  lemma {:induction false} ButQueueFree(m: Mem, m': Mem, head: int, ts: seq<Tile>)
    requires Sized(ts) && FreePart(m, head, ts) && ButQueueKept(m, m', head, ts)
    ensures FreePart(m', head, ts)
  {
    var f := FreeAddrs(ts);
    forall i | 0 <= i < |f| ensures Rd(m', f[i]) == Rd(m, f[i]) && Rd(m', f[i] + PREV) == Rd(m, f[i] + PREV) {
      var k := FreeTileAt(ts, i);
      assert KeptFrom(ts[k]) <= f[i] < ts[k].Finish() && KeptFrom(ts[k]) <= f[i] + PREV < ts[k].Finish();
    }
    LinkedFrame(m, m', head + FREELIST, f);
  }

  lemma {:induction false} ButQueueParts(m: Mem, m': Mem, head: int, hi: int, ts: seq<Tile>)
    requires Placed(ts, head, hi) && FreePart(m, head, ts) && LivePart(m, head, ts) && RefsOk(ts)
    requires ButQueueKept(m, m', head, ts)
    ensures FreePart(m', head, ts) && LivePart(m', head, ts) && PayloadKept(m, m', Lives(ts))
  {
    ButQueueFree(m, m', head, ts);
    ButQueuePayload(m, m', head, ts);
    forall k | 0 <= k < |ts| && ts[k].Live? ensures LiveHeader(m', head, ts[k]) {
      assert LiveHeader(m, head, ts[k]);
    }
  }

  lemma {:induction false} ButQueuePayload(m: Mem, m': Mem, head: int, ts: seq<Tile>)
    requires ButQueueKept(m, m', head, ts)
    ensures PayloadKept(m, m', Lives(ts))
  {
    forall t, y | t in Lives(ts) && t.addr + HENTRY <= y < t.Finish() ensures Rd(m', y) == Rd(m, y) {
      InLives(ts, t);
      var k :| 0 <= k < |ts| && ts[k] == t;
    }
  }

  lemma {:induction false} WithoutAt(q: seq<int>, i: nat)
    requires i < |q| && forall a, b :: 0 <= a < b < |q| ==> q[a] != q[b]
    ensures Without(q, q[i]) == q[..i] + q[i + 1..]
  {
    if i > 0 {
      WithoutAt(q[1..], i - 1);
      assert q[1..][i - 1] == q[i];
    }
  }

  /** __list_del_entry of live block k: whether it is queued or linked to itself, it ends up out of the queue. */
  lemma {:induction false} UnlinkQueued(m: Mem, head: int, hi: int, p: Pool, k: nat)
    requires Placed(p.tiles, head, hi) && QueueOk(p) && Rep(m, head, p) && LiveAt(p.tiles, k)
    ensures var a := p.tiles[k].addr;
      var m' := Deleted(m, Rd(m, a + PREV), Rd(m, a));
      && FreePart(m', head, p.tiles) && LivePart(m', head, p.tiles) && PayloadKept(m, m', Lives(p.tiles))
      && Linked(m', head, Without(p.queue, a))
  {
    var ts, a := p.tiles, p.tiles[k].addr;
    if ts[k].refs == 0 {
      UnlinkSelf(m, head, hi, p, k);
    } else {
      assert Queued(ts, a);
      var i :| 0 <= i < |p.queue| && p.queue[i] == a;
      UnlinkAt(m, head, hi, p, k, i);
    }
  }

  lemma {:induction false} UnlinkSelf(m: Mem, head: int, hi: int, p: Pool, k: nat)
    requires Placed(p.tiles, head, hi) && QueueOk(p) && Rep(m, head, p) && LiveAt(p.tiles, k) && p.tiles[k].refs == 0
    ensures var a := p.tiles[k].addr;
      var m' := Deleted(m, Rd(m, a + PREV), Rd(m, a));
      && FreePart(m', head, p.tiles) && LivePart(m', head, p.tiles) && PayloadKept(m, m', Lives(p.tiles))
      && Linked(m', head, Without(p.queue, a))
  {
    var a := p.tiles[k].addr;
    var m' := Deleted(m, Rd(m, a + PREV), Rd(m, a));
    assert LiveHeader(m, head, p.tiles[k]);
    UnreferencedUnqueued(p.tiles, head + HPOOL, hi, k);
    WithoutAbsent(p.queue, a);
    assert forall y :: Rd(m', y) == Rd(m, y);
    ButQueueParts(m, m', head, hi, p.tiles);
    LinkedFrame(m, m', head, p.queue);
  }

  lemma {:induction false} UnlinkAt(m: Mem, head: int, hi: int, p: Pool, k: nat, i: nat)
    requires Placed(p.tiles, head, hi) && QueueOk(p) && Rep(m, head, p) && LiveAt(p.tiles, k)
    requires i < |p.queue| && p.queue[i] == p.tiles[k].addr
    ensures var a := p.tiles[k].addr;
      var m' := Deleted(m, Rd(m, a + PREV), Rd(m, a));
      && FreePart(m', head, p.tiles) && LivePart(m', head, p.tiles) && PayloadKept(m, m', Lives(p.tiles))
      && Linked(m', head, Without(p.queue, a))
  {
    var a, c := p.tiles[k].addr, Ring(head, p.queue);
    assert c[i + 1] == a;
    assert Rd(m, c[i + 1]) == c[i + 2] && Rd(m, c[i + 1] + PREV) == c[i];
    QueueSpread(p, head, hi);
    WithoutAt(p.queue, i);
    DeleteLinked(m, head, p.queue, i);
    UnlinkKeeps(m, head, hi, p, i);
    ButQueueParts(m, Deleted(m, c[i], c[i + 2]), head, hi, p.tiles);
  }

  lemma {:induction false} UnlinkKeeps(m: Mem, head: int, hi: int, p: Pool, i: nat)
    requires Placed(p.tiles, head, hi) && QueueOk(p) && i < |p.queue|
    ensures var c := Ring(head, p.queue); ButQueueKept(m, Deleted(m, c[i], c[i + 2]), head, p.tiles)
  {
    var c := Ring(head, p.queue);
    QueueLinkKeeps(m, head, hi, p, i + 2, PREV, c[i]);
    QueueLinkKeeps(Wr(m, c[i + 2] + PREV, c[i]), head, hi, p, i, 0, c[i + 2]);
  }

  // ---- inserting into the free list ----

  /** The tiling once block k is marked free but not yet joined with its neighbours. */
  function Marked(ts: seq<Tile>, k: nat): seq<Tile>
    requires k < |ts|
  {
    ts[k := Free(ts[k].addr, ts[k].len)]
  }

  lemma {:induction false} MarkedPlaced(ts: seq<Tile>, head: int, hi: int, k: nat)
    requires Placed(ts, head, hi) && LiveAt(ts, k)
    ensures Placed(Marked(ts, k), head, hi)
  {
  }

  /** Marking puts the block's address where the address order wants it. */
  lemma {:induction false} MarkedFreeAddrs(ts: seq<Tile>, k: nat)
    requires LiveAt(ts, k)
    ensures FreePos(Marked(ts, k), k) == |FreeAddrs(ts[..k])| <= |FreeAddrs(ts)|
    ensures var j := |FreeAddrs(ts[..k])|; FreeAddrs(Marked(ts, k)) == FreeAddrs(ts)[..j] + [ts[k].addr] + FreeAddrs(ts)[j..]
  {
    var us := Marked(ts, k);
    FreeAddrsAround(ts, k);
    FreeAddrsAround(us, k);
    assert us[..k] == ts[..k] && us[k + 1..] == ts[k + 1..];
  }

  lemma {:induction false} MarkedLives(ts: seq<Tile>, k: nat)
    requires LiveAt(ts, k)
    ensures Lives(Marked(ts, k)) == Lives(ts[..k]) + Lives(ts[k + 1..])
  {
    var us := Marked(ts, k);
    LivesAround(us, k);
    assert us[..k] == ts[..k] && us[k + 1..] == ts[k + 1..];
  }

  /** The first free node above a is where a belongs. */
  lemma {:induction false} InsertPos(ts: seq<Tile>, head: int, hi: int, k: nat, j: nat)
    requires Placed(ts, head, hi) && LiveAt(ts, k) && j <= |FreeAddrs(ts)|
    requires forall i :: 0 <= i < j ==> FreeAddrs(ts)[i] < ts[k].addr
    requires j < |FreeAddrs(ts)| ==> ts[k].addr < FreeAddrs(ts)[j]
    ensures j == |FreeAddrs(ts[..k])|
  {
    var f, l := FreeAddrs(ts), |FreeAddrs(ts[..k])|;
    FreeAddrsAround(ts, k);
    TiledApart(ts, head + HPOOL, hi);
    if j < l {
      assert f[j] == FreeAddrs(ts[..k])[j];
      var u := FreeTileAt(ts[..k], j);
    }
    if l < j {
      assert f[l] == FreeAddrs(ts[k + 1..])[0];
      var u := FreeTileAt(ts[k + 1..], 0);
    }
  }

  /** Memory once block k has been written as a free block and linked into the free list. */
  function InsertMem(m: Mem, head: int, ts: seq<Tile>, k: nat): Mem
    requires LiveAt(ts, k)
  {
    MarkedFreeAddrs(ts, k);
    var c := Ring(head + FREELIST, FreeAddrs(ts));
    var j := |FreeAddrs(ts[..k])|;
    Added(Wr(m, ts[k].addr + FLEN, ts[k].len), ts[k].addr, c[j], c[j + 1])
  }

  /** Every node of the free list keeps clear of live block k. */
  lemma {:induction false} LiveClear(ts: seq<Tile>, head: int, hi: int, k: nat)
    requires Placed(ts, head, hi) && LiveAt(ts, k)
    ensures Memory.Clear(head + FREELIST, FreeAddrs(ts), ts[k].addr, ts[k].Finish())
  {
    TiledApart(ts, head + HPOOL, hi);
    forall i | 0 <= i < |FreeAddrs(ts)| ensures FreeAddrs(ts)[i] + LINKS <= ts[k].addr || ts[k].Finish() <= FreeAddrs(ts)[i] {
      FreeNodesClear(ts, head, hi, k, i);
    }
  }

  /** A list and a block of memory apart from it. */
  ghost predicate RoomBeside(s: int, f: seq<int>, a: int, b: int) {
    Spread(s, f) && a + HENTRY <= b && Memory.Clear(s, f, a, b)
  }

  lemma {:induction false} InsertAt(m: Mem, m': Mem, s: int, f: seq<int>, g: seq<int>, j: nat, a: int, b: int, len: int)
    requires Linked(m, s, f) && RoomBeside(s, f, a, b) && j <= |f|
    requires m' == Added(Wr(m, a + FLEN, len), a, Ring(s, f)[j], Ring(s, f)[j + 1])
    requires g == f[..j] + [a] + f[j..]
    ensures Linked(m', s, g)
  {
    LinkedOutside(m, Wr(m, a + FLEN, len), s, f, a, b);
    AddLinked(Wr(m, a + FLEN, len), s, f, j, a);
  }

  lemma {:induction false} RoomAtBlock(ts: seq<Tile>, head: int, hi: int, k: nat)
    requires Placed(ts, head, hi) && LiveAt(ts, k)
    ensures RoomBeside(head + FREELIST, FreeAddrs(ts), ts[k].addr, ts[k].Finish())
  {
    FreeSpread(ts, head, hi);
    LiveClear(ts, head, hi, k);
  }

  lemma {:induction false} InsertLinked(m: Mem, m': Mem, head: int, ts: seq<Tile>, k: nat, g: seq<int>)
    requires LiveAt(ts, k) && Linked(m, head + FREELIST, FreeAddrs(ts))
    requires RoomBeside(head + FREELIST, FreeAddrs(ts), ts[k].addr, ts[k].Finish())
    requires m' == InsertMem(m, head, ts, k) && g == FreeAddrs(Marked(ts, k))
    ensures Linked(m', head + FREELIST, g)
  {
    MarkedFreeAddrs(ts, k);
    InsertAt(m, m', head + FREELIST, FreeAddrs(ts), g, |FreeAddrs(ts[..k])|, ts[k].addr, ts[k].Finish(), ts[k].len);
  }

  /** The neighbours of the new node, seen in the new list. */
  lemma {:induction false} InsertRing(ts: seq<Tile>, head: int, k: nat)
    requires LiveAt(ts, k)
    ensures var j := |FreeAddrs(ts[..k])|;
      && j + 1 <= |FreeAddrs(Marked(ts, k))| && j <= |FreeAddrs(ts)|
      && Ring(head + FREELIST, FreeAddrs(ts))[j] == Ring(head + FREELIST, FreeAddrs(Marked(ts, k)))[j]
      && Ring(head + FREELIST, FreeAddrs(ts))[j + 1] == Ring(head + FREELIST, FreeAddrs(Marked(ts, k)))[j + 2]
  {
    MarkedFreeAddrs(ts, k);
  }

  lemma {:induction false} InsertKeeps(m: Mem, m': Mem, head: int, hi: int, ts: seq<Tile>, us: seq<Tile>, k: nat)
    requires Placed(ts, head, hi) && LiveAt(ts, k) && us == Marked(ts, k) && m' == InsertMem(m, head, ts, k)
    ensures LiveCellsKept(m, m', head, us) && FreeLensKept(m, m', us, k)
  {
    var a, j := ts[k].addr, |FreeAddrs(ts[..k])|;
    MarkedPlaced(ts, head, hi, k);
    InsertRing(ts, head, k);
    AddedKeepsBoth(m, Wr(m, a + FLEN, ts[k].len), m', head, hi, us, k, j);
  }

  lemma {:induction false} AddedKeepsBoth(m: Mem, m1: Mem, m2: Mem, head: int, hi: int, us: seq<Tile>, k: nat, j: nat)
    requires Placed(us, head, hi) && k < |us| && us[k].Free? && j + 2 <= |FreeAddrs(us)| + 1
    requires SameOutside(m, m1, us[k].addr, us[k].Finish())
    requires m2 == Added(m1, us[k].addr, Ring(head + FREELIST, FreeAddrs(us))[j], Ring(head + FREELIST, FreeAddrs(us))[j + 2])
    ensures LiveCellsKept(m, m2, head, us) && FreeLensKept(m, m2, us, k)
  {
    FreeRangeKeepsLive(m, m1, head, hi, us, k);
    AddedKeepsLive(m1, head, hi, us, k, us[k].addr, j, j + 2);
    KeptTrans(m, m1, m2, head, us);
    RangeKeepsLens(m, m1, head, hi, us, k);
    AddedKeepsLens(m1, head, hi, us, k, us[k].addr, j, j + 2);
  }

  lemma {:induction false} InsertLen(m: Mem, head: int, hi: int, ts: seq<Tile>, k: nat)
    requires Placed(ts, head, hi) && LiveAt(ts, k)
    ensures Rd(InsertMem(m, head, ts, k), ts[k].addr + FLEN) == ts[k].len
  {
    MarkedFreeAddrs(ts, k);
    var f, j := FreeAddrs(ts), |FreeAddrs(ts[..k])|;
    TiledApart(ts, head + HPOOL, hi);
    if 0 < j { FreeNodesClear(ts, head, hi, k, j - 1); }
    if j < |f| { FreeNodesClear(ts, head, hi, k, j); }
  }

  lemma {:induction false} InsertRep(m: Mem, head: int, hi: int, p: Pool, k: nat, q: seq<int>)
    requires Placed(p.tiles, head, hi) && LiveAt(p.tiles, k) && QueueOk(Pool(Marked(p.tiles, k), q))
    requires FreePart(m, head, p.tiles) && LivePart(m, head, p.tiles) && Linked(m, head, q)
    ensures Rep(InsertMem(m, head, p.tiles, k), head, Pool(Marked(p.tiles, k), q))
    ensures PayloadKept(m, InsertMem(m, head, p.tiles, k), Lives(Marked(p.tiles, k)))
  {
    var ts, us := p.tiles, Marked(p.tiles, k);
    var m' := InsertMem(m, head, ts, k);
    MarkedPlaced(ts, head, hi, k);
    RoomAtBlock(ts, head, hi, k);
    InsertLinked(m, m', head, ts, k, FreeAddrs(us));
    InsertKeeps(m, m', head, hi, ts, us, k);
    InsertLen(m, head, hi, ts, k);
    MarkedHeaders(m, m', head, ts, k);
    LivePartFrame(m, m', head, us);
    QueueFrame(m, m', head, Pool(us, q));
  }

  lemma {:induction false} MarkedHeaders(m: Mem, m': Mem, head: int, ts: seq<Tile>, k: nat)
    requires LiveAt(ts, k) && LivePart(m, head, ts)
    requires forall i :: 0 <= i < |ts| && ts[i].Free? ==> FreeHeader(m, ts[i])
    requires FreeLensKept(m, m', Marked(ts, k), k) && Rd(m', ts[k].addr + FLEN) == ts[k].len
    ensures LivePart(m, head, Marked(ts, k))
    ensures forall i :: 0 <= i < |ts| && Marked(ts, k)[i].Free? ==> FreeHeader(m', Marked(ts, k)[i])
  {
    forall i | 0 <= i < |ts| && Marked(ts, k)[i].Free? ensures FreeHeader(m', Marked(ts, k)[i]) {
      if i != k { assert FreeHeader(m, ts[i]); }
    }
  }

  lemma {:induction false} MarkedQueue(p: Pool, head: int, hi: int, k: nat)
    requires Placed(p.tiles, head, hi) && QueueOk(p) && LiveAt(p.tiles, k)
    ensures QueueOk(Pool(Marked(p.tiles, k), Without(p.queue, p.tiles[k].addr)))
  {
    var ts, us := p.tiles, Marked(p.tiles, k);
    WithoutFacts(p.queue, ts[k].addr);
    assert us == Splice(ts, k, 1, [us[k]]);
    NotElsewhere(ts, head + HPOOL, hi, k, k, k + 1);
    forall x ensures Queued(us, x) <==> Queued(ts, x) && x != ts[k].addr {
      QueuedSplice(ts, k, 1, [us[k]], x);
      assert ts[k..k + 1] == [ts[k]];
      if Queued([ts[k]], x) { assert [ts[k]][0].addr == x; }
    }
  }

  // ---- joining two neighbouring free blocks ----

  ghost predicate Touching(ts: seq<Tile>, i: nat) {
    i + 1 < |ts| && ts[i].Free? && ts[i + 1].Free?
  }

  function MergeMem(m: Mem, head: int, ts: seq<Tile>, i: nat): Mem
    requires i + 1 < |ts| && ts[i + 1].Free?
  {
    FreePosFacts(ts, i + 1);
    var c := Ring(head + FREELIST, FreeAddrs(ts));
    var j := FreePos(ts, i + 1);
    Deleted(Wr(m, ts[i].addr + FLEN, ts[i].len + ts[i + 1].len), c[j], c[j + 2])
  }

  lemma {:induction false} MergeTiles(ts: seq<Tile>, head: int, hi: int, i: nat)
    requires Placed(ts, head, hi) && Touching(ts, i)
    ensures Fuse(ts, i, i + 2) == Splice(ts, i, 2, [Free(ts[i].addr, ts[i].len + ts[i + 1].len)])
    ensures Placed(Fuse(ts, i, i + 2), head, hi)
    ensures Lives(Fuse(ts, i, i + 2)) == Lives(ts)
  {
    assert ts[i].Finish() == ts[i + 1].addr;
    FuseTiled(ts, head + HPOOL, hi, i, i + 2);
    var mid := [Free(ts[i].addr, ts[i].len + ts[i + 1].len)];
    SpliceLives(ts, i, 2, mid);
    assert ts == ts[..i] + [ts[i], ts[i + 1]] + ts[i + 2..];
    SpliceLives(ts, i, 2, [ts[i], ts[i + 1]]);
    LivesNone(mid);
    LivesNone([ts[i], ts[i + 1]]);
  }

  lemma {:induction false} MergeFreeAddrs(ts: seq<Tile>, i: nat)
    requires Touching(ts, i)
    ensures FreePos(ts, i + 1) == FreePos(ts, i) + 1 < |FreeAddrs(ts)|
    ensures var j := FreePos(ts, i + 1); FreeAddrs(Fuse(ts, i, i + 2)) == FreeAddrs(ts)[..j] + FreeAddrs(ts)[j + 1..]
  {
    FreePosFacts(ts, i);
    FreePosFacts(ts, i + 1);
    assert ts[..i + 1] == ts[..i] + [ts[i]];
    FreeAddrsConcat(ts[..i], [ts[i]]);
    var mid := [Free(ts[i].addr, ts[i + 1].Finish() - ts[i].addr)];
    FreeAddrsConcat(ts[..i] + mid, ts[i + 2..]);
    FreeAddrsConcat(ts[..i], mid);
    assert FreeAddrs([ts[i]]) == [ts[i].addr] && FreeAddrs(mid) == [ts[i].addr];
  }

  lemma {:induction false} MergeLinked(m: Mem, m': Mem, head: int, hi: int, ts: seq<Tile>, i: nat, g: seq<int>)
    requires Placed(ts, head, hi) && Touching(ts, i) && FreePart(m, head, ts)
    requires m' == MergeMem(m, head, ts, i) && g == FreeAddrs(Fuse(ts, i, i + 2))
    ensures Linked(m', head + FREELIST, g)
  {
    var s, f, j := head + FREELIST, FreeAddrs(ts), FreePos(ts, i + 1);
    var m1 := Wr(m, ts[i].addr + FLEN, ts[i].len + ts[i + 1].len);
    MergeFreeAddrs(ts, i);
    FreeSpread(ts, head, hi);
    MergeLenLinked(m, m1, head, hi, ts, i);
    DeleteAt(m1, m', s, f, g, j);
  }

  lemma {:induction false} MergeLenLinked(m: Mem, m1: Mem, head: int, hi: int, ts: seq<Tile>, i: nat)
    requires Placed(ts, head, hi) && i < |ts| && ts[i].Free? && Linked(m, head + FREELIST, FreeAddrs(ts))
    requires SameOutside(m, m1, ts[i].addr + FLEN, ts[i].addr + FLEN + 1)
    ensures Linked(m1, head + FREELIST, FreeAddrs(ts))
  {
    OthersClear(ts, head, hi, i);
    LinkedOutside(m, m1, head + FREELIST, FreeAddrs(ts), ts[i].addr + FLEN, ts[i].addr + FLEN + 1);
  }

  lemma {:induction false} DeleteAt(m: Mem, m': Mem, s: int, f: seq<int>, g: seq<int>, j: nat)
    requires Linked(m, s, f) && Spread(s, f) && j < |f|
    requires m' == Deleted(m, Ring(s, f)[j], Ring(s, f)[j + 2]) && g == f[..j] + f[j + 1..]
    ensures Linked(m', s, g)
  {
    DeleteLinked(m, s, f, j);
  }

  lemma {:induction false} MergeKeeps(m: Mem, head: int, hi: int, ts: seq<Tile>, i: nat)
    requires Placed(ts, head, hi) && Touching(ts, i)
    ensures LiveCellsKept(m, MergeMem(m, head, ts, i), head, ts)
    ensures FreeLensKept(m, MergeMem(m, head, ts, i), ts, i)
    ensures Rd(MergeMem(m, head, ts, i), ts[i].addr + FLEN) == ts[i].len + ts[i + 1].len
  {
    MergeFreeAddrs(ts, i);
    var m1 := Wr(m, ts[i].addr + FLEN, ts[i].len + ts[i + 1].len);
    var c, j := Ring(head + FREELIST, FreeAddrs(ts)), FreePos(ts, i + 1);
    FreeRangeKeepsLive(m, m1, head, hi, ts, i);
    RangeKeepsLens(m, m1, head, hi, ts, i);
    DeletedKeepsLens(m1, head, hi, ts, j, j + 2);
    DeletedKeepsLive(m1, head, hi, ts, j, j + 2);
    KeptTrans(m, m1, MergeMem(m, head, ts, i), head, ts);
  }

  lemma {:induction false} MergeRep(m: Mem, head: int, hi: int, p: Pool, i: nat)
    requires Placed(p.tiles, head, hi) && QueueOk(p) && Rep(m, head, p) && Touching(p.tiles, i)
    ensures Rep(MergeMem(m, head, p.tiles, i), head, p.(tiles := Fuse(p.tiles, i, i + 2)))
    ensures PayloadKept(m, MergeMem(m, head, p.tiles, i), Lives(p.tiles))
  {
    var ts := p.tiles;
    var m' := MergeMem(m, head, ts, i);
    MergeLinked(m, m', head, hi, ts, i, FreeAddrs(Fuse(ts, i, i + 2)));
    MergeKeeps(m, head, hi, ts, i);
    LivePartFrame(m, m', head, ts);
    QueueFrame(m, m', head, p);
    MergeTiles(ts, head, hi, i);
    MergeHeaders(m, m', head, ts, i);
  }

  lemma {:induction false} MergeHeaders(m: Mem, m': Mem, head: int, ts: seq<Tile>, i: nat)
    requires Touching(ts, i)
    requires forall k :: 0 <= k < |ts| && ts[k].Free? ==> FreeHeader(m, ts[k])
    requires LivePart(m', head, ts) && FreeLensKept(m, m', ts, i)
    requires Rd(m', ts[i].addr + FLEN) == ts[i].len + ts[i + 1].len
    ensures var us := Splice(ts, i, 2, [Free(ts[i].addr, ts[i].len + ts[i + 1].len)]);
      LivePart(m', head, us) && forall k :: 0 <= k < |us| && us[k].Free? ==> FreeHeader(m', us[k])
  {
    var us := Splice(ts, i, 2, [Free(ts[i].addr, ts[i].len + ts[i + 1].len)]);
    forall k | 0 <= k < |us| ensures if us[k].Free? then FreeHeader(m', us[k]) else LiveHeader(m', head, us[k]) {
      if k < i { assert us[k] == ts[k]; }
      else if k > i { assert us[k] == ts[k + 1]; }
    }
  }

  lemma {:induction false} MergeQueue(p: Pool, i: nat)
    requires QueueOk(p) && Touching(p.tiles, i)
    ensures QueueOk(p.(tiles := Fuse(p.tiles, i, i + 2)))
  {
    var ts := p.tiles;
    var mid := [Free(ts[i].addr, ts[i + 1].Finish() - ts[i].addr)];
    RefsSplice(ts, i, 2, mid);
    forall x ensures Queued(Splice(ts, i, 2, mid), x) <==> Queued(ts, x) {
      QueuedSplice(ts, i, 2, mid, x);
    }
  }
}
