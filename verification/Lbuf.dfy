/** The lbuf allocator and message queue, working in place on the memory of the target. */
module Lbuf {
  import opened Bytes
  import opened Tiling
  import opened PoolSpec
  import opened PoolInvariant
  import PoolQueue
  import PoolRuns
  import opened Memory
  import opened PoolMemory
  import opened PoolMemoryFree
  import opened PoolMemoryQueue

  // ---- reading the free list ----

  lemma {:induction false} FreePosOrder(ts: seq<Tile>, f: nat, k: nat)
    requires f < k < |ts| && ts[f].Free?
    ensures FreePos(ts, f) < FreePos(ts, k)
  {
    assert ts[..k] == ts[..f] + [ts[f]] + ts[f + 1..k];
    FreeAddrsConcat(ts[..f] + [ts[f]], ts[f + 1..k]);
    FreeAddrsConcat(ts[..f], [ts[f]]);
    assert FreeAddrs([ts[f]]) == [ts[f].addr];
  }

  /** No earlier entry of the free list fits: the tile behind entry j is the first fit if it fits itself. */
  lemma {:induction false} FirstFitAt(m: Mem, head: int, ts: seq<Tile>, n: int, j: nat) returns (k: nat)
    requires FreePart(m, head, ts) && j < |FreeAddrs(ts)|
    requires forall i :: 0 <= i < j ==> Rd(m, FreeAddrs(ts)[i] + FLEN) < n
    ensures k < |ts| && ts[k].Free? && ts[k].addr == FreeAddrs(ts)[j] && FreePos(ts, k) == j
    ensures Rd(m, FreeAddrs(ts)[j] + FLEN) == ts[k].len
    ensures n <= ts[k].len ==> FirstFit(ts, n) == k
  {
    k := FreeTileAt(ts, j);
    assert FreeHeader(m, ts[k]);
    var f := FirstFit(ts, n);
    if n <= ts[k].len && f < k {
      FreePosOrder(ts, f, k);
      FreePosFacts(ts, f);
    }
  }

  lemma {:induction false} NoFit(m: Mem, head: int, ts: seq<Tile>, n: int)
    requires FreePart(m, head, ts)
    requires forall i :: 0 <= i < |FreeAddrs(ts)| ==> Rd(m, FreeAddrs(ts)[i] + FLEN) < n
    ensures FirstFit(ts, n) == |ts|
  {
    var f := FirstFit(ts, n);
    if f < |ts| {
      FreePosFacts(ts, f);
    }
  }

  /** Memory after alloc has taken block k for a block of n bytes. */
  function AllocMem(m: Mem, head: int, ts: seq<Tile>, k: nat, n: int): Mem
    requires k < |ts| && ts[k].Free?
  {
    if ts[k].len > n + HFREE then EntryWritten(SplitMem(m, head, ts, k, n), ts[k].addr, head, n)
    else EntryWritten(TakeMem(m, head, ts, k), ts[k].addr, head, ts[k].len)
  }

  lemma {:induction false} AllocRep(m: Mem, m': Mem, head: int, hi: int, p: Pool, len: int, k: nat)
    requires Placed(p.tiles, head, hi) && QueueOk(p) && Rep(m, head, p) && 0 <= len
    requires k == FirstFit(p.tiles, Need(len)) && k < |p.tiles|
    requires m' == AllocMem(m, head, p.tiles, k, Need(len))
    ensures Rep(m', head, PoolSpec.Alloc(p, len)) && PayloadKept(m, m', Lives(p.tiles))
  {
    RoundUpFacts(len + HENTRY);
    if p.tiles[k].len > Need(len) + HFREE {
      SplitRep(m, head, hi, p, k, Need(len));
    } else {
      TakeRep(m, head, hi, p, k);
    }
  }

  lemma {:induction false} AllocDone(m: Mem, m': Mem, head: int, hi: int, p: Pool, len: int, k: nat)
    requires 0 < head && Inv(p, head + HPOOL, hi) && Rep(m, head, p) && 0 <= len
    requires k == FirstFit(p.tiles, Need(len)) && k < |p.tiles|
    requires m' == AllocMem(m, head, p.tiles, k, Need(len))
    ensures Rep(m', head, PoolSpec.Alloc(p, len)) && PayloadKept(m, m', Lives(p.tiles))
    ensures Inv(PoolSpec.Alloc(p, len), head + HPOOL, hi)
  {
    AllocRep(m, m', head, hi, p, len, k);
    AllocInv(p, head + HPOOL, hi, len);
  }

  /** The neighbours of free block k, read from memory before or after the length of a rest is written. */
  lemma {:induction false} NeighbourReads(m: Mem, head: int, ts: seq<Tile>, k: nat, n: int, v: int)
    requires k < |ts| && ts[k].Free? && Linked(m, head + FREELIST, FreeAddrs(ts)) && HENTRY <= n
    ensures FreePos(ts, k) < |FreeAddrs(ts)|
    ensures var c, j, a := Ring(head + FREELIST, FreeAddrs(ts)), FreePos(ts, k), ts[k].addr;
      && Rd(m, a) == c[j + 2] && Rd(m, a + PREV) == c[j]
      && Rd(Wr(m, a + n + FLEN, v), a) == c[j + 2] && Rd(Wr(m, a + n + FLEN, v), a + PREV) == c[j]
  {
    FreePosFacts(ts, k);
    NextInRing(m, head + FREELIST, FreeAddrs(ts), FreePos(ts, k));
    NextInRing(m, head + FREELIST, FreeAddrs(ts), FreePos(ts, k) + 1);
  }

  // ---- a pool right after initialisation ----

  /** Memory after lbuf_init has laid out a pool of len bytes at h. */
  function InitMem(m: Mem, h: int, len: int): Mem {
    var m1 := Wr(m, h + HPOOL + FLEN, len - HPOOL - HFREE);
    var m2 := Selfed(Selfed(m1, h), h + FREELIST);
    Added(m2, h + HPOOL, h + FREELIST, h + FREELIST)
  }

  /** The cells of a fresh pool. */
  lemma InitCells(m: Mem, m': Mem, h: int, len: int, y: int)
    requires m' == InitMem(m, h, len)
    ensures Rd(m', h) == h && Rd(m', h + PREV) == h
    ensures Rd(m', h + FREELIST) == h + HPOOL && Rd(m', h + FREELIST + PREV) == h + HPOOL
    ensures Rd(m', h + HPOOL) == h + FREELIST && Rd(m', h + HPOOL + PREV) == h + FREELIST
    ensures Rd(m', h + HPOOL + FLEN) == len - HPOOL - HFREE
    ensures !(h <= y < h + HPOOL + HFREE) ==> Rd(m', y) == Rd(m, y)
  {
  }

  lemma {:induction false} InitRep(m: Mem, m': Mem, h: int, len: int)
    requires 0 < h && HPOOL + HFREE + HFREE <= len && m' == InitMem(m, h, len)
    ensures Rep(m', h, Fresh(h + HPOOL, h + len - HFREE))
    ensures SameOutside(m, m', h, h + len)
  {
    forall y ensures y < h || h + len <= y ==> Rd(m', y) == Rd(m, y) {
      InitCells(m, m', h, len, y);
    }
    InitCells(m, m', h, len, 0);
    FreshLinked(m', h, h + HPOOL, Fresh(h + HPOOL, h + len - HFREE).tiles);
  }

  lemma {:induction false} FreshLinked(m: Mem, h: int, f: int, ts: seq<Tile>)
    requires |ts| == 1 && ts[0].Free? && ts[0].addr == f
    requires Rd(m, h) == h && Rd(m, h + PREV) == h
    requires Rd(m, h + FREELIST) == f && Rd(m, h + FREELIST + PREV) == f && Rd(m, f) == h + FREELIST && Rd(m, f + PREV) == h + FREELIST
    ensures Linked(m, h, []) && Linked(m, h + FREELIST, FreeAddrs(ts))
  {
    assert ts[1..] == [];
    assert FreeAddrs(ts) == [f];
    assert Ring(h + FREELIST, [f]) == [h + FREELIST, f, h + FREELIST];
    assert Ring(h, []) == [h, h];
  }

  lemma {:induction false} InitDone(m: Mem, m': Mem, h: int, len: int)
    requires 0 < h && h % 4 == 0 && HPOOL + HFREE + HFREE <= len && m' == InitMem(m, h, len)
    ensures Rep(m', h, Fresh(h + HPOOL, h + len - HFREE)) && Inv(Fresh(h + HPOOL, h + len - HFREE), h + HPOOL, h + len - HFREE)
    ensures SameOutside(m, m', h, h + len)
  {
    InitRep(m, m', h, len);
    PoolRuns.FreshInv(h + HPOOL, h + len - HFREE);
  }

  /** Following a next pointer of a list. */
  lemma NextInRing(m: Mem, s: int, ns: seq<int>, j: nat)
    requires Linked(m, s, ns) && j <= |ns|
    ensures Rd(m, Ring(s, ns)[j]) == Ring(s, ns)[j + 1]
    ensures Rd(m, Ring(s, ns)[j + 1] + PREV) == Ring(s, ns)[j]
  {
  }

  /** The cursor has come back to the head exactly when it has passed every node. */
  lemma AtHead(s: int, ns: seq<int>, j: nat)
    requires Spread(s, ns) && j <= |ns|
    ensures Ring(s, ns)[j + 1] == s <==> j == |ns|
    ensures j < |ns| ==> Ring(s, ns)[j + 1] == ns[j]
  {
  }

  // ---- walking the free list while freeing ----

  /** A block of the free list never reaches into live block k: the overlap exit is dead. */
  lemma {:induction false} NoOverlap(m: Mem, head: int, hi: int, ts: seq<Tile>, k: nat, j: nat)
    requires Placed(ts, head, hi) && LiveAt(ts, k) && FreePart(m, head, ts) && j < |FreeAddrs(ts)|
    ensures var p := FreeAddrs(ts)[j];
      p != ts[k].addr && !(p <= ts[k].addr && p + Rd(m, p + FLEN) > ts[k].addr)
  {
    TiledApart(ts, head + HPOOL, hi);
    var u := FreeTileAt(ts, j);
    assert FreeHeader(m, ts[u]);
    if u < k { assert ts[u].Finish() <= ts[k].addr; } else { assert ts[k].Finish() <= ts[u].addr; }
  }

  /** What the statements of a merge read is what MergeMem is written with. */
  lemma {:induction false} MergeReads(m: Mem, head: int, hi: int, ts: seq<Tile>, i: nat)
    requires Placed(ts, head, hi) && Touching(ts, i) && FreePart(m, head, ts)
    ensures FreePos(ts, i + 1) < |FreeAddrs(ts)|
    ensures var a, b, c, j := ts[i].addr, ts[i + 1].addr, Ring(head + FREELIST, FreeAddrs(ts)), FreePos(ts, i + 1);
      var m1 := Wr(m, a + FLEN, ts[i].len + ts[i + 1].len);
      && Rd(m, a + FLEN) == ts[i].len && Rd(m, b + FLEN) == ts[i + 1].len
      && Rd(m1, b + PREV) == c[j] && Rd(m1, b) == c[j + 2]
  {
    FreePosFacts(ts, i + 1);
    assert FreeHeader(m, ts[i]) && FreeHeader(m, ts[i + 1]);
    assert ts[i].Finish() == ts[i + 1].addr;
    NextInRing(m, head + FREELIST, FreeAddrs(ts), FreePos(ts, i + 1));
    NextInRing(m, head + FREELIST, FreeAddrs(ts), FreePos(ts, i + 1) + 1);
  }

  lemma {:induction false} MergeDone(m: Mem, m': Mem, head: int, hi: int, p: Pool, i: nat)
    requires Placed(p.tiles, head, hi) && QueueOk(p) && Rep(m, head, p) && Touching(p.tiles, i)
    requires m' == MergeMem(m, head, p.tiles, i)
    ensures var p' := p.(tiles := Fuse(p.tiles, i, i + 2));
      && Placed(p'.tiles, head, hi) && QueueOk(p') && Rep(m', head, p')
      && PayloadKept(m, m', Lives(p.tiles))
  {
    MergeRep(m, head, hi, p, i);
    MergeTiles(p.tiles, head, hi, i);
    MergeQueue(p, i);
  }

  /** The pass has reached entry j; behind the block i of the entry before it nothing touches. */
  ghost predicate Cursor(s: int, ts: seq<Tile>, prev: int, p: int, i: nat, j: nat) {
    var f := FreeAddrs(ts);
    && j <= |f| && p == Ring(s, f)[j + 1] && (p == s <==> j == |f|)
    && (prev == NULL ==> j == 0)
    && (prev != NULL ==> 0 < j && i < |ts| && ts[i].Free? && ts[i].addr == prev && FreePos(ts, i) == j - 1)
    && (forall u :: 0 <= u < (if prev == NULL then 0 else i) ==> !Touching(ts, u))
  }

  /** Between two successive entries of the free list every block is live. */
  lemma {:induction false} GapLive(ts: seq<Tile>, i: nat, u: nat, v: nat)
    requires i < v < u <= |ts| && ts[i].Free?
    requires (u < |ts| && FreePos(ts, u) <= FreePos(ts, i) + 1) || (u == |ts| && |FreeAddrs(ts)| <= FreePos(ts, i) + 1)
    ensures ts[v].Live?
  {
    if ts[v].Free? {
      FreePosOrder(ts, i, v);
      if u < |ts| { FreePosOrder(ts, v, u); } else { FreePosFacts(ts, v); }
    }
  }

  /** Before the first entry of the free list every block is live. */
  lemma {:induction false} HeadLive(ts: seq<Tile>, u: nat, v: nat)
    requires v < u <= |ts|
    requires (u < |ts| && FreePos(ts, u) == 0) || (u == |ts| && FreeAddrs(ts) == [])
    ensures ts[v].Live?
  {
    if ts[v].Free? {
      if u < |ts| { FreePosOrder(ts, v, u); } else { FreePosFacts(ts, v); }
    }
  }

  /** Block u of entry j follows block i of the entry before: they touch exactly when u is i + 1. */
  lemma {:induction false} CursorNext(head: int, hi: int, ts: seq<Tile>, prev: int, p: int, i: nat, j: nat, u: nat)
    requires Placed(ts, head, hi) && Cursor(head + FREELIST, ts, prev, p, i, j) && j < |FreeAddrs(ts)|
    requires u < |ts| && ts[u].Free? && ts[u].addr == FreeAddrs(ts)[j] && FreePos(ts, u) == j
    ensures prev == NULL ==> forall v :: 0 <= v < u ==> !Touching(ts, v)
    ensures prev != NULL ==> i < u && (ts[i].Finish() == ts[u].addr <==> u == i + 1)
    ensures prev != NULL && u != i + 1 ==> forall v :: 0 <= v < u ==> !Touching(ts, v)
    ensures 0 < ts[u].addr
  {
    TiledApart(ts, head + HPOOL, hi);
    if prev == NULL {
      forall v | 0 <= v < u ensures !Touching(ts, v) { HeadLive(ts, u, v); }
    } else {
      if u < i { FreePosOrder(ts, u, i); }
      assert ts[i].Finish() == ts[i + 1].addr;
      if u != i + 1 {
        assert ts[i + 1].Finish() <= ts[u].addr;
        GapLive(ts, i, u, i + 1);
        forall v | 0 <= v < u ensures !Touching(ts, v) {
          if i < v { GapLive(ts, i, u, v); }
        }
      }
    }
  }

  /** At the end of the pass nothing touches anywhere. */
  lemma {:induction false} CursorDone(head: int, hi: int, ts: seq<Tile>, prev: int, p: int, i: nat, j: nat)
    requires Placed(ts, head, hi) && Cursor(head + FREELIST, ts, prev, p, i, j) && p == head + FREELIST
    ensures Coalesced(ts)
  {
    forall a, b | 0 <= a < |ts| - 1 && b == a + 1 ensures ts[a].Live? || ts[b].Live? {
      if prev == NULL {
        HeadLive(ts, |ts|, a);
      } else if a < i {
        assert !Touching(ts, a);
      } else {
        GapLive(ts, i, |ts|, b);
      }
    }
  }

  /** After a merge the next pointer of the block joined still leads to the entry that took its place. */
  lemma {:induction false} MergeNext(m: Mem, head: int, hi: int, ts: seq<Tile>, i: nat, j: nat)
    requires Placed(ts, head, hi) && Touching(ts, i) && FreePart(m, head, ts) && FreePos(ts, i) == j - 1 && 0 < j
    ensures j < |FreeAddrs(ts)| && ts[i + 1].addr == FreeAddrs(ts)[j]
    ensures |FreeAddrs(Fuse(ts, i, i + 2))| == |FreeAddrs(ts)| - 1
    ensures var g := FreeAddrs(Fuse(ts, i, i + 2));
      var q := Rd(MergeMem(m, head, ts, i), ts[i + 1].addr);
      q == Ring(head + FREELIST, g)[j + 1] && (q == head + FREELIST <==> j == |g|)
    ensures ts[i].addr == Fuse(ts, i, i + 2)[i].addr && Fuse(ts, i, i + 2)[i].Free?
    ensures FreePos(Fuse(ts, i, i + 2), i) == j - 1
    ensures forall u :: 0 <= u < i && !Touching(ts, u) ==> !Touching(Fuse(ts, i, i + 2), u)
  {
    var s, f := head + FREELIST, FreeAddrs(ts);
    MergeFreeAddrs(ts, i);
    FreePosFacts(ts, i + 1);
    FreeSpread(ts, head, hi);
    NextInRing(m, s, f, j + 1);
    AtHead(s, f, j + 1);
    assert Fuse(ts, i, i + 2)[..i] == ts[..i];
    MergeNextCell(m, head, hi, ts, i, j);
  }

  lemma {:induction false} MergedCursor(m: Mem, m': Mem, head: int, hi: int, ts: seq<Tile>, us: seq<Tile>, prev: int, p: int, p': int, i: nat, j: nat)
    requires Placed(ts, head, hi) && Touching(ts, i) && FreePart(m, head, ts) && m' == MergeMem(m, head, ts, i)
    requires Cursor(head + FREELIST, ts, prev, p, i, j) && prev != NULL && p == ts[i + 1].addr
    requires us == Fuse(ts, i, i + 2) && p' == Rd(m', p)
    ensures Cursor(head + FREELIST, us, prev, p', i, j)
    ensures Lives(us) == Lives(ts) && |FreeAddrs(us)| < |FreeAddrs(ts)|
  {
    MergeNext(m, head, hi, ts, i, j);
    MergeTiles(ts, head, hi, i);
    forall u | 0 <= u < i ensures !Touching(us, u) {
      assert !Touching(ts, u);
    }
  }

  lemma {:induction false} MergeNextCell(m: Mem, head: int, hi: int, ts: seq<Tile>, i: nat, j: nat)
    requires Placed(ts, head, hi) && Touching(ts, i) && FreePos(ts, i + 1) == j
    ensures Rd(MergeMem(m, head, ts, i), ts[i + 1].addr) == Rd(m, ts[i + 1].addr)
  {
    var s, f := head + FREELIST, FreeAddrs(ts);
    FreePosFacts(ts, i + 1);
    FreeSpread(ts, head, hi);
    assert ts[i].Finish() == ts[i + 1].addr;
    var c := Ring(s, f);
    assert c[j + 1] == f[j];
    RingDistant(s, f, j, j + 1);
    RingDistant(s, f, j + 1, j + 2);
  }

  // ---- the steps of free, realloc, push and clear as one ----

  /** Memory after the insertion holds the marked pool. */
  lemma {:induction false} FreeMarked(m0: Mem, m1: Mem, m2: Mem, head: int, hi: int, p: Pool, k: nat)
    requires Placed(p.tiles, head, hi) && QueueOk(p) && LiveAt(p.tiles, k)
    requires FreePart(m1, head, p.tiles) && LivePart(m1, head, p.tiles) && Linked(m1, head, Without(p.queue, p.tiles[k].addr))
    requires PayloadKept(m0, m1, Lives(p.tiles)) && m2 == InsertMem(m1, head, p.tiles, k)
    ensures var p' := Pool(Marked(p.tiles, k), Without(p.queue, p.tiles[k].addr));
      && Placed(p'.tiles, head, hi) && QueueOk(p') && Rep(m2, head, p')
      && PayloadKept(m0, m2, Lives(p'.tiles))
  {
    MarkedPlaced(p.tiles, head, hi, k);
    MarkedQueue(p, head, hi, k);
    InsertRep(m1, head, hi, p, k, Without(p.queue, p.tiles[k].addr));
    MarkedLives(p.tiles, k);
    LivesAround(p.tiles, k);
  }

  /** Coalescing the marked tiling yields exactly what Release says. */
  lemma {:induction false} FreeDone(p: Pool, lo: int, hi: int, k: nat, q: Pool)
    requires Inv(p, lo, hi) && LiveAt(p.tiles, k)
    requires Tiled(q.tiles, lo, hi) && Sized(q.tiles) && Coalesced(q.tiles)
    requires Lives(q.tiles) == Lives(Marked(p.tiles, k)) && q.queue == Without(p.queue, p.tiles[k].addr)
    ensures q == FreeBlock(p, k) && Inv(q, lo, hi)
  {
    FreeInv(p, lo, hi, k);
    MarkedLives(p.tiles, k);
    PoolRuns.ReleaseKeeps(p.tiles, lo, hi, k);
    Canonical(q.tiles, Release(p.tiles, k), lo, hi);
  }

  lemma {:induction false} CutValid(m: Mem, m': Mem, head: int, hi: int, p: Pool, k: nat, n: int, c: Pool)
    requires 0 < head && Inv(p, head + HPOOL, hi) && Rep(m, head, p) && CutOk(p, k, n)
    requires m' == CutMem(m, head, p.tiles[k].addr, n, p.tiles[k].len)
    requires c == CutPool(p, k, n, Rd(m, p.tiles[k].addr + n + STATE))
    ensures Inv(c, head + HPOOL, hi) && Rep(m', head, c) && PayloadKept(m, m', Lives(c.tiles))
    ensures k + 1 < |c.tiles| && c.tiles[k + 1].Live? && c.tiles[k + 1].addr == p.tiles[k].addr + n
  {
    CutRep(m, m', head, hi, p, k, n, c);
    CutTiled(p, head + HPOOL, hi, k, n, Rd(m, p.tiles[k].addr + n + STATE), c);
  }

  lemma {:induction false} CutFreed(p: Pool, lo: int, hi: int, k: nat, n: int, st: int, q: Pool)
    requires Inv(p, lo, hi) && CutOk(p, k, n)
    requires LiveAt(CutPool(p, k, n, st).tiles, k + 1) && CutPool(p, k, n, st).tiles[k + 1].addr == p.tiles[k].addr + n
    requires q == FreeBlock(CutPool(p, k, n, st), k + 1)
    ensures q == p.(tiles := Release(CutPool(p, k, n, 0).tiles, k + 1))
  {
    CutStateIrrelevant(p, k, n, st);
    CutTailUnqueued(p, lo, hi, k, n);
    WithoutAbsent(p.queue, p.tiles[k].addr + n);
  }

  /** The blocks that are live after a block is freed were live before. */
  lemma {:induction false} FreeShrinksLives(p: Pool, lo: int, hi: int, k: nat)
    requires Inv(p, lo, hi) && LiveAt(p.tiles, k)
    ensures forall t :: t in Lives(FreeBlock(p, k).tiles) ==> t in Lives(p.tiles)
  {
    PoolRuns.ReleaseKeeps(p.tiles, lo, hi, k);
  }

  /** The cells that push writes are those PushMem says. */
  lemma {:induction false} WrittenPayload(m: Mem, m': Mem, head: int, hi: int, p: Pool, k: nat, lbuf: int, offset: nat, v: int)
    requires 0 < head && Inv(p, head + HPOOL, hi) && Rep(m, head, p) && LiveAt(p.tiles, k) && p.tiles[k].addr == lbuf - HENTRY
    requires offset < p.tiles[k].len - HENTRY && m' == Wr(m, lbuf + offset, v)
    ensures Rep(m', head, p)
    ensures forall t, y :: t in Lives(p.tiles) && t.addr != lbuf - HENTRY && t.addr + HENTRY <= y < t.Finish() ==> Rd(m', y) == Rd(m, y)
  {
    PayloadWriteRep(m, m', head, hi, p, k);
  }

  lemma {:induction false} PushDone(m: Mem, m': Mem, head: int, hi: int, p: Pool, k: nat)
    requires 0 < head && Inv(p, head + HPOOL, hi) && Rep(m, head, p) && LiveAt(p.tiles, k) && p.tiles[k].refs < MAXREFS
    requires var a := p.tiles[k].addr;
      var m1 := Wr(Wr(m, a + STATE, 0), a + REF, Rd(m, a + REF) + 1);
      var h := Rd(m, a + OWNER);
      m' == if Rd(m, a + REF) == 0 then Added(m1, a, Rd(m1, h + PREV), h) else m1
    ensures Rep(m', head, PoolSpec.Push(p, k)) && Inv(PoolSpec.Push(p, k), head + HPOOL, hi)
    ensures PayloadKept(m, m', Lives(p.tiles))
  {
    PushReads(m, head, hi, p, k);
    PushRep(m, m', head, hi, p, k);
    PushInv(p, head + HPOOL, hi, k);
  }

  lemma {:induction false} PushReads(m: Mem, head: int, hi: int, p: Pool, k: nat)
    requires Placed(p.tiles, head, hi) && Rep(m, head, p) && LiveAt(p.tiles, k)
    ensures var a := p.tiles[k].addr;
      var m1 := Wr(Wr(m, a + STATE, 0), a + REF, Rd(m, a + REF) + 1);
      && Rd(m, a + OWNER) == head && Rd(m, a + REF) == p.tiles[k].refs
      && Rd(m1, head + PREV) == Ring(head, p.queue)[|p.queue|]
  {
    assert LiveHeader(m, head, p.tiles[k]);
    NextInRing(m, head, p.queue, |p.queue|);
    TiledApart(p.tiles, head + HPOOL, hi);
  }

  /** The state byte of a queued block decides whether it waits. */
  lemma {:induction false} StateRead(m: Mem, head: int, hi: int, p: Pool, i: nat)
    requires 0 < head && Inv(p, head + HPOOL, hi) && Rep(m, head, p) && i < |p.queue|
    ensures Waiting(p.tiles, p.queue[i]) <==> Rd(m, p.queue[i] + STATE) == 0
    ensures LiveAt(p.tiles, Index(p.tiles, p.queue[i]))
  {
    PoolRuns.QueuedIndex(p, head + HPOOL, hi, p.queue[i]);
    assert LiveHeader(m, head, p.tiles[Index(p.tiles, p.queue[i])]);
  }

  lemma {:induction false} PoolAboveZero(ts: seq<Tile>, head: int, hi: int, k: nat)
    requires Placed(ts, head, hi) && k < |ts|
    ensures 0 < ts[k].addr
  {
    TiledApart(ts, head + HPOOL, hi);
  }

  lemma {:induction false} QueueAboveHead(p: Pool, head: int, hi: int, i: nat)
    requires Placed(p.tiles, head, hi) && QueueOk(p) && i < |p.queue|
    ensures head < p.queue[i]
  {
    TiledApart(p.tiles, head + HPOOL, hi);
    var k := QueuedTile(p, i);
  }

  /** The first two next pointers of the queue. */
  lemma {:induction false} ClearCursor(m: Mem, head: int, hi: int, p: Pool)
    requires 0 < head && Inv(p, head + HPOOL, hi) && Rep(m, head, p)
    ensures Rd(m, head) == Ring(head, p.queue)[1] && (Rd(m, head) == head <==> p.queue == [])
    ensures p.queue != [] ==> Rd(m, head) == p.queue[0] && Rd(m, Rd(m, head)) == Ring(head, p.queue)[2]
  {
    QueueSpread(p, head, hi);
    NextInRing(m, head, p.queue, 0);
    AtHead(head, p.queue, 0);
    if p.queue != [] {
      NextInRing(m, head, p.queue, 1);
    }
  }

  /** Freeing the first block of the queue is the first step of clearing it. */
  lemma {:induction false} ClearFirst(p: Pool, lo: int, hi: int, a: int) returns (k: nat)
    requires Inv(p, lo, hi) && p.queue != [] && p.queue[0] == a
    ensures LiveAt(p.tiles, k) && p.tiles[k].addr == a
    ensures PoolRuns.Clear(FreeBlock(p, k)) == PoolRuns.Clear(p) && FreeBlock(p, k).queue == p.queue[1..]
    ensures forall t :: t in Lives(FreeBlock(p, k).tiles) ==> t in Lives(p.tiles)
  {
    k := Index(p.tiles, a);
    PoolRuns.QueuedIndex(p, lo, hi, a);
    FreeShrinksLives(p, lo, hi, k);
  }

  /** The sum of the length words of these free list nodes. */
  function LenSum(m: Mem, f: seq<int>): int {
    if f == [] then 0 else LenSum(m, f[..|f| - 1]) + Rd(m, f[|f| - 1] + FLEN)
  }

  lemma {:induction false} LenSumConcat(m: Mem, a: seq<int>, b: seq<int>)
    ensures LenSum(m, a + b) == LenSum(m, a) + LenSum(m, b)
    decreases |b|
  {
    if b == [] {
      assert a + b == a;
    } else {
      LenSumConcat(m, a, b[..|b| - 1]);
      assert (a + b)[..|a + b| - 1] == a + b[..|b| - 1];
    }
  }

  lemma {:induction false} LenSumIsFreeBytes(m: Mem, ts: seq<Tile>)
    requires forall k :: 0 <= k < |ts| && ts[k].Free? ==> FreeHeader(m, ts[k])
    ensures LenSum(m, FreeAddrs(ts)) == FreeBytes(ts)
    decreases |ts|
  {
    if ts != [] {
      forall k | 0 <= k < |ts[1..]| && ts[1..][k].Free? ensures FreeHeader(m, ts[1..][k]) {
        assert ts[1..][k] == ts[k + 1];
      }
      LenSumIsFreeBytes(m, ts[1..]);
      if ts[0].Free? {
        assert FreeHeader(m, ts[0]);
        LenSumConcat(m, [ts[0].addr], FreeAddrs(ts[1..]));
        assert LenSum(m, [ts[0].addr]) == LenSum(m, []) + ts[0].len by {
          assert [ts[0].addr][..0] == [];
        }
      }
    }
  }

  /** One pool in memory. The fields mem and head are the program's; the rest only describes them. */
  class LbufPool {
    var mem: Mem
    const head: int
    ghost const hi: int
    ghost var pool: Pool

    ghost predicate Valid()
      reads this
    {
      && 0 < head && head % 4 == 0
      && Inv(pool, head + HPOOL, hi)
      && Rep(mem, head, pool)
    }

    // ---- list primitives ----

    method InitListHead(a: int)
      modifies this`mem
      ensures mem == Selfed(old(mem), a)
    {
      mem := Wr(mem, a, a);
      mem := Wr(mem, a + PREV, a);
    }

    method ListAdd(x: int, prev: int, next: int)
      modifies this`mem
      ensures mem == Added(old(mem), x, prev, next)
    {
      mem := Wr(mem, next + PREV, x);
      mem := Wr(mem, x, next);
      mem := Wr(mem, x + PREV, prev);
      mem := Wr(mem, prev, x);
    }

    method ListAddTail(x: int, h: int)
      modifies this`mem
      ensures mem == Added(old(mem), x, Rd(old(mem), h + PREV), h)
    {
      ListAdd(x, Rd(mem, h + PREV), h);
    }

    method ListDel(prev: int, next: int)
      modifies this`mem
      ensures mem == Deleted(old(mem), prev, next)
    {
      if prev == 0 || next == 0 {
        return;
      }
      mem := Wr(mem, next + PREV, prev);
      mem := Wr(mem, prev, next);
    }

    method ListDelEntry(a: int)
      modifies this`mem
      ensures mem == Deleted(old(mem), Rd(old(mem), a + PREV), Rd(old(mem), a))
    {
      ListDel(Rd(mem, a + PREV), Rd(mem, a));
    }

    // ---- lbuf_init ----

    /** Writes the pool head and the one free block behind it. */
    method LayOut(len: int)
      requires 0 < head && HPOOL + HFREE + HFREE <= len
      modifies this`mem
      ensures mem == InitMem(old(mem), head, len)
    {
      var free := head + HPOOL;
      mem := Wr(mem, free + FLEN, len - HPOOL - HFREE);
      InitListHead(head);
      InitListHead(head + FREELIST);
      assert Rd(mem, head + FREELIST + PREV) == head + FREELIST;
      ListAddTail(free, head + FREELIST);
    }

    /** Sets up a pool in the bufLen bytes at buf. */
    constructor (ram: Mem, buf: int, bufLen: int)
      requires 0 < buf && buf + bufLen <= U32
      requires RoundUp(buf) + HPOOL + HFREE + HFREE <= buf + bufLen
      ensures Valid()
      ensures head % 4 == 0 && buf <= head < buf + 4 && hi == buf + bufLen - HFREE
      ensures pool == Fresh(head + HPOOL, hi)
      ensures forall y :: y < buf || buf + bufLen <= y ==> Rd(mem, y) == Rd(ram, y)
    {
      var len, h := bufLen, buf;
      if buf % 4 != 0 {
        len := len - (4 - buf % 4);
        h := h + (4 - buf % 4);
      }
      mem := ram;
      head := h;
      hi := h + len - HFREE;
      pool := Fresh(h + HPOOL, h + len - HFREE);
      new;
      LayOut(len);
      InitDone(ram, mem, head, len);
    }

    // ---- lbuf_alloc ----

    /** Leaves the first n bytes of the free block at p and links the rest in its place. */
    method SplitOff(p: int, n: int)
      modifies this`mem
      ensures var m1 := Wr(old(mem), p + n + FLEN, Rd(old(mem), p + FLEN) - n);
        mem == Added(m1, p + n, Rd(m1, p + PREV), Rd(m1, p))
    {
      var rest := p + n;
      mem := Wr(mem, rest + FLEN, Rd(mem, p + FLEN) - n);
      ListAdd(rest, Rd(mem, p + PREV), Rd(mem, p));
    }

    /** Writes the header of a live block. */
    method WriteEntry(p: int, n: int)
      modifies this`mem
      ensures mem == EntryWritten(old(mem), p, head, n)
    {
      mem := Wr(mem, p + OWNER, head);
      mem := Wr(mem, p + STATE, 0);
      mem := Wr(mem, p + ELEN, n);
      mem := Wr(mem, p + REF, 0);
      InitListHead(p);
    }

    /** Turns the free block at p into a live one of n bytes, or of all its bytes if the rest is too small. */
    method Take(p: int, n: int, ghost ts: seq<Tile>, ghost k: nat)
      requires k < |ts| && ts[k].Free? && p == ts[k].addr && Rd(mem, p + FLEN) == ts[k].len && HENTRY <= n
      requires Linked(mem, head + FREELIST, FreeAddrs(ts))
      modifies this`mem
      ensures mem == AllocMem(old(mem), head, ts, k, n)
    {
      NeighbourReads(mem, head, ts, k, n, Rd(mem, p + FLEN) - n);
      var len := n;
      if Rd(mem, p + FLEN) > len + HFREE {
        SplitOff(p, len);
      } else {
        len := Rd(mem, p + FLEN);
        ListDelEntry(p);
      }
      WriteEntry(p, len);
    }

    /** Walks the free list to the first block of at least n bytes, or back to its head. */
    method FindFit(n: int) returns (p: int, ghost k: nat)
      requires Valid()
      ensures k == FirstFit(pool.tiles, n)
      ensures if p == head + FREELIST then k == |pool.tiles| else k < |pool.tiles| && p == pool.tiles[k].addr && Rd(mem, p + FLEN) == pool.tiles[k].len
    {
      ghost var ts, f := pool.tiles, FreeAddrs(pool.tiles);
      FreeSpread(ts, head, hi);
      ghost var j: nat;
      p, j := WalkToFit(n, f);
      if j < |f| {
        k := FirstFitAt(mem, head, ts, n, j);
        FreeNodeIn(ts, head, hi, j);
      } else {
        NoFit(mem, head, ts, n);
        k := |ts|;
      }
    }

    /** The walk itself, over the free list f. */
    method WalkToFit(n: int, ghost f: seq<int>) returns (p: int, ghost j: nat)
      requires Linked(mem, head + FREELIST, f) && Spread(head + FREELIST, f)
      ensures j <= |f| && p == (if j == |f| then head + FREELIST else f[j]) && (p == head + FREELIST <==> j == |f|)
      ensures forall i :: 0 <= i < j ==> Rd(mem, f[i] + FLEN) < n
      ensures j < |f| ==> n <= Rd(mem, f[j] + FLEN)
    {
      ghost var s := head + FREELIST;
      j := 0;
      NextInRing(mem, s, f, 0);
      AtHead(s, f, 0);
      p := Rd(mem, head + FREELIST);
      while p != head + FREELIST
        invariant j <= |f| && p == Ring(s, f)[j + 1] && (p == s <==> j == |f|) && (j < |f| ==> p == f[j])
        invariant forall i :: 0 <= i < j ==> Rd(mem, f[i] + FLEN) < n
        decreases |f| - j
      {
        if Rd(mem, p + FLEN) < n {
          NextInRing(mem, s, f, j + 1);
          AtHead(s, f, j + 1);
          p := Rd(mem, p);
          j := j + 1;
          continue;
        }
        return;
      }
    }

    method Alloc(len: int) returns (ret: int)
      requires Valid() && 0 <= len && len + HENTRY + 3 < U32
      modifies this`mem, this`pool
      ensures Valid()
      ensures pool == PoolSpec.Alloc(old(pool), len) && ret == AllocResult(old(pool), len)
      ensures PayloadKept(old(mem), mem, Lives(old(pool).tiles))
    {
      ret := NULL;
      var n := len + HENTRY;
      if n % 4 != 0 {
        n := n + (4 - n % 4);
      }
      var p;
      ghost var k;
      p, k := FindFit(n);
      if p != head + FREELIST {
        ret := p + HENTRY;
        TakeFit(p, n, len, k);
      }
    }

    /** Take, as a step from one valid pool to the next. */
    method TakeFit(p: int, n: int, ghost len: int, ghost k: nat)
      requires Valid() && 0 <= len && n == Need(len)
      requires k == FirstFit(pool.tiles, n) && k < |pool.tiles| && p == pool.tiles[k].addr && Rd(mem, p + FLEN) == pool.tiles[k].len
      modifies this`mem, this`pool
      ensures Valid()
      ensures pool == PoolSpec.Alloc(old(pool), len)
      ensures PayloadKept(old(mem), mem, Lives(old(pool).tiles))
    {
      RoundUpFacts(len + HENTRY);
      Take(p, n, pool.tiles, k);
      AllocDone(old(mem), mem, head, hi, pool, len, k);
      pool := PoolSpec.Alloc(pool, len);
    }

    /** Whether an allocation of len bytes would succeed. */
    method RemainLen(len: int) returns (res: int)
      requires Valid() && 0 <= len && len + HENTRY + 3 < U32
      ensures res == if AllocResult(pool, len) != NULL then 1 else 0
    {
      var n := len + HENTRY;
      if n % 4 != 0 {
        n := n + (4 - n % 4);
      }
      var p;
      ghost var k;
      p, k := FindFit(n);
      if k < |pool.tiles| {
        TiledApart(pool.tiles, head + HPOOL, hi);
      }
      res := if p == head + FREELIST then 0 else 1;
    }

    /** The number of free bytes. */
    method RemainSpace() returns (sum: int)
      requires Valid()
      ensures sum == FreeBytes(pool.tiles)
    {
      FreeSpread(pool.tiles, head, hi);
      sum := AddUpFree(FreeAddrs(pool.tiles));
      LenSumIsFreeBytes(mem, pool.tiles);
    }

    /** The walk itself, over the free list f. */
    method AddUpFree(ghost f: seq<int>) returns (sum: int)
      requires Linked(mem, head + FREELIST, f) && Spread(head + FREELIST, f)
      ensures sum == LenSum(mem, f)
    {
      ghost var s, j: nat := head + FREELIST, 0;
      NextInRing(mem, s, f, 0);
      AtHead(s, f, 0);
      var p := Rd(mem, head + FREELIST);
      sum := 0;
      while p != head + FREELIST
        invariant j <= |f| && p == Ring(s, f)[j + 1] && (p == s <==> j == |f|) && (j < |f| ==> p == f[j])
        invariant sum == LenSum(mem, f[..j])
        decreases |f| - j
      {
        NextInRing(mem, s, f, j + 1);
        AtHead(s, f, j + 1);
        assert f[..j + 1][..j] == f[..j];
        sum := sum + Rd(mem, p + FLEN);
        p := Rd(mem, p);
        j := j + 1;
      }
      assert f[..j] == f;
    }

    // ---- lbuf_free ----

    /** A pool whose free blocks may still touch. */
    ghost predicate Loose()
      reads this
    {
      && 0 < head && head % 4 == 0
      && Placed(pool.tiles, head, hi)
      && QueueOk(pool)
      && Rep(mem, head, pool)
    }

    /** Links the block at x into the free list of the pool at h where the address order wants it. */
    method LinkFree(h: int, x: int, ghost ts: seq<Tile>, ghost k: nat)
      requires h == head && Placed(ts, head, hi) && LiveAt(ts, k) && x == ts[k].addr && FreePart(mem, head, ts)
      modifies this`mem
      ensures |FreeAddrs(ts[..k])| <= |FreeAddrs(ts)|
      ensures var j := |FreeAddrs(ts[..k])|;
        var c := Ring(head + FREELIST, FreeAddrs(ts));
        mem == Added(old(mem), x, c[j], c[j + 1])
    {
      ghost var s, f := head + FREELIST, FreeAddrs(ts);
      FreeSpread(ts, head, hi);
      ghost var j: nat := 0;
      NextInRing(mem, s, f, 0);
      AtHead(s, f, 0);
      var p := Rd(mem, h + FREELIST);
      while p != h + FREELIST
        invariant j <= |f| && p == Ring(s, f)[j + 1] && (p == s <==> j == |f|)
        invariant forall i :: 0 <= i < j ==> f[i] < x
        invariant mem == old(mem)
        decreases |f| - j
      {
        AtHead(s, f, j);
        NoOverlap(mem, head, hi, ts, k, j);
        NextInRing(mem, s, f, j);
        if p <= x && p + Rd(mem, p + FLEN) > x {
          assert false;
        }
        if p > x {
          InsertPos(ts, head, hi, k, j);
          ListAdd(x, Rd(mem, p + PREV), p);
          return;
        }
        NextInRing(mem, s, f, j + 1);
        AtHead(s, f, j + 1);
        p := Rd(mem, p);
        j := j + 1;
      }
      InsertPos(ts, head, hi, k, j);
      NextInRing(mem, s, f, j);
      ListAddTail(x, h + FREELIST);
    }

    /** Adds the length of the block at p to that of the block before it, and unlinks it. */
    method MergeBlocks(prev: int, p: int, ghost ts: seq<Tile>, ghost i: nat)
      requires Placed(ts, head, hi) && Touching(ts, i) && FreePart(mem, head, ts)
      requires prev == ts[i].addr && p == ts[i + 1].addr
      modifies this`mem
      ensures mem == MergeMem(old(mem), head, ts, i)
    {
      MergeReads(mem, head, hi, ts, i);
      mem := Wr(mem, prev + FLEN, Rd(mem, prev + FLEN) + Rd(mem, p + FLEN));
      ListDelEntry(p);
    }

    /** Joins the free block at p to the one at prev that it touches. */
    method Merge(prev: int, p: int, ghost i: nat)
      requires Loose() && Touching(pool.tiles, i) && prev == pool.tiles[i].addr && p == pool.tiles[i + 1].addr
      modifies this`mem, this`pool
      ensures Loose() && pool == old(pool).(tiles := Fuse(old(pool).tiles, i, i + 2))
      ensures mem == MergeMem(old(mem), head, old(pool).tiles, i)
      ensures PayloadKept(old(mem), mem, Lives(old(pool).tiles))
    {
      MergeBlocks(prev, p, pool.tiles, i);
      MergeDone(old(mem), mem, head, hi, pool, i);
      pool := pool.(tiles := Fuse(pool.tiles, i, i + 2));
    }

    /** One pass over the free list that joins every block to the one before it if they touch. */
    method CoalesceAll(h: int)
      requires h == head && Loose()
      modifies this`mem, this`pool
      ensures Loose() && Coalesced(pool.tiles)
      ensures Lives(pool.tiles) == Lives(old(pool).tiles) && pool.queue == old(pool).queue
      ensures PayloadKept(old(mem), mem, Lives(pool.tiles))
    {
      var prev := NULL;
      ghost var s := head + FREELIST;
      ghost var i, j: nat := 0, 0;
      FreeSpread(pool.tiles, head, hi);
      NextInRing(mem, s, FreeAddrs(pool.tiles), 0);
      AtHead(s, FreeAddrs(pool.tiles), 0);
      var p := Rd(mem, h + FREELIST);
      while p != h + FREELIST
        invariant Loose()
        invariant Cursor(s, pool.tiles, prev, p, i, j)
        invariant Lives(pool.tiles) == Lives(old(pool).tiles) && pool.queue == old(pool).queue
        invariant PayloadKept(old(mem), mem, Lives(pool.tiles))
        decreases |FreeAddrs(pool.tiles)| - j
      {
        i, j, prev, p := CoalesceStep(prev, p, i, j);
      }
      CursorDone(head, hi, pool.tiles, prev, p, i, j);
    }

    /** The body of the pass: the block at p is looked at. */
    method CoalesceStep(prev: int, p: int, ghost i: nat, ghost j: nat) returns (ghost i': nat, ghost j': nat, prev': int, p': int)
      requires Loose() && Cursor(head + FREELIST, pool.tiles, prev, p, i, j) && p != head + FREELIST
      modifies this`mem, this`pool
      ensures Loose() && Cursor(head + FREELIST, pool.tiles, prev', p', i', j')
      ensures Lives(pool.tiles) == Lives(old(pool).tiles) && pool.queue == old(pool).queue
      ensures PayloadKept(old(mem), mem, Lives(pool.tiles))
      ensures |FreeAddrs(pool.tiles)| - j' < |FreeAddrs(old(pool).tiles)| - j
    {
      ghost var ts, s, f := pool.tiles, head + FREELIST, FreeAddrs(pool.tiles);
      FreeSpread(ts, head, hi);
      AtHead(s, f, j);
      NextInRing(mem, s, f, j + 1);
      AtHead(s, f, j + 1);
      ghost var u := FreeTileAt(ts, j);
      CursorNext(head, hi, ts, prev, p, i, j, u);
      if prev == NULL {
        i', j', prev', p' := u, j + 1, p, Rd(mem, p);
        return;
      }
      assert FreeHeader(mem, ts[i]);
      if prev + Rd(mem, prev + FLEN) == p {
        p' := MergeAndGoOn(prev, p, i, j);
        i', j', prev' := i, j, prev;
      } else {
        i', j', prev', p' := u, j + 1, p, Rd(mem, p);
      }
    }

    /** The case of the pass in which the block at p touches the one at prev. */
    method MergeAndGoOn(prev: int, p: int, ghost i: nat, ghost j: nat) returns (p': int)
      requires Loose() && Cursor(head + FREELIST, pool.tiles, prev, p, i, j) && prev != NULL
      requires Touching(pool.tiles, i) && p == pool.tiles[i + 1].addr
      modifies this`mem, this`pool
      ensures Loose() && Cursor(head + FREELIST, pool.tiles, prev, p', i, j)
      ensures Lives(pool.tiles) == Lives(old(pool).tiles) && pool.queue == old(pool).queue
      ensures PayloadKept(old(mem), mem, Lives(pool.tiles))
      ensures |FreeAddrs(pool.tiles)| < |FreeAddrs(old(pool).tiles)|
    {
      ghost var ts := pool.tiles;
      Merge(prev, p, i);
      p' := Rd(mem, p);
      MergedCursor(old(mem), mem, head, hi, ts, pool.tiles, prev, p, p', i, j);
    }
 
    /** The block loses its place in the queue and its length moves to where a free block has it. */
    method Detach(entry: int, ghost k: nat) returns (ghost m1: Mem)
      requires Valid() && LiveAt(pool.tiles, k) && entry == pool.tiles[k].addr
      modifies this`mem
      ensures FreePart(m1, head, pool.tiles) && LivePart(m1, head, pool.tiles)
      ensures Linked(m1, head, Without(pool.queue, entry)) && PayloadKept(old(mem), m1, Lives(pool.tiles))
      ensures mem == Wr(m1, entry + FLEN, pool.tiles[k].len)
    {
      UnlinkQueued(mem, head, hi, pool, k);
      ListDelEntry(entry);
      m1 := mem;
      assert LiveHeader(mem, head, pool.tiles[k]);
      mem := Wr(mem, entry + FLEN, Rd(mem, entry + ELEN));
    }

    /** Frees the block with payload address lbuf; NULL is ignored. */
    method Free(lbuf: int)
      requires Valid()
      requires lbuf != NULL ==> LiveAt(pool.tiles, Index(pool.tiles, lbuf - HENTRY))
      modifies this`mem, this`pool
      ensures Valid()
      ensures lbuf == NULL ==> mem == old(mem) && pool == old(pool)
      ensures lbuf != NULL ==> pool == FreeBlock(old(pool), Index(old(pool).tiles, lbuf - HENTRY))
      ensures PayloadKept(old(mem), mem, Lives(pool.tiles))
    {
      if lbuf == NULL {
        return;
      }
      var entry := lbuf - HENTRY;
      FreeEntry(entry, Index(pool.tiles, entry));
    }

    /** The pool is the one that the header of the block names. */
    method FreeEntry(entry: int, ghost k: nat)
      requires Valid() && LiveAt(pool.tiles, k) && entry == pool.tiles[k].addr
      modifies this`mem, this`pool
      ensures Valid() && pool == FreeBlock(old(pool), k)
      ensures PayloadKept(old(mem), mem, Lives(pool.tiles))
    {
      ghost var p := pool;
      assert LiveHeader(mem, head, p.tiles[k]);
      var h := Rd(mem, entry + OWNER);
      ghost var m1 := Detach(entry, k);
      InsideKeepsFree(m1, mem, head, hi, p.tiles, k);
      LinkFree(h, entry, p.tiles, k);
      FreeMarked(old(mem), m1, mem, head, hi, p, k);
      pool := Pool(Marked(p.tiles, k), Without(p.queue, entry));
      label L:
      CoalesceAll(h);
      FreeDone(p, head + HPOOL, hi, k, pool);
      PayloadTrans(old(mem), old@L(mem), mem, Lives(pool.tiles));
    }

    // ---- lbuf_realloc ----

    /** Writes the header of the tail at x and the new length of the block at entry. */
    method CutOff(entry: int, size: int, len: int)
      modifies this`mem
      ensures mem == CutMem(old(mem), Rd(old(mem), entry + OWNER), entry, size + HENTRY, len)
    {
      var x := entry + HENTRY + size;
      mem := Wr(mem, x + OWNER, Rd(mem, entry + OWNER));
      mem := Wr(mem, x + ELEN, len - HENTRY - size);
      mem := Wr(mem, x + REF, 0);
      InitListHead(x);
      mem := Wr(mem, entry + ELEN, HENTRY + size);
    }

    /** Shrinks the block with payload address lbuf in place. */
    method Realloc(lbuf: int, size: int) returns (ret: int)
      requires Valid() && LiveAt(pool.tiles, Index(pool.tiles, lbuf - HENTRY))
      requires 0 <= size && RoundUp(size) < pool.tiles[Index(pool.tiles, lbuf - HENTRY)].len
      modifies this`mem, this`pool
      ensures Valid()
      ensures var k := Index(old(pool).tiles, lbuf - HENTRY);
        pool == PoolSpec.Realloc(old(pool), k, size) && (ret == NULL <==> (size + 3) / 4 * 4 > old(pool).tiles[k].len - HENTRY)
      ensures ret == NULL ==> mem == old(mem)
      ensures ret != NULL ==> ret == lbuf
      ensures PayloadKept(old(mem), mem, Lives(pool.tiles))
    {
      var entry := lbuf - HENTRY;
      PoolAboveZero(pool.tiles, head, hi, Index(pool.tiles, entry));
      PoolRuns.ReallocAnswer(pool, Index(pool.tiles, entry), size);
      ret := ReallocEntry(entry, size, Index(pool.tiles, entry));
    }

    method ReallocEntry(entry: int, size: int, ghost k: nat) returns (ret: int)
      requires Valid() && LiveAt(pool.tiles, k) && entry == pool.tiles[k].addr
      requires 0 <= size && RoundUp(size) < pool.tiles[k].len
      modifies this`mem, this`pool
      ensures Valid()
      ensures pool == PoolSpec.Realloc(old(pool), k, size) && ret == ReallocResult(old(pool), k, size)
      ensures ret == NULL ==> mem == old(mem)
      ensures PayloadKept(old(mem), mem, Lives(pool.tiles))
    {
      assert LiveHeader(mem, head, pool.tiles[k]);
      PoolAboveZero(pool.tiles, head, hi, k);
      var n := size;
      if n % 4 != 0 {
        n := n + (4 - n % 4);
      }
      var len := Rd(mem, entry + ELEN);
      if n > len - HENTRY {
        return NULL;
      }
      if n + HENTRY + HENTRY < len {
        CutAndFree(entry, n, len, k, size);
      }
      return entry + HENTRY;
    }

    method CutAndFree(entry: int, n: int, len: int, ghost k: nat, ghost size: int)
      requires Valid() && LiveAt(pool.tiles, k) && entry == pool.tiles[k].addr && len == pool.tiles[k].len
      requires 0 <= size && n == RoundUp(size) && Shrinks(pool.tiles[k], size)
      modifies this`mem, this`pool
      ensures Valid() && pool == PoolSpec.Realloc(old(pool), k, size)
      ensures PayloadKept(old(mem), mem, Lives(pool.tiles))
    {
      ghost var p := pool;
      ghost var st := CutBlock(entry, n, len, k, size);
      label L:
      FreeShrinksLives(pool, head + HPOOL, hi, k + 1);
      FreeEntry(entry + HENTRY + n, k + 1);
      CutFreed(p, head + HPOOL, hi, k, n + HENTRY, st, pool);
      PayloadTrans(old(mem), old@L(mem), mem, Lives(pool.tiles));
    }

    /** The tail of the block becomes a live block of its own. */
    method CutBlock(entry: int, n: int, len: int, ghost k: nat, ghost size: int) returns (ghost st: int)
      requires Valid() && LiveAt(pool.tiles, k) && entry == pool.tiles[k].addr && len == pool.tiles[k].len
      requires 0 <= size && n == RoundUp(size) && Shrinks(pool.tiles[k], size)
      modifies this`mem, this`pool
      ensures Valid() && CutOk(old(pool), k, n + HENTRY) && pool == CutPool(old(pool), k, n + HENTRY, st)
      ensures k + 1 < |pool.tiles| && pool.tiles[k + 1].Live? && pool.tiles[k + 1].addr == entry + n + HENTRY
      ensures PayloadKept(old(mem), mem, Lives(pool.tiles))
    {
      st := Rd(mem, entry + n + HENTRY + STATE);
      assert LiveHeader(mem, head, pool.tiles[k]);
      RoundUpFacts(size);
      CutOff(entry, n, len);
      CutValid(old(mem), mem, head, hi, pool, k, n + HENTRY, CutPool(pool, k, n + HENTRY, st));
      pool := CutPool(pool, k, n + HENTRY, st);
    }

    // ---- the client ----

    /** A client writes into a block it owns: the pool is what it was, and so is every other live block. */
    method WritePayload(lbuf: int, offset: nat, v: int)
      requires Valid() && LiveAt(pool.tiles, Index(pool.tiles, lbuf - HENTRY))
      requires offset < pool.tiles[Index(pool.tiles, lbuf - HENTRY)].len - HENTRY
      modifies this`mem
      ensures Valid() && mem == Wr(old(mem), lbuf + offset, v)
      ensures forall t, y :: t in Lives(pool.tiles) && t.addr != lbuf - HENTRY && t.addr + HENTRY <= y < t.Finish() ==> Rd(mem, y) == Rd(old(mem), y)
    {
      mem := Wr(mem, lbuf + offset, v);
      WrittenPayload(old(mem), mem, head, hi, pool, Index(pool.tiles, lbuf - HENTRY), lbuf, offset, v);
    }

    // ---- the queue ----

    /** Appends the block to the queue unless it is already there, and marks it as not delivered. */
    method Push(lbuf: int)
      requires Valid() && LiveAt(pool.tiles, Index(pool.tiles, lbuf - HENTRY))
      requires pool.tiles[Index(pool.tiles, lbuf - HENTRY)].refs < MAXREFS
      modifies this`mem, this`pool
      ensures Valid()
      ensures pool == PoolSpec.Push(old(pool), Index(old(pool).tiles, lbuf - HENTRY))
      ensures PayloadKept(old(mem), mem, Lives(old(pool).tiles))
    {
      var p := lbuf - HENTRY;
      ghost var k := Index(pool.tiles, p);
      PushCells(p);
      PushDone(old(mem), mem, head, hi, pool, k);
      pool := PoolSpec.Push(pool, k);
    }

    /** The statements of lbuf_push. */
    method PushCells(p: int)
      modifies this`mem
      ensures var r, h := Rd(old(mem), p + REF), Rd(old(mem), p + OWNER);
        var m1 := Wr(Wr(old(mem), p + STATE, 0), p + REF, r + 1);
        mem == if r == 0 then Added(m1, p, Rd(m1, h + PREV), h) else m1
    {
      mem := Wr(mem, p + STATE, 0);
      var ref := Rd(mem, p + REF);
      mem := Wr(mem, p + REF, ref + 1);
      if ref == 0 {
        ListAddTail(p, Rd(mem, p + OWNER));
      }
    }

    /** Walks the queue to the first block not yet delivered, or back to the head. */
    method FindWaiting() returns (p: int, ghost i: nat)
      requires Valid()
      ensures i == FirstWaiting(pool.tiles, pool.queue)
      ensures if p == head then i == |pool.queue| else i < |pool.queue| && p == pool.queue[i]
    {
      ghost var q := pool.queue;
      QueueSpread(pool, head, hi);
      i := 0;
      NextInRing(mem, head, q, 0);
      AtHead(head, q, 0);
      p := Rd(mem, head);
      while p != head
        invariant i <= |q| && p == Ring(head, q)[i + 1] && (p == head <==> i == |q|)
        invariant forall j :: 0 <= j < i ==> !Waiting(pool.tiles, q[j])
        decreases |q| - i
      {
        AtHead(head, q, i);
        StateRead(mem, head, hi, pool, i);
        if Rd(mem, p + STATE) == 0 {
          return;
        }
        NextInRing(mem, head, q, i + 1);
        AtHead(head, q, i + 1);
        p := Rd(mem, p);
        i := i + 1;
      }
    }

    /** Whether pop would deliver something. */
    method MoreData() returns (more: bool)
      requires Valid()
      ensures more <==> exists a :: PoolQueue.Pending(pool.tiles, a)
    {
      PoolQueue.PopSome(pool, head + HPOOL, hi);
      var p;
      ghost var i;
      p, i := FindWaiting();
      if i < |pool.queue| {
        QueueAboveHead(pool, head, hi, i);
      }
      return p != head;
    }

    /** Delivers the first block of the queue that has not been delivered since it was last pushed. */
    method Pop() returns (ret: int)
      requires Valid()
      modifies this`mem, this`pool
      ensures Valid()
      ensures pool == PoolSpec.Pop(old(pool)) && ret == PopResult(old(pool))
      ensures ret == NULL <==> forall a :: !PoolQueue.Pending(old(pool).tiles, a)
      ensures ret != NULL ==> PoolQueue.Pending(old(pool).tiles, ret - HENTRY) && !PoolQueue.Pending(pool.tiles, ret - HENTRY)
      ensures PayloadKept(old(mem), mem, Lives(old(pool).tiles))
    {
      PoolQueue.PopSays(pool, head + HPOOL, hi, PopResult(pool), PoolSpec.Pop(pool));
      var p;
      ghost var i;
      p, i := FindWaiting();
      if p == head {
        return NULL;
      }
      PopInv(pool, head + HPOOL, hi);
      PopRep(mem, Wr(mem, p + STATE, 1), head, hi, pool, Index(pool.tiles, p));
      mem := Wr(mem, p + STATE, 1);
      pool := PoolSpec.Pop(pool);
      return p + HENTRY;
    }

    method IsEmpty() returns (empty: bool)
      requires Valid()
      ensures empty <==> pool.queue == []
    {
      QueueSpread(pool, head, hi);
      NextInRing(mem, head, pool.queue, 0);
      AtHead(head, pool.queue, 0);
      return Rd(mem, head) == head;
    }

    /** Frees every block of the queue. */
    method Clear()
      requires Valid()
      modifies this`mem, this`pool
      ensures Valid() && pool == PoolRuns.Clear(old(pool))
      ensures PayloadKept(old(mem), mem, Lives(pool.tiles))
    {
      ghost var p0 := pool;
      ClearCursor(mem, head, hi, pool);
      var p := Rd(mem, head);
      var n := Rd(mem, p);
      while p != head
        invariant Valid()
        invariant PoolRuns.Clear(pool) == PoolRuns.Clear(p0)
        invariant p == Ring(head, pool.queue)[1] && (p == head <==> pool.queue == [])
        invariant pool.queue != [] ==> n == Ring(head, pool.queue)[2]
        invariant PayloadKept(old(mem), mem, Lives(pool.tiles))
        decreases |pool.queue|
      {
        ghost var k := ClearFirst(pool, head + HPOOL, hi, p);
        p, n := ClearStep(p, n, k);
      }
    }

    /** Frees the block at p, whose successor n was read before. */
    method ClearStep(p: int, n: int, ghost k: nat) returns (p': int, n': int)
      requires Valid() && pool.queue != [] && p == pool.queue[0] && n == Ring(head, pool.queue)[2]
      requires LiveAt(pool.tiles, k) && pool.tiles[k].addr == p && FreeBlock(pool, k).queue == pool.queue[1..]
      modifies this`mem, this`pool
      ensures Valid() && pool == FreeBlock(old(pool), k)
      ensures p' == Ring(head, pool.queue)[1] && (p' == head <==> pool.queue == [])
      ensures pool.queue != [] ==> n' == Ring(head, pool.queue)[2]
      ensures PayloadKept(old(mem), mem, Lives(pool.tiles))
    {
      FreeEntry(p, k);
      p' := n;
      n' := Rd(mem, n);
      ClearCursor(mem, head, hi, pool);
    }
  }
}
