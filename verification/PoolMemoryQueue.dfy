/** What push, pop and the cutting half of realloc do to memory. */
module PoolMemoryQueue {
  import opened Tiling
  import opened PoolSpec
  import opened Memory
  import opened PoolMemory
  import opened PoolMemoryFree

  // ---- writes inside one live block ----

  /** Every block but block k reads the same, and so does the pool head. */
  ghost predicate OthersKept(m: Mem, m': Mem, head: int, ts: seq<Tile>, k: nat) {
    && (forall y :: head <= y < head + HPOOL ==> Rd(m', y) == Rd(m, y))
    && forall i, y :: 0 <= i < |ts| && i != k && ts[i].addr <= y < ts[i].Finish() ==> Rd(m', y) == Rd(m, y)
  }

  lemma {:induction false} InsideKeepsOthers(m: Mem, m': Mem, head: int, hi: int, ts: seq<Tile>, k: nat)
    requires Placed(ts, head, hi) && k < |ts| && SameOutside(m, m', ts[k].addr, ts[k].Finish())
    ensures OthersKept(m, m', head, ts, k)
  {
    TiledApart(ts, head + HPOOL, hi);
    forall i, y | 0 <= i < |ts| && i != k && ts[i].addr <= y < ts[i].Finish() ensures Rd(m', y) == Rd(m, y) {
      if k < i { assert ts[k].Finish() <= ts[i].addr; } else { assert ts[i].Finish() <= ts[k].addr; }
    }
  }

  /** The free part does not notice writes inside a live block. */
  lemma {:induction false} InsideKeepsFree(m: Mem, m': Mem, head: int, hi: int, ts: seq<Tile>, k: nat)
    requires Placed(ts, head, hi) && LiveAt(ts, k) && SameOutside(m, m', ts[k].addr, ts[k].Finish())
    requires FreePart(m, head, ts)
    ensures FreePart(m', head, ts)
  {
    LiveClear(ts, head, hi, k);
    LinkedOutside(m, m', head + FREELIST, FreeAddrs(ts), ts[k].addr, ts[k].Finish());
    RangeKeepsLens(m, m', head, hi, ts, k);
  }

  /** The queue does not notice writes behind the links of a live block. */
  lemma {:induction false} InsideKeepsQueue(m: Mem, m': Mem, head: int, hi: int, p: Pool, k: nat)
    requires Placed(p.tiles, head, hi) && QueueOk(p) && LiveAt(p.tiles, k)
    requires SameOutside(m, m', p.tiles[k].addr + LINKS, p.tiles[k].Finish())
    requires Linked(m, head, p.queue)
    ensures Linked(m', head, p.queue)
  {
    var ts := p.tiles;
    TiledApart(ts, head + HPOOL, hi);
    forall i | 0 <= i < |p.queue| ensures p.queue[i] + LINKS <= ts[k].addr + LINKS || ts[k].Finish() <= p.queue[i] {
      var u := QueuedTile(p, i);
      if u < k { assert ts[u].Finish() <= ts[k].addr; }
      if k < u { assert ts[k].Finish() <= ts[u].addr; }
    }
    LinkedOutside(m, m', head, p.queue, ts[k].addr + LINKS, ts[k].Finish());
  }

  /** Writes inside a live block behind its links. */
  lemma {:induction false} InsideKeeps(m: Mem, m': Mem, head: int, hi: int, p: Pool, k: nat)
    requires Placed(p.tiles, head, hi) && QueueOk(p) && Rep(m, head, p) && LiveAt(p.tiles, k)
    requires SameOutside(m, m', p.tiles[k].addr + LINKS, p.tiles[k].Finish())
    ensures OthersKept(m, m', head, p.tiles, k) && FreePart(m', head, p.tiles) && Linked(m', head, p.queue)
  {
    InsideKeepsOthers(m, m', head, hi, p.tiles, k);
    InsideKeepsFree(m, m', head, hi, p.tiles, k);
    InsideKeepsQueue(m, m', head, hi, p, k);
  }

  /** Headers of the other live blocks, and the header of block k, make up the new live part. */
  lemma {:induction false} LivePartReplace(m: Mem, m': Mem, head: int, ts: seq<Tile>, k: nat, t: Tile)
    requires LiveAt(ts, k) && Sized(ts) && LivePart(m, head, ts) && OthersKept(m, m', head, ts, k)
    requires t.Live? && LiveHeader(m', head, t)
    ensures LivePart(m', head, ts[k := t])
  {
    var us := ts[k := t];
    forall i | 0 <= i < |us| && us[i].Live? ensures LiveHeader(m', head, us[i]) {
      if i != k { assert LiveHeader(m, head, ts[i]); }
    }
  }

  /** Payloads survive writes to the header of block k. */
  lemma {:induction false} HeaderWritePayload(m: Mem, m': Mem, head: int, ts: seq<Tile>, k: nat)
    requires LiveAt(ts, k) && OthersKept(m, m', head, ts, k)
    requires forall y :: ts[k].addr + HENTRY <= y < ts[k].Finish() ==> Rd(m', y) == Rd(m, y)
    ensures PayloadKept(m, m', Lives(ts))
  {
    forall t, y | t in Lives(ts) && t.addr + HENTRY <= y < t.Finish() ensures Rd(m', y) == Rd(m, y) {
      InLives(ts, t);
      var i :| 0 <= i < |ts| && ts[i] == t;
    }
  }

  /** A client's writes behind the header of its own live block. */
  lemma {:induction false} PayloadWriteRep(m: Mem, m': Mem, head: int, hi: int, p: Pool, k: nat)
    requires Placed(p.tiles, head, hi) && QueueOk(p) && Rep(m, head, p) && LiveAt(p.tiles, k)
    requires SameOutside(m, m', p.tiles[k].addr + HENTRY, p.tiles[k].Finish())
    ensures Rep(m', head, p)
    ensures forall t, y :: t in Lives(p.tiles) && t != p.tiles[k] && t.addr + HENTRY <= y < t.Finish() ==> Rd(m', y) == Rd(m, y)
  {
    var ts := p.tiles;
    assert LiveHeader(m, head, ts[k]);
    InsideKeeps(m, m', head, hi, p, k);
    LivePartReplace(m, m', head, ts, k, ts[k]);
    assert ts[k := ts[k]] == ts;
    forall t, y | t in Lives(ts) && t != ts[k] && t.addr + HENTRY <= y < t.Finish() ensures Rd(m', y) == Rd(m, y) {
      InLives(ts, t);
      var i :| 0 <= i < |ts| && ts[i] == t;
    }
  }

  /** Rewriting state and reference count of block k, when that does not change its place in the queue. */
  lemma {:induction false} FlagsRep(m: Mem, m': Mem, head: int, hi: int, p: Pool, k: nat, t: Tile)
    requires Placed(p.tiles, head, hi) && QueueOk(p) && Rep(m, head, p) && LiveAt(p.tiles, k)
    requires t.Live? && t == p.tiles[k].(state := t.state, refs := t.refs) && (t.refs == 0 ==> p.tiles[k].refs == 0)
    requires m' == Wr(Wr(m, t.addr + STATE, t.state), t.addr + REF, t.refs)
    ensures FreePart(m', head, p.tiles) && LivePart(m', head, p.tiles[k := t]) && Linked(m', head, p.queue)
    ensures PayloadKept(m, m', Lives(p.tiles))
  {
    var ts := p.tiles;
    assert LiveHeader(m, head, ts[k]);
    assert LiveHeader(m', head, t);
    InsideKeeps(m, m', head, hi, p, k);
    LivePartReplace(m, m', head, ts, k, t);
    HeaderWritePayload(m, m', head, ts, k);
  }

  /** The free list and the blocks do not see states and reference counts. */
  lemma {:induction false} FlagsFreeAddrs(ts: seq<Tile>, k: nat, t: Tile)
    requires LiveAt(ts, k) && t.Live?
    ensures FreeAddrs(ts[k := t]) == FreeAddrs(ts)
  {
    var us := ts[k := t];
    FreeAddrsAround(ts, k);
    FreeAddrsAround(us, k);
    assert us[..k] == ts[..k] && us[k + 1..] == ts[k + 1..];
  }

  // ---- appending to the queue ----

  /** Everything but links of queued blocks, the queue head and the links of block k. */
  ghost predicate ButLinksKept(m: Mem, m': Mem, head: int, ts: seq<Tile>, k: nat) {
    && Rd(m', head + FREELIST) == Rd(m, head + FREELIST)
    && Rd(m', head + FREELIST + PREV) == Rd(m, head + FREELIST + PREV)
    && forall i, y :: 0 <= i < |ts| && (if i == k then ts[i].addr + LINKS else KeptFrom(ts[i])) <= y < ts[i].Finish()
         ==> Rd(m', y) == Rd(m, y)
  }

  lemma {:induction false} OwnLinksKept(m: Mem, m': Mem, head: int, hi: int, ts: seq<Tile>, k: nat)
    requires Placed(ts, head, hi) && LiveAt(ts, k) && SameOutside(m, m', ts[k].addr, ts[k].addr + LINKS)
    ensures ButLinksKept(m, m', head, ts, k)
  {
    TiledApart(ts, head + HPOOL, hi);
    forall i, y | 0 <= i < |ts| && (if i == k then ts[i].addr + LINKS else KeptFrom(ts[i])) <= y < ts[i].Finish()
      ensures Rd(m', y) == Rd(m, y)
    {
      if k < i { assert ts[k].Finish() <= ts[i].addr; }
      if i < k { assert ts[i].Finish() <= ts[k].addr; }
    }
  }

  lemma ButQueueIsButLinks(m: Mem, m': Mem, head: int, ts: seq<Tile>, k: nat)
    requires ButQueueKept(m, m', head, ts)
    ensures ButLinksKept(m, m', head, ts, k)
  {
  }

  lemma ButLinksTrans(m0: Mem, m1: Mem, m2: Mem, m3: Mem, head: int, ts: seq<Tile>, k: nat)
    requires ButLinksKept(m0, m1, head, ts, k) && ButLinksKept(m1, m2, head, ts, k) && ButLinksKept(m2, m3, head, ts, k)
    ensures ButLinksKept(m0, m3, head, ts, k)
  {
  }

  lemma {:induction false} AppendKeeps(m: Mem, m': Mem, head: int, hi: int, p: Pool, k: nat)
    requires Placed(p.tiles, head, hi) && QueueOk(p) && LiveAt(p.tiles, k)
    requires m' == Added(m, p.tiles[k].addr, Ring(head, p.queue)[|p.queue|], Ring(head, p.queue)[|p.queue| + 1])
    ensures ButLinksKept(m, m', head, p.tiles, k)
  {
    var a, n := p.tiles[k].addr, |p.queue|;
    var prev, next := Ring(head, p.queue)[n], Ring(head, p.queue)[n + 1];
    var m1 := Wr(m, next + PREV, a);
    var m2 := Wr(Wr(m1, a, next), a + PREV, prev);
    QueueLinkKeeps(m, head, hi, p, n + 1, PREV, a);
    QueueLinkKeeps(m2, head, hi, p, n, 0, a);
    WrittenInside(m1, a, next, a + PREV, prev, a, a + LINKS);
    AppendSteps(m, m1, m2, m', head, hi, p.tiles, k);
  }

  /** Links of others, then the block's own, then links of others. */
  lemma AppendSteps(m: Mem, m1: Mem, m2: Mem, m': Mem, head: int, hi: int, ts: seq<Tile>, k: nat)
    requires Placed(ts, head, hi) && LiveAt(ts, k) && ButQueueKept(m, m1, head, ts) && ButQueueKept(m2, m', head, ts)
    requires SameOutside(m1, m2, ts[k].addr, ts[k].addr + LINKS)
    ensures ButLinksKept(m, m', head, ts, k)
  {
    ButQueueIsButLinks(m, m1, head, ts, k);
    OwnLinksKept(m1, m2, head, hi, ts, k);
    ButQueueIsButLinks(m2, m', head, ts, k);
    ButLinksTrans(m, m1, m2, m', head, ts, k);
  }

  lemma {:induction false} AppendLinked(m: Mem, m': Mem, head: int, hi: int, p: Pool, k: nat)
    requires Placed(p.tiles, head, hi) && QueueOk(p) && LiveAt(p.tiles, k) && p.tiles[k].refs == 0
    requires Linked(m, head, p.queue)
    requires m' == Added(m, p.tiles[k].addr, Ring(head, p.queue)[|p.queue|], Ring(head, p.queue)[|p.queue| + 1])
    ensures Linked(m', head, p.queue + [p.tiles[k].addr])
  {
    var ts, q := p.tiles, p.queue;
    QueueSpread(p, head, hi);
    TiledApart(ts, head + HPOOL, hi);
    forall i | 0 <= i < |q| ensures Distant(ts[k].addr, q[i]) {
      var u := QueuedTile(p, i);
      if u < k { assert ts[u].Finish() <= ts[k].addr; } else { assert ts[k].Finish() <= ts[u].addr; }
    }
    AddLinked(m, head, q, |q|, ts[k].addr);
    assert q[..|q|] + [ts[k].addr] + q[|q|..] == q + [ts[k].addr];
  }

  /** Free part, live part and payloads after the append; block k has references by then. */
  lemma {:induction false} ButLinksParts(m: Mem, m': Mem, head: int, ts: seq<Tile>, k: nat, t: Tile)
    requires Sized(ts) && LiveAt(ts, k) && FreePart(m, head, ts) && ButLinksKept(m, m', head, ts, k)
    requires t.Live? && t == ts[k].(state := t.state, refs := t.refs) && t.refs > 0 && LivePart(m, head, ts[k := t])
    ensures FreePart(m', head, ts) && LivePart(m', head, ts[k := t]) && PayloadKept(m, m', Lives(ts))
  {
    ButLinksFree(m, m', head, ts, k);
    var us := ts[k := t];
    forall i | 0 <= i < |us| && us[i].Live? ensures LiveHeader(m', head, us[i]) {
      assert LiveHeader(m, head, us[i]);
    }
    forall u, y | u in Lives(ts) && u.addr + HENTRY <= y < u.Finish() ensures Rd(m', y) == Rd(m, y) {
      InLives(ts, u);
      var i :| 0 <= i < |ts| && ts[i] == u;
    }
  }

  lemma {:induction false} ButLinksFree(m: Mem, m': Mem, head: int, ts: seq<Tile>, k: nat)
    requires Sized(ts) && LiveAt(ts, k) && FreePart(m, head, ts) && ButLinksKept(m, m', head, ts, k)
    ensures FreePart(m', head, ts)
  {
    var f := FreeAddrs(ts);
    forall i | 0 <= i < |f| ensures Rd(m', f[i]) == Rd(m, f[i]) && Rd(m', f[i] + PREV) == Rd(m, f[i] + PREV) {
      var u := FreeTileAt(ts, i);
      assert KeptFrom(ts[u]) <= f[i] < ts[u].Finish() && KeptFrom(ts[u]) <= f[i] + PREV < ts[u].Finish();
    }
    LinkedFrame(m, m', head + FREELIST, f);
  }

  /** Memory after push. */
  function PushMem(m: Mem, head: int, p: Pool, k: nat): Mem
    requires LiveAt(p.tiles, k)
  {
    var t := p.tiles[k];
    var m1 := Wr(Wr(m, t.addr + STATE, 0), t.addr + REF, t.refs + 1);
    if t.refs == 0 then Added(m1, t.addr, Ring(head, p.queue)[|p.queue|], Ring(head, p.queue)[|p.queue| + 1]) else m1
  }

  lemma {:induction false} PushRep(m: Mem, m': Mem, head: int, hi: int, p: Pool, k: nat)
    requires Placed(p.tiles, head, hi) && QueueOk(p) && Rep(m, head, p) && LiveAt(p.tiles, k)
    requires m' == PushMem(m, head, p, k)
    ensures Rep(m', head, Push(p, k)) && PayloadKept(m, m', Lives(p.tiles))
  {
    var ts := p.tiles;
    var t := ts[k].(state := 0, refs := ts[k].refs + 1);
    var m1 := Wr(Wr(m, t.addr + STATE, 0), t.addr + REF, t.refs);
    FlagsRep(m, m1, head, hi, p, k, t);
    PushParts(m, m1, m', head, hi, p, k, t);
  }

  /** The block's flags are written, and the link follows if it is the first push. */
  lemma {:induction false} PushParts(m: Mem, m1: Mem, m': Mem, head: int, hi: int, p: Pool, k: nat, t: Tile)
    requires Placed(p.tiles, head, hi) && QueueOk(p) && LiveAt(p.tiles, k) && t == p.tiles[k].(state := 0, refs := p.tiles[k].refs + 1)
    requires FreePart(m1, head, p.tiles) && LivePart(m1, head, p.tiles[k := t]) && Linked(m1, head, p.queue) && PayloadKept(m, m1, Lives(p.tiles))
    requires m' == if p.tiles[k].refs == 0 then Added(m1, t.addr, Ring(head, p.queue)[|p.queue|], Ring(head, p.queue)[|p.queue| + 1]) else m1
    ensures Rep(m', head, Push(p, k)) && PayloadKept(m, m', Lives(p.tiles))
  {
    if p.tiles[k].refs == 0 {
      FirstPush(m1, m', head, hi, p, k, t);
      PayloadTrans(m, m1, m', Lives(p.tiles));
    }
    FlagsFreeHeaders(m', head, p.tiles, k, t);
  }

  lemma {:induction false} FirstPush(m: Mem, m': Mem, head: int, hi: int, p: Pool, k: nat, t: Tile)
    requires Placed(p.tiles, head, hi) && QueueOk(p) && LiveAt(p.tiles, k) && p.tiles[k].refs == 0
    requires FreePart(m, head, p.tiles) && LivePart(m, head, p.tiles[k := t]) && Linked(m, head, p.queue)
    requires t.Live? && t == p.tiles[k].(state := t.state, refs := t.refs) && t.refs > 0
    requires m' == Added(m, t.addr, Ring(head, p.queue)[|p.queue|], Ring(head, p.queue)[|p.queue| + 1])
    ensures FreePart(m', head, p.tiles) && LivePart(m', head, p.tiles[k := t]) && PayloadKept(m, m', Lives(p.tiles))
    ensures Linked(m', head, p.queue + [t.addr])
  {
    AppendKeeps(m, m', head, hi, p, k);
    AppendLinked(m, m', head, hi, p, k);
    ButLinksParts(m, m', head, p.tiles, k, t);
  }

  lemma {:induction false} FlagsFreeHeaders(m: Mem, head: int, ts: seq<Tile>, k: nat, t: Tile)
    requires LiveAt(ts, k) && t.Live? && FreePart(m, head, ts)
    ensures FreePart(m, head, ts[k := t])
  {
    FlagsFreeAddrs(ts, k, t);
    var us := ts[k := t];
    forall i | 0 <= i < |us| && us[i].Free? ensures FreeHeader(m, us[i]) {
      assert FreeHeader(m, ts[i]);
    }
  }

  lemma {:induction false} PopRep(m: Mem, m': Mem, head: int, hi: int, p: Pool, k: nat)
    requires Placed(p.tiles, head, hi) && QueueOk(p) && Rep(m, head, p) && LiveAt(p.tiles, k)
    requires m' == Wr(m, p.tiles[k].addr + STATE, 1)
    ensures Rep(m', head, p.(tiles := p.tiles[k := p.tiles[k].(state := 1)])) && PayloadKept(m, m', Lives(p.tiles))
  {
    var t := p.tiles[k].(state := 1);
    var m1 := Wr(m', t.addr + REF, t.refs);
    assert LiveHeader(m, head, p.tiles[k]);
    FlagsRep(m, m1, head, hi, p, k, t);
    FlagsFreeHeaders(m1, head, p.tiles, k, t);
    SameReadsRep(m1, m', head, p.(tiles := p.tiles[k := t]));
  }

  lemma {:induction false} SameReadsRep(m: Mem, m': Mem, head: int, p: Pool)
    requires Rep(m, head, p) && forall y :: Rd(m', y) == Rd(m, y)
    ensures Rep(m', head, p)
  {
    LinkedFrame(m, m', head, p.queue);
    LinkedFrame(m, m', head + FREELIST, FreeAddrs(p.tiles));
    forall k | 0 <= k < |p.tiles| && p.tiles[k].Live? ensures LiveHeader(m', head, p.tiles[k]) {
      assert LiveHeader(m, head, p.tiles[k]);
    }
  }

  // ---- cutting a live block in two ----

  /** Memory after realloc has written the header of the tail and the new length of block k. */
  function CutMem(m: Mem, head: int, a: int, n: int, len: int): Mem {
    Wr(Selfed(Wr(Wr(Wr(m, a + n + OWNER, head), a + n + ELEN, len - n), a + n + REF, 0), a + n), a + ELEN, n)
  }

  /** m' has a cut at a + n, and is m elsewhere. */
  ghost predicate CutAt(m: Mem, m': Mem, head: int, a: int, n: int, len: int) {
    && Rd(m', a + ELEN) == n && Rd(m', a + n + OWNER) == head && Rd(m', a + n + ELEN) == len - n && Rd(m', a + n + REF) == 0
    && Rd(m', a + n) == a + n && Rd(m', a + n + PREV) == a + n
    && forall y :: y != a + ELEN && !(a + n <= y < a + n + STATE) && y != a + n + REF ==> Rd(m', y) == Rd(m, y)
  }

  lemma CutCells(m: Mem, m': Mem, head: int, a: int, n: int, len: int)
    requires HENTRY <= n && m' == CutMem(m, head, a, n, len)
    ensures CutAt(m, m', head, a, n, len)
  {
  }

  lemma {:induction false} CutReads(m: Mem, m': Mem, head: int, t: Tile, n: int)
    requires t.Live? && HENTRY <= n && n + HENTRY < t.len && LiveHeader(m, head, t) && CutAt(m, m', head, t.addr, n, t.len)
    ensures LiveHeader(m', head, t.(len := n))
    ensures LiveHeader(m', head, Live(t.addr + n, t.len - n, Rd(m, t.addr + n + STATE), 0))
    ensures SameOutside(m, m', t.addr + LINKS, t.Finish())
    ensures forall y :: t.addr + HENTRY <= y < t.addr + n || t.addr + n + HENTRY <= y ==> Rd(m', y) == Rd(m, y)
  {
  }

  lemma {:induction false} CutLives(p: Pool, k: nat, n: int, state: int)
    requires LiveAt(p.tiles, k)
    ensures Lives(CutPool(p, k, n, state).tiles) ==
      Lives(p.tiles[..k]) + [p.tiles[k].(len := n), Live(p.tiles[k].addr + n, p.tiles[k].len - n, state, 0)] + Lives(p.tiles[k + 1..])
    ensures FreeAddrs(CutPool(p, k, n, state).tiles) == FreeAddrs(p.tiles)
  {
    var ts, mid := p.tiles, Cut(p.tiles[k], n, state);
    SpliceLives(ts, k, 1, mid);
    assert mid == [mid[0]] + [mid[1]];
    LivesConcat([mid[0]], [mid[1]]);
    assert Lives([mid[0]]) == [mid[0]] && Lives([mid[1]]) == [mid[1]];
    FreeAddrsAround(ts, k);
    FreeAddrsConcat(ts[..k] + mid, ts[k + 1..]);
    FreeAddrsConcat(ts[..k], mid);
    FreeAddrsConcat([mid[0]], [mid[1]]);
    assert FreeAddrs([mid[0]]) == [] && FreeAddrs([mid[1]]) == [];
  }

  lemma {:induction false} CutRep(m: Mem, m': Mem, head: int, hi: int, p: Pool, k: nat, n: int, c: Pool)
    requires Placed(p.tiles, head, hi) && QueueOk(p) && Rep(m, head, p)
    requires LiveAt(p.tiles, k) && HENTRY <= n && n + HENTRY < p.tiles[k].len
    requires m' == CutMem(m, head, p.tiles[k].addr, n, p.tiles[k].len)
    requires c == CutPool(p, k, n, Rd(m, p.tiles[k].addr + n + STATE))
    ensures Rep(m', head, c) && PayloadKept(m, m', Lives(c.tiles))
  {
    CutCells(m, m', head, p.tiles[k].addr, n, p.tiles[k].len);
    CutAtRep(m, m', head, hi, p, k, n, p.tiles[k], Rd(m, p.tiles[k].addr + n + STATE), c);
  }

  lemma {:induction false} CutAtRep(m: Mem, m': Mem, head: int, hi: int, p: Pool, k: nat, n: int, t: Tile, state: int, c: Pool)
    requires Placed(p.tiles, head, hi) && QueueOk(p) && Rep(m, head, p)
    requires LiveAt(p.tiles, k) && t == p.tiles[k] && HENTRY <= n && n + HENTRY < t.len && state == Rd(m, t.addr + n + STATE)
    requires CutAt(m, m', head, t.addr, n, t.len) && c == CutPool(p, k, n, state)
    ensures Rep(m', head, c) && PayloadKept(m, m', Lives(c.tiles))
  {
    assert LiveHeader(m, head, t);
    CutReads(m, m', head, t, n);
    CutWritesRep(m, m', head, hi, p, k, n, Cut(t, n, state), c);
  }

  /** Any such writes inside block k leave memory holding the cut pool. */
  lemma {:induction false} CutWritesRep(m: Mem, m': Mem, head: int, hi: int, p: Pool, k: nat, n: int, mid: seq<Tile>, c: Pool)
    requires Placed(p.tiles, head, hi) && QueueOk(p) && Rep(m, head, p)
    requires LiveAt(p.tiles, k) && HENTRY <= n && n + HENTRY < p.tiles[k].len
    requires |mid| == 2 && mid[0].Live? && mid[1].Live? && mid == Cut(p.tiles[k], n, mid[1].state)
    requires LiveHeader(m', head, mid[0]) && LiveHeader(m', head, mid[1])
    requires c == CutPool(p, k, n, mid[1].state)
    requires SameOutside(m, m', p.tiles[k].addr + LINKS, p.tiles[k].Finish())
    requires var a := p.tiles[k].addr; forall y :: a + HENTRY <= y < a + n || a + n + HENTRY <= y ==> Rd(m', y) == Rd(m, y)
    ensures Rep(m', head, c) && PayloadKept(m, m', Lives(c.tiles))
  {
    InsideKeeps(m, m', head, hi, p, k);
    CutParts(m, m', head, p, k, n, mid, c);
    CutPayload(m, m', head, p, k, n, mid[1].state);
  }

  lemma {:induction false} CutParts(m: Mem, m': Mem, head: int, p: Pool, k: nat, n: int, mid: seq<Tile>, c: Pool)
    requires LiveAt(p.tiles, k) && Sized(p.tiles) && LivePart(m, head, p.tiles) && OthersKept(m, m', head, p.tiles, k)
    requires FreePart(m', head, p.tiles) && Linked(m', head, p.queue)
    requires |mid| == 2 && mid[0].Live? && mid[1].Live? && mid == Cut(p.tiles[k], n, mid[1].state)
    requires LiveHeader(m', head, mid[0]) && LiveHeader(m', head, mid[1]) && c == CutPool(p, k, n, mid[1].state)
    ensures Rep(m', head, c)
  {
    CutLives(p, k, n, mid[1].state);
    CutHeaders(m, m', head, p.tiles, k, mid);
  }

  lemma {:induction false} CutHeaders(m: Mem, m': Mem, head: int, ts: seq<Tile>, k: nat, mid: seq<Tile>)
    requires LiveAt(ts, k) && Sized(ts) && LivePart(m, head, ts) && OthersKept(m, m', head, ts, k)
    requires forall i :: 0 <= i < |ts| && ts[i].Free? ==> FreeHeader(m', ts[i])
    requires forall i :: 0 <= i < |mid| ==> mid[i].Live? && LiveHeader(m', head, mid[i])
    ensures var us := Splice(ts, k, 1, mid);
      LivePart(m', head, us) && forall i :: 0 <= i < |us| && us[i].Free? ==> FreeHeader(m', us[i])
  {
    var us := Splice(ts, k, 1, mid);
    forall i | 0 <= i < |us| ensures if us[i].Free? then FreeHeader(m', us[i]) else LiveHeader(m', head, us[i]) {
      if k <= i < k + |mid| {
        assert us[i] == mid[i - k];
      } else {
        var j := if i < k then i else i - |mid| + 1;
        assert us[i] == ts[j];
        if ts[j].Live? { assert LiveHeader(m, head, ts[j]); }
      }
    }
  }

  lemma {:induction false} CutPayload(m: Mem, m': Mem, head: int, p: Pool, k: nat, n: int, state: int)
    requires LiveAt(p.tiles, k) && OthersKept(m, m', head, p.tiles, k)
    requires HENTRY <= n && n + HENTRY < p.tiles[k].len
    requires var a := p.tiles[k].addr; forall y :: a + HENTRY <= y < a + n || a + n + HENTRY <= y ==> Rd(m', y) == Rd(m, y)
    ensures PayloadKept(m, m', Lives(CutPool(p, k, n, state).tiles))
  {
    CutLives(p, k, n, state);
    var ts := p.tiles;
    forall t, y | t in Lives(CutPool(p, k, n, state).tiles) && t.addr + HENTRY <= y < t.Finish() ensures Rd(m', y) == Rd(m, y) {
      if t in Lives(ts[..k]) {
        InLives(ts[..k], t);
        var i :| 0 <= i < k && ts[..k][i] == t;
        assert ts[i] == t;
      } else if t in Lives(ts[k + 1..]) {
        InLives(ts[k + 1..], t);
        var i :| 0 <= i < |ts[k + 1..]| && ts[k + 1..][i] == t;
        assert ts[k + 1 + i] == t;
      }
    }
  }
}
