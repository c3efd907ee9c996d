/** Whole runs of an lbuf pool: what holds after any sequence of operations. */
module PoolRuns {
  import opened Tiling
  import opened PoolSpec
  import opened PoolInvariant

  // ---- clear ----

  /** Frees the blocks of the queue, first to last. */
  function Clear(p: Pool): Pool
    decreases |p.queue|
  {
    if p.queue == [] then p
    else
      var k := Index(p.tiles, p.queue[0]);
      if LiveAt(p.tiles, k) then Clear(FreeBlock(p, k)) else p
  }

  /** A queued address leads to its block. */
  lemma {:induction false} QueuedIndex(p: Pool, lo: int, hi: int, a: int)
    requires Inv(p, lo, hi) && a in p.queue
    ensures LiveAt(p.tiles, Index(p.tiles, a)) && p.tiles[Index(p.tiles, a)].addr == a && p.tiles[Index(p.tiles, a)].refs > 0
  {
    var k :| 0 <= k < |p.tiles| && p.tiles[k].Live? && p.tiles[k].addr == a && p.tiles[k].refs > 0;
    IndexOf(p.tiles, lo, hi, k);
  }

  lemma {:induction false} ClearInv(p: Pool, lo: int, hi: int)
    requires Inv(p, lo, hi)
    ensures Inv(Clear(p), lo, hi) && Clear(p).queue == []
    decreases |p.queue|
  {
    if p.queue != [] {
      var k := Index(p.tiles, p.queue[0]);
      QueuedIndex(p, lo, hi, p.queue[0]);
      FreeInv(p, lo, hi, k);
      ClearInv(FreeBlock(p, k), lo, hi);
    }
  }

  // ---- runs ----

  /** One call on the pool; blocks are named by their header address. */
  datatype Op =
    | AllocOp(len: int)
    | FreeOp(a: int)
    | ReallocOp(a: int, size: int)
    | PushOp(a: int)
    | PopOp
    | ClearOp

  /** What the callers must respect: live blocks only, no negative sizes, bounded references. */
  predicate Legal(p: Pool, op: Op) {
    match op
    case AllocOp(len) => 0 <= len
    case FreeOp(a) => LiveAt(p.tiles, Index(p.tiles, a))
    case ReallocOp(a, size) => LiveAt(p.tiles, Index(p.tiles, a)) && 0 <= size
    case PushOp(a) => LiveAt(p.tiles, Index(p.tiles, a)) && p.tiles[Index(p.tiles, a)].refs < MAXREFS
    case PopOp => true
    case ClearOp => true
  }

  function Step(p: Pool, op: Op): Pool
    requires Legal(p, op)
  {
    match op
    case AllocOp(len) => Alloc(p, len)
    case FreeOp(a) => FreeBlock(p, Index(p.tiles, a))
    case ReallocOp(a, size) => Realloc(p, Index(p.tiles, a), size)
    case PushOp(a) => Push(p, Index(p.tiles, a))
    case PopOp => Pop(p)
    case ClearOp => Clear(p)
  }

  predicate LegalRun(p: Pool, ops: seq<Op>)
    decreases |ops|
  {
    ops == [] || (Legal(p, ops[0]) && LegalRun(Step(p, ops[0]), ops[1..]))
  }

  function Run(p: Pool, ops: seq<Op>): Pool
    requires LegalRun(p, ops)
    decreases |ops|
  {
    if ops == [] then p else Run(Step(p, ops[0]), ops[1..])
  }

  lemma {:induction false} StepInv(p: Pool, lo: int, hi: int, op: Op)
    requires Inv(p, lo, hi) && Legal(p, op)
    ensures Inv(Step(p, op), lo, hi)
  {
    match op
    case AllocOp(len) => AllocInv(p, lo, hi, len);
    case FreeOp(a) => FreeInv(p, lo, hi, Index(p.tiles, a));
    case ReallocOp(a, size) => ReallocInv(p, lo, hi, Index(p.tiles, a), size, Step(p, op));
    case PushOp(a) => PushInv(p, lo, hi, Index(p.tiles, a));
    case PopOp => PopInv(p, lo, hi);
    case ClearOp => ClearInv(p, lo, hi);
  }

  lemma {:induction false} RunInv(p: Pool, lo: int, hi: int, ops: seq<Op>)
    requires Inv(p, lo, hi) && LegalRun(p, ops)
    ensures Inv(Run(p, ops), lo, hi)
    decreases |ops|
  {
    if ops != [] {
      StepInv(p, lo, hi, ops[0]);
      RunInv(Step(p, ops[0]), lo, hi, ops[1..]);
    }
  }

  lemma {:induction false} FreshInv(lo: int, hi: int)
    requires lo % 4 == 0 && lo + HFREE <= hi
    ensures Inv(Fresh(lo, hi), lo, hi)
  {
  }

  /** After any run the blocks tile the arena, and free and live bytes add up to it. */
  lemma {:induction false} RunTilesArena(lo: int, hi: int, ops: seq<Op>)
    requires lo % 4 == 0 && lo + HFREE <= hi && LegalRun(Fresh(lo, hi), ops)
    ensures var ts := Run(Fresh(lo, hi), ops).tiles;
      && Tiled(ts, lo, hi) && Apart(ts, lo, hi) && Coalesced(ts)
      && FreeBytes(ts) + LiveBytes(ts) == hi - lo
  {
    FreshInv(lo, hi);
    RunInv(Fresh(lo, hi), lo, hi, ops);
    TiledApart(Run(Fresh(lo, hi), ops).tiles, lo, hi);
    Conservation(Run(Fresh(lo, hi), ops).tiles, lo, hi);
  }

  // ---- giving everything back ----

  lemma {:induction false} LiveInLives(ts: seq<Tile>, k: nat)
    requires LiveAt(ts, k)
    ensures ts[k] in Lives(ts)
  {
    LivesAround(ts, k);
  }

  lemma {:induction false} NoLivesIsFresh(p: Pool, lo: int, hi: int)
    requires Inv(p, lo, hi) && lo % 4 == 0 && lo + HFREE <= hi && Lives(p.tiles) == []
    ensures p == Fresh(lo, hi)
  {
    if p.queue != [] {
      QueuedIndex(p, lo, hi, p.queue[0]);
      LiveInLives(p.tiles, Index(p.tiles, p.queue[0]));
    }
    FreshInv(lo, hi);
    Canonical(p.tiles, Fresh(lo, hi).tiles, lo, hi);
  }

  /** Once nothing is live, whatever the run did, the pool is again one block of the initial extent. */
  lemma {:induction false} RunRestores(lo: int, hi: int, ops: seq<Op>)
    requires lo % 4 == 0 && lo + HFREE <= hi && LegalRun(Fresh(lo, hi), ops)
    requires Lives(Run(Fresh(lo, hi), ops).tiles) == []
    ensures Run(Fresh(lo, hi), ops) == Fresh(lo, hi)
  {
    FreshInv(lo, hi);
    RunInv(Fresh(lo, hi), lo, hi, ops);
    NoLivesIsFresh(Run(Fresh(lo, hi), ops), lo, hi);
  }

  /** The address of a live block leads to it. */
  lemma {:induction false} AddressOfLive(ts: seq<Tile>, lo: int, hi: int, t: Tile)
    requires Tiled(ts, lo, hi) && Sized(ts) && t in ts
    ensures Index(ts, t.addr) < |ts| && ts[Index(ts, t.addr)] == t
  {
    var k :| 0 <= k < |ts| && ts[k] == t;
    IndexOf(ts, lo, hi, k);
  }

  /** Freeing block k leaves every other live block as it is, and adds none. */
  lemma {:induction false} ReleaseKeeps(ts: seq<Tile>, lo: int, hi: int, k: nat)
    requires Tiled(ts, lo, hi) && Sized(ts) && Coalesced(ts) && LiveAt(ts, k)
    ensures Lives(ts) == Lives(ts[..k]) + [ts[k]] + Lives(ts[k + 1..])
    ensures Lives(Release(ts, k)) == Lives(ts[..k]) + Lives(ts[k + 1..])
    ensures forall t :: t in ts && t.Live? && t.addr != ts[k].addr ==> t in Release(ts, k)
  {
    CoalescedParts(ts, k);
    ReleaseSpan(ts, k);
    ReleaseLives(ts, Release(ts, k), k, SpanStart(ts, k), SpanStop(ts, k));
    ReleaseStays(ts, Release(ts, k), k, SpanStart(ts, k), SpanStop(ts, k));
  }

  lemma {:induction false} ReleaseStays(ts: seq<Tile>, us: seq<Tile>, k: nat, l: nat, r: nat)
    requires Span(ts, k, l, r) && us == Fuse(ts, l, r)
    ensures forall t :: t in ts && t.Live? && t.addr != ts[k].addr ==> t in us
  {
    forall t | t in ts && t.Live? && t.addr != ts[k].addr ensures t in us {
      var i :| 0 <= i < |ts| && ts[i] == t;
      ReleaseAt(ts, us, k, l, r, i);
    }
  }

  /** A live block outside the freed span is still there. */
  lemma {:induction false} ReleaseAt(ts: seq<Tile>, us: seq<Tile>, k: nat, l: nat, r: nat, i: nat)
    requires Span(ts, k, l, r) && us == Fuse(ts, l, r) && i < |ts| && i != k && ts[i].Live?
    ensures ts[i] in us
  {
    if i < l { assert us[i] == ts[i]; } else { assert us[i - r + l + 1] == ts[i]; }
  }

  /** Frees the blocks at the given addresses one after the other. */
  function FreeEach(p: Pool, order: seq<int>): Pool
    decreases |order|
  {
    if order == [] then p
    else
      var k := Index(p.tiles, order[0]);
      if LiveAt(p.tiles, k) then FreeEach(FreeBlock(p, k), order[1..]) else p
  }

  /** Freeing all live blocks, in any order whatsoever, restores the initial pool. */
  lemma {:induction false} AnyOrderRestores(p: Pool, lo: int, hi: int, order: seq<int>)
    requires Inv(p, lo, hi) && lo % 4 == 0 && lo + HFREE <= hi
    requires forall i, j :: 0 <= i < j < |order| ==> order[i] != order[j]
    requires forall i :: 0 <= i < |order| ==> LiveAt(p.tiles, Index(p.tiles, order[i]))
    requires |order| == |Lives(p.tiles)|
    ensures FreeEach(p, order) == Fresh(lo, hi)
    decreases |order|
  {
    if order == [] {
      NoLivesIsFresh(p, lo, hi);
    } else {
      var k := Index(p.tiles, order[0]);
      var q := FreeBlock(p, k);
      FreeInv(p, lo, hi, k);
      ReleaseKeeps(p.tiles, lo, hi, k);
      forall i | 0 <= i < |order[1..]| ensures LiveAt(q.tiles, Index(q.tiles, order[1..][i])) {
        assert order[1..][i] == order[i + 1] != order[0];
        AddressOfLive(q.tiles, lo, hi, p.tiles[Index(p.tiles, order[i + 1])]);
      }
      AnyOrderRestores(q, lo, hi, order[1..]);
    }
  }

  // ---- alloc ----

  /** Alloc is first fit: it takes the lowest block that fits, and fails exactly when none does. */
  lemma {:induction false} AllocFirstFit(p: Pool, lo: int, hi: int, len: int)
    requires Inv(p, lo, hi) && 0 <= len && 0 < lo
    ensures AllocResult(p, len) != NULL <==> exists k :: 0 <= k < |p.tiles| && Fits(p.tiles[k], Need(len))
    ensures AllocResult(p, len) == NULL ==> Alloc(p, len) == p
    ensures AllocResult(p, len) != NULL ==>
      forall i :: 0 <= i < |p.tiles| && Fits(p.tiles[i], Need(len)) ==> AllocResult(p, len) - HENTRY <= p.tiles[i].addr
  {
    var ts, n := p.tiles, Need(len);
    var k := FirstFit(ts, n);
    TiledApart(ts, lo, hi);
    if k < |ts| {
      forall i | 0 <= i < |ts| && Fits(ts[i], n) ensures ts[k].addr <= ts[i].addr {
        if k < i { assert ts[k].Finish() <= ts[i].addr; }
      }
    }
  }

  /** The block alloc hands out is aligned, large enough, and at most 15 bytes larger than asked for. */
  lemma {:induction false} AllocBlock(p: Pool, lo: int, hi: int, len: int)
    requires Inv(p, lo, hi) && 0 <= len && AllocResult(p, len) != NULL
    ensures var k := FirstFit(p.tiles, Need(len));
      && LiveAt(Alloc(p, len).tiles, k)
      && var t := Alloc(p, len).tiles[k];
      && t.addr + HENTRY == AllocResult(p, len) && (t.addr + HENTRY) % 4 == 0
      && t.refs == 0 && t.state == 0
      && len <= t.len - HENTRY <= len + 3 + HFREE
  {
    RoundUpFacts(len + HENTRY);
    var k := FirstFit(p.tiles, Need(len));
    assert Alloc(p, len).tiles[k] == Carve(p.tiles[k], Need(len))[0];
  }

  /** Alloc of len bytes takes the lowest free block k that holds them, their header and the rounding; it splits it
      exactly if more than 12 bytes would be left. */
  lemma {:induction false} AllocSplits(p: Pool, len: int, k: nat, n: int)
    requires 0 <= len && n == (len + 23) / 4 * 4
    requires k < |p.tiles| && p.tiles[k].Free? && n <= p.tiles[k].len
    requires forall i :: 0 <= i < k && p.tiles[i].Free? ==> p.tiles[i].len < n
    ensures AllocResult(p, len) == p.tiles[k].addr + 20
    ensures var t := p.tiles[k];
      Alloc(p, len).tiles == p.tiles[..k]
        + (if t.len - n > 12 then [Live(t.addr, n, 0, 0), Free(t.addr + n, t.len - n)] else [Live(t.addr, t.len, 0, 0)])
        + p.tiles[k + 1..]
    ensures Alloc(p, len).queue == p.queue
  {
    NeedIs(len);
    var f := FirstFit(p.tiles, n);
    assert Fits(p.tiles[k], n);
    if f < k { assert false; }
  }

  lemma NeedIs(len: int)
    ensures Need(len) == (len + 23) / 4 * 4
  {
  }

  lemma {:induction false} CarveLives(ts: seq<Tile>, k: nat, mid: seq<Tile>)
    requires k < |ts| && ts[k].Free? && mid != []
    requires |mid| == 1 || (|mid| == 2 && mid[1].Free?)
    ensures var us := Splice(ts, k, 1, mid);
      Lives(ts) == Lives(us[..k]) + Lives(us[k + 1..])
  {
    var us := Splice(ts, k, 1, mid);
    LivesAround(ts, k);
    assert us[..k] == ts[..k];
    assert us[k + 1..] == mid[1..] + ts[k + 1..];
    LivesConcat(mid[1..], ts[k + 1..]);
    LivesNone(mid[1..]);
  }

  /** Freeing a block right after allocating it leaves the pool exactly as it was. */
  lemma {:induction false} AllocThenFree(p: Pool, lo: int, hi: int, len: int)
    requires Inv(p, lo, hi) && 0 <= len && 0 < lo && AllocResult(p, len) != NULL
    ensures var q := Alloc(p, len);
      var k := Index(q.tiles, AllocResult(p, len) - HENTRY);
      LiveAt(q.tiles, k) && FreeBlock(q, k) == p
  {
    var q := Alloc(p, len);
    var k := FirstFit(p.tiles, Need(len));
    AllocInv(p, lo, hi, len);
    CarveLives(p.tiles, k, Carve(p.tiles[k], Need(len)));
    IndexOf(q.tiles, lo, hi, k);
    ReleaseKeeps(q.tiles, lo, hi, k);
    FreeInv(q, lo, hi, k);
    Canonical(FreeBlock(q, k).tiles, p.tiles, lo, hi);
    UnreferencedUnqueued(q.tiles, lo, hi, k);
    WithoutAbsent(q.queue, q.tiles[k].addr);
  }

  // ---- how many chunks fit ----

  /** The number of chunks a pool is said to hold, given the space after the pool head. */
  function ChunkNum(total: int, chunk: int): int
    requires HFREE <= total && 0 <= chunk
  {
    (total - HFREE) / (chunk + HENTRY + 3)
  }

  /** n allocations of len bytes in a row all succeed. */
  predicate AllocsSucceed(p: Pool, len: int, n: nat)
    decreases n
  {
    n == 0 || (AllocResult(p, len) != NULL && AllocsSucceed(Alloc(p, len), len, n - 1))
  }

  /** Allocating from a pool whose only free block is its last one. */
  lemma {:induction false} TailAlloc(p: Pool, ls: seq<Tile>, a: int, rem: int, len: int)
    requires p.tiles == ls + [Free(a, rem)] && (forall i :: 0 <= i < |ls| ==> ls[i].Live?)
    requires 0 <= len && 0 < a && Need(len) <= rem
    ensures AllocResult(p, len) != NULL
    ensures rem > Need(len) + HFREE ==>
      Alloc(p, len).tiles == (ls + [Live(a, Need(len), 0, 0)]) + [Free(a + Need(len), rem - Need(len))]
  {
    assert p.tiles[|ls|] == Free(a, rem);
    assert forall i :: 0 <= i < |ls| ==> p.tiles[i] == ls[i];
    assert FirstFit(p.tiles, Need(len)) == |ls|;
    assert p.tiles[..|ls|] == ls && p.tiles[|ls| + 1..] == [];
  }

  lemma Product(n: nat, w: int)
    requires 0 < n && 0 < w
    ensures n * w == (n - 1) * w + w && 0 <= (n - 1) * w
    ensures 1 < n ==> w <= (n - 1) * w
  {
  }

  /** While the only free block is the last one, n allocations fit in n worst-case blocks. */
  lemma {:induction false} TailAllocs(p: Pool, ls: seq<Tile>, a: int, rem: int, len: int, n: nat)
    requires p.tiles == ls + [Free(a, rem)] && (forall i :: 0 <= i < |ls| ==> ls[i].Live?)
    requires 0 <= len && 0 < a && n * (len + HENTRY + 3) <= rem
    ensures AllocsSucceed(p, len, n)
    decreases n
  {
    if n > 0 {
      RoundUpFacts(len + HENTRY);
      Product(n, len + HENTRY + 3);
      TailAlloc(p, ls, a, rem, len);
      if rem > Need(len) + HFREE {
        TailAllocs(Alloc(p, len), ls + [Live(a, Need(len), 0, 0)], a + Need(len), rem - Need(len), len, n - 1);
      }
    }
  }

  /** On a fresh pool with total bytes after its head, that many allocations all succeed. */
  lemma {:induction false} ChunkNumAllocs(lo: int, total: int, chunk: int)
    requires 0 < lo && HFREE <= total && 0 <= chunk
    ensures AllocsSucceed(Fresh(lo, lo + total - HFREE), chunk, ChunkNum(total, chunk))
  {
    var w := chunk + HENTRY + 3;
    assert ChunkNum(total, chunk) * w <= total - HFREE;
    assert Fresh(lo, lo + total - HFREE).tiles == [] + [Free(lo, total - HFREE)];
    TailAllocs(Fresh(lo, lo + total - HFREE), [], lo, total - HFREE, chunk, ChunkNum(total, chunk));
  }

  /** It is the largest number whose worst-case blocks fit. */
  lemma ChunkNumLargest(total: int, chunk: int, n: nat)
    requires HFREE <= total && 0 <= chunk
    ensures n <= ChunkNum(total, chunk) <==> n * (chunk + 23) <= total - 12
  {
    var w, q := chunk + 23, ChunkNum(total, chunk);
    assert q * w <= total - 12 < (q + 1) * w;
    if n <= q { Scaled(n, q, w); } else { Scaled(q + 1, n, w); }
  }

  lemma Scaled(a: int, b: int, w: nat)
    requires a <= b
    ensures a * w <= b * w
  {
  }

  // ---- realloc ----

  /** Cutting block k and freeing the tail: the tail joins the free block behind it, if there is one. */
  lemma {:induction false} CutReleaseShape(ts: seq<Tile>, us: seq<Tile>, k: nat, head: Tile, tail: Tile)
    requires k < |ts| && head.Live? && tail.addr == head.Finish() && tail.Finish() == ts[k].Finish()
    requires k + 1 < |ts| ==> ts[k].Finish() == ts[k + 1].addr
    requires us == Release(Splice(ts, k, 1, [head, tail]), k + 1)
    ensures var nextFree := k + 1 < |ts| && ts[k + 1].Free?;
      us == ts[..k] + [head, Free(head.Finish(), tail.len + (if nextFree then ts[k + 1].len else 0))]
              + ts[if nextFree then k + 2 else k + 1..]
  {
    var cs := Splice(ts, k, 1, [head, tail]);
    var nextFree := k + 1 < |ts| && ts[k + 1].Free?;
    if k + 1 < |ts| { assert cs[k + 2] == ts[k + 1]; }
    assert cs[..k + 1] == ts[..k] + [head];
    assert cs[SpanStop(cs, k + 1)..] == ts[if nextFree then k + 2 else k + 1..];
  }

  lemma NeighbourMeets(ts: seq<Tile>, lo: int, hi: int, k: nat)
    requires Tiled(ts, lo, hi) && k + 1 < |ts|
    ensures ts[k].Finish() == ts[k + 1].addr
  {
    var j := k + 1;
    assert ts[k].Finish() == ts[j].addr;
  }

  /** A realloc that cuts block k keeps its address and at least size payload bytes, and gives the rest back. */
  lemma {:induction false} ReallocShrinks(p: Pool, lo: int, hi: int, k: nat, size: int)
    requires Inv(p, lo, hi) && LiveAt(p.tiles, k) && 0 <= size && Shrinks(p.tiles[k], size)
    ensures var ts := p.tiles;
      var t := ts[k].(len := HENTRY + RoundUp(size));
      var nextFree := k + 1 < |ts| && ts[k + 1].Free?;
      && Realloc(p, k, size).tiles ==
           ts[..k] + [t, Free(t.Finish(), ts[k].len - t.len + (if nextFree then ts[k + 1].len else 0))]
             + ts[if nextFree then k + 2 else k + 1..]
      && Realloc(p, k, size).queue == p.queue
      && size <= t.len - HENTRY
  {
    RoundUpFacts(size);
    var ts, n := p.tiles, RoundUp(size) + HENTRY;
    var head, tail := ts[k].(len := n), Live(ts[k].addr + n, ts[k].len - n, 0, 0);
    assert Realloc(p, k, size).tiles == Release(Splice(ts, k, 1, [head, tail]), k + 1);
    if k + 1 < |ts| { NeighbourMeets(ts, lo, hi, k); }
    CutReleaseShape(ts, Realloc(p, k, size).tiles, k, head, tail);
  }

  /** Realloc answers with the payload it was given, or with NULL exactly if size, rounded up to 4, is more than that. */
  lemma ReallocAnswer(p: Pool, k: nat, size: int)
    requires LiveAt(p.tiles, k) && 0 < p.tiles[k].addr
    ensures ReallocResult(p, k, size) == NULL <==> (size + 3) / 4 * 4 > p.tiles[k].len - 20
    ensures ReallocResult(p, k, size) != NULL ==> ReallocResult(p, k, size) == p.tiles[k].addr + 20
  {
  }

  /** It cuts the block exactly if more than 20 bytes would be left behind the rounded payload; else nothing changes. */
  lemma {:induction false} ReallocCuts(p: Pool, lo: int, hi: int, k: nat, size: int)
    requires Inv(p, lo, hi) && LiveAt(p.tiles, k) && 0 <= size
    ensures Shrinks(p.tiles[k], size) <==> p.tiles[k].len - 20 - (size + 3) / 4 * 4 > 20
    ensures Realloc(p, k, size) != p <==> p.tiles[k].len - 20 - (size + 3) / 4 * 4 > 20
  {
    if Shrinks(p.tiles[k], size) {
      ReallocShrinks(p, lo, hi, k, size);
      assert Realloc(p, k, size).tiles[k].len == HENTRY + RoundUp(size);
    }
  }

  /** A realloc that answers NULL changes nothing. */
  lemma ReallocNull(p: Pool, k: nat, size: int)
    requires LiveAt(p.tiles, k) && ReallocResult(p, k, size) == NULL && p.tiles[k].addr > 0
    ensures Realloc(p, k, size) == p
  {
  }
}
