/** Every pool operation keeps the pool invariant. */
module PoolInvariant {
  import opened Tiling
  import opened PoolSpec

  // ---- which blocks count as queued ----

  lemma {:induction false} QueuedConcat(a: seq<Tile>, b: seq<Tile>, x: int)
    ensures Queued(a + b, x) <==> Queued(a, x) || Queued(b, x)
  {
    if Queued(a, x) {
      var k :| 0 <= k < |a| && a[k].Live? && a[k].addr == x && a[k].refs > 0;
      assert (a + b)[k] == a[k];
    }
    if Queued(b, x) {
      var k :| 0 <= k < |b| && b[k].Live? && b[k].addr == x && b[k].refs > 0;
      assert (a + b)[|a| + k] == b[k];
    }
  }

  lemma {:induction false} QueuedSplice(ts: seq<Tile>, k: nat, n: nat, mid: seq<Tile>, x: int)
    requires k + n <= |ts|
    ensures Queued(Splice(ts, k, n, mid), x) <==> Queued(ts[..k], x) || Queued(mid, x) || Queued(ts[k + n..], x)
    ensures Queued(ts, x) <==> Queued(ts[..k], x) || Queued(ts[k..k + n], x) || Queued(ts[k + n..], x)
  {
    QueuedConcat(ts[..k] + mid, ts[k + n..], x);
    QueuedConcat(ts[..k], mid, x);
    QueuedConcat(ts[..k] + ts[k..k + n], ts[k + n..], x);
    QueuedConcat(ts[..k], ts[k..k + n], x);
    assert ts == ts[..k] + ts[k..k + n] + ts[k + n..];
  }

  lemma {:induction false} RefsSplice(ts: seq<Tile>, k: nat, n: nat, mid: seq<Tile>)
    requires k + n <= |ts| && RefsOk(ts) && RefsOk(mid)
    ensures RefsOk(Splice(ts, k, n, mid))
  {
    var us := Splice(ts, k, n, mid);
    forall i | 0 <= i < |us| && us[i].Live? ensures 0 <= us[i].refs <= MAXREFS {
      if i < k { assert us[i] == ts[i]; }
      else if i < k + |mid| { assert us[i] == mid[i - k]; }
      else { assert us[i] == ts[i - |mid| + n]; }
    }
  }

  // ---- alloc ----

  lemma RoundUpFacts(n: int)
    ensures n <= RoundUp(n) <= n + 3 && RoundUp(n) % 4 == 0
  {
  }

  /** The blocks that alloc puts in place of block k. */
  lemma {:induction false} CarveReplaces(ts: seq<Tile>, k: nat, n: int)
    requires k < |ts| && Sized(ts) && Fits(ts[k], n) && HENTRY <= n && n % 4 == 0
    ensures Replaces(ts, k, 1, Carve(ts[k], n))
    ensures Coalesced(Carve(ts[k], n)) && RefsOk(Carve(ts[k], n)) && Carve(ts[k], n)[0].Live?
    ensures forall x :: !Queued(Carve(ts[k], n), x)
  {
  }

  lemma {:induction false} FreeUnqueued(ts: seq<Tile>, k: nat, x: int)
    requires k < |ts| && ts[k].Free?
    ensures !Queued(ts[k..k + 1], x)
  {
  }

  lemma {:induction false} CarveTiled(ts: seq<Tile>, lo: int, hi: int, k: nat, n: int)
    requires Tiled(ts, lo, hi) && Sized(ts) && Coalesced(ts)
    requires k < |ts| && Fits(ts[k], n) && HENTRY <= n && n % 4 == 0
    ensures var us := Splice(ts, k, 1, Carve(ts[k], n)); Tiled(us, lo, hi) && Sized(us) && Coalesced(us)
  {
    CarveReplaces(ts, k, n);
    SpliceTiled(ts, lo, hi, k, 1, Carve(ts[k], n));
    SpliceCoalesced(ts, k, 1, Carve(ts[k], n));
  }

  lemma {:induction false} AllocInv(p: Pool, lo: int, hi: int, len: int)
    requires Inv(p, lo, hi) && 0 <= len
    ensures Inv(Alloc(p, len), lo, hi)
  {
    var ts, n := p.tiles, Need(len);
    var k := FirstFit(ts, n);
    RoundUpFacts(len + HENTRY);
    if k < |ts| {
      CarveTiled(ts, lo, hi, k, n);
      CarveQueue(p, k, n);
    }
  }

  lemma {:induction false} CarveQueue(p: Pool, k: nat, n: int)
    requires QueueOk(p) && Sized(p.tiles)
    requires k < |p.tiles| && Fits(p.tiles[k], n) && HENTRY <= n && n % 4 == 0
    ensures QueueOk(p.(tiles := Splice(p.tiles, k, 1, Carve(p.tiles[k], n))))
  {
    var mid := Carve(p.tiles[k], n);
    CarveReplaces(p.tiles, k, n);
    RefsSplice(p.tiles, k, 1, mid);
    forall a ensures a in p.queue <==> Queued(Splice(p.tiles, k, 1, mid), a) {
      QueuedSplice(p.tiles, k, 1, mid, a);
      FreeUnqueued(p.tiles, k, a);
    }
  }

  // ---- free ----

  /** The blocks that freeing block k turns into one. */
  ghost predicate Span(ts: seq<Tile>, k: nat, l: nat, r: nat) {
    && l <= k < r <= |ts|
    && (forall i :: l <= i < r && i != k ==> ts[i].Free?)
    && (0 < l ==> ts[l - 1].Live?)
    && (r < |ts| ==> ts[r].Live?)
  }

  lemma {:induction false} ReleaseSpan(ts: seq<Tile>, k: nat)
    requires k < |ts| && Coalesced(ts[..k]) && Coalesced(ts[k + 1..])
    ensures Span(ts, k, SpanStart(ts, k), SpanStop(ts, k))
  {
    var l, r := SpanStart(ts, k), SpanStop(ts, k);
    if 0 < l && l < k {
      assert ts[..k][l].Free?;
    }
    if r < |ts| && k + 1 < r {
      assert ts[k + 1..][0].Free?;
    }
  }

  lemma {:induction false} FuseTiled(ts: seq<Tile>, lo: int, hi: int, l: nat, r: nat)
    requires Tiled(ts, lo, hi) && Sized(ts) && l < r <= |ts|
    ensures Tiled(Fuse(ts, l, r), lo, hi) && Sized(Fuse(ts, l, r))
  {
    FuseReplaces(ts, lo, hi, l, r);
    SpliceTiled(ts, lo, hi, l, r - l, [Free(ts[l].addr, ts[r - 1].Finish() - ts[l].addr)]);
  }

  lemma {:induction false} FuseReplaces(ts: seq<Tile>, lo: int, hi: int, l: nat, r: nat)
    requires Tiled(ts, lo, hi) && Sized(ts) && l < r <= |ts|
    ensures Replaces(ts, l, r - l, [Free(ts[l].addr, ts[r - 1].Finish() - ts[l].addr)])
  {
    if l < r - 1 { Ordered(ts, lo, hi, l, r - 1); }
  }

  lemma {:induction false} ReleaseCoalesced(ts: seq<Tile>, k: nat, l: nat, r: nat)
    requires Span(ts, k, l, r)
    requires Coalesced(ts[..k]) && Coalesced(ts[k + 1..])
    ensures Coalesced(Fuse(ts, l, r))
  {
    var us := Fuse(ts, l, r);
    forall i, j | 0 <= i < |us| - 1 && j == i + 1 ensures us[i].Live? || us[j].Live? {
      if j < l {
        assert us[i] == ts[..k][i] && us[j] == ts[..k][j];
      } else if j == l {
        assert us[i] == ts[l - 1];
      } else if j == l + 1 {
        assert us[j] == ts[r];
      } else {
        assert us[i] == ts[k + 1..][i + r - l - 1 - (k + 1)] && us[j] == ts[k + 1..][j + r - l - 1 - (k + 1)];
      }
    }
  }

  /** Freeing a block of a tiling that is coalesced on both sides of it coalesces the whole. */
  lemma {:induction false} ReleaseTiled(ts: seq<Tile>, lo: int, hi: int, k: nat)
    requires Tiled(ts, lo, hi) && Sized(ts) && k < |ts|
    requires Coalesced(ts[..k]) && Coalesced(ts[k + 1..])
    ensures Tiled(Release(ts, k), lo, hi) && Sized(Release(ts, k)) && Coalesced(Release(ts, k))
  {
    ReleaseSpan(ts, k);
    FuseTiled(ts, lo, hi, SpanStart(ts, k), SpanStop(ts, k));
    ReleaseCoalesced(ts, k, SpanStart(ts, k), SpanStop(ts, k));
  }

  lemma CoalescedParts(ts: seq<Tile>, k: nat)
    requires Coalesced(ts) && k < |ts|
    ensures Coalesced(ts[..k]) && Coalesced(ts[k + 1..])
  {
    var b := ts[k + 1..];
    forall i, j | 0 <= i < |b| - 1 && j == i + 1 ensures b[i].Live? || b[j].Live? {
      assert b[i] == ts[k + 1 + i] && b[j] == ts[k + 1 + j];
    }
  }

  lemma {:induction false} LivesNone(ts: seq<Tile>)
    requires forall i :: 0 <= i < |ts| ==> ts[i].Free?
    ensures Lives(ts) == []
    decreases |ts|
  {
    if ts != [] { LivesNone(ts[1..]); }
  }

  /** Freeing block k takes that block, and only that one, off the list of live blocks. */
  lemma {:induction false} ReleaseLives(ts: seq<Tile>, us: seq<Tile>, k: nat, l: nat, r: nat)
    requires Span(ts, k, l, r) && ts[k].Live? && us == Fuse(ts, l, r)
    ensures Lives(ts) == Lives(ts[..k]) + [ts[k]] + Lives(ts[k + 1..])
    ensures Lives(us) == Lives(ts[..k]) + Lives(ts[k + 1..])
  {
    LivesAround(ts, k);
    var mid := [Free(ts[l].addr, ts[r - 1].Finish() - ts[l].addr)];
    SpliceLives(ts, l, r - l, mid);
    LivesNone(mid);
    LivesBefore(ts, l, k);
    LivesAfter(ts, k + 1, r);
  }

  lemma {:induction false} LivesBefore(ts: seq<Tile>, l: nat, k: nat)
    requires l <= k <= |ts| && forall i :: l <= i < k ==> ts[i].Free?
    ensures Lives(ts[..k]) == Lives(ts[..l])
  {
    LivesNone(ts[l..k]);
    assert ts[..k] == ts[..l] + ts[l..k];
    LivesConcat(ts[..l], ts[l..k]);
  }

  lemma {:induction false} LivesAfter(ts: seq<Tile>, k: nat, r: nat)
    requires k <= r <= |ts| && forall i :: k <= i < r ==> ts[i].Free?
    ensures Lives(ts[k..]) == Lives(ts[r..])
  {
    LivesNone(ts[k..r]);
    assert ts[k..] == ts[k..r] + ts[r..];
    LivesConcat(ts[k..r], ts[r..]);
  }

  lemma {:induction false} WithoutFacts(q: seq<int>, a: int)
    requires forall i, j :: 0 <= i < j < |q| ==> q[i] != q[j]
    ensures forall i, j :: 0 <= i < j < |Without(q, a)| ==> Without(q, a)[i] != Without(q, a)[j]
    ensures forall x :: x in Without(q, a) <==> x in q && x != a
    decreases |q|
  {
    if q != [] {
      WithoutFacts(q[1..], a);
      assert q == [q[0]] + q[1..];
      forall i, j | 0 <= i < j < |Without(q, a)| ensures Without(q, a)[i] != Without(q, a)[j] {
        if q[0] != a {
          var w := Without(q[1..], a);
          assert Without(q, a) == [q[0]] + w;
          if i == 0 { assert w[j - 1] in w; }
        }
      }
    }
  }

  /** Within the freed span only block k can be queued. */
  lemma {:induction false} SpanQueued(ts: seq<Tile>, k: nat, l: nat, r: nat, x: int)
    requires Span(ts, k, l, r) && ts[k].Live?
    ensures Queued(ts[l..r], x) <==> x == ts[k].addr && ts[k].refs > 0
  {
    assert ts[l..r][k - l] == ts[k];
    if Queued(ts[l..r], x) {
      var i :| 0 <= i < |ts[l..r]| && ts[l..r][i].Live? && ts[l..r][i].addr == x && ts[l..r][i].refs > 0;
      assert ts[l..r][i] == ts[l + i];
    }
  }

  lemma {:induction false} NotElsewhere(ts: seq<Tile>, lo: int, hi: int, k: nat, l: nat, r: nat)
    requires Tiled(ts, lo, hi) && Sized(ts) && l <= k < r <= |ts|
    ensures !Queued(ts[..l], ts[k].addr) && !Queued(ts[r..], ts[k].addr)
  {
    TiledApart(ts, lo, hi);
  }

  lemma {:induction false} FuseQueued(ts: seq<Tile>, us: seq<Tile>, lo: int, hi: int, k: nat, l: nat, r: nat, x: int)
    requires Tiled(ts, lo, hi) && Sized(ts) && Span(ts, k, l, r) && ts[k].Live?
    requires us == Fuse(ts, l, r)
    ensures Queued(us, x) <==> Queued(ts, x) && x != ts[k].addr
  {
    var mid := [Free(ts[l].addr, ts[r - 1].Finish() - ts[l].addr)];
    QueuedSplice(ts, l, r - l, mid, x);
    SpanQueued(ts, k, l, r, x);
    NotElsewhere(ts, lo, hi, k, l, r);
    assert !Queued(mid, x);
  }

  lemma {:induction false} FuseRefs(ts: seq<Tile>, us: seq<Tile>, l: nat, r: nat)
    requires RefsOk(ts) && l < r <= |ts| && us == Fuse(ts, l, r)
    ensures RefsOk(us)
  {
    RefsSplice(ts, l, r - l, [Free(ts[l].addr, ts[r - 1].Finish() - ts[l].addr)]);
  }

  lemma {:induction false} ReleaseQueue(p: Pool, lo: int, hi: int, k: nat, q: Pool)
    requires Tiled(p.tiles, lo, hi) && Sized(p.tiles) && QueueOk(p)
    requires LiveAt(p.tiles, k)
    requires Coalesced(p.tiles[..k]) && Coalesced(p.tiles[k + 1..])
    requires q == FreeBlock(p, k)
    ensures QueueOk(q)
  {
    var ts := p.tiles;
    var l, r := SpanStart(ts, k), SpanStop(ts, k);
    ReleaseSpan(ts, k);
    WithoutFacts(p.queue, ts[k].addr);
    FuseRefs(ts, q.tiles, l, r);
    forall x ensures x in q.queue <==> Queued(q.tiles, x) {
      FuseQueued(ts, q.tiles, lo, hi, k, l, r, x);
    }
  }

  lemma {:induction false} FreeInv(p: Pool, lo: int, hi: int, k: nat)
    requires Inv(p, lo, hi) && LiveAt(p.tiles, k)
    ensures Inv(FreeBlock(p, k), lo, hi)
  {
    CoalescedParts(p.tiles, k);
    ReleaseTiled(p.tiles, lo, hi, k);
    ReleaseQueue(p, lo, hi, k, FreeBlock(p, k));
  }

  // ---- realloc ----

  ghost predicate CutOk(p: Pool, k: nat, n: int) {
    && k < |p.tiles| && p.tiles[k].Live?
    && HENTRY <= n && n + HENTRY < p.tiles[k].len && n % 4 == 0
  }

  lemma {:induction false} CutTiled(p: Pool, lo: int, hi: int, k: nat, n: int, state: int, c: Pool)
    requires Inv(p, lo, hi) && CutOk(p, k, n) && c == CutPool(p, k, n, state)
    ensures Tiled(c.tiles, lo, hi) && Sized(c.tiles) && Coalesced(c.tiles) && QueueOk(c)
    ensures k + 1 < |c.tiles| && c.tiles[k + 1] == Live(p.tiles[k].addr + n, p.tiles[k].len - n, state, 0)
    ensures c.tiles[k] == p.tiles[k].(len := n)
    ensures Coalesced(c.tiles[..k + 1]) && Coalesced(c.tiles[k + 2..])
  {
    var ts, mid := p.tiles, Cut(p.tiles[k], n, state);
    assert Replaces(ts, k, 1, mid);
    SpliceTiled(ts, lo, hi, k, 1, mid);
    SpliceCoalesced(ts, k, 1, mid);
    CoalescedParts(c.tiles, k + 1);
    CutQueue(p, k, n, state, c);
  }

  lemma {:induction false} CutQueue(p: Pool, k: nat, n: int, state: int, c: Pool)
    requires QueueOk(p) && LiveAt(p.tiles, k) && c == CutPool(p, k, n, state)
    ensures QueueOk(c)
  {
    var ts, mid := p.tiles, Cut(p.tiles[k], n, state);
    RefsSplice(ts, k, 1, mid);
    assert ts[k..k + 1] == [ts[k]];
    forall x ensures Queued(c.tiles, x) <==> Queued(ts, x) {
      QueuedSplice(ts, k, 1, mid, x);
      CutQueued(ts[k], n, state, x);
    }
  }

  lemma {:induction false} CutQueued(t: Tile, n: int, state: int, x: int)
    requires t.Live?
    ensures Queued(Cut(t, n, state), x) <==> Queued([t], x)
  {
    var mid := Cut(t, n, state);
    if Queued(mid, x) { assert [t][0].Live?; }
    if Queued([t], x) { assert mid[0].Live?; }
  }

  /** Release does not look at the block it frees beyond its address and length. */
  lemma {:induction false} ReleaseSame(us: seq<Tile>, vs: seq<Tile>, k: nat)
    requires |us| == |vs| && k < |us|
    requires forall i :: 0 <= i < |us| && i != k ==> us[i] == vs[i]
    requires us[k].addr == vs[k].addr && us[k].len == vs[k].len
    ensures Release(us, k) == Release(vs, k)
  {
    var l, r := SpanStart(us, k), SpanStop(us, k);
    assert us[..l] == vs[..l] && us[r..] == vs[r..];
    assert us[r - 1].Finish() == vs[r - 1].Finish();
  }

  /** The state byte left in the tail does not matter: the tail is freed at once. */
  lemma {:induction false} CutStateIrrelevant(p: Pool, k: nat, n: int, state: int)
    requires k < |p.tiles| && p.tiles[k].Live?
    ensures Release(CutPool(p, k, n, state).tiles, k + 1) == Release(CutPool(p, k, n, 0).tiles, k + 1)
  {
    ReleaseSame(CutPool(p, k, n, state).tiles, CutPool(p, k, n, 0).tiles, k + 1);
  }

  lemma {:induction false} WithoutAbsent(q: seq<int>, a: int)
    requires a !in q
    ensures Without(q, a) == q
  {
    if q != [] { WithoutAbsent(q[1..], a); }
  }

  /** Cutting a block and freeing the tail. */
  lemma {:induction false} CutReleaseInv(p: Pool, lo: int, hi: int, k: nat, n: int, q: Pool)
    requires Inv(p, lo, hi) && CutOk(p, k, n)
    requires q == p.(tiles := Release(CutPool(p, k, n, 0).tiles, k + 1))
    ensures Inv(q, lo, hi)
  {
    var c := CutPool(p, k, n, 0);
    CutTiled(p, lo, hi, k, n, 0, c);
    ReleaseTiled(c.tiles, lo, hi, k + 1);
    CutTailUnqueued(p, lo, hi, k, n);
    WithoutAbsent(c.queue, c.tiles[k + 1].addr);
    ReleaseQueue(c, lo, hi, k + 1, q);
  }

  lemma {:induction false} ReallocInv(p: Pool, lo: int, hi: int, k: nat, size: int, q: Pool)
    requires Inv(p, lo, hi) && LiveAt(p.tiles, k) && 0 <= size
    requires q == Realloc(p, k, size)
    ensures Inv(q, lo, hi)
  {
    RoundUpFacts(size);
    if Shrinks(p.tiles[k], size) {
      CutReleaseInv(p, lo, hi, k, RoundUp(size) + HENTRY, q);
    }
  }

  lemma {:induction false} CutTailUnqueued(p: Pool, lo: int, hi: int, k: nat, n: int)
    requires Inv(p, lo, hi) && CutOk(p, k, n)
    ensures p.tiles[k].addr + n !in p.queue
  {
    TiledApart(p.tiles, lo, hi);
  }

  // ---- push and pop ----

  /** Only the state and the reference count of block k change. */
  ghost predicate SameBlocks(ts: seq<Tile>, us: seq<Tile>) {
    && |us| == |ts|
    && forall i :: 0 <= i < |ts| ==> us[i].Live? == ts[i].Live? && us[i].addr == ts[i].addr && us[i].len == ts[i].len
  }

  lemma SameBlocksTiled(ts: seq<Tile>, us: seq<Tile>, lo: int, hi: int)
    requires Tiled(ts, lo, hi) && Sized(ts) && Coalesced(ts) && SameBlocks(ts, us)
    ensures Tiled(us, lo, hi) && Sized(us) && Coalesced(us)
  {
    forall i, j | 0 <= i < |us| - 1 && j == i + 1
      ensures us[i].Finish() == us[j].addr && (us[i].Live? || us[j].Live?)
    {
      assert ts[i].Finish() == ts[j].addr;
      assert ts[i].Live? || ts[j].Live?;
    }
  }

  lemma {:induction false} PushQueued(ts: seq<Tile>, k: nat, t: Tile, x: int)
    requires k < |ts| && ts[k].Live? && t.Live? && t.addr == ts[k].addr && t.refs > 0
    ensures Queued(ts[k := t], x) <==> Queued(ts, x) || x == t.addr
  {
    var us := ts[k := t];
    assert us[k].Live?;
    if Queued(ts, x) {
      var i :| 0 <= i < |ts| && ts[i].Live? && ts[i].addr == x && ts[i].refs > 0;
      assert us[i].Live? && us[i].addr == x && us[i].refs > 0;
    }
    if Queued(us, x) && x != t.addr {
      var i :| 0 <= i < |us| && us[i].Live? && us[i].addr == x && us[i].refs > 0;
      assert ts[i] == us[i];
    }
  }

  /** A block without references is not queued. */
  lemma {:induction false} UnreferencedUnqueued(ts: seq<Tile>, lo: int, hi: int, k: nat)
    requires Tiled(ts, lo, hi) && Sized(ts) && k < |ts| && ts[k].Live? && ts[k].refs <= 0
    ensures !Queued(ts, ts[k].addr)
  {
    NotElsewhere(ts, lo, hi, k, k, k + 1);
    QueuedSplice(ts, k, 1, [], ts[k].addr);
  }

  lemma {:induction false} PushInv(p: Pool, lo: int, hi: int, k: nat)
    requires Inv(p, lo, hi) && LiveAt(p.tiles, k) && p.tiles[k].refs < MAXREFS
    ensures Inv(Push(p, k), lo, hi)
  {
    var ts := p.tiles;
    SameBlocksTiled(ts, Push(p, k).tiles, lo, hi);
    if ts[k].refs == 0 {
      UnreferencedUnqueued(ts, lo, hi, k);
    } else {
      assert Queued(ts, ts[k].addr);
    }
    forall x ensures x in Push(p, k).queue <==> Queued(Push(p, k).tiles, x) {
      PushQueued(ts, k, ts[k].(state := 0, refs := ts[k].refs + 1), x);
    }
  }

  lemma {:induction false} PopInv(p: Pool, lo: int, hi: int)
    requires Inv(p, lo, hi)
    ensures Inv(Pop(p), lo, hi)
  {
    var ts, us := p.tiles, Pop(p).tiles;
    SameBlocksTiled(ts, us, lo, hi);
    forall x ensures Queued(us, x) <==> Queued(ts, x) {
      if Queued(ts, x) {
        var i :| 0 <= i < |ts| && ts[i].Live? && ts[i].addr == x && ts[i].refs > 0;
        assert us[i].Live? && us[i].addr == x && us[i].refs > 0;
      }
      if Queued(us, x) {
        var i :| 0 <= i < |us| && us[i].Live? && us[i].addr == x && us[i].refs > 0;
        assert ts[i].Live? && ts[i].addr == x && ts[i].refs > 0;
      }
    }
  }
}
