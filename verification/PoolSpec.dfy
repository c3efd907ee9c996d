/** What the operations of an lbuf pool do, as functions on its blocks and its queue, and the
    invariant every one of them keeps. Blocks are named by the address of their header. */
module PoolSpec {
  import opened Tiling

  const NULL := 0
  /** The largest value of the signed char that counts a block's references. */
  const MAXREFS := 127

  datatype Pool = Pool(tiles: seq<Tile>, queue: seq<int>)

  // ---- the invariant ----

  /** Block a is live and has been pushed. */
  ghost predicate Queued(ts: seq<Tile>, a: int) {
    exists k :: 0 <= k < |ts| && ts[k].Live? && ts[k].addr == a && ts[k].refs > 0
  }

  ghost predicate RefsOk(ts: seq<Tile>) {
    forall k :: 0 <= k < |ts| && ts[k].Live? ==> 0 <= ts[k].refs <= MAXREFS
  }

  /** The queue lists every live block with references once, and nothing else. */
  ghost predicate QueueOk(p: Pool) {
    && RefsOk(p.tiles)
    && (forall i, j :: 0 <= i < j < |p.queue| ==> p.queue[i] != p.queue[j])
    && (forall a :: a in p.queue <==> Queued(p.tiles, a))
  }

  ghost predicate Inv(p: Pool, lo: int, hi: int) {
    && Tiled(p.tiles, lo, hi)
    && Sized(p.tiles)
    && Coalesced(p.tiles)
    && QueueOk(p)
    && lo < hi
  }

  /** A pool right after initialisation. */
  function Fresh(lo: int, hi: int): Pool {
    Pool([Free(lo, hi - lo)], [])
  }

  // ---- locating blocks ----

  function Index(ts: seq<Tile>, a: int): (k: nat)
    ensures k <= |ts|
    ensures k < |ts| ==> ts[k].addr == a
    ensures forall i :: 0 <= i < k ==> ts[i].addr != a
  {
    if ts == [] then 0
    else if ts[0].addr == a then 0
    else
      var k := Index(ts[1..], a);
      assert forall i :: 0 < i < k + 1 ==> ts[i] == ts[1..][i - 1];
      k + 1
  }


  lemma {:induction false} IndexOf(ts: seq<Tile>, lo: int, hi: int, k: nat)
    requires Tiled(ts, lo, hi) && Sized(ts) && k < |ts|
    ensures Index(ts, ts[k].addr) == k
  {
    TiledApart(ts, lo, hi);
    var i := Index(ts, ts[k].addr);
  }

  predicate Fits(t: Tile, n: int) { t.Free? && n <= t.len }

  function FirstFit(ts: seq<Tile>, n: int): (k: nat)
    ensures k <= |ts|
    ensures k < |ts| ==> Fits(ts[k], n)
    ensures forall i :: 0 <= i < k ==> !Fits(ts[i], n)
  {
    if ts == [] then 0
    else if Fits(ts[0], n) then 0
    else
      var k := FirstFit(ts[1..], n);
      assert forall i :: 0 < i < k + 1 ==> ts[i] == ts[1..][i - 1];
      k + 1
  }

  // ---- operations ----

  /** Replaces n blocks from index k on. */
  function Splice(ts: seq<Tile>, k: nat, n: nat, mid: seq<Tile>): seq<Tile>
    requires k + n <= |ts|
  {
    ts[..k] + mid + ts[k + n..]
  }

  function RoundUp(n: int): int { if n % 4 == 0 then n else n + 4 - n % 4 }

  /** The block length that a request of len payload bytes asks for. */
  function Need(len: int): int { RoundUp(len + HENTRY) }

  function Carve(t: Tile, n: int): seq<Tile> {
    if t.len > n + HFREE then [Live(t.addr, n, 0, 0), Free(t.addr + n, t.len - n)]
    else [Live(t.addr, t.len, 0, 0)]
  }

  function Alloc(p: Pool, len: int): Pool {
    var k := FirstFit(p.tiles, Need(len));
    if k < |p.tiles| then p.(tiles := Splice(p.tiles, k, 1, Carve(p.tiles[k], Need(len)))) else p
  }

  /** The payload address Alloc hands out. */
  function AllocResult(p: Pool, len: int): int {
    var k := FirstFit(p.tiles, Need(len));
    if k < |p.tiles| then p.tiles[k].addr + HENTRY else NULL
  }

  /** Blocks l..r as one free block. */
  function Fuse(ts: seq<Tile>, l: nat, r: nat): seq<Tile>
    requires l < r <= |ts|
  {
    Splice(ts, l, r - l, [Free(ts[l].addr, ts[r - 1].Finish() - ts[l].addr)])
  }

  function SpanStart(ts: seq<Tile>, k: nat): nat
    requires k < |ts|
  {
    if 0 < k && ts[k - 1].Free? then k - 1 else k
  }

  function SpanStop(ts: seq<Tile>, k: nat): nat
    requires k < |ts|
  {
    if k + 1 < |ts| && ts[k + 1].Free? then k + 2 else k + 1
  }

  /** Frees block k and joins it with the free blocks before and after it. */
  function Release(ts: seq<Tile>, k: nat): seq<Tile>
    requires k < |ts|
  {
    Fuse(ts, SpanStart(ts, k), SpanStop(ts, k))
  }

  function Without(q: seq<int>, a: int): seq<int> {
    if q == [] then [] else if q[0] == a then q[1..] else [q[0]] + Without(q[1..], a)
  }

  predicate LiveAt(ts: seq<Tile>, k: nat) { k < |ts| && ts[k].Live? }

  function FreeBlock(p: Pool, k: nat): Pool
    requires LiveAt(p.tiles, k)
  {
    Pool(Release(p.tiles, k), Without(p.queue, p.tiles[k].addr))
  }

  /** Cuts a live block down to n bytes; the tail becomes a live block of its own. */
  function Cut(t: Tile, n: int, state: int): seq<Tile>
    requires t.Live?
  {
    [t.(len := n), Live(t.addr + n, t.len - n, state, 0)]
  }

  /** The pool between the two halves of a shrinking realloc: the tail is a live block. */
  function CutPool(p: Pool, k: nat, n: int, state: int): Pool
    requires k < |p.tiles| && p.tiles[k].Live?
  {
    p.(tiles := Splice(p.tiles, k, 1, Cut(p.tiles[k], n, state)))
  }

  /** Whether shrinking block t to size payload bytes leaves room for another block. */
  predicate Shrinks(t: Tile, size: int) { RoundUp(size) + HENTRY + HENTRY < t.len }

  function Realloc(p: Pool, k: nat, size: int): Pool
    requires LiveAt(p.tiles, k)
  {
    if Shrinks(p.tiles[k], size) then
      p.(tiles := Release(CutPool(p, k, RoundUp(size) + HENTRY, 0).tiles, k + 1))
    else p
  }

  function ReallocResult(p: Pool, k: nat, size: int): int
    requires LiveAt(p.tiles, k)
  {
    if RoundUp(size) > p.tiles[k].len - HENTRY then NULL else p.tiles[k].addr + HENTRY
  }

  function Push(p: Pool, k: nat): Pool
    requires LiveAt(p.tiles, k)
  {
    var t := p.tiles[k];
    Pool(p.tiles[k := t.(state := 0, refs := t.refs + 1)], if t.refs == 0 then p.queue + [t.addr] else p.queue)
  }

  predicate Waiting(ts: seq<Tile>, a: int) {
    LiveAt(ts, Index(ts, a)) && ts[Index(ts, a)].state == 0
  }

  /** The first entry of the queue that has not been delivered since it was last pushed. */
  function FirstWaiting(ts: seq<Tile>, q: seq<int>): (i: nat)
    ensures i <= |q|
    ensures i < |q| ==> Waiting(ts, q[i])
    ensures forall j :: 0 <= j < i ==> !Waiting(ts, q[j])
  {
    if q == [] then 0
    else if Waiting(ts, q[0]) then 0
    else
      var i := FirstWaiting(ts, q[1..]);
      assert forall j :: 0 < j < i + 1 ==> q[j] == q[1..][j - 1];
      i + 1
  }

  function Pop(p: Pool): Pool {
    var i := FirstWaiting(p.tiles, p.queue);
    if i < |p.queue| then
      var k := Index(p.tiles, p.queue[i]);
      p.(tiles := p.tiles[k := p.tiles[k].(state := 1)])
    else p
  }

  function PopResult(p: Pool): int {
    var i := FirstWaiting(p.tiles, p.queue);
    if i < |p.queue| then p.queue[i] + HENTRY else NULL
  }

  // ---- splicing keeps a tiling ----

  ghost predicate Replaces(ts: seq<Tile>, k: nat, n: nat, mid: seq<Tile>) {
    && 0 < n && k + n <= |ts|
    && mid != []
    && Tiled(mid, ts[k].addr, ts[k + n - 1].Finish())
    && Sized(mid)
  }

  lemma {:induction false} SpliceTiled(ts: seq<Tile>, lo: int, hi: int, k: nat, n: nat, mid: seq<Tile>)
    requires Tiled(ts, lo, hi) && Sized(ts)
    requires Replaces(ts, k, n, mid)
    ensures Tiled(Splice(ts, k, n, mid), lo, hi) && Sized(Splice(ts, k, n, mid))
  {
    var us := Splice(ts, k, n, mid);
    forall i, j | 0 <= i < |us| - 1 && j == i + 1 ensures us[i].Finish() == us[j].addr {
      if i < k {
        assert us[i] == ts[i];
        assert ts[i].Finish() == ts[i + 1].addr;
        if j < k { assert us[j] == ts[j]; } else { assert us[j] == mid[0]; }
      } else if i < k + |mid| {
        assert us[i] == mid[i - k];
        if j < k + |mid| {
          assert us[j] == mid[j - k];
        } else {
          assert us[j] == ts[k + n];
          assert ts[k + n - 1].Finish() == ts[k + n].addr;
        }
      } else {
        assert us[i] == ts[i - |mid| - k + k + n] && us[j] == ts[i - |mid| + n + 1];
      }
    }
    assert us[0] == if k == 0 then mid[0] else ts[0];
    assert us[|us| - 1] == if k + n == |ts| then mid[|mid| - 1] else ts[|ts| - 1];
  }

  lemma {:induction false} SpliceLives(ts: seq<Tile>, k: nat, n: nat, mid: seq<Tile>)
    requires k + n <= |ts|
    ensures Lives(Splice(ts, k, n, mid)) == Lives(ts[..k]) + Lives(mid) + Lives(ts[k + n..])
  {
    LivesConcat(ts[..k] + mid, ts[k + n..]);
    LivesConcat(ts[..k], mid);
  }

  lemma {:induction false} SpliceCoalesced(ts: seq<Tile>, k: nat, n: nat, mid: seq<Tile>)
    requires Coalesced(ts) && k + n <= |ts| && mid != [] && Coalesced(mid)
    requires 0 < k && mid[0].Free? ==> ts[k - 1].Live?
    requires k + n < |ts| && mid[|mid| - 1].Free? ==> ts[k + n].Live?
    ensures Coalesced(Splice(ts, k, n, mid))
  {
    var us := Splice(ts, k, n, mid);
    forall i, j | 0 <= i < |us| - 1 && j == i + 1 ensures us[i].Live? || us[j].Live? {
      if j < k {
        assert us[i] == ts[i] && us[j] == ts[j];
      } else if j == k {
        assert us[i] == ts[k - 1] && us[j] == mid[0];
      } else if j < k + |mid| {
        assert us[i] == mid[i - k] && us[j] == mid[j - k];
      } else if j == k + |mid| {
        assert us[i] == mid[|mid| - 1] && us[j] == ts[k + n];
      } else {
        assert us[i] == ts[i - |mid| + n] && us[j] == ts[j - |mid| + n];
      }
    }
  }
}
