/** The arena of one lbuf pool as a sequence of blocks in address order, without any memory:
    what a tiling is, which free list belongs to it, and what the pool operations do to it. */
module Tiling {

  // sizeof(struct hfree), sizeof(struct hentry) and the size of the pool head on the 32-bit target
  const HFREE := 12
  const HENTRY := 20
  const HPOOL := 16

  /** A block header together with the bytes it owns; len includes the header. */
  datatype Tile =
    | Free(addr: int, len: int)
    | Live(addr: int, len: int, state: int, refs: int)
  {
    function Finish(): int { addr + len }

    /** The smallest length the header of this block fits in. */
    function Floor(): int { if Free? then HFREE else HENTRY }
  }

  /** The blocks cover lo..hi exactly: no gap and no overlap. */
  ghost predicate Tiled(ts: seq<Tile>, lo: int, hi: int) {
    && (|ts| == 0 ==> lo == hi)
    && (|ts| > 0 ==> ts[0].addr == lo && ts[|ts| - 1].Finish() == hi)
    && forall i, j :: 0 <= i < |ts| - 1 && j == i + 1 ==> ts[i].Finish() == ts[j].addr
  }

  ghost predicate Sized(ts: seq<Tile>) {
    forall i :: 0 <= i < |ts| ==> ts[i].Floor() <= ts[i].len && ts[i].addr % 4 == 0
  }

  /** No two neighbouring blocks are both free. */
  ghost predicate Coalesced(ts: seq<Tile>) {
    forall i, j :: 0 <= i < |ts| - 1 && j == i + 1 ==> ts[i].Live? || ts[j].Live?
  }

  /** The header addresses of the free blocks, in address order. */
  function FreeAddrs(ts: seq<Tile>): seq<int> {
    if ts == [] then []
    else if ts[0].Free? then [ts[0].addr] + FreeAddrs(ts[1..])
    else FreeAddrs(ts[1..])
  }

  /** The live blocks, in address order. */
  function Lives(ts: seq<Tile>): seq<Tile> {
    if ts == [] then []
    else if ts[0].Live? then [ts[0]] + Lives(ts[1..])
    else Lives(ts[1..])
  }

  function FreeBytes(ts: seq<Tile>): int {
    if ts == [] then 0 else (if ts[0].Free? then ts[0].len else 0) + FreeBytes(ts[1..])
  }

  function LiveBytes(ts: seq<Tile>): int {
    if ts == [] then 0 else (if ts[0].Live? then ts[0].len else 0) + LiveBytes(ts[1..])
  }

  // ---- order and position ----

  /** Earlier blocks end before later ones begin. */
  lemma {:induction false} Ordered(ts: seq<Tile>, lo: int, hi: int, i: nat, j: nat)
    requires Tiled(ts, lo, hi) && Sized(ts)
    requires i < j < |ts|
    ensures ts[i].Finish() <= ts[j].addr
    decreases j - i
  {
    if i + 1 < j {
      Ordered(ts, lo, hi, i, j - 1);
      assert ts[j - 1].Finish() == ts[j].addr;
    }
  }

  ghost predicate Apart(ts: seq<Tile>, lo: int, hi: int) {
    && (forall i, j :: 0 <= i < j < |ts| ==> ts[i].Finish() <= ts[j].addr)
    && (forall i :: 0 <= i < |ts| ==> lo <= ts[i].addr && ts[i].Finish() <= hi)
  }

  lemma {:induction false} TiledApart(ts: seq<Tile>, lo: int, hi: int)
    requires Tiled(ts, lo, hi) && Sized(ts)
    ensures Apart(ts, lo, hi)
  {
    forall i, j | 0 <= i < j < |ts| ensures ts[i].Finish() <= ts[j].addr {
      Ordered(ts, lo, hi, i, j);
    }
    forall i | 0 <= i < |ts| ensures lo <= ts[i].addr && ts[i].Finish() <= hi {
      if 0 < i { Ordered(ts, lo, hi, 0, i); }
      if i < |ts| - 1 { Ordered(ts, lo, hi, i, |ts| - 1); }
    }
  }

  lemma {:induction false} FreeAddrsConcat(a: seq<Tile>, b: seq<Tile>)
    ensures FreeAddrs(a + b) == FreeAddrs(a) + FreeAddrs(b)
  {
    if a == [] {
      assert a + b == b;
    } else {
      FreeAddrsConcat(a[1..], b);
      assert (a + b)[1..] == a[1..] + b;
    }
  }

  lemma {:induction false} LivesConcat(a: seq<Tile>, b: seq<Tile>)
    ensures Lives(a + b) == Lives(a) + Lives(b)
  {
    if a == [] {
      assert a + b == b;
    } else {
      LivesConcat(a[1..], b);
      assert (a + b)[1..] == a[1..] + b;
    }
  }

  /** Splits the free list around block k. */
  lemma {:induction false} FreeAddrsAround(ts: seq<Tile>, k: nat)
    requires k < |ts|
    ensures FreeAddrs(ts) == FreeAddrs(ts[..k]) + (if ts[k].Free? then [ts[k].addr] else []) + FreeAddrs(ts[k + 1..])
  {
    assert ts == ts[..k] + ([ts[k]] + ts[k + 1..]);
    FreeAddrsConcat(ts[..k], [ts[k]] + ts[k + 1..]);
    FreeAddrsConcat([ts[k]], ts[k + 1..]);
    assert FreeAddrs([ts[k]]) == if ts[k].Free? then [ts[k].addr] else [];
  }

  lemma {:induction false} LivesAround(ts: seq<Tile>, k: nat)
    requires k < |ts|
    ensures Lives(ts) == Lives(ts[..k]) + (if ts[k].Live? then [ts[k]] else []) + Lives(ts[k + 1..])
  {
    assert ts == ts[..k] + ([ts[k]] + ts[k + 1..]);
    LivesConcat(ts[..k], [ts[k]] + ts[k + 1..]);
    LivesConcat([ts[k]], ts[k + 1..]);
    assert Lives([ts[k]]) == if ts[k].Live? then [ts[k]] else [];
  }

  /** The block behind the j-th entry of the free list. */
  lemma {:induction false} FreeTileAt(ts: seq<Tile>, j: nat) returns (k: nat)
    requires j < |FreeAddrs(ts)|
    ensures k < |ts| && ts[k].Free? && ts[k].addr == FreeAddrs(ts)[j]
    ensures |FreeAddrs(ts[..k])| == j
  {
    if ts[0].Free? && j == 0 {
      k := 0;
    } else {
      var k' := FreeTileAt(ts[1..], if ts[0].Free? then j - 1 else j);
      k := k' + 1;
      assert ts[..k][1..] == ts[1..][..k'];
    }
  }

  // ---- uniqueness ----

  /** In a given arena the coalesced tiling is determined by its live blocks alone. */
  lemma {:induction false} Canonical(a: seq<Tile>, b: seq<Tile>, lo: int, hi: int)
    requires Tiled(a, lo, hi) && Sized(a) && Coalesced(a)
    requires Tiled(b, lo, hi) && Sized(b) && Coalesced(b)
    requires Lives(a) == Lives(b)
    ensures a == b
    decreases |a|
  {
    if a == [] || b == [] {
      TiledApart(a, lo, hi);
      TiledApart(b, lo, hi);
    } else {
      SameHead(a, b, lo, hi);
      TiledTail(a, lo, hi);
      TiledTail(b, lo, hi);
      Canonical(a[1..], b[1..], a[0].Finish(), hi);
      assert a == [a[0]] + a[1..] && b == [b[0]] + b[1..];
    }
  }

  lemma {:induction false} TiledTail(ts: seq<Tile>, lo: int, hi: int)
    requires Tiled(ts, lo, hi) && Sized(ts) && Coalesced(ts) && ts != []
    ensures Tiled(ts[1..], ts[0].Finish(), hi) && Sized(ts[1..]) && Coalesced(ts[1..])
  {
    var us := ts[1..];
    forall i, j | 0 <= i < |us| - 1 && j == i + 1
      ensures us[i].Finish() == us[j].addr && (us[i].Live? || us[j].Live?)
    {
      assert us[i] == ts[i + 1] && us[j] == ts[j + 1];
    }
  }

  /** The first live block is the first or the second one. */
  lemma {:induction false} FirstLive(ts: seq<Tile>)
    requires Coalesced(ts) && ts != []
    ensures ts[0].Live? ==> Lives(ts) != [] && Lives(ts)[0] == ts[0]
    ensures ts[0].Free? && |ts| > 1 ==> Lives(ts) != [] && Lives(ts)[0] == ts[1]
    ensures ts[0].Free? && |ts| == 1 ==> Lives(ts) == []
  {
    if ts[0].Free? && |ts| > 1 {
      assert ts[1].Live?;
      assert ts[1..][0] == ts[1];
    }
  }

  lemma {:induction false} SameHead(a: seq<Tile>, b: seq<Tile>, lo: int, hi: int)
    requires Tiled(a, lo, hi) && Sized(a) && Coalesced(a) && a != []
    requires Tiled(b, lo, hi) && Sized(b) && Coalesced(b) && b != []
    requires Lives(a) == Lives(b)
    ensures a[0] == b[0] && Lives(a[1..]) == Lives(b[1..])
  {
    FirstLive(a);
    FirstLive(b);
    if a[0].Live? || b[0].Live? {
      assert a[0] == b[0];
      assert Lives(a)[1..] == Lives(a[1..]) && Lives(b)[1..] == Lives(b[1..]);
    } else {
      if |a| > 1 { assert a[0].Finish() == a[1].addr; assert b[0].Finish() == b[1].addr; }
    }
  }

  /** Free and live bytes together are the arena. */
  lemma {:induction false} Conservation(ts: seq<Tile>, lo: int, hi: int)
    requires Tiled(ts, lo, hi) && Sized(ts)
    ensures FreeBytes(ts) + LiveBytes(ts) == hi - lo
    decreases |ts|
  {
    if ts != [] {
      var us := ts[1..];
      assert Tiled(us, ts[0].Finish(), hi) by {
        forall i, j | 0 <= i < |us| - 1 && j == i + 1 ensures us[i].Finish() == us[j].addr {
          assert us[i] == ts[i + 1] && us[j] == ts[j + 1];
        }
      }
      Conservation(us, ts[0].Finish(), hi);
    }
  }
}
