/** The RAM of the target, and the intrusive doubly linked lists that live in it.
    A field of a C structure is one cell, kept at the field's own address; a list_head at
    address a has its next pointer at a and its prev pointer at a + 4. */
module Memory {

  type Mem = map<int, int>

  function Rd(m: Mem, a: int): int { if a in m then m[a] else 0 }

  function Wr(m: Mem, a: int, v: int): Mem { m[a := v] }

  const PREV := 4
  /** sizeof(struct list_head) */
  const LINKS := 8

  /** The effect of __list_add. */
  function Added(m: Mem, x: int, prev: int, next: int): Mem {
    Wr(Wr(Wr(Wr(m, next + PREV, x), x, next), x + PREV, prev), prev, x)
  }

  /** The effect of __list_del. */
  function Deleted(m: Mem, prev: int, next: int): Mem {
    if prev == 0 || next == 0 then m else Wr(Wr(m, next + PREV, prev), prev, next)
  }

  /** The effect of INIT_LIST_HEAD. */
  function Selfed(m: Mem, a: int): Mem {
    Wr(Wr(m, a, a), a + PREV, a)
  }

  /** Once around a circular list, from its head back to its head. */
  function Ring(s: int, ns: seq<int>): seq<int> { [s] + ns + [s] }

  /** ns are the nodes of a well-formed circular list with head s. */
  ghost predicate Linked(m: Mem, s: int, ns: seq<int>) {
    var c := Ring(s, ns);
    forall i, j :: 0 <= i < |c| - 1 && j == i + 1 ==> Rd(m, c[i]) == c[j] && Rd(m, c[j] + PREV) == c[i]
  }

  ghost predicate Distant(a: int, b: int) { a + LINKS <= b || b + LINKS <= a }

  /** Head and nodes occupy disjoint cells, none of them at address 0. */
  ghost predicate Spread(s: int, ns: seq<int>) {
    && 0 < s
    && (forall i :: 0 <= i < |ns| ==> Distant(s, ns[i]) && 0 < ns[i])
    && (forall i, j :: 0 <= i < j < |ns| ==> Distant(ns[i], ns[j]))
  }

  /** m' has the same links as m in the list with head s and nodes ns. */
  ghost predicate SameLinks(m: Mem, m': Mem, s: int, ns: seq<int>) {
    && Rd(m', s) == Rd(m, s) && Rd(m', s + PREV) == Rd(m, s + PREV)
    && forall i :: 0 <= i < |ns| ==> Rd(m', ns[i]) == Rd(m, ns[i]) && Rd(m', ns[i] + PREV) == Rd(m, ns[i] + PREV)
  }

  lemma LinkedFrame(m: Mem, m': Mem, s: int, ns: seq<int>)
    requires Linked(m, s, ns) && SameLinks(m, m', s, ns)
    ensures Linked(m', s, ns)
  {
    var c := Ring(s, ns);
    forall i, j | 0 <= i < |c| - 1 && j == i + 1 ensures Rd(m', c[i]) == c[j] && Rd(m', c[j] + PREV) == c[i] {
      if 0 < i { assert c[i] == ns[i - 1]; }
      if j <= |ns| { assert c[j] == ns[j - 1]; }
    }
  }

  /** Two places of a ring, not both its head, are distinct nodes. */
  lemma RingDistant(s: int, ns: seq<int>, i: nat, j: nat)
    requires Spread(s, ns) && i < j <= |ns| + 1 && !(i == 0 && j == |ns| + 1)
    ensures Distant(Ring(s, ns)[i], Ring(s, ns)[j])
  {
    var c := Ring(s, ns);
    assert i > 0 ==> c[i] == ns[i - 1];
    assert j <= |ns| ==> c[j] == ns[j - 1];
  }

  /** What a memory looks like after __list_add between two neighbours of a ring. */
  lemma AddedReads(m: Mem, x: int, prev: int, next: int, y: int)
    requires Distant(x, prev) && Distant(x, next)
    requires prev == next || Distant(prev, next)
    ensures Rd(Added(m, x, prev, next), prev) == x && Rd(Added(m, x, prev, next), next + PREV) == x
    ensures Rd(Added(m, x, prev, next), x) == next && Rd(Added(m, x, prev, next), x + PREV) == prev
    ensures y != prev && y != next + PREV && y != x && y != x + PREV ==> Rd(Added(m, x, prev, next), y) == Rd(m, y)
  {
  }

  lemma LinkAt(m: Mem, s: int, ns: seq<int>, i: nat)
    requires Linked(m, s, ns) && i <= |ns|
    ensures var c := Ring(s, ns); Rd(m, c[i]) == c[i + 1] && Rd(m, c[i + 1] + PREV) == c[i]
  {
    var c := Ring(s, ns);
    var j := i + 1;
    assert Rd(m, c[i]) == c[j];
  }

  /** __list_add between the nodes at places j and j + 1 of the ring inserts x there. */
  lemma {:induction false} AddLinked(m: Mem, s: int, ns: seq<int>, j: nat, x: int)
    requires Linked(m, s, ns) && Spread(s, ns) && j <= |ns|
    requires Distant(x, s) && forall i :: 0 <= i < |ns| ==> Distant(x, ns[i])
    ensures Linked(Added(m, x, Ring(s, ns)[j], Ring(s, ns)[j + 1]), s, ns[..j] + [x] + ns[j..])
  {
    var c := Ring(s, ns);
    var d := Ring(s, ns[..j] + [x] + ns[j..]);
    assert d == c[..j + 1] + [x] + c[j + 1..];
    forall p, q | 0 <= p < |d| - 1 && q == p + 1
      ensures var m' := Added(m, x, c[j], c[j + 1]); Rd(m', d[p]) == d[q] && Rd(m', d[q] + PREV) == d[p]
    {
      if p == j || p == j + 1 {
        NewLinks(m, s, ns, j, x);
      } else {
        var i := if p < j then p else p - 1;
        assert d[p] == c[i] && d[q] == c[i + 1];
        LinkAt(m, s, ns, i);
        AddFrame(m, s, ns, j, x, i);
      }
    }
  }

  /** The two new links. */
  lemma NewLinks(m: Mem, s: int, ns: seq<int>, j: nat, x: int)
    requires Spread(s, ns) && j <= |ns| && Distant(x, s) && forall i :: 0 <= i < |ns| ==> Distant(x, ns[i])
    ensures var prev, next := Ring(s, ns)[j], Ring(s, ns)[j + 1];
      var m' := Added(m, x, prev, next);
      Rd(m', prev) == x && Rd(m', x + PREV) == prev && Rd(m', x) == next && Rd(m', next + PREV) == x
  {
    RingNode(s, ns, j, x);
    RingNode(s, ns, j + 1, x);
    if |ns| > 0 { RingDistant(s, ns, j, j + 1); }
    AddedReads(m, x, Ring(s, ns)[j], Ring(s, ns)[j + 1], 0);
  }

  /** Links elsewhere in the ring are untouched by the insertion. */
  lemma {:induction false} AddFrame(m: Mem, s: int, ns: seq<int>, j: nat, x: int, i: nat)
    requires Spread(s, ns) && j <= |ns| && i <= |ns| && i != j
    requires Distant(x, s) && forall i :: 0 <= i < |ns| ==> Distant(x, ns[i])
    ensures var c := Ring(s, ns);
      var m' := Added(m, x, c[j], c[j + 1]);
      Rd(m', c[i]) == Rd(m, c[i]) && Rd(m', c[i + 1] + PREV) == Rd(m, c[i + 1] + PREV)
  {
    var c := Ring(s, ns);
    PairApart(s, ns, i, j);
    RingNode(s, ns, i, x);
    RingNode(s, ns, i + 1, x);
    RingNode(s, ns, j, x);
    RingNode(s, ns, j + 1, x);
    if |ns| > 0 { RingDistant(s, ns, j, j + 1); }
    AddedReads(m, x, c[j], c[j + 1], c[i]);
    AddedReads(m, x, c[j], c[j + 1], c[i + 1] + PREV);
  }

  lemma RingNode(s: int, ns: seq<int>, i: nat, x: int)
    requires i <= |ns| + 1 && Distant(x, s) && forall i :: 0 <= i < |ns| ==> Distant(x, ns[i])
    ensures Distant(x, Ring(s, ns)[i])
  {
    assert 0 < i <= |ns| ==> Ring(s, ns)[i] == ns[i - 1];
  }

  /** Two different links of a ring share no cell. */
  lemma {:induction false} PairApart(s: int, ns: seq<int>, i: nat, j: nat)
    requires Spread(s, ns) && j <= |ns| && i <= |ns| && i != j
    ensures var c := Ring(s, ns);
      && c[i] != c[j] && c[i] != c[j + 1] + PREV && c[i + 1] + PREV != c[j] && c[i + 1] != c[j + 1]
  {
    var c := Ring(s, ns);
    assert 0 < i ==> c[i] == ns[i - 1];
    assert i < |ns| ==> c[i + 1] == ns[i];
    assert 0 < j ==> c[j] == ns[j - 1];
    assert j < |ns| ==> c[j + 1] == ns[j];
  }

  /** __list_add between the neighbours of node j puts x in its place. */
  lemma {:induction false} ReplaceLinked(m: Mem, s: int, ns: seq<int>, j: nat, x: int)
    requires Linked(m, s, ns) && Spread(s, ns) && j < |ns|
    requires Distant(x, s) && forall i :: 0 <= i < |ns| ==> Distant(x, ns[i])
    ensures Linked(Added(m, x, Ring(s, ns)[j], Ring(s, ns)[j + 2]), s, ns[j := x])
  {
    var c := Ring(s, ns);
    var d := Ring(s, ns[j := x]);
    assert d == c[j + 1 := x];
    forall p, q | 0 <= p < |d| - 1 && q == p + 1
      ensures var m' := Added(m, x, c[j], c[j + 2]); Rd(m', d[p]) == d[q] && Rd(m', d[q] + PREV) == d[p]
    {
      if p == j || p == j + 1 {
        NewPlace(m, s, ns, j, x, 0);
      } else {
        assert d[p] == c[p] && d[q] == c[q];
        LinkAt(m, s, ns, p);
        SkipFrame(s, ns, j, p);
        RingNode(s, ns, p, x);
        RingNode(s, ns, q, x);
        NewPlace(m, s, ns, j, x, c[p]);
        NewPlace(m, s, ns, j, x, c[q] + PREV);
      }
    }
  }

  /** Memory after a node has come between the neighbours of node j. */
  lemma NewPlace(m: Mem, s: int, ns: seq<int>, j: nat, x: int, y: int)
    requires Spread(s, ns) && j < |ns| && Distant(x, s) && forall i :: 0 <= i < |ns| ==> Distant(x, ns[i])
    ensures var prev, next := Ring(s, ns)[j], Ring(s, ns)[j + 2];
      var m' := Added(m, x, prev, next);
      && Rd(m', prev) == x && Rd(m', x + PREV) == prev && Rd(m', x) == next && Rd(m', next + PREV) == x
      && (y != prev && y != next + PREV && y != x && y != x + PREV ==> Rd(m', y) == Rd(m, y))
  {
    RingNode(s, ns, j, x);
    RingNode(s, ns, j + 2, x);
    if |ns| > 1 { RingDistant(s, ns, j, j + 2); }
    AddedReads(m, x, Ring(s, ns)[j], Ring(s, ns)[j + 2], y);
  }

  /** A link away from node j is none of the cells around node j. */
  lemma {:induction false} SkipFrame(s: int, ns: seq<int>, j: nat, p: nat)
    requires Spread(s, ns) && j < |ns| && p <= |ns| && p != j && p != j + 1
    ensures var c := Ring(s, ns);
      && c[p] != c[j] && c[p] != c[j + 2] + PREV && c[p + 1] + PREV != c[j] && c[p + 1] != c[j + 2]
  {
    var c := Ring(s, ns);
    assert 0 < p ==> c[p] == ns[p - 1];
    assert p < |ns| ==> c[p + 1] == ns[p];
    assert 0 < j ==> c[j] == ns[j - 1];
    assert j + 1 < |ns| ==> c[j + 2] == ns[j + 1];
  }

  /** What a memory looks like after __list_del. */
  lemma DeletedReads(m: Mem, prev: int, next: int, y: int)
    requires 0 < prev && 0 < next && (prev == next || Distant(prev, next))
    ensures Rd(Deleted(m, prev, next), prev) == next && Rd(Deleted(m, prev, next), next + PREV) == prev
    ensures y != prev && y != next + PREV ==> Rd(Deleted(m, prev, next), y) == Rd(m, y)
  {
  }

  /** __list_del of node j takes it out of the list. */
  lemma {:induction false} DeleteLinked(m: Mem, s: int, ns: seq<int>, j: nat)
    requires Linked(m, s, ns) && Spread(s, ns) && j < |ns|
    ensures Linked(Deleted(m, Ring(s, ns)[j], Ring(s, ns)[j + 2]), s, ns[..j] + ns[j + 1..])
  {
    var c := Ring(s, ns);
    assert 0 < j ==> c[j] == ns[j - 1];
    assert j + 1 < |ns| ==> c[j + 2] == ns[j + 1];
    if |ns| > 1 { RingDistant(s, ns, j, j + 2); }
    DeletedReads(m, c[j], c[j + 2], 0);
    forall p | 0 <= p <= |ns| && p != j && p != j + 1
      ensures Rd(Deleted(m, c[j], c[j + 2]), c[p]) == c[p + 1] && Rd(Deleted(m, c[j], c[j + 2]), c[p + 1] + PREV) == c[p]
    {
      SkipFrame(s, ns, j, p);
      DeletedReads(m, c[j], c[j + 2], c[p]);
      DeletedReads(m, c[j], c[j + 2], c[p + 1] + PREV);
    }
    WithoutNode(Deleted(m, c[j], c[j + 2]), s, ns, j);
  }

  /** The links around the gap and those elsewhere make up the shorter list. */
  lemma {:induction false} WithoutNode(m: Mem, s: int, ns: seq<int>, j: nat)
    requires j < |ns|
    requires var c := Ring(s, ns); Rd(m, c[j]) == c[j + 2] && Rd(m, c[j + 2] + PREV) == c[j]
    requires var c := Ring(s, ns);
      forall p :: 0 <= p <= |ns| && p != j && p != j + 1 ==> Rd(m, c[p]) == c[p + 1] && Rd(m, c[p + 1] + PREV) == c[p]
    ensures Linked(m, s, ns[..j] + ns[j + 1..])
  {
    var c, d := Ring(s, ns), Ring(s, ns[..j] + ns[j + 1..]);
    assert d == c[..j + 1] + c[j + 2..];
    forall p, q | 0 <= p < |d| - 1 && q == p + 1 ensures Rd(m, d[p]) == d[q] && Rd(m, d[q] + PREV) == d[p] {
      if p != j {
        var i := if p < j then p else p + 1;
        assert d[p] == c[i] && d[q] == c[i + 1];
      }
    }
  }

  // ---- what a write leaves alone ----

  /** Only cells in a..b may differ. */
  ghost predicate SameOutside(m: Mem, m': Mem, a: int, b: int) {
    forall y :: y < a || b <= y ==> Rd(m', y) == Rd(m, y)
  }

  /** The links of a list that keeps clear of a..b. */
  ghost predicate Clear(s: int, ns: seq<int>, a: int, b: int) {
    && (s + LINKS <= a || b <= s)
    && forall i :: 0 <= i < |ns| ==> ns[i] + LINKS <= a || b <= ns[i]
  }

  lemma LinkedOutside(m: Mem, m': Mem, s: int, ns: seq<int>, a: int, b: int)
    requires Linked(m, s, ns) && SameOutside(m, m', a, b) && Clear(s, ns, a, b)
    ensures Linked(m', s, ns)
  {
    LinkedFrame(m, m', s, ns);
  }
}
