/** The queue of an lbuf pool over whole runs: order, at-most-once delivery, and what clear frees. */
module PoolQueue {
  import opened Tiling
  import opened PoolSpec
  import opened PoolInvariant
  import opened PoolRuns

  // ---- what is still to be delivered ----

  /** Block a has been pushed and not been delivered since. */
  ghost predicate Pending(ts: seq<Tile>, a: int) {
    exists t :: t in ts && t.Live? && t.addr == a && t.refs > 0 && t.state == 0
  }

  /** Pop's own test agrees with it for every entry of the queue. */
  lemma {:induction false} WaitingIsPending(p: Pool, lo: int, hi: int, a: int)
    requires Inv(p, lo, hi) && a in p.queue
    ensures Waiting(p.tiles, a) <==> Pending(p.tiles, a)
  {
    QueuedIndex(p, lo, hi, a);
    if Pending(p.tiles, a) {
      var t :| t in p.tiles && t.Live? && t.addr == a && t.refs > 0 && t.state == 0;
      AddressOfLive(p.tiles, lo, hi, t);
    }
  }

  lemma {:induction false} PendingQueued(p: Pool, lo: int, hi: int, a: int)
    requires Inv(p, lo, hi) && Pending(p.tiles, a)
    ensures a in p.queue
  {
    var t :| t in p.tiles && t.Live? && t.addr == a && t.refs > 0 && t.state == 0;
    AddressOfLive(p.tiles, lo, hi, t);
    assert Queued(p.tiles, a);
  }

  /** No block of us is pending that was not pending in ts. */
  ghost predicate NoNewPending(ts: seq<Tile>, us: seq<Tile>) {
    forall t :: t in us && t.Live? && t.refs > 0 ==>
      exists s :: s in ts && s.Live? && s.addr == t.addr && s.refs == t.refs && s.state == t.state
  }

  lemma NoNewPendingUse(ts: seq<Tile>, us: seq<Tile>, a: int)
    requires NoNewPending(ts, us) && Pending(us, a)
    ensures Pending(ts, a)
  {
  }

  lemma {:induction false} SpliceNoNew(ts: seq<Tile>, k: nat, n: nat, mid: seq<Tile>)
    requires k + n <= |ts|
    requires forall t :: t in mid && t.Live? && t.refs > 0 ==>
      exists s :: s in ts && s.Live? && s.addr == t.addr && s.refs == t.refs && s.state == t.state
    ensures NoNewPending(ts, Splice(ts, k, n, mid))
  {
    forall t | t in Splice(ts, k, n, mid) && t.Live? && t.refs > 0
      ensures exists s :: s in ts && s.Live? && s.addr == t.addr && s.refs == t.refs && s.state == t.state
    {
      if t !in mid { assert t in ts; }
    }
  }

  lemma {:induction false} NoNewTrans(ts: seq<Tile>, us: seq<Tile>, vs: seq<Tile>)
    requires NoNewPending(ts, us) && NoNewPending(us, vs)
    ensures NoNewPending(ts, vs)
  {
  }

  lemma {:induction false} ReleaseNoNew(ts: seq<Tile>, k: nat)
    requires k < |ts|
    ensures NoNewPending(ts, Release(ts, k))
  {
    var l, r := SpanStart(ts, k), SpanStop(ts, k);
    SpliceNoNew(ts, l, r - l, [Free(ts[l].addr, ts[r - 1].Finish() - ts[l].addr)]);
  }

  lemma {:induction false} ReallocNoNew(p: Pool, k: nat, size: int)
    requires LiveAt(p.tiles, k)
    ensures NoNewPending(p.tiles, Realloc(p, k, size).tiles)
  {
    if Shrinks(p.tiles[k], size) {
      var n := RoundUp(size) + HENTRY;
      var mid := Cut(p.tiles[k], n, 0);
      forall t | t in mid && t.Live? && t.refs > 0
        ensures exists s :: s in p.tiles && s.Live? && s.addr == t.addr && s.refs == t.refs && s.state == t.state
      {
        assert t == mid[0] && p.tiles[k] in p.tiles;
      }
      SpliceNoNew(p.tiles, k, 1, mid);
      ReleaseNoNew(CutPool(p, k, n, 0).tiles, k + 1);
      NoNewTrans(p.tiles, CutPool(p, k, n, 0).tiles, Realloc(p, k, size).tiles);
    } else {
      assert forall t :: t in p.tiles ==> exists s :: s in p.tiles && s == t;
    }
  }

  lemma {:induction false} ClearNothingPending(p: Pool, lo: int, hi: int, a: int)
    requires Inv(p, lo, hi)
    ensures !Pending(Clear(p).tiles, a)
  {
    ClearInv(p, lo, hi);
    if Pending(Clear(p).tiles, a) { PendingQueued(Clear(p), lo, hi, a); }
  }

  // ---- at most one delivery per push ----

  function Delivers(p: Pool, op: Op, a: int): int {
    if op.PopOp? && PopResult(p) == a + HENTRY then 1 else 0
  }

  function Pushes(op: Op, a: int): int {
    if op == PushOp(a) then 1 else 0
  }

  ghost function Owed(p: Pool, a: int): int {
    if Pending(p.tiles, a) then 1 else 0
  }

  /** A pop that delivers a finds it pending and leaves it not pending. */
  lemma {:induction false} PopDelivers(p: Pool, lo: int, hi: int, a: int)
    requires Inv(p, lo, hi) && 0 <= a
    ensures PopResult(p) == a + HENTRY ==> Pending(p.tiles, a) && !Pending(Pop(p).tiles, a)
    ensures Pending(Pop(p).tiles, a) ==> Pending(p.tiles, a)
    ensures PopResult(p) != a + HENTRY && Pending(p.tiles, a) ==> Pending(Pop(p).tiles, a)
  {
    var ts := p.tiles;
    var i := FirstWaiting(ts, p.queue);
    if i < |p.queue| {
      var b := p.queue[i];
      QueuedIndex(p, lo, hi, b);
      var k := Index(ts, b);
      var us := ts[k := ts[k].(state := 1)];
      WaitingIsPending(p, lo, hi, b);
      PopOthers(ts, lo, hi, k, a);
      PopInv(p, lo, hi);
      if PopResult(p) == a + HENTRY && Pending(us, a) {
        var t :| t in us && t.Live? && t.addr == a && t.refs > 0 && t.state == 0;
        AddressOfLive(us, lo, hi, t);
        IndexOf(us, lo, hi, k);
      }
    }
  }

  /** Marking block k as delivered changes nothing for another block. */
  lemma {:induction false} PopOthers(ts: seq<Tile>, lo: int, hi: int, k: nat, a: int)
    requires LiveAt(ts, k)
    ensures Pending(ts[k := ts[k].(state := 1)], a) ==> Pending(ts, a)
    ensures a != ts[k].addr && Pending(ts, a) ==> Pending(ts[k := ts[k].(state := 1)], a)
  {
    var us := ts[k := ts[k].(state := 1)];
    if Pending(us, a) {
      var t :| t in us && t.Live? && t.addr == a && t.refs > 0 && t.state == 0;
      assert t in ts;
    }
    if a != ts[k].addr && Pending(ts, a) {
      var t :| t in ts && t.Live? && t.addr == a && t.refs > 0 && t.state == 0;
      var i :| 0 <= i < |ts| && ts[i] == t;
      assert us[i] == t;
    }
  }

  /** Pushing block k makes it pending and changes nothing for another block. */
  lemma {:induction false} PushPending(p: Pool, lo: int, hi: int, k: nat, a: int)
    requires Inv(p, lo, hi) && LiveAt(p.tiles, k) && 0 <= p.tiles[k].refs
    ensures a != p.tiles[k].addr && Pending(Push(p, k).tiles, a) ==> Pending(p.tiles, a)
    ensures Pending(Push(p, k).tiles, p.tiles[k].addr)
  {
    var ts, us := p.tiles, Push(p, k).tiles;
    assert us[k] in us;
    if a != ts[k].addr && Pending(us, a) {
      var t :| t in us && t.Live? && t.addr == a && t.refs > 0 && t.state == 0;
      assert t in ts;
    }
  }

  /** One step: what is owed for a, plus what is delivered, never exceeds what was owed plus what is pushed. */
  lemma {:induction false} StepOwed(p: Pool, lo: int, hi: int, op: Op, a: int)
    requires Inv(p, lo, hi) && Legal(p, op) && 0 <= a
    ensures Owed(Step(p, op), a) + Delivers(p, op, a) <= Owed(p, a) + Pushes(op, a)
  {
    var q := Step(p, op);
    match op {
      case AllocOp(len) =>
        var k := FirstFit(p.tiles, Need(len));
        if k < |p.tiles| { SpliceNoNew(p.tiles, k, 1, Carve(p.tiles[k], Need(len))); }
        if Pending(q.tiles, a) && k < |p.tiles| { NoNewPendingUse(p.tiles, q.tiles, a); }
      case FreeOp(b) =>
        ReleaseNoNew(p.tiles, Index(p.tiles, b));
        if Pending(q.tiles, a) { NoNewPendingUse(p.tiles, q.tiles, a); }
      case ReallocOp(b, size) =>
        ReallocNoNew(p, Index(p.tiles, b), size);
        if Pending(q.tiles, a) { NoNewPendingUse(p.tiles, q.tiles, a); }
      case PushOp(b) => PushPending(p, lo, hi, Index(p.tiles, b), a);
      case PopOp => PopDelivers(p, lo, hi, a);
      case ClearOp => ClearNothingPending(p, lo, hi, a);
    }
  }

  function Deliveries(p: Pool, ops: seq<Op>, a: int): int
    requires LegalRun(p, ops)
    decreases |ops|
  {
    if ops == [] then 0 else Delivers(p, ops[0], a) + Deliveries(Step(p, ops[0]), ops[1..], a)
  }

  function PushCount(ops: seq<Op>, a: int): int {
    if ops == [] then 0 else Pushes(ops[0], a) + PushCount(ops[1..], a)
  }

  lemma {:induction false} RunOwed(p: Pool, lo: int, hi: int, ops: seq<Op>, a: int)
    requires Inv(p, lo, hi) && LegalRun(p, ops) && 0 <= a
    ensures Owed(Run(p, ops), a) + Deliveries(p, ops, a) <= Owed(p, a) + PushCount(ops, a)
    decreases |ops|
  {
    if ops != [] {
      StepInv(p, lo, hi, ops[0]);
      StepOwed(p, lo, hi, ops[0], a);
      RunOwed(Step(p, ops[0]), lo, hi, ops[1..], a);
    }
  }

  /** Over any run from a fresh pool, no block is delivered more often than it was pushed. */
  lemma {:induction false} AtMostOncePerPush(lo: int, hi: int, ops: seq<Op>, a: int)
    requires lo % 4 == 0 && lo + HFREE <= hi && LegalRun(Fresh(lo, hi), ops) && 0 <= a
    ensures Deliveries(Fresh(lo, hi), ops, a) <= PushCount(ops, a)
  {
    FreshInv(lo, hi);
    RunOwed(Fresh(lo, hi), lo, hi, ops, a);
  }

  // ---- first pushed, first delivered ----

  ghost predicate Before(q: seq<int>, a: int, b: int) {
    exists i, j :: 0 <= i < j < |q| && q[i] == a && q[j] == b
  }

  lemma {:induction false} WithoutOrder(q: seq<int>, x: int, a: int, b: int)
    requires Before(q, a, b) && x != a && x != b
    ensures Before(Without(q, x), a, b)
  {
    var i, j :| 0 <= i < j < |q| && q[i] == a && q[j] == b;
    WithoutOrderAt(q, x, i, j);
  }

  lemma {:induction false} WithoutHas(q: seq<int>, x: int, j: nat) returns (j': nat)
    requires j < |q| && q[j] != x
    ensures j' < |Without(q, x)| && Without(q, x)[j'] == q[j]
  {
    if j == 0 {
      j' := 0;
    } else if q[0] == x {
      j' := j - 1;
    } else {
      var r := WithoutHas(q[1..], x, j - 1);
      j' := r + 1;
    }
  }

  lemma {:induction false} WithoutOrderAt(q: seq<int>, x: int, i: nat, j: nat)
    requires i < j < |q| && q[i] != x && q[j] != x
    ensures Before(Without(q, x), q[i], q[j])
    decreases |q|
  {
    var w := Without(q, x);
    if q[0] == x {
      assert w[i - 1] == q[i] && w[j - 1] == q[j];
    } else if i == 0 {
      var r := WithoutHas(q[1..], x, j - 1);
      assert w[0] == q[0] && w[r + 1] == q[j];
    } else {
      WithoutOrderAt(q[1..], x, i - 1, j - 1);
      var i', j' :| 0 <= i' < j' < |Without(q[1..], x)| && Without(q[1..], x)[i'] == q[i] && Without(q[1..], x)[j'] == q[j];
      assert w[i' + 1] == q[i] && w[j' + 1] == q[j];
    }
  }

  /** No operation reorders two blocks that stay in the queue. */
  lemma {:induction false} StepKeepsOrder(p: Pool, lo: int, hi: int, op: Op, a: int, b: int)
    requires Inv(p, lo, hi) && Legal(p, op)
    requires Before(p.queue, a, b)
    requires a in Step(p, op).queue && b in Step(p, op).queue
    ensures Before(Step(p, op).queue, a, b)
  {
    match op {
      case FreeOp(c) =>
        var x := p.tiles[Index(p.tiles, c)].addr;
        WithoutFacts(p.queue, x);
        WithoutOrder(p.queue, x, a, b);
      case PushOp(c) =>
        var i, j :| 0 <= i < j < |p.queue| && p.queue[i] == a && p.queue[j] == b;
        assert Step(p, op).queue[i] == a && Step(p, op).queue[j] == b;
      case ClearOp => ClearInv(p, lo, hi);
      case AllocOp(_) =>
      case ReallocOp(_, _) =>
      case PopOp =>
    }
  }

  /** Pop never passes over a waiting block. */
  lemma {:induction false} PopIsFirst(p: Pool, lo: int, hi: int, a: int, b: int)
    requires Inv(p, lo, hi) && Before(p.queue, a, b) && Pending(p.tiles, a)
    ensures PopResult(p) != b + HENTRY
  {
    var i, j :| 0 <= i < j < |p.queue| && p.queue[i] == a && p.queue[j] == b;
    WaitingIsPending(p, lo, hi, a);
    var f := FirstWaiting(p.tiles, p.queue);
    assert f <= i;
  }

  /** Both blocks are in the queue at the start and after every step. */
  ghost predicate StayQueued(p: Pool, ops: seq<Op>, a: int, b: int)
    requires LegalRun(p, ops)
    decreases |ops|
  {
    && a in p.queue && b in p.queue
    && (ops != [] ==> StayQueued(Step(p, ops[0]), ops[1..], a, b))
  }

  /** A block that stays queued stays pending until it is delivered. */
  lemma {:induction false} StepStaysPending(p: Pool, lo: int, hi: int, op: Op, a: int)
    requires Inv(p, lo, hi) && Legal(p, op) && 0 <= a
    requires Pending(p.tiles, a) && a in Step(p, op).queue && Delivers(p, op, a) == 0
    ensures Pending(Step(p, op).tiles, a)
  {
    var ts := p.tiles;
    var q := Step(p, op);
    var t :| t in ts && t.Live? && t.addr == a && t.refs > 0 && t.state == 0;
    match op {
      case AllocOp(len) =>
        if FirstFit(ts, Need(len)) < |ts| { SpliceKeeps(ts, FirstFit(ts, Need(len)), Carve(ts[FirstFit(ts, Need(len))], Need(len)), t); }
      case FreeOp(c) =>
        WithoutFacts(p.queue, ts[Index(ts, c)].addr);
        ReleaseKeeps(ts, lo, hi, Index(ts, c));
      case ReallocOp(c, size) =>
        if Shrinks(ts[Index(ts, c)], size) { ReallocKeeps(p, lo, hi, Index(ts, c), size, q.tiles, t); }
      case PushOp(c) => PushKeeps(p, Index(ts, c), t);
      case PopOp => PopDelivers(p, lo, hi, a);
      case ClearOp => ClearInv(p, lo, hi);
    }
  }

  lemma {:induction false} SpliceKeeps(ts: seq<Tile>, k: nat, mid: seq<Tile>, t: Tile)
    requires k < |ts| && t in ts && t != ts[k]
    ensures t in Splice(ts, k, 1, mid)
  {
    var i :| 0 <= i < |ts| && ts[i] == t;
    if i < k { assert Splice(ts, k, 1, mid)[i] == t; } else { assert Splice(ts, k, 1, mid)[i - 1 + |mid|] == t; }
  }

  lemma {:induction false} ReallocKeeps(p: Pool, lo: int, hi: int, k: nat, size: int, us: seq<Tile>, t: Tile)
    requires Inv(p, lo, hi) && LiveAt(p.tiles, k) && 0 <= size && Shrinks(p.tiles[k], size)
    requires us == Realloc(p, k, size).tiles && t in p.tiles && t.Live?
    ensures exists s :: s in us && s.Live? && s.addr == t.addr && s.refs == t.refs && s.state == t.state
  {
    ReallocShrinks(p, lo, hi, k, size);
    var nextFree := k + 1 < |p.tiles| && p.tiles[k + 1].Free?;
    CutKeeps(p.tiles, us, k, if nextFree then k + 2 else k + 1, us[k], us[k + 1], t);
  }

  lemma {:induction false} CutKeeps(ts: seq<Tile>, us: seq<Tile>, k: nat, r: nat, head: Tile, rest: Tile, t: Tile)
    requires k < r <= |ts| && LiveAt(ts, k) && us == ts[..k] + [head, rest] + ts[r..]
    requires (forall i :: k < i < r ==> ts[i].Free?) && head.Live?
    requires head.addr == ts[k].addr && head.refs == ts[k].refs && head.state == ts[k].state
    requires t in ts && t.Live?
    ensures exists s :: s in us && s.Live? && s.addr == t.addr && s.refs == t.refs && s.state == t.state
  {
    var i :| 0 <= i < |ts| && ts[i] == t;
    if i < k {
      assert us[i] == t;
    } else if i == k {
      assert us[k] == head;
    } else {
      assert us[i - r + k + 2] == t;
    }
  }

  lemma {:induction false} PushKeeps(p: Pool, k: nat, t: Tile)
    requires LiveAt(p.tiles, k) && t in p.tiles && t.Live? && t.refs > 0 && t.state == 0
    ensures Pending(Push(p, k).tiles, t.addr)
  {
    var i :| 0 <= i < |p.tiles| && p.tiles[i] == t;
    var us := Push(p, k).tiles;
    assert us[i] in us;
  }

  /** Of two queued blocks, the one pushed later is not delivered before the earlier one. */
  lemma {:induction false} FirstPushedFirst(p: Pool, lo: int, hi: int, ops: seq<Op>, a: int, b: int)
    requires Inv(p, lo, hi) && LegalRun(p, ops) && 0 <= a && 0 <= b
    requires Before(p.queue, a, b) && Pending(p.tiles, a) && StayQueued(p, ops, a, b)
    requires Deliveries(p, ops, a) == 0
    ensures Deliveries(p, ops, b) == 0
    decreases |ops|
  {
    if ops != [] {
      var q := Step(p, ops[0]);
      DeliveriesNonNegative(q, ops[1..], a);
      StepInv(p, lo, hi, ops[0]);
      StepKeepsOrder(p, lo, hi, ops[0], a, b);
      StepStaysPending(p, lo, hi, ops[0], a);
      PopIsFirst(p, lo, hi, a, b);
      FirstPushedFirst(q, lo, hi, ops[1..], a, b);
    }
  }

  /** Without puts nothing in front of anything: what comes first in it came first before. */
  lemma {:induction false} WithoutBehind(q: seq<int>, x: int, a: int, b: int)
    requires Before(Without(q, x), b, a)
    ensures Before(q, b, a)
    decreases |q|
  {
    var w := Without(q, x);
    var i, j :| 0 <= i < j < |w| && w[i] == b && w[j] == a;
    if q[0] == x {
      assert q[i + 1] == b && q[j + 1] == a;
    } else if i == 0 {
      var k := WithoutFrom(q[1..], x, j - 1);
      assert q[0] == b && q[k + 1] == a;
    } else {
      var v := Without(q[1..], x);
      assert v[i - 1] == b && v[j - 1] == a;
      WithoutBehind(q[1..], x, a, b);
      var m, n :| 0 <= m < n < |q[1..]| && q[1..][m] == b && q[1..][n] == a;
      assert q[m + 1] == b && q[n + 1] == a;
    }
  }

  lemma {:induction false} WithoutFrom(q: seq<int>, x: int, j: nat) returns (k: nat)
    requires j < |Without(q, x)|
    ensures k < |q| && q[k] == Without(q, x)[j]
  {
    if q[0] == x {
      k := j + 1;
    } else if j == 0 {
      k := 0;
    } else {
      var r := WithoutFrom(q[1..], x, j - 1);
      k := r + 1;
    }
  }

  /** No operation puts a block in front of one that stays queued. */
  lemma {:induction false} StepKeepsBehind(p: Pool, lo: int, hi: int, op: Op, a: int, b: int)
    requires Inv(p, lo, hi) && Legal(p, op) && a in p.queue && a in Step(p, op).queue
    requires Before(Step(p, op).queue, b, a)
    ensures Before(p.queue, b, a)
  {
    match op {
      case FreeOp(c) => WithoutBehind(p.queue, p.tiles[Index(p.tiles, c)].addr, a, b);
      case PushOp(c) => PushBehind(p, lo, hi, Index(p.tiles, c), a, b);
      case ClearOp => ClearInv(p, lo, hi);
      case AllocOp(_) =>
      case ReallocOp(_, _) =>
      case PopOp =>
    }
  }

  lemma {:induction false} PushBehind(p: Pool, lo: int, hi: int, k: nat, a: int, b: int)
    requires Inv(p, lo, hi) && LiveAt(p.tiles, k) && a in p.queue && Before(Push(p, k).queue, b, a)
    ensures Before(p.queue, b, a)
  {
    var q := Push(p, k).queue;
    var i, j :| 0 <= i < j < |q| && q[i] == b && q[j] == a;
    if p.tiles[k].refs == 0 {
      UnreferencedUnqueued(p.tiles, lo, hi, k);
      assert j < |p.queue| by { assert a != p.tiles[k].addr; }
    }
    assert p.queue[i] == b && p.queue[j] == a;
  }

  /** Pop does not deliver a block that is not in front of a waiting one. */
  lemma {:induction false} PopNotBehind(p: Pool, lo: int, hi: int, a: int, b: int)
    requires Inv(p, lo, hi) && a in p.queue && Pending(p.tiles, a) && a != b && !Before(p.queue, b, a) && b + HENTRY != NULL
    ensures PopResult(p) != b + HENTRY
  {
    WaitingIsPending(p, lo, hi, a);
    var f := FirstWaiting(p.tiles, p.queue);
    var i :| 0 <= i < |p.queue| && p.queue[i] == a;
    if f < i { assert p.queue[f] != b; }
  }

  /** The block is in the queue at the start and after every step. */
  ghost predicate StaysQueued(p: Pool, ops: seq<Op>, a: int)
    requires LegalRun(p, ops)
    decreases |ops|
  {
    a in p.queue && (ops != [] ==> StaysQueued(Step(p, ops[0]), ops[1..], a))
  }

  /** While a block stays queued and undelivered, over any run, no other block is delivered that was not in front of it,
      whenever that one is pushed, freed or pushed again. */
  lemma {:induction false} NoOvertaking(p: Pool, lo: int, hi: int, ops: seq<Op>, a: int, b: int)
    requires Inv(p, lo, hi) && LegalRun(p, ops) && 0 <= a && 0 <= b && a != b
    requires Pending(p.tiles, a) && !Before(p.queue, b, a) && StaysQueued(p, ops, a) && Deliveries(p, ops, a) == 0
    ensures Deliveries(p, ops, b) == 0
    decreases |ops|
  {
    if ops != [] {
      var op, q := ops[0], Step(p, ops[0]);
      DeliveriesNonNegative(q, ops[1..], a);
      StepInv(p, lo, hi, op);
      StepStaysPending(p, lo, hi, op, a);
      PopNotBehind(p, lo, hi, a, b);
      if Before(q.queue, b, a) { StepKeepsBehind(p, lo, hi, op, a, b); }
      NoOvertaking(q, lo, hi, ops[1..], a, b);
    }
  }

  lemma {:induction false} DeliveriesNonNegative(p: Pool, ops: seq<Op>, a: int)
    requires LegalRun(p, ops)
    ensures 0 <= Deliveries(p, ops, a)
    decreases |ops|
  {
    if ops != [] { DeliveriesNonNegative(Step(p, ops[0]), ops[1..], a); }
  }

  /** A first push puts the block behind everything queued so far. */
  lemma {:induction false} PushIsLast(p: Pool, lo: int, hi: int, k: nat, b: int)
    requires Inv(p, lo, hi) && LiveAt(p.tiles, k) && p.tiles[k].refs == 0 && b in p.queue
    ensures Before(Push(p, k).queue, b, p.tiles[k].addr)
  {
    var i :| 0 <= i < |p.queue| && p.queue[i] == b;
    assert Push(p, k).queue[i] == b && Push(p, k).queue[|p.queue|] == p.tiles[k].addr;
  }

  // ---- everything pushed is delivered ----

  /** Pop answers with a block exactly if one is pending. */
  lemma {:induction false} PopSome(p: Pool, lo: int, hi: int)
    requires Inv(p, lo, hi) && 0 < lo
    ensures PopResult(p) != NULL <==> exists a :: Pending(p.tiles, a)
    ensures PopResult(p) != NULL ==> Pending(p.tiles, PopResult(p) - HENTRY) && PopResult(p) - HENTRY in p.queue
  {
    var i := FirstWaiting(p.tiles, p.queue);
    if i < |p.queue| {
      WaitingIsPending(p, lo, hi, p.queue[i]);
      QueuedAbove(p, lo, hi, p.queue[i]);
    }
    if a :| Pending(p.tiles, a) {
      PendingQueued(p, lo, hi, a);
      WaitingIsPending(p, lo, hi, a);
    }
  }

  /** What it answers with is not pending any more. */
  lemma {:induction false} PopAnswer(p: Pool, lo: int, hi: int)
    requires Inv(p, lo, hi) && 0 < lo && PopResult(p) != NULL
    ensures !Pending(Pop(p).tiles, PopResult(p) - HENTRY)
  {
    PopSome(p, lo, hi);
    QueuedAbove(p, lo, hi, PopResult(p) - HENTRY);
    PopDelivers(p, lo, hi, PopResult(p) - HENTRY);
  }

  lemma {:induction false} PopSays(p: Pool, lo: int, hi: int, ret: int, q: Pool)
    requires Inv(p, lo, hi) && 0 < lo && ret == PopResult(p) && q == Pop(p)
    ensures ret == NULL <==> forall a :: !Pending(p.tiles, a)
    ensures ret != NULL ==> Pending(p.tiles, ret - HENTRY) && !Pending(q.tiles, ret - HENTRY)
  {
    PopSome(p, lo, hi);
    if ret != NULL { PopAnswer(p, lo, hi); }
  }

  lemma QueuedAbove(p: Pool, lo: int, hi: int, a: int)
    requires Inv(p, lo, hi) && a in p.queue
    ensures lo <= a
  {
    QueuedIndex(p, lo, hi, a);
    TiledApart(p.tiles, lo, hi);
  }

  /** How many blocks are pending in the queue up to and including a. */
  ghost function Ahead(ts: seq<Tile>, q: seq<int>, a: int): nat {
    if q == [] then 0
    else (if Pending(ts, q[0]) then 1 else 0) + (if q[0] == a then 0 else Ahead(ts, q[1..], a))
  }

  lemma {:induction false} AheadSome(ts: seq<Tile>, q: seq<int>, a: int)
    requires a in q && Pending(ts, a)
    ensures Ahead(ts, q, a) > 0
  {
    if q[0] != a { AheadSome(ts, q[1..], a); }
  }

  /** Fewer pending blocks, fewer ahead. */
  lemma {:induction false} AheadLess(ts: seq<Tile>, us: seq<Tile>, q: seq<int>, a: int)
    requires forall b :: b in q && Pending(us, b) ==> Pending(ts, b)
    ensures Ahead(us, q, a) <= Ahead(ts, q, a)
  {
    if q != [] { AheadLess(ts, us, q[1..], a); }
  }

  lemma {:induction false} AheadWithout(ts: seq<Tile>, q: seq<int>, x: int, a: int)
    requires x != a
    ensures Ahead(ts, Without(q, x), a) <= Ahead(ts, q, a)
  {
    if q != [] && q[0] != x { AheadWithout(ts, q[1..], x, a); }
  }

  lemma {:induction false} AheadAppend(ts: seq<Tile>, q: seq<int>, x: int, a: int)
    requires a in q
    ensures Ahead(ts, q + [x], a) == Ahead(ts, q, a)
  {
    assert (q + [x])[0] == q[0];
    if q[0] != a {
      assert (q + [x])[1..] == q[1..] + [x];
      AheadAppend(ts, q[1..], x, a);
    }
  }

  /** One more pending block counts once, and only if it is in front of a. */
  lemma {:induction false} AheadMore(ts: seq<Tile>, us: seq<Tile>, q: seq<int>, a: int, b: int)
    requires forall i, j :: 0 <= i < j < |q| ==> q[i] != q[j]
    requires forall c :: c in q && c != b && Pending(us, c) ==> Pending(ts, c)
    requires a in q && (b == a ==> Pending(ts, a))
    ensures Ahead(us, q, a) <= Ahead(ts, q, a) + (if Before(q, b, a) then 1 else 0)
  {
    if q[0] == a {
    } else if q[0] == b {
      assert b !in q[1..];
      AheadLess(ts, us, q[1..], a);
      var j :| 0 <= j < |q| && q[j] == a;
      assert Before(q, b, a);
    } else {
      AheadMore(ts, us, q[1..], a, b);
      if Before(q[1..], b, a) {
        var i, j :| 0 <= i < j < |q[1..]| && q[1..][i] == b && q[1..][j] == a;
        assert q[i + 1] == b && q[j + 1] == a;
      }
    }
  }

  /** One pending block less, at a place not behind a. */
  lemma {:induction false} AheadPopped(ts: seq<Tile>, us: seq<Tile>, q: seq<int>, a: int, f: nat, i: nat)
    requires f <= i < |q| && q[i] == a && Pending(ts, q[f]) && !Pending(us, q[f])
    requires forall j :: 0 <= j < i ==> q[j] != a
    requires forall b :: b in q && Pending(us, b) ==> Pending(ts, b)
    ensures Ahead(us, q, a) + 1 <= Ahead(ts, q, a)
    decreases f
  {
    if f == 0 {
      AheadLess(ts, us, q[1..], a);
    } else {
      AheadPopped(ts, us, q[1..], a, f - 1, i - 1);
    }
  }

  function IsPop(op: Op): int { if op.PopOp? then 1 else 0 }

  function PopCount(ops: seq<Op>): int {
    if ops == [] then 0 else IsPop(ops[0]) + PopCount(ops[1..])
  }

  /** Whether the step pushes a block that is queued in front of a. */
  ghost function PushedAhead(p: Pool, op: Op, a: int): int {
    if op.PushOp? && Before(p.queue, op.a, a) then 1 else 0
  }

  ghost function PushesAhead(p: Pool, ops: seq<Op>, a: int): int
    requires LegalRun(p, ops)
    decreases |ops|
  {
    if ops == [] then 0 else PushedAhead(p, ops[0], a) + PushesAhead(Step(p, ops[0]), ops[1..], a)
  }

  /** No step but a push of b makes b pending. */
  lemma {:induction false} StepNoNew(p: Pool, lo: int, hi: int, op: Op, b: int)
    requires Inv(p, lo, hi) && 0 < lo && Legal(p, op) && b in p.queue && op != PushOp(b) && Pending(Step(p, op).tiles, b)
    ensures Pending(p.tiles, b)
  {
    QueuedAbove(p, lo, hi, b);
    StepOwed(p, lo, hi, op, b);
  }

  /** While a stays queued and undelivered, a pop leaves fewer blocks ahead of it, and only a push of one of those more. */
  lemma {:induction false} StepAhead(p: Pool, lo: int, hi: int, op: Op, a: int, q: Pool)
    requires Inv(p, lo, hi) && 0 < lo && Legal(p, op) && q == Step(p, op)
    requires Pending(p.tiles, a) && a in p.queue && a in q.queue && Delivers(p, op, a) == 0
    ensures Ahead(q.tiles, q.queue, a) + IsPop(op) <= Ahead(p.tiles, p.queue, a) + PushedAhead(p, op, a)
  {
    forall b | b in p.queue && op != PushOp(b) && Pending(q.tiles, b) ensures Pending(p.tiles, b) {
      StepNoNew(p, lo, hi, op, b);
    }
    match op {
      case AllocOp(_) => AheadLess(p.tiles, q.tiles, p.queue, a);
      case ReallocOp(_, _) => AheadLess(p.tiles, q.tiles, p.queue, a);
      case FreeOp(c) => FreeAhead(p, q, Index(p.tiles, c), a);
      case PushOp(c) => PushAhead(p, q, Index(p.tiles, c), a);
      case PopOp => PopAhead(p, lo, hi, a);
      case ClearOp => ClearInv(p, lo, hi);
    }
  }

  lemma {:induction false} FreeAhead(p: Pool, q: Pool, k: nat, a: int)
    requires QueueOk(p) && LiveAt(p.tiles, k) && q == FreeBlock(p, k) && a in q.queue
    requires forall b :: b in p.queue && Pending(q.tiles, b) ==> Pending(p.tiles, b)
    ensures Ahead(q.tiles, q.queue, a) <= Ahead(p.tiles, p.queue, a)
  {
    WithoutFacts(p.queue, p.tiles[k].addr);
    AheadLess(p.tiles, q.tiles, q.queue, a);
    AheadWithout(p.tiles, p.queue, p.tiles[k].addr, a);
  }

  lemma {:induction false} PushAhead(p: Pool, q: Pool, k: nat, a: int)
    requires QueueOk(p) && LiveAt(p.tiles, k) && q == Push(p, k) && a in p.queue && Pending(p.tiles, a)
    requires forall b :: b in p.queue && b != p.tiles[k].addr && Pending(q.tiles, b) ==> Pending(p.tiles, b)
    ensures Ahead(q.tiles, q.queue, a) <= Ahead(p.tiles, p.queue, a) + (if Before(p.queue, p.tiles[k].addr, a) then 1 else 0)
  {
    AheadMore(p.tiles, q.tiles, p.queue, a, p.tiles[k].addr);
    if q.queue != p.queue { AheadAppend(q.tiles, p.queue, p.tiles[k].addr, a); }
  }

  lemma {:induction false} PopAhead(p: Pool, lo: int, hi: int, a: int)
    requires Inv(p, lo, hi) && 0 < lo && Pending(p.tiles, a) && a in p.queue
    requires forall b :: b in p.queue && Pending(Pop(p).tiles, b) ==> Pending(p.tiles, b)
    ensures Ahead(Pop(p).tiles, Pop(p).queue, a) + 1 <= Ahead(p.tiles, p.queue, a)
  {
    var f := FirstWaiting(p.tiles, p.queue);
    var i :| 0 <= i < |p.queue| && p.queue[i] == a;
    WaitingIsPending(p, lo, hi, a);
    QueuedAbove(p, lo, hi, p.queue[f]);
    PopDelivers(p, lo, hi, p.queue[f]);
    AheadPopped(p.tiles, Pop(p).tiles, p.queue, a, f, i);
  }

  /** A pending block that stays queued is delivered as soon as there are as many pops as blocks were pending up to it
      and are pushed again in front of it. */
  lemma {:induction false} DeliveredInTime(p: Pool, lo: int, hi: int, ops: seq<Op>, a: int)
    requires Inv(p, lo, hi) && 0 < lo && LegalRun(p, ops) && 0 <= a
    requires Pending(p.tiles, a) && StaysQueued(p, ops, a)
    requires Ahead(p.tiles, p.queue, a) + PushesAhead(p, ops, a) <= PopCount(ops)
    ensures Deliveries(p, ops, a) > 0
    decreases |ops|
  {
    AheadSome(p.tiles, p.queue, a);
    var op, q := ops[0], Step(p, ops[0]);
    StepInv(p, lo, hi, op);
    DeliveriesNonNegative(q, ops[1..], a);
    if Delivers(p, op, a) == 0 {
      StepStaysPending(p, lo, hi, op, a);
      StepAhead(p, lo, hi, op, a, q);
      DeliveredInTime(q, lo, hi, ops[1..], a);
    }
  }

  // ---- clear ----

  /** The live blocks that are in no queue. */
  function Unqueued(ls: seq<Tile>): seq<Tile> {
    if ls == [] then []
    else if ls[0].Live? && ls[0].refs == 0 then [ls[0]] + Unqueued(ls[1..])
    else Unqueued(ls[1..])
  }

  lemma {:induction false} UnqueuedConcat(a: seq<Tile>, b: seq<Tile>)
    ensures Unqueued(a + b) == Unqueued(a) + Unqueued(b)
    decreases |a|
  {
    if a == [] {
      assert a + b == b;
    } else {
      var c := a + b;
      UnqueuedConcat(a[1..], b);
      assert c[1..] == a[1..] + b && c[0] == a[0];
    }
  }

  lemma {:induction false} AllUnqueued(ts: seq<Tile>)
    requires forall i :: 0 <= i < |ts| && ts[i].Live? ==> ts[i].refs == 0
    ensures Unqueued(Lives(ts)) == Lives(ts)
    decreases |ts|
  {
    if ts != [] {
      AllUnqueued(ts[1..]);
      if ts[0].Live? {
        assert Lives(ts)[1..] == Lives(ts[1..]);
      }
    }
  }

  /** Freeing a queued block does not touch the unqueued ones. */
  lemma {:induction false} FreeUnqueued(p: Pool, lo: int, hi: int, k: nat)
    requires Inv(p, lo, hi) && LiveAt(p.tiles, k) && p.tiles[k].refs > 0
    ensures Unqueued(Lives(FreeBlock(p, k).tiles)) == Unqueued(Lives(p.tiles))
  {
    ReleaseKeeps(p.tiles, lo, hi, k);
    UnqueuedMiddle(Lives(p.tiles[..k]), p.tiles[k], Lives(p.tiles[k + 1..]));
  }

  lemma {:induction false} UnqueuedMiddle(a: seq<Tile>, t: Tile, b: seq<Tile>)
    requires t.Live? && t.refs > 0
    ensures Unqueued(a + [t] + b) == Unqueued(a + b)
  {
    UnqueuedConcat(a + [t], b);
    UnqueuedConcat(a, [t]);
    UnqueuedConcat(a, b);
  }

  lemma {:induction false} EmptyQueueUnqueued(p: Pool)
    requires QueueOk(p) && p.queue == []
    ensures Unqueued(Lives(p.tiles)) == Lives(p.tiles)
  {
    forall i | 0 <= i < |p.tiles| && p.tiles[i].Live? ensures p.tiles[i].refs == 0 {
      if p.tiles[i].refs > 0 { assert Queued(p.tiles, p.tiles[i].addr); }
    }
    AllUnqueued(p.tiles);
  }

  /** Clear frees the queued blocks and leaves the other live ones, in place and unchanged. */
  lemma {:induction false} ClearFreesQueued(p: Pool, lo: int, hi: int)
    requires Inv(p, lo, hi)
    ensures Lives(Clear(p).tiles) == Unqueued(Lives(p.tiles))
    decreases |p.queue|
  {
    if p.queue == [] {
      EmptyQueueUnqueued(p);
    } else {
      var k := Index(p.tiles, p.queue[0]);
      QueuedIndex(p, lo, hi, p.queue[0]);
      FreeInv(p, lo, hi, k);
      FreeUnqueued(p, lo, hi, k);
      ClearFreesQueued(FreeBlock(p, k), lo, hi);
    }
  }
}
