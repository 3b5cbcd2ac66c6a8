/** The locked ring queue (esl_proxy/include/algorithm/queue.h). Every operation runs under the queue's lock, so
    an interleaving of threads is a sequence of whole operations. */
module Queues {
  import opened Words
  import opened Sequences

  /** `(x + 1) & (RING_SIZE - 1)` for a power-of-two ring. */
  function Advance(x: nat, ring: nat): (r: nat)
    requires x < ring
    ensures r == if x + 1 == ring then 0 else x + 1
  {
    QuotientIs(x + 1, if x + 1 == ring then 1 else 0, if x + 1 == ring then 0 else x + 1, ring);
    (x + 1) % ring
  }

  /** Position of the i-th queued item. */
  function Spot(head: nat, i: nat, ring: nat): nat {
    if head + i < ring then head + i else head + i - ring
  }

  class RingQueue {
    const tasks: array<u32>
    var cnt: nat
    var head: nat
    var tail: nat

    ghost predicate Valid()
      reads this
    {
      && 0 < tasks.Length && cnt <= tasks.Length && head < tasks.Length && tail < tasks.Length
      && tail == Spot(head, cnt, tasks.Length)
    }

    ghost function Contents(): (s: seq<u32>)
      requires Valid()
      reads this, tasks
      ensures |s| == cnt
    {
      seq(cnt, i requires 0 <= i < cnt && Valid() reads this, tasks => tasks[Spot(head, i, tasks.Length)])
    }

    constructor (ring: nat)
      requires ring > 0
      ensures Valid() && fresh(tasks) && tasks.Length == ring && Contents() == [] && head == 0
    {
      tasks := new u32[ring](_ => 0);
      cnt, head, tail := 0, 0, 0;
    }

    /** enqueue: refused exactly when the ring is full. */
    method Enqueue(item: u32) returns (ok: bool)
      requires Valid()
      modifies this`cnt, this`tail, tasks
      ensures Valid() && ok == (|old(Contents())| < tasks.Length)
      ensures Contents() == if ok then old(Contents()) + [item] else old(Contents())
    {
      if cnt >= tasks.Length {
        return false;
      }
      tasks[tail] := item;
      tail := Advance(tail, tasks.Length);
      cnt := cnt + 1;
      ok := true;
    }

    /** dequeue: refused exactly when the queue is empty. */
    method Dequeue() returns (ok: bool, item: u32)
      requires Valid()
      modifies this`cnt, this`head
      ensures Valid() && ok == (old(Contents()) != [])
      ensures head == if ok then Advance(old(head), tasks.Length) else old(head)
      ensures ok ==> [item] + Contents() == old(Contents())
      ensures !ok ==> Contents() == old(Contents())
    {
      if cnt < 1 {
        return false, 0;
      }
      item := tasks[head];
      head := Advance(head, tasks.Length);
      cnt := cnt - 1;
      ok := true;
    }

    /** batch_enqueue. The copy neither splits nor wraps, so an accepted batch must fit between `tail` and the end
        of the ring; it acts as `|items|` single enqueues exactly when `tail + n` stays below the ring size. */
    method BatchEnqueue(items: seq<u32>) returns (ok: bool)
      requires Valid() && (cnt + |items| <= tasks.Length ==> tail + |items| <= tasks.Length)
      modifies this`cnt, this`tail, tasks
      ensures ok == (|old(Contents())| + |items| <= tasks.Length)
      ensures ok ==> (Valid() <==> old(tail) + |items| < tasks.Length)
      ensures ok && Valid() ==> Contents() == old(Contents()) + items
      ensures !ok ==> Valid() && Contents() == old(Contents())
    {
      if tasks.Length - cnt < |items| {
        return false;
      }
      forall i | 0 <= i < |items| {
        tasks[tail + i] := items[i];
      }
      tail := tail + |items|;
      cnt := cnt + |items|;
      ok := true;
    }

    /** batch_dequeue, in the same way at the other end. */
    method BatchDequeue(n: nat) returns (ok: bool, items: seq<u32>)
      requires Valid() && head + Min(cnt, n) <= tasks.Length
      modifies this`cnt, this`head
      ensures items == old(Contents())[..Min(old(cnt), n)] && ok == (items != [])
      ensures head == old(head) + |items|
      ensures Valid() <==> head < tasks.Length
      ensures Valid() ==> items + Contents() == old(Contents())
    {
      var m := Min(cnt, n);
      if m == 0 {
        return false, [];
      }
      items := tasks[head..head + m];
      head := head + m;
      cnt := cnt - m;
      ok := true;
    }
  }

  // ---- Runs of operations -----------------------------------------------------------------------

  datatype Op = Put(item: u32) | Take | PutAll(items: seq<u32>) | TakeUpTo(n: nat)

  /** The bounded FIFO the four methods refine: contents, items accepted and items delivered so far. The front
      position only decides whether a batch may be used. */
  datatype Fifo = Fifo(contents: seq<u32>, accepted: seq<u32>, delivered: seq<u32>, front: nat)

  const EMPTY := Fifo([], [], [], 0)

  function Accept(q: Fifo, items: seq<u32>): Fifo {
    q.(contents := q.contents + items, accepted := q.accepted + items)
  }

  function Deliver(q: Fifo, n: nat, front: nat): Fifo
    requires n <= |q.contents|
  {
    q.(contents := q.contents[n..], delivered := q.delivered + q.contents[..n], front := front)
  }

  function Apply(q: Fifo, op: Op, ring: nat): Fifo {
    match op
    case Put(x) => if |q.contents| < ring then Accept(q, [x]) else q
    case Take => if q.contents != [] then Deliver(q, 1, if q.front + 1 == ring then 0 else q.front + 1) else q
    case PutAll(items) => if |q.contents| + |items| <= ring then Accept(q, items) else q
    case TakeUpTo(n) => Deliver(q, Min(|q.contents|, n), q.front + Min(|q.contents|, n))
  }

  /** A batch that neither splits nor reaches the end of the ring. */
  predicate Fits(q: Fifo, op: Op, ring: nat) {
    match op
    case PutAll(items) => |q.contents| + |items| <= ring ==> Spot(q.front, |q.contents|, ring) + |items| < ring
    case TakeUpTo(n) => q.front + Min(|q.contents|, n) < ring
    case _ => true
  }

  function ApplyAll(q: Fifo, ops: seq<Op>, ring: nat): Fifo {
    if ops == [] then q else Apply(ApplyAll(q, ops[..|ops| - 1], ring), ops[|ops| - 1], ring)
  }

  predicate AllFit(q: Fifo, ops: seq<Op>, ring: nat) {
    forall i :: 0 <= i < |ops| ==> Fits(ApplyAll(q, ops[..i], ring), ops[i], ring)
  }

  /** The ring stands where the FIFO stands. */
  ghost predicate Matches(r: RingQueue, q: Fifo, delivered: seq<u32>)
    reads r, r.tasks
  {
    r.Valid() && r.Contents() == q.contents && r.head == q.front && delivered == q.delivered
  }

  method ApplyOne(r: RingQueue, op: Op, ghost q: Fifo, delivered0: seq<u32>) returns (delivered: seq<u32>)
    requires Matches(r, q, delivered0) && Fits(q, op, r.tasks.Length)
    modifies r`cnt, r`head, r`tail, r.tasks
    ensures Matches(r, Apply(q, op, r.tasks.Length), delivered)
  {
    delivered := delivered0;
    match op {
      case Put(x) =>
        var ok := r.Enqueue(x);
      case Take =>
        var ok, x := r.Dequeue();
        if ok {
          assert q.contents == [x] + r.Contents() && q.contents[..1] == [x];
          delivered := delivered + [x];
        }
      case PutAll(items) =>
        var ok := r.BatchEnqueue(items);
      case TakeUpTo(n) =>
        var ok, items := r.BatchDequeue(n);
        assert q.contents == items + r.Contents();
        delivered := delivered + items;
    }
  }

  /** Any sequence of locked operations on the ring, batches included, does what it does on the FIFO. */
  method ApplyOps(r: RingQueue, ops: seq<Op>, ghost q: Fifo, delivered0: seq<u32>) returns (delivered: seq<u32>)
    requires Matches(r, q, delivered0) && AllFit(q, ops, r.tasks.Length)
    modifies r`cnt, r`head, r`tail, r.tasks
    ensures Matches(r, ApplyAll(q, ops, r.tasks.Length), delivered)
  {
    delivered := delivered0;
    assert ops[..0] == [];
    for i := 0 to |ops|
      invariant Matches(r, ApplyAll(q, ops[..i], r.tasks.Length), delivered)
    {
      assert ops[..i + 1][..i] == ops[..i];
      delivered := ApplyOne(r, ops[i], ApplyAll(q, ops[..i], r.tasks.Length), delivered);
    }
    assert ops[..|ops|] == ops;
  }

  /** Over every sequence of operations nothing accepted is lost, duplicated or reordered, and the bound holds. */
  lemma {:induction false} FirstInFirstOut(ops: seq<Op>, ring: nat)
    ensures var q := ApplyAll(EMPTY, ops, ring);
            q.delivered + q.contents == q.accepted && |q.contents| <= ring
  {
    if ops != [] {
      var before := ApplyAll(EMPTY, ops[..|ops| - 1], ring);
      FirstInFirstOut(ops[..|ops| - 1], ring);
      StepKeepsOrder(before, ops[|ops| - 1], ring);
    }
  }

  lemma AcceptKeepsOrder(q: Fifo, items: seq<u32>)
    requires q.delivered + q.contents == q.accepted
    ensures var r := Accept(q, items); r.delivered + r.contents == r.accepted
  {
    assert q.delivered + (q.contents + items) == (q.delivered + q.contents) + items;
  }

  lemma DeliverKeepsOrder(q: Fifo, n: nat, front: nat)
    requires q.delivered + q.contents == q.accepted && n <= |q.contents|
    ensures var r := Deliver(q, n, front); r.delivered + r.contents == r.accepted
  {
    var a, b := q.contents[..n], q.contents[n..];
    assert q.contents == a + b;
    assert (q.delivered + a) + b == q.delivered + (a + b);
  }

  lemma StepKeepsOrder(q: Fifo, op: Op, ring: nat)
    requires q.delivered + q.contents == q.accepted && |q.contents| <= ring
    ensures var r := Apply(q, op, ring);
            r.delivered + r.contents == r.accepted && |r.contents| <= ring
  {
    match op {
      case Put(x) =>
        AcceptKeepsOrder(q, [x]);
      case Take =>
        if q.contents != [] {
          DeliverKeepsOrder(q, 1, if q.front + 1 == ring then 0 else q.front + 1);
        }
      case PutAll(items) =>
        AcceptKeepsOrder(q, items);
      case TakeUpTo(n) =>
        DeliverKeepsOrder(q, Min(|q.contents|, n), q.front + Min(|q.contents|, n));
    }
  }

  function Puts(items: seq<u32>): seq<Op> {
    seq(|items|, i requires 0 <= i < |items| => Put(items[i]))
  }

  function Takes(n: nat): seq<Op> {
    seq(n, _ => Take)
  }

  /** A batch that fits is that many single enqueues. */
  lemma {:induction false} BatchIsPuts(q: Fifo, items: seq<u32>, ring: nat)
    requires |q.contents| + |items| <= ring
    ensures ApplyAll(q, Puts(items), ring) == Apply(q, PutAll(items), ring)
  {
    if items == [] {
      assert q.contents + items == q.contents && q.accepted + items == q.accepted;
    } else {
      var n := |items| - 1;
      assert items == items[..n] + [items[n]] && Puts(items)[..n] == Puts(items[..n]);
      BatchIsPuts(q, items[..n], ring);
      assert q.contents + items[..n] + [items[n]] == q.contents + items;
      assert q.accepted + items[..n] + [items[n]] == q.accepted + items;
    }
  }

  /** A batch dequeue that stays below the end is that many single dequeues, the surplus ones being refused. */
  lemma {:induction false} BatchIsTakes(q: Fifo, n: nat, ring: nat)
    requires Fits(q, TakeUpTo(n), ring)
    ensures ApplyAll(q, Takes(n), ring) == Apply(q, TakeUpTo(n), ring)
  {
    if n == 0 {
      assert q.contents[0..] == q.contents && q.delivered + q.contents[..0] == q.delivered;
    } else {
      assert Takes(n)[..n - 1] == Takes(n - 1);
      BatchIsTakes(q, n - 1, ring);
      if n <= |q.contents| {
        OneMoreTaken(q, n, ring);
      }
    }
  }

  lemma OneMoreTaken(q: Fifo, n: nat, ring: nat)
    requires 0 < n <= |q.contents| && q.front + n < ring
    ensures Apply(Deliver(q, n - 1, q.front + n - 1), Take, ring) == Deliver(q, n, q.front + n)
  {
    assert q.contents[n - 1..][1..] == q.contents[n..];
    assert q.delivered + q.contents[..n - 1] + q.contents[n - 1..][..1] == q.delivered + q.contents[..n];
  }
}
