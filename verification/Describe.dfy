/** Parallel description: every thread walks all task ids and fills in the ones in its window
    (esl_proxy/cases/qwen3_14b_decoder_desc.h). */
module Describes {
  import opened Words
  import opened Sequences
  import opened Tensors
  import opened MapLogs
  import opened Submits
  import opened Runs
  import opened Detects
  import opened Routes

  // ---- What a described slot holds -----------------------------------------------------------

  /** The tensors a task declares with one access, in order. */
  function Of(body: seq<Pending>, a: Access): seq<Tensor> {
    if body == [] then []
    else Of(body[..|body| - 1], a) + (if body[|body| - 1].access == a then [body[|body| - 1].t] else [])
  }

  function Split(body: seq<Pending>): TaskTensors {
    TaskTensors(Of(body, In), Of(body, Out), Of(body, InOut))
  }

  function Entries(ts: seq<Tensor>): seq<View> {
    seq(|ts|, i requires 0 <= i < |ts| => EntryOf(ts[i].view))
  }

  function TicketsOf(body: seq<Pending>): Tickets {
    Tickets(Entries(Of(body, Out)), Entries(Of(body, InOut)))
  }

  lemma OfMore(body: seq<Pending>, p: Pending, a: Access)
    ensures Of(body + [p], a) == if p.access == a then Of(body, a) + [p.t] else Of(body, a)
  {
    assert (body + [p])[..|body|] == body;
  }

  lemma EntriesMore(ts: seq<Tensor>, t: Tensor)
    ensures Entries(ts + [t]) == Entries(ts) + [EntryOf(t.view)]
  {
  }

  lemma TicketsMatchTensors(body: seq<Pending>)
    ensures TicketsMatch(Split(body), TicketsOf(body))
  {
  }

  lemma DeclareMore(ts: seq<Tensor>, t: Tensor, a: Access)
    ensures Declare(ts + [t], a) == Declare(ts, a) + [Pending(t, a)]
  {
  }

  lemma DeclareBag(ts: seq<Tensor>, t: Tensor, a: Access)
    ensures multiset(Declare(ts + [t], a)) == multiset(Declare(ts, a)) + multiset{Pending(t, a)}
  {
    DeclareMore(ts, t, a);
  }

  function Bag(td: TaskTensors): multiset<Pending> {
    multiset(Declare(td.ins, In)) + multiset(Declare(td.outs, Out)) + multiset(Declare(td.inouts, InOut))
  }

  function With(td: TaskTensors, p: Pending): TaskTensors {
    match p.access
    case In => td.(ins := td.ins + [p.t])
    case Out => td.(outs := td.outs + [p.t])
    case InOut => td.(inouts := td.inouts + [p.t])
  }

  lemma BagMore(td: TaskTensors, p: Pending)
    ensures Bag(With(td, p)) == Bag(td) + multiset{p}
  {
    assert p == Pending(p.t, p.access);
    match p.access
    case In => DeclareBag(td.ins, p.t, In);
    case Out => DeclareBag(td.outs, p.t, Out);
    case InOut => DeclareBag(td.inouts, p.t, InOut);
  }

  lemma {:induction false} SplitBag(body: seq<Pending>)
    ensures multiset(body) == Bag(Split(body))
  {
    if body != [] {
      var n := |body| - 1;
      assert body == body[..n] + [body[n]];
      SplitBag(body[..n]);
      BagMore(Split(body[..n]), body[n]);
      forall a { OfMore(body[..n], body[n], a); }
      assert Split(body) == With(Split(body[..n]), body[n]);
    }
  }

  /** Sorting the declarations by access loses none of them. */
  lemma SplitSame(body: seq<Pending>)
    ensures SameTensors(body, Split(body))
  {
    SplitBag(body);
    InTurnIs(Split(body).outs, Out, Split(body).inouts);
  }

  // ---- The buffers ------------------------------------------------------------------------------

  /** g_task_tensor_buf and g_insert_tickets. */
  class DescBuffers {
    const tasks: array<TaskTensors>
    const tickets: array<Tickets>
    const useTickets: bool

    constructor (ringSize: nat, useTickets: bool)
      requires ringSize > 0
      ensures Valid() && fresh(tasks) && fresh(tickets) && this.useTickets == useTickets
      ensures tasks.Length == ringSize && forall i :: 0 <= i < ringSize ==> Holds(i, [])
    {
      tasks := new TaskTensors[ringSize](_ => TaskTensors([], [], []));
      tickets := new Tickets[ringSize](_ => Tickets([], []));
      this.useTickets := useTickets;
    }

    ghost predicate Valid() {
      0 < tasks.Length == tickets.Length
    }

    /** Slot `i` holds exactly the declarations of `body`. */
    ghost predicate Holds(i: nat, body: seq<Pending>)
      requires Valid() && i < tasks.Length
      reads tasks, tickets
    {
      tasks[i] == Split(body) && (useTickets ==> tickets[i] == TicketsOf(body))
    }

    twostate predicate OthersKept(i: nat)
      requires Valid()
      reads tasks, tickets
    {
      forall j :: 0 <= j < tasks.Length && j != i ==> tasks[j] == old(tasks[j]) && tickets[j] == old(tickets[j])
    }

    /** add_tensor_in. */
    method AddTensorIn(task: nat, t: Tensor, ghost done: seq<Pending>)
      requires Valid() && Holds(task % tasks.Length, done)
      modifies tasks
      ensures Holds(task % tasks.Length, done + [Pending(t, In)]) && OthersKept(task % tasks.Length)
    {
      var i := task % tasks.Length;
      forall a { OfMore(done, Pending(t, In), a); }
      tasks[i] := tasks[i].(ins := tasks[i].ins + [t]);
    }

    /** add_tensor_out with tm_fill_insert_ticket. */
    method AddTensorOut(task: nat, t: Tensor, ghost done: seq<Pending>)
      requires Valid() && Holds(task % tasks.Length, done)
      modifies tasks, tickets
      ensures Holds(task % tasks.Length, done + [Pending(t, Out)]) && OthersKept(task % tasks.Length)
    {
      var i := task % tasks.Length;
      forall a { OfMore(done, Pending(t, Out), a); }
      EntriesMore(Of(done, Out), t);
      tasks[i] := tasks[i].(outs := tasks[i].outs + [t]);
      if useTickets {
        var e := CopyTensorToEntry(t.view);
        tickets[i] := tickets[i].(outs := tickets[i].outs + [e]);
      }
    }

    /** add_tensor_inout with tm_fill_insert_ticket. */
    method AddTensorInOut(task: nat, t: Tensor, ghost done: seq<Pending>)
      requires Valid() && Holds(task % tasks.Length, done)
      modifies tasks, tickets
      ensures Holds(task % tasks.Length, done + [Pending(t, InOut)]) && OthersKept(task % tasks.Length)
    {
      var i := task % tasks.Length;
      forall a { OfMore(done, Pending(t, InOut), a); }
      EntriesMore(Of(done, InOut), t);
      tasks[i] := tasks[i].(inouts := tasks[i].inouts + [t]);
      if useTickets {
        var e := CopyTensorToEntry(t.view);
        tickets[i] := tickets[i].(inouts := tickets[i].inouts + [e]);
      }
    }

    /** The body handed to DESC_DO_OR_SKIP: the task's declarations in turn. */
    method DescribeTask(task: nat, body: seq<Pending>)
      requires Valid() && Holds(task % tasks.Length, [])
      modifies tasks, tickets
      ensures Holds(task % tasks.Length, body) && OthersKept(task % tasks.Length)
    {
      assert body[..0] == [];
      for n := 0 to |body|
        invariant Holds(task % tasks.Length, body[..n]) && OthersKept(task % tasks.Length)
      {
        assert body[..n + 1] == body[..n] + [body[n]] && body[n] == Pending(body[n].t, body[n].access);
        match body[n].access
        case In => AddTensorIn(task, body[n].t, body[..n]);
        case Out => AddTensorOut(task, body[n].t, body[..n]);
        case InOut => AddTensorInOut(task, body[n].t, body[..n]);
      }
      assert body[..|body|] == body;
    }
  }

  // ---- The window -----------------------------------------------------------------------------------

  /** What a thread executes: its block-cyclic share, but a lone thread misses the first id of every block
      after the first, because the window is not tested again after it advances. */
  predicate Executes(thread: nat, threads: nat, batch: nat, k: nat)
    requires threads > 0 && batch > 0
  {
    Owns(thread, threads, batch, k) && (threads > 1 || k < batch || k % batch != 0)
  }

  function Share(thread: nat, threads: nat, batch: nat): nat -> bool
    requires threads > 0 && batch > 0
  {
    (k: nat) => Executes(thread, threads, batch, k)
  }

  /** The window before id `k`: block `b` of the thread, and no unseen share before it. */
  ghost predicate Window(thread: nat, threads: nat, batch: nat, b: nat, start: nat, end: nat, k: nat) {
    && threads > 0 && batch > 0 && b % threads == thread
    && start == b * batch && end == start + batch && k <= end
    && (threads == 1 && b > 0 ==> k > start)
    && forall j: nat :: k <= j < start ==> !Owns(thread, threads, batch, j)
  }

  lemma FirstWindow(thread: nat, threads: nat, batch: nat)
    requires thread < threads && batch > 0
    ensures Window(thread, threads, batch, thread, thread * batch, (thread + 1) * batch, 0)
  {
    forall j: nat | j < thread * batch ensures !Owns(thread, threads, batch, j) {
      FirstBlock(thread, threads, batch, j);
    }
  }

  /** The window test decides exactly the thread's share. */
  lemma WindowExact(thread: nat, threads: nat, batch: nat, b: nat, start: nat, end: nat, k: nat)
    requires Window(thread, threads, batch, b, start, end, k)
    ensures start <= k < end <==> Executes(thread, threads, batch, k)
  {
    if start <= k {
      QuotientIs(k, if k == end then b + 1 else b, if k == end then 0 else k - start, batch);
      if k == end && threads > 1 && (b + 1) % threads == thread {
        SameResidue(b + 1, b, threads);
      }
    }
  }

  lemma NextWindow(thread: nat, threads: nat, batch: nat, b: nat, start: nat, end: nat, k: nat)
    requires Window(thread, threads, batch, b, start, end, k)
    ensures k < end ==> Window(thread, threads, batch, b, start, end, k + 1)
    ensures k == end ==>
              Window(thread, threads, batch, b + threads, start + batch * threads, end + batch * threads, k + 1)
  {
    NextBlock(b, thread, threads, batch);
    assert threads * batch == batch * threads;
    if k == end {
      forall j: nat | k + 1 <= j < start + batch * threads ensures !Owns(thread, threads, batch, j) {
        assert !Cyclic(thread, threads, batch)(j);
      }
    }
  }

  /** What one thread has done before id `k`. */
  ghost predicate DescribedUpTo(own: nat -> bool, buf: DescBuffers, bodies: seq<seq<Pending>>,
                                was: seq<TaskTensors>, wasTickets: seq<Tickets>, k: nat)
    requires buf.Valid() && |bodies| <= buf.tasks.Length == |was| == |wasTickets|
    reads buf.tasks, buf.tickets
  {
    forall i :: 0 <= i < buf.tasks.Length ==>
      if i < k && i < |bodies| && own(i) then buf.Holds(i, bodies[i])
      else buf.tasks[i] == was[i] && buf.tickets[i] == wasTickets[i]
  }

  /** DESC_DO_OR_SKIP with the body of task `k`: run it inside the window, else maybe advance the window. */
  method DoOrSkip(buf: DescBuffers, body: seq<Pending>, k: nat, start0: nat, end0: nat, created0: nat, stride: nat)
    returns (start: nat, end: nat, created: nat)
    requires buf.Valid() && k < buf.tasks.Length && (start0 <= k < end0 ==> buf.Holds(k, []))
    modifies buf.tasks, buf.tickets
    ensures start0 <= k < end0 ==> start == start0 && end == end0 && created == created0 + 1 && buf.Holds(k, body)
    ensures k >= end0 ==> start == start0 + stride && end == end0 + stride
    ensures k < start0 && k < end0 ==> start == start0 && end == end0
    ensures !(start0 <= k < end0) ==>
              created == created0 && buf.tasks[..] == old(buf.tasks[..]) && buf.tickets[..] == old(buf.tickets[..])
    ensures buf.OthersKept(k)
  {
    start, end, created := start0, end0, created0;
    if k < end && k >= start {
      created := created + 1;
      buf.DescribeTask(k, body);
    } else if k >= end {
      end := end + stride;
      start := start + stride;
    }
  }

  lemma DescribedMore(own: nat -> bool, k: nat)
    ensures |OwnedIds(own, k + 1)| == |OwnedIds(own, k)| + (if own(k) then 1 else 0)
  {
  }

  /** Whether a start and an end can be the thread's window before an id. */
  ghost predicate InSomeBlock(thread: nat, threads: nat, batch: nat, start: nat, end: nat, k: nat) {
    exists b: nat :: Window(thread, threads, batch, b, start, end, k)
  }

  datatype Frame = Frame(start: nat, end: nat, next: nat)

  ghost function Windows(thread: nat, threads: nat, batch: nat): iset<Frame> {
    iset f: Frame | InSomeBlock(thread, threads, batch, f.start, f.end, f.next)
  }

  /** The window test decides ownership, and the macro's update leads to the next window. */
  ghost predicate Follows(windows: iset<Frame>, own: nat -> bool, stride: nat) {
    forall f {:trigger Moves(windows, own, stride, f)} :: f in windows ==> Moves(windows, own, stride, f)
  }

  ghost predicate Moves(windows: iset<Frame>, own: nat -> bool, stride: nat, f: Frame) {
    && (f.start <= f.next < f.end <==> own(f.next))
    && (if f.next < f.end then Frame(f.start, f.end, f.next + 1) in windows
        else Frame(f.start + stride, f.end + stride, f.next + 1) in windows)
  }

  lemma WindowMoves(thread: nat, threads: nat, batch: nat, stride: nat, start: nat, end: nat, k: nat)
    requires threads > 0 && batch > 0 && stride == batch * threads
    requires InSomeBlock(thread, threads, batch, start, end, k)
    ensures Moves(Windows(thread, threads, batch), Share(thread, threads, batch), stride, Frame(start, end, k))
  {
    var b: nat :| Window(thread, threads, batch, b, start, end, k);
    WindowExact(thread, threads, batch, b, start, end, k);
    NextWindow(thread, threads, batch, b, start, end, k);
  }

  lemma WindowsFollow(thread: nat, threads: nat, batch: nat, stride: nat)
    requires threads > 0 && batch > 0 && stride == batch * threads
    ensures Follows(Windows(thread, threads, batch), Share(thread, threads, batch), stride)
  {
    var windows := Windows(thread, threads, batch);
    forall f | f in windows ensures Moves(windows, Share(thread, threads, batch), stride, f) {
      WindowMoves(thread, threads, batch, stride, f.start, f.end, f.next);
    }
  }

  /** The walk over all ids. */
  method WalkIds(buf: DescBuffers, bodies: seq<seq<Pending>>, start0: nat, end0: nat, stride: nat,
                 ghost own: nat -> bool, ghost windows: iset<Frame>)
    returns (created: nat)
    requires buf.Valid() && |bodies| <= buf.tasks.Length
    requires Frame(start0, end0, 0) in windows && Follows(windows, own, stride)
    requires forall k :: 0 <= k < |bodies| && own(k) ==> buf.Holds(k, [])
    modifies buf.tasks, buf.tickets
    ensures DescribedUpTo(own, buf, bodies, old(buf.tasks[..]), old(buf.tickets[..]), |bodies|)
    ensures created == |OwnedIds(own, |bodies|)|
  {
    var start, end := start0, end0;
    created := 0;
    for k := 0 to |bodies|
      invariant Frame(start, end, k) in windows
      invariant DescribedUpTo(own, buf, bodies, old(buf.tasks[..]), old(buf.tickets[..]), k)
      invariant created == |OwnedIds(own, k)|
    {
      DescribedMore(own, k);
      assert Moves(windows, own, stride, Frame(start, end, k));
      start, end, created := DoOrSkip(buf, bodies[k], k, start, end, created, stride);
    }
  }

  /** orchestrator_desc for one thread, with the graph's bodies as data. */
  method OrchestratorDesc(buf: DescBuffers, bodies: seq<seq<Pending>>, thread: nat, threads: nat, batch: nat)
    returns (created: nat)
    requires buf.Valid() && thread < threads && batch > 0 && |bodies| <= buf.tasks.Length
    requires forall k :: 0 <= k < |bodies| && Executes(thread, threads, batch, k) ==> buf.Holds(k, [])
    modifies buf.tasks, buf.tickets
    ensures DescribedUpTo(Share(thread, threads, batch), buf, bodies, old(buf.tasks[..]), old(buf.tickets[..]),
                          |bodies|)
    ensures created == |OwnedIds(Share(thread, threads, batch), |bodies|)|
  {
    FirstWindow(thread, threads, batch);
    var start, end, stride := thread * batch, (thread + 1) * batch, batch * threads;
    assert InSomeBlock(thread, threads, batch, start, end, 0);
    WindowsFollow(thread, threads, batch, stride);
    created := WalkIds(buf, bodies, start, end, stride, Share(thread, threads, batch), Windows(thread, threads, batch));
  }

  // ---- All threads ------------------------------------------------------------------------------------

  predicate ExecutedBySome(threads: nat, batch: nat, k: nat)
    requires threads > 0 && batch > 0
  {
    exists t: nat :: t < threads && Executes(t, threads, batch, k)
  }

  /** Every id is executed by exactly one thread, its block-cyclic owner, precisely when there are at least two
      threads or everything fits in the first block. */
  lemma PartitionExact(threads: nat, batch: nat, n: nat)
    requires threads > 0 && batch > 0
    ensures (forall k: nat | k < n :: ExecutedBySome(threads, batch, k)) <==> threads > 1 || n <= batch
    ensures forall t: nat, k: nat :: Executes(t, threads, batch, k) ==> t == (k / batch) % threads
  {
    if threads == 1 && n > batch {
      QuotientIs(batch, 1, 0, batch);
      assert !ExecutedBySome(threads, batch, batch);
    } else {
      forall k: nat | k < n ensures ExecutedBySome(threads, batch, k) {
        assert Executes((k / batch) % threads, threads, batch, k);
      }
    }
  }

  function CreatedBy(upTo: nat, threads: nat, batch: nat, n: nat): nat
    requires threads > 0 && batch > 0
  {
    if upTo == 0 then 0 else CreatedBy(upTo - 1, threads, batch, n) + |OwnedIds(Share(upTo - 1, threads, batch), n)|
  }

  lemma {:induction false} SameIds(own: nat -> bool, also: nat -> bool, n: nat)
    requires forall k: nat :: k < n ==> own(k) == also(k)
    ensures OwnedIds(own, n) == OwnedIds(also, n)
  {
    if n > 0 {
      SameIds(own, also, n - 1);
    }
  }

  lemma {:induction false} CreatedIsPublished(upTo: nat, threads: nat, batch: nat, n: nat)
    requires threads > 0 && batch > 0 && (threads > 1 || n <= batch)
    ensures CreatedBy(upTo, threads, batch, n) == PublishedBy(upTo, threads, batch, n)
  {
    if upTo > 0 {
      CreatedIsPublished(upTo - 1, threads, batch, n);
      SameIds(Share(upTo - 1, threads, batch), Cyclic(upTo - 1, threads, batch), n);
    }
  }

  /** A lone thread creates one task less for every further block it enters. */
  lemma {:induction false} LoneThreadLoses(batch: nat, n: nat)
    requires batch > 0 && n > 0
    ensures |OwnedIds(Share(0, 1, batch), n)| == n - (n - 1) / batch
  {
    QuotientIs(0, 0, 0, batch);
    if n > 1 {
      LoneThreadLoses(batch, n - 1);
      QuotientSteps(n - 1, batch);
      LoneShare(n - 1, batch);
    } else {
      assert Share(0, 1, batch)(0);
    }
  }

  lemma QuotientSteps(k: nat, batch: nat)
    requires batch > 0 && k > 0
    ensures k / batch == (k - 1) / batch + (if k % batch == 0 then 1 else 0)
  {
    var q, r := k / batch, k % batch;
    if r == 0 {
      QuotientIs(k - 1, q - 1, batch - 1, batch);
    } else {
      QuotientIs(k - 1, q, r - 1, batch);
    }
  }

  lemma LoneShare(k: nat, batch: nat)
    requires batch > 0 && k > 0
    ensures Share(0, 1, batch)(k) <==> k % batch != 0
  {
    if k < batch {
      QuotientIs(k, 0, k, batch);
    }
  }

  /** The created counts of all threads add up to the number of tasks under the same condition. */
  lemma CreatedTotal(threads: nat, batch: nat, n: nat)
    requires threads > 0 && batch > 0
    ensures CreatedBy(threads, threads, batch, n) == n <==> threads > 1 || n <= batch
  {
    if threads > 1 || n <= batch {
      CreatedIsPublished(threads, threads, batch, n);
      PublishedTotal(threads, batch, n);
    } else {
      LoneThreadLoses(batch, n);
      assert CreatedBy(1, 1, batch, n) == |OwnedIds(Share(0, 1, batch), n)|;
      CancelFactor(0, (n - 1) / batch, batch);
    }
  }

  /** The owner of id `k` is among the first `upTo` threads and executes it. */
  predicate ExecutedBy(upTo: nat, threads: nat, batch: nat, k: nat)
    requires threads > 0 && batch > 0
  {
    (k / batch) % threads < upTo && Executes((k / batch) % threads, threads, batch, k)
  }

  lemma ExecutedNext(t: nat, threads: nat, batch: nat, k: nat)
    requires threads > 0 && batch > 0
    ensures ExecutedBy(t + 1, threads, batch, k) <==> ExecutedBy(t, threads, batch, k) || Share(t, threads, batch)(k)
    ensures Executes(t, threads, batch, k) ==> !ExecutedBy(t, threads, batch, k)
  {
  }

  lemma ExecutedByAll(threads: nat, batch: nat, k: nat)
    requires threads > 0 && batch > 0
    ensures ExecutedBy(threads, threads, batch, k) <==> ExecutedBySome(threads, batch, k)
  {
  }

  /** What a slot holds after the first `upTo` threads. */
  function BodyAfter(bodies: seq<seq<Pending>>, upTo: nat, threads: nat, batch: nat, i: nat): seq<Pending>
    requires threads > 0 && batch > 0
  {
    if i < |bodies| && ExecutedBy(upTo, threads, batch, i) then bodies[i] else []
  }

  ghost predicate AllHold(buf: DescBuffers, bodies: seq<seq<Pending>>, upTo: nat, threads: nat, batch: nat)
    requires threads > 0 && batch > 0 && buf.Valid()
    reads buf.tasks, buf.tickets
  {
    forall i :: 0 <= i < buf.tasks.Length ==> buf.Holds(i, BodyAfter(bodies, upTo, threads, batch, i))
  }

  method DescribeNext(buf: DescBuffers, bodies: seq<seq<Pending>>, t: nat, threads: nat, batch: nat)
    returns (created: nat)
    requires buf.Valid() && t < threads && batch > 0 && |bodies| <= buf.tasks.Length
    requires AllHold(buf, bodies, t, threads, batch)
    modifies buf.tasks, buf.tickets
    ensures AllHold(buf, bodies, t + 1, threads, batch)
    ensures created == |OwnedIds(Share(t, threads, batch), |bodies|)|
  {
    forall k: nat
      ensures ExecutedBy(t + 1, threads, batch, k) <==> ExecutedBy(t, threads, batch, k) || Share(t, threads, batch)(k)
      ensures Executes(t, threads, batch, k) ==> !ExecutedBy(t, threads, batch, k)
    {
      ExecutedNext(t, threads, batch, k);
    }
    forall k | 0 <= k < |bodies| && Executes(t, threads, batch, k) ensures buf.Holds(k, []) {
      assert BodyAfter(bodies, t, threads, batch, k) == [];
    }
    created := OrchestratorDesc(buf, bodies, t, threads, batch);
    ghost var next := t + 1;
    forall i | 0 <= i < buf.tasks.Length ensures buf.Holds(i, BodyAfter(bodies, next, threads, batch, i)) {
      assert old(buf.Holds(i, BodyAfter(bodies, t, threads, batch, i)));
    }
  }

  method DescribeThreads(buf: DescBuffers, bodies: seq<seq<Pending>>, threads: nat, batch: nat) returns (created: nat)
    requires buf.Valid() && threads > 0 && batch > 0 && |bodies| <= buf.tasks.Length
    requires AllHold(buf, bodies, 0, threads, batch)
    modifies buf.tasks, buf.tickets
    ensures AllHold(buf, bodies, threads, threads, batch)
    ensures created == CreatedBy(threads, threads, batch, |bodies|)
  {
    created := 0;
    for t := 0 to threads
      invariant AllHold(buf, bodies, t, threads, batch)
      invariant created == CreatedBy(t, threads, batch, |bodies|)
    {
      var n := DescribeNext(buf, bodies, t, threads, batch);
      created := created + n;
    }
  }

  /** All threads. They write different slots, so running them one after the other stands for any interleaving.
      Exactly the tasks that some thread executes end up described, tickets included. */
  method DescribeAll(ringSize: nat, useTickets: bool, bodies: seq<seq<Pending>>, threads: nat, batch: nat)
    returns (d: Described, created: nat)
    requires threads > 0 && batch > 0 && |bodies| <= ringSize && ringSize > 0
    ensures Filled(d) && |d.tasks| == ringSize
    ensures forall k :: 0 <= k < |bodies| ==>
              TaskOf(d, k) == Split(if ExecutedBySome(threads, batch, k) then bodies[k] else [])
    ensures created == CreatedBy(threads, threads, batch, |bodies|)
  {
    var buf := new DescBuffers(ringSize, useTickets);
    created := DescribeThreads(buf, bodies, threads, batch);
    d := Described(buf.tasks[..], buf.tickets[..], useTickets);
    forall i | 0 <= i < ringSize
      ensures d.tasks[i] == Split(if i < |bodies| && ExecutedBySome(threads, batch, i) then bodies[i] else [])
      ensures useTickets ==> TicketsMatch(d.tasks[i], d.tickets[i])
    {
      assert buf.Holds(i, BodyAfter(bodies, threads, threads, batch, i));
      TicketsMatchTensors(BodyAfter(bodies, threads, threads, batch, i));
      ExecutedByAll(threads, batch, i);
    }
    forall k | 0 <= k < |bodies| ensures TaskOf(d, k) == d.tasks[k] {
      QuotientIs(k, 0, k, ringSize);
    }
  }

  /** Describing and then detecting finds the predecessors tm_submit finds, whatever the two thread counts. */
  lemma DescribedAgrees(run: Run, d: Described, bodies: seq<seq<Pending>>, cfg: Config, dcfg: Config, k: nat)
    requires Filled(d) && |run| == |bodies| <= ID_LIMIT && k < |run|
    requires cfg.window > 0 && cfg.poolSize <= dcfg.poolSize && NoLimitHit(run, cfg)
    requires forall i :: 0 <= i < |bodies| ==>
               TaskOf(d, i) == Split(bodies[i]) && run[i].pend == bodies[i] && run[i].alive == 0
    ensures SetOf(PredsAt(run, cfg, k)) == SetOf(Answers(d, dcfg)(k))
    ensures multiset(MapAfter(run, cfg, k).log) == multiset(LogBefore(d, dcfg, k))
  {
    forall i | 0 <= i < |run| ensures SameTask(run, d, i) {
      SplitSame(bodies[i]);
    }
    RoutesAgree(run, d, cfg, dcfg, k);
  }
}
