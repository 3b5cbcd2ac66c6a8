/** Replicated, block-cyclic dependency detection (esl_proxy/cases/qwen3_14b_decoder_detect.h). */
module Detects {
  import opened Words
  import opened Tensors
  import opened Overlaps
  import opened MapLogs
  import opened TensorMaps
  import opened Submits

  /** `struct task_tensor_desc`, and the entries describe prepared for its outputs. */
  datatype TaskTensors = TaskTensors(ins: seq<Tensor>, outs: seq<Tensor>, inouts: seq<Tensor>)
  datatype Tickets = Tickets(outs: seq<View>, inouts: seq<View>)

  predicate TicketsMatch(td: TaskTensors, tk: Tickets) {
    && |tk.outs| == |td.outs| && |tk.inouts| == |td.inouts|
    && (forall i :: 0 <= i < |td.outs| ==> tk.outs[i] == EntryOf(td.outs[i].view))
    && (forall i :: 0 <= i < |td.inouts| ==> tk.inouts[i] == EntryOf(td.inouts[i].view))
  }

  /** g_task_tensor_buf with g_insert_tickets; both indexed by the id modulo the ring. */
  datatype Described = Described(tasks: seq<TaskTensors>, tickets: seq<Tickets>, useTickets: bool)

  predicate Filled(d: Described) {
    && 0 < |d.tasks| == |d.tickets|
    && (d.useTickets ==> forall i :: 0 <= i < |d.tasks| ==> TicketsMatch(d.tasks[i], d.tickets[i]))
  }

  function TaskOf(d: Described, tid: nat): TaskTensors
    requires Filled(d)
  {
    d.tasks[tid % |d.tasks|]
  }

  function Declare(ts: seq<Tensor>, access: Access): (p: seq<Pending>)
    ensures |p| == |ts|
  {
    seq(|ts|, i requires 0 <= i < |ts| => Pending(ts[i], access))
  }

  /** One list of tensors, then the INOUTs. */
  function InTurn(first: seq<Tensor>, access: Access, inouts: seq<Tensor>): (p: seq<Pending>)
    ensures |p| == |first| + |inouts|
  {
    seq(|first| + |inouts|, i requires 0 <= i < |first| + |inouts| =>
      if i < |first| then Pending(first[i], access) else Pending(inouts[i - |first|], InOut))
  }

  lemma InTurnIs(first: seq<Tensor>, access: Access, inouts: seq<Tensor>)
    ensures InTurn(first, access, inouts) == Declare(first, access) + Declare(inouts, InOut)
  {
  }

  function LookupOrder(td: TaskTensors): seq<Pending> {
    InTurn(td.ins, In, td.inouts)
  }

  function InsertOrder(td: TaskTensors): seq<Pending> {
    InTurn(td.outs, Out, td.inouts)
  }

  /** detect_task: the new map contents and the predecessors found. The watermark is never advanced. */
  function Detected(log: Log, cfg: Config, td: TaskTensors, tid: u32): (Log, seq<u32>) {
    var (l, c) := LookAll(log, 0, LookupOrder(td), tid);
    (InsertAll(l, cfg, InsertOrder(td), tid), c.preds)
  }

  /** prepare_hash: only the lookups that can remove entries. */
  function Prepared(log: Log, cfg: Config, td: TaskTensors, tid: u32): Log {
    InsertAll(LookAll(log, 0, Declare(td.inouts, InOut), tid).0, cfg, InsertOrder(td), tid)
  }

  lemma InputsCoverNothing(r: Rec, td: TaskTensors)
    ensures CoveredBy(r, LookupOrder(td), 0) <==> CoveredBy(r, Declare(td.inouts, InOut), 0)
  {
    var q, io := LookupOrder(td), Declare(td.inouts, InOut);
    if i :| 0 <= i < |io| && io[i].access == InOut && IsHit(r, io[i].t, 0) && CheckOverlap(io[i].t, r.view) == Covered {
      assert q[|td.ins| + i] == io[i];
    }
    if i :| 0 <= i < |q| && q[i].access == InOut && IsHit(r, q[i].t, 0) && CheckOverlap(q[i].t, r.view) == Covered {
      assert q[i] == io[i - |td.ins|];
    }
  }

  /** Replaying a task with the cheaper step changes the map exactly as detecting it does, whatever the map
      holds and whichever limits are hit. */
  lemma PreparedIsDetected(log: Log, cfg: Config, td: TaskTensors, tid: u32)
    ensures Prepared(log, cfg, td, tid) == Detected(log, cfg, td, tid).0
  {
    var q, io := LookupOrder(td), Declare(td.inouts, InOut);
    LookAllExact(log, 0, q, tid);
    LookAllExact(log, 0, io, tid);
    forall r: Rec ensures Surviving(q, 0)(r) == Surviving(io, 0)(r) {
      InputsCoverNothing(r, td);
    }
    FilterSame(log, Surviving(q, 0), Surviving(io, 0));
  }

  // ---- The sequential answer -----------------------------------------------------------------

  function LogBefore(d: Described, cfg: Config, k: nat): Log
    requires Filled(d) && k <= ID_LIMIT
  {
    if k == 0 then [] else Detected(LogBefore(d, cfg, k - 1), cfg, TaskOf(d, k - 1), k - 1).0
  }

  function PredsOf(d: Described, cfg: Config, k: nat): seq<u32>
    requires Filled(d) && k < ID_LIMIT
  {
    Detected(LogBefore(d, cfg, k), cfg, TaskOf(d, k), k).1
  }

  datatype Finding = Finding(task: nat, preds: seq<u32>)

  predicate Owns(thread: nat, threads: nat, batch: nat, k: nat)
    requires threads > 0 && batch > 0
  {
    (k / batch) % threads == thread
  }

  /** The block-cyclic ownership test of one thread. */
  function Cyclic(thread: nat, threads: nat, batch: nat): nat -> bool
    requires threads > 0 && batch > 0
  {
    (k: nat) => Owns(thread, threads, batch, k)
  }

  /** The owned ids below `k`, in order. */
  function OwnedIds(own: nat -> bool, k: nat): (ids: seq<nat>)
    ensures forall i :: 0 <= i < |ids| ==> ids[i] < k
  {
    if k == 0 then [] else OwnedIds(own, k - 1) + (if own(k - 1) then [k - 1] else [])
  }

  /** A report that gives each listed task its answer. */
  function Report(answer: nat -> seq<u32>, ids: seq<nat>): (r: seq<Finding>)
    ensures |r| == |ids|
  {
    seq(|ids|, i requires 0 <= i < |ids| => Finding(ids[i], answer(ids[i])))
  }

  /** What a thread reports for the ids below `k`. */
  function Findings(answer: nat -> seq<u32>, own: nat -> bool, k: nat): seq<Finding> {
    Report(answer, OwnedIds(own, k))
  }

  /** The sequential predecessors of every task. */
  function Answers(d: Described, cfg: Config): nat -> seq<u32>
    requires Filled(d)
  {
    (k: nat) => if k < ID_LIMIT && Filled(d) then PredsOf(d, cfg, k) else []
  }

  lemma NilPlus<T>(s: seq<T>)
    ensures [] + s == s
  {
  }

  // ---- The code --------------------------------------------------------------------------------

  lemma SplitStep<T>(done: seq<T>, all: seq<T>, i: nat)
    requires i < |all|
    ensures done + all[..i + 1] == (done + all[..i]) + [all[i]]
  {
  }

  lemma SplitEnds<T>(done: seq<T>, all: seq<T>)
    ensures done + all[..0] == done && done + all[..|all|] == done + all
  {
  }

  /** Mid-insertion: the outputs in `done` have been inserted into `log0`. */
  ghost predicate InsertedSoFar(m: TensorMap, log0: Log, done: seq<Pending>, tid: u32)
    reads m, m.buckets, m.pool, m.freeList, m.taskHeads
  {
    m.Valid() && m.Contents() == InsertAll(log0, m.cfg, done, tid)
  }

  lemma InsertAllMore(log: Log, cfg: Config, done: seq<Pending>, p: Pending, tid: u32)
    requires p.Writes()
    ensures InsertAll(log, cfg, done + [p], tid) == Inserted(InsertAll(log, cfg, done, tid), cfg, RecOf(p, tid))
  {
    assert (done + [p])[..|done|] == done;
  }

  method InsertOne(m: TensorMap, t: Tensor, prepared: View, useTickets: bool, access: Access, tid: u32,
                   ghost done: seq<Pending>, ghost log0: Log)
    requires InsertedSoFar(m, log0, done, tid) && access != In && (useTickets ==> prepared == EntryOf(t.view))
    modifies m`freeNum, m`nextEntryIdx, m`log, m.pool, m.buckets, m.taskHeads
    ensures InsertedSoFar(m, log0, done + [Pending(t, access)], tid)
  {
    InsertAllMore(log0, m.cfg, done, Pending(t, access), tid);
    if useTickets {
      m.InsertPrepared(prepared, tid);
    } else {
      m.Insert(t, tid);
    }
  }

  /** detect_insert_outs over one tensor list. */
  method InsertList(m: TensorMap, ts: seq<Tensor>, prepared: seq<View>, useTickets: bool, access: Access,
                    tid: u32, ghost done: seq<Pending>, ghost log0: Log)
    requires InsertedSoFar(m, log0, done, tid) && access != In
    requires useTickets ==> |prepared| == |ts| && forall i :: 0 <= i < |ts| ==> prepared[i] == EntryOf(ts[i].view)
    modifies m`freeNum, m`nextEntryIdx, m`log, m.pool, m.buckets, m.taskHeads
    ensures InsertedSoFar(m, log0, done + Declare(ts, access), tid)
  {
    ghost var all := Declare(ts, access);
    SplitEnds(done, all);
    for i := 0 to |ts|
      invariant InsertedSoFar(m, log0, done + all[..i], tid)
    {
      SplitStep(done, all, i);
      InsertOne(m, ts[i], if useTickets then prepared[i] else ts[i].view, useTickets, access, tid, done + all[..i],
                log0);
    }
  }

  /** detect_insert_outs. */
  method InsertOuts(m: TensorMap, d: Described, tid: u32)
    requires m.Valid() && Filled(d)
    modifies m`freeNum, m`nextEntryIdx, m`log, m.pool, m.buckets, m.taskHeads
    ensures m.Valid()
    ensures m.Contents() == InsertAll(old(m.Contents()), m.cfg, InsertOrder(TaskOf(d, tid)), tid)
  {
    var td, tk := d.tasks[tid % |d.tasks|], d.tickets[tid % |d.tasks|];
    assert d.useTickets ==> TicketsMatch(td, tk);
    ghost var log0 := m.Contents();
    InsertList(m, td.outs, tk.outs, d.useTickets, Out, tid, [], log0);
    NilPlus(Declare(td.outs, Out));
    InsertList(m, td.inouts, tk.inouts, d.useTickets, InOut, tid, Declare(td.outs, Out), log0);
    InTurnIs(td.outs, Out, td.inouts);
  }

  /** Mid-lookup: the reads in `done` have been looked up, starting from `log0`. */
  ghost predicate LookedSoFar(m: TensorMap, log0: Log, done: seq<Pending>, tid: u32, ctx: CollectCtx)
    reads m, m.buckets, m.pool, m.freeList, m.taskHeads
  {
    m.Valid() && m.lastAlive == 0 && (m.Contents(), ctx) == LookAll(log0, 0, done, tid)
  }

  lemma LookAllMore(log: Log, done: seq<Pending>, p: Pending, tid: u32)
    requires p.Reads()
    ensures var (l, c) := LookAll(log, 0, done, tid);
            LookAll(log, 0, done + [p], tid) == LookUp(l, 0, p, c)
  {
    assert (done + [p])[..|done|] == done;
  }

  method LookupOne(m: TensorMap, t: Tensor, access: Access, ctx0: CollectCtx, tid: u32, ghost done: seq<Pending>,
                   ghost log0: Log)
    returns (ctx: CollectCtx)
    requires LookedSoFar(m, log0, done, tid, ctx0) && access != Out
    modifies m`freeNum, m`log, m.pool, m.buckets, m.freeList, m.taskHeads
    ensures LookedSoFar(m, log0, done + [Pending(t, access)], tid, ctx)
  {
    LookAllMore(log0, done, Pending(t, access), tid);
    ctx := m.Lookup(t, CollectOnMatch, ctx0.(isInout := access == InOut));
  }

  /** One lookup loop, continuing after the lookups in `done`. */
  method LookupList(m: TensorMap, ts: seq<Tensor>, access: Access, ctx0: CollectCtx, tid: u32,
                    ghost done: seq<Pending>, ghost log0: Log)
    returns (ctx: CollectCtx)
    requires LookedSoFar(m, log0, done, tid, ctx0) && access != Out
    modifies m`freeNum, m`log, m.pool, m.buckets, m.freeList, m.taskHeads
    ensures LookedSoFar(m, log0, done + Declare(ts, access), tid, ctx)
  {
    ghost var all := Declare(ts, access);
    ctx := ctx0;
    SplitEnds(done, all);
    for i := 0 to |ts|
      invariant LookedSoFar(m, log0, done + all[..i], tid, ctx)
    {
      SplitStep(done, all, i);
      ctx := LookupOne(m, ts[i], access, ctx, tid, done + all[..i], log0);
    }
  }

  /** prepare_hash. */
  method PrepareHash(m: TensorMap, d: Described, tid: u32)
    requires m.Valid() && Filled(d) && m.lastAlive == 0
    modifies m`freeNum, m`nextEntryIdx, m`log, m.pool, m.buckets, m.freeList, m.taskHeads
    ensures m.Valid()
    ensures m.Contents() == Prepared(old(m.Contents()), m.cfg, TaskOf(d, tid), tid)
  {
    var td := d.tasks[tid % |d.tasks|];
    ghost var log0 := m.Contents();
    var ctx := LookupList(m, td.inouts, InOut, CollectCtx(tid, [], false), tid, [], log0);
    NilPlus(Declare(td.inouts, InOut));
    InsertOuts(m, d, tid);
  }

  /** The two lookup loops of detect_task. */
  method FindAll(m: TensorMap, td: TaskTensors, tid: u32) returns (preds: seq<u32>)
    requires m.Valid() && m.lastAlive == 0
    modifies m`freeNum, m`log, m.pool, m.buckets, m.freeList, m.taskHeads
    ensures m.Valid()
    ensures var (l, c) := LookAll(old(m.Contents()), 0, LookupOrder(td), tid);
            m.Contents() == l && preds == c.preds
  {
    ghost var log0 := m.Contents();
    var ctx := LookupList(m, td.ins, In, CollectCtx(tid, [], false), tid, [], log0);
    NilPlus(Declare(td.ins, In));
    ctx := LookupList(m, td.inouts, InOut, ctx, tid, Declare(td.ins, In), log0);
    InTurnIs(td.ins, In, td.inouts);
    preds := ctx.preds;
  }

  /** detect_task, returning the list handed to add_predecessors. */
  method DetectTask(m: TensorMap, d: Described, tid: u32) returns (preds: seq<u32>)
    requires m.Valid() && Filled(d) && m.lastAlive == 0
    modifies m`freeNum, m`nextEntryIdx, m`log, m.pool, m.buckets, m.freeList, m.taskHeads
    ensures m.Valid()
    ensures (m.Contents(), preds) == Detected(old(m.Contents()), m.cfg, TaskOf(d, tid), tid)
  {
    preds := FindAll(m, d.tasks[tid % |d.tasks|], tid);
    InsertOuts(m, d, tid);
  }

  // ---- Block-cyclic ownership -----------------------------------------------------------------

  /** From block `b` of its own on, a thread owns the next `batch` ids and then nothing until its next block. */
  lemma OwnedBlock(b: nat, threads: nat, batch: nat, k: nat)
    requires threads > 0 && batch > 0 && b * batch <= k < (b + threads) * batch
    ensures Owns(b % threads, threads, batch, k) <==> k < b * batch + batch
  {
    var q := k / batch;
    CancelFactor(b, q + 1, batch);
    CancelFactor(q, b + threads, batch);
    if q % threads == b % threads {
      SameResidue(q, b, threads);
    } else {
      AtLeastNext(b, q, batch);
    }
  }

  lemma AtLeastNext(b: nat, q: nat, batch: nat)
    requires b < q
    ensures b * batch + batch <= q * batch
  {
    assert (b + 1) * batch <= q * batch;
  }

  lemma FirstBlock(thread: nat, threads: nat, batch: nat, k: nat)
    requires thread < threads && batch > 0 && k < thread * batch
    ensures !Owns(thread, threads, batch, k)
  {
    var q := k / batch;
    assert q * batch + k % batch == k;
    CancelFactor(q, thread, batch);
    QuotientIs(q, 0, q, threads);
  }

  lemma {:induction false} OwnedSkip(own: nat -> bool, a: nat, b: nat)
    requires a <= b && forall k: nat :: a <= k < b ==> !own(k)
    ensures OwnedIds(own, b) == OwnedIds(own, a)
    decreases b
  {
    if a < b {
      OwnedSkip(own, a, b - 1);
    }
  }

  /** The map holds what one thread would have after the ids below `k`. */
  ghost predicate At(m: TensorMap, d: Described, k: nat)
    reads m, m.buckets, m.pool, m.freeList, m.taskHeads
  {
    m.Valid() && Filled(d) && m.lastAlive == 0 && k <= ID_LIMIT && m.Contents() == LogBefore(d, m.cfg, k)
  }

  method ReplayOne(m: TensorMap, d: Described, k: nat)
    requires At(m, d, k) && k < ID_LIMIT
    modifies m`freeNum, m`nextEntryIdx, m`log, m.pool, m.buckets, m.freeList, m.taskHeads
    ensures At(m, d, k + 1)
  {
    PreparedIsDetected(m.Contents(), m.cfg, TaskOf(d, k), k);
    PrepareHash(m, d, k);
  }

  method DetectOne(m: TensorMap, d: Described, k: nat) returns (f: Finding)
    requires At(m, d, k) && k < ID_LIMIT
    modifies m`freeNum, m`nextEntryIdx, m`log, m.pool, m.buckets, m.freeList, m.taskHeads
    ensures At(m, d, k + 1) && f == Finding(k, Answers(d, m.cfg)(k))
  {
    var preds := DetectTask(m, d, k);
    f := Finding(k, preds);
  }

  /** The prepare loop: ids of other threads are replayed. */
  method Replay(m: TensorMap, d: Described, from: nat, to: nat)
    requires At(m, d, from) && from <= to <= ID_LIMIT
    modifies m`freeNum, m`nextEntryIdx, m`log, m.pool, m.buckets, m.freeList, m.taskHeads
    ensures At(m, d, to)
  {
    for k := from to to
      invariant At(m, d, k)
    {
      ReplayOne(m, d, k);
    }
  }

  ghost predicate IsBlock(answer: nat -> seq<u32>, from: nat, to: nat, block: seq<Finding>) {
    && from <= to && |block| == to - from
    && forall i :: 0 <= i < |block| ==> block[i] == Finding(from + i, answer(from + i))
  }

  lemma BlockMore(answer: nat -> seq<u32>, from: nat, k: nat, block: seq<Finding>)
    requires IsBlock(answer, from, k, block)
    ensures IsBlock(answer, from, k + 1, block + [Finding(k, answer(k))])
  {
  }

  method DetectNext(m: TensorMap, d: Described, ghost from: nat, k: nat, block: seq<Finding>,
                    ghost answer: nat -> seq<u32>)
    returns (more: seq<Finding>)
    requires At(m, d, k) && k < ID_LIMIT && answer == Answers(d, m.cfg) && IsBlock(answer, from, k, block)
    modifies m`freeNum, m`nextEntryIdx, m`log, m.pool, m.buckets, m.freeList, m.taskHeads
    ensures At(m, d, k + 1) && IsBlock(answer, from, k + 1, more)
  {
    BlockMore(answer, from, k, block);
    var f := DetectOne(m, d, k);
    more := block + [f];
  }

  /** The detect loop: the thread's own ids. */
  method DetectBlock(m: TensorMap, d: Described, from: nat, to: nat) returns (block: seq<Finding>)
    requires At(m, d, from) && from <= to <= ID_LIMIT
    modifies m`freeNum, m`nextEntryIdx, m`log, m.pool, m.buckets, m.freeList, m.taskHeads
    ensures At(m, d, to) && IsBlock(Answers(d, m.cfg), from, to, block)
  {
    block := [];
    ghost var answer := Answers(d, m.cfg);
    for k := from to to
      invariant At(m, d, k)
      invariant IsBlock(answer, from, k, block)
    {
      block := DetectNext(m, d, from, k, block, answer);
    }
  }

  /** A block of owned tasks extends the thread's report. */
  lemma {:induction false} FindingsBlock(answer: nat -> seq<u32>, own: nat -> bool, from: nat, to: nat,
                                         block: seq<Finding>)
    requires IsBlock(answer, from, to, block)
    requires forall k: nat :: from <= k < to ==> own(k)
    ensures Findings(answer, own, to) == Findings(answer, own, from) + block
    decreases |block|
  {
    if from < to {
      var n := |block| - 1;
      FindingsBlock(answer, own, from, to - 1, block[..n]);
      FindingsMore(answer, own, to - 1);
      SplitStep(Findings(answer, own, from), block, n);
      SplitEnds(Findings(answer, own, from), block);
    }
  }

  lemma FindingsMore(answer: nat -> seq<u32>, own: nat -> bool, k: nat)
    requires own(k)
    ensures Findings(answer, own, k + 1) == Findings(answer, own, k) + [Finding(k, answer(k))]
  {
    assert OwnedIds(own, k + 1) == OwnedIds(own, k) + [k];
  }

  /** What block `b` of the thread covers, and that nothing is owned until the next one. */
  lemma NextBlock(b: nat, thread: nat, threads: nat, batch: nat)
    requires threads > 0 && batch > 0 && b % threads == thread
    ensures b * batch + threads * batch == (b + threads) * batch && threads * batch >= batch
    ensures (b + threads) % threads == thread
    ensures forall k: nat :: b * batch <= k < b * batch + batch ==> Cyclic(thread, threads, batch)(k)
    ensures forall k: nat :: b * batch + batch <= k < (b + threads) * batch ==> !Cyclic(thread, threads, batch)(k)
  {
    AtLeastNext(0, threads, batch);
    ModOfSum(b, 1, threads);
    forall k: nat | b * batch <= k < (b + threads) * batch
      ensures Cyclic(thread, threads, batch)(k) <==> k < b * batch + batch
    {
      OwnedBlock(b, threads, batch, k);
    }
  }

  /** Loop variables of orchestrator_detect: the next block starts at `start`, a multiple of the batch size
      whose block number belongs to the thread, and nothing unseen before it is the thread's. */
  ghost predicate Position(thread: nat, threads: nat, batch: nat, buildStart: nat, start: nat, total: nat) {
    && threads > 0 && batch > 0 && buildStart <= start && buildStart <= total
    && (exists b: nat :: start == b * batch && b % threads == thread)
    && forall k: nat :: buildStart <= k < start && k < total ==> !Cyclic(thread, threads, batch)(k)
  }

  lemma BeforeFirst(thread: nat, threads: nat, batch: nat, total: nat)
    requires thread < threads && batch > 0
    ensures Position(thread, threads, batch, 0, thread * batch, total)
  {
    assert thread % threads == thread;
    forall k: nat | k < thread * batch ensures !Cyclic(thread, threads, batch)(k) {
      FirstBlock(thread, threads, batch, k);
    }
  }

  lemma AdvancePosition(thread: nat, threads: nat, batch: nat, buildStart: nat, start: nat, end: nat, total: nat,
                        stride: nat)
    requires Position(thread, threads, batch, buildStart, start, total) && start < total && stride == threads * batch
    requires end == if start + batch > total then total else start + batch
    ensures forall k: nat :: buildStart <= k < start ==> !Cyclic(thread, threads, batch)(k)
    ensures forall k: nat :: start <= k < end ==> Cyclic(thread, threads, batch)(k)
    ensures Position(thread, threads, batch, end, start + stride, total)
    ensures stride > 0
  {
    var b: nat :| start == b * batch && b % threads == thread;
    NextBlock(b, thread, threads, batch);
  }

  /** One turn of the outer loop: replay up to the thread's block, then detect it. */
  method Round(m: TensorMap, d: Described, ghost own: nat -> bool, buildStart: nat, start: nat, end: nat,
               found: seq<Finding>)
    returns (more: seq<Finding>)
    requires At(m, d, buildStart) && buildStart <= start <= end <= ID_LIMIT
    requires forall k: nat :: buildStart <= k < start ==> !own(k)
    requires forall k: nat :: start <= k < end ==> own(k)
    requires found == Findings(Answers(d, m.cfg), own, buildStart)
    modifies m`freeNum, m`nextEntryIdx, m`log, m.pool, m.buckets, m.freeList, m.taskHeads
    ensures At(m, d, end) && more == Findings(Answers(d, m.cfg), own, end) && |more| == |found| + (end - start)
  {
    Replay(m, d, buildStart, start);
    OwnedSkip(own, buildStart, start);
    var block := DetectBlock(m, d, start, end);
    FindingsBlock(Answers(d, m.cfg), own, start, end, block);
    more := found + block;
  }

  /** orchestrator_detect for one thread. For every thread count, batch size and total it reports exactly its
      own tasks, in order, each with the predecessors the one-thread detection finds; every non-empty list is
      one call of add_predecessors. */
  method OrchestratorDetect(cfg: Config, d: Described, thread: nat, threads: nat, batch: nat, total: nat)
    returns (found: seq<Finding>, published: nat)
    requires ValidConfig(cfg) && Filled(d) && thread < threads && batch > 0 && total <= ID_LIMIT
    ensures found == Findings(Answers(d, cfg), Cyclic(thread, threads, batch), total)
    ensures published == |found|
  {
    var m := new TensorMap(cfg);
    var start: nat, buildStart: nat, stride: nat := thread * batch, 0, threads * batch;
    var end: nat := start + batch;
    ghost var own := Cyclic(thread, threads, batch);
    found, published := [], 0;
    BeforeFirst(thread, threads, batch, total);
    while start < total
      invariant At(m, d, buildStart) && m.cfg == cfg && fresh(m.Repr())
      invariant found == Findings(Answers(d, cfg), own, buildStart)
      invariant Position(thread, threads, batch, buildStart, start, total) && end == start + batch
      invariant published == |found|
      decreases total - start
    {
      if end > total {
        end := total;
      }
      AdvancePosition(thread, threads, batch, buildStart, start, end, total, stride);
      found := Round(m, d, own, buildStart, start, end, found);
      published := published + (end - start);
      buildStart := end;
      start := start + stride;
      end := start + batch;
    }
    OwnedSkip(own, buildStart, total);
  }

  // ---- All threads together -------------------------------------------------------------------

  lemma {:induction false} OwnedExact(own: nat -> bool, total: nat, k: nat)
    ensures k in OwnedIds(own, total) <==> k < total && own(k)
  {
    if total > 0 {
      OwnedExact(own, total - 1, k);
    }
  }

  /** Each task is reported by exactly one thread, with the sequential predecessors. */
  lemma FindingsExact(answer: nat -> seq<u32>, thread: nat, threads: nat, batch: nat, total: nat, f: Finding)
    requires threads > 0 && batch > 0
    ensures f in Findings(answer, Cyclic(thread, threads, batch), total) <==>
              f.task < total && thread == (f.task / batch) % threads && f.preds == answer(f.task)
  {
    var ids := OwnedIds(Cyclic(thread, threads, batch), total);
    OwnedExact(Cyclic(thread, threads, batch), total, f.task);
    var r := Report(answer, ids);
    if f.task in ids {
      var i :| 0 <= i < |ids| && ids[i] == f.task;
      assert r[i] == Finding(f.task, answer(f.task));
    }
  }

  /** Total number of tasks published by the first `upTo` threads. */
  function PublishedBy(upTo: nat, threads: nat, batch: nat, total: nat): nat
    requires threads > 0 && batch > 0
  {
    if upTo == 0 then 0
    else PublishedBy(upTo - 1, threads, batch, total) + |OwnedIds(Cyclic(upTo - 1, threads, batch), total)|
  }

  lemma {:induction false} PublishedStep(upTo: nat, threads: nat, batch: nat, total: nat)
    requires total > 0 && threads > 0 && batch > 0
    ensures PublishedBy(upTo, threads, batch, total)
         == PublishedBy(upTo, threads, batch, total - 1) + (if ((total - 1) / batch) % threads < upTo then 1 else 0)
    decreases upTo
  {
    if upTo > 0 {
      PublishedStep(upTo - 1, threads, batch, total);
    }
  }

  /** The published counts of all threads add up to the number of tasks. */
  lemma {:induction false} PublishedTotal(threads: nat, batch: nat, total: nat)
    requires threads > 0 && batch > 0
    ensures PublishedBy(threads, threads, batch, total) == total
  {
    if total == 0 {
      NothingPublished(threads, threads, batch);
    } else {
      PublishedTotal(threads, batch, total - 1);
      PublishedStep(threads, threads, batch, total);
    }
  }

  lemma {:induction false} NothingPublished(upTo: nat, threads: nat, batch: nat)
    requires threads > 0 && batch > 0
    ensures PublishedBy(upTo, threads, batch, 0) == 0
  {
    if upTo > 0 {
      NothingPublished(upTo - 1, threads, batch);
    }
  }
}
