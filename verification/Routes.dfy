/** The two routes to the same graph: tm_submit one task at a time, or describe first and detect later
    (esl_proxy/include/algorithm/tensormap.h:157-185, esl_proxy/cases/qwen3_14b_decoder_detect.h:93-142). */
module Routes {
  import opened Words
  import opened Sequences
  import opened Tensors
  import opened Overlaps
  import opened MapLogs
  import opened Submits
  import opened Runs
  import opened Detects
  import opened Graphs

  /** The task declares the described tensors, in any order. */
  ghost predicate SameTensors(pend: seq<Pending>, td: TaskTensors) {
    multiset(pend) == multiset(Declare(td.ins, In) + InsertOrder(td))
  }

  /** The run submits the described tasks while no task completes. */
  ghost predicate SameTasks(run: Run, d: Described) {
    && |run| <= ID_LIMIT && Filled(d)
    && forall k :: 0 <= k < |run| ==> SameTask(run, d, k)
  }

  ghost predicate SameTask(run: Run, d: Described, k: nat)
    requires Filled(d) && k < |run|
  {
    run[k].alive == 0 && SameTensors(run[k].pend, TaskOf(d, k))
  }

  // ---- Reordering ------------------------------------------------------------------------------

  lemma {:induction false} FilterCount<T>(s: seq<T>, keep: T -> bool, x: T)
    ensures multiset(Filter(s, keep))[x] == if keep(x) then multiset(s)[x] else 0
  {
    if s != [] {
      assert s == [s[0]] + s[1..];
      FilterCount(s[1..], keep, x);
    }
  }

  lemma FilterBag<T(!new)>(a: seq<T>, b: seq<T>, keep: T -> bool)
    requires multiset(a) == multiset(b)
    ensures multiset(Filter(a, keep)) == multiset(Filter(b, keep))
  {
    forall x ensures multiset(Filter(a, keep))[x] == multiset(Filter(b, keep))[x] {
      FilterCount(a, keep, x);
      FilterCount(b, keep, x);
    }
  }

  lemma {:induction false} OutputsAppend(a: seq<Pending>, b: seq<Pending>, tid: u32)
    ensures Outputs(a + b, tid) == Outputs(b, tid) + Outputs(a, tid)
  {
    if b == [] {
      assert a + b == a;
    } else {
      var n := |b| - 1;
      OutputsAppend(a, b[..n], tid);
      assert (a + b)[..|a + b| - 1] == a + b[..n] && (a + b)[|a + b| - 1] == b[n];
      var own := if b[n].Writes() then [RecOf(b[n], tid)] else [];
      assert Outputs(a + b, tid) == own + (Outputs(b[..n], tid) + Outputs(a, tid));
      assert Outputs(b, tid) == own + Outputs(b[..n], tid);
    }
  }

  /** The records a task leaves do not depend on the order of its declarations. */
  lemma {:induction false} OutputsBag(p: seq<Pending>, q: seq<Pending>, tid: u32)
    requires multiset(p) == multiset(q)
    ensures multiset(Outputs(p, tid)) == multiset(Outputs(q, tid))
    decreases |p|
  {
    if p == [] {
      BagSize(p, q);
    } else {
      var n := |p| - 1;
      assert p == p[..n] + [p[n]];
      var q1, q2 := TakeOut(p[..n], p[n], q);
      OutputsBag(p[..n], q1 + q2, tid);
      OutputsAppend(p[..n], [p[n]], tid);
      OutputsAppend(q1 + [p[n]], q2, tid);
      OutputsAppend(q1, [p[n]], tid);
      OutputsAppend(q1, q2, tid);
    }
  }

  lemma BagSize<T>(a: seq<T>, b: seq<T>)
    requires multiset(a) == multiset(b)
    ensures |a| == |b|
  {
    assert |multiset(a)| == |a| && |multiset(b)| == |b|;
  }

  lemma TakeOut<T>(p: seq<T>, x: T, q: seq<T>) returns (q1: seq<T>, q2: seq<T>)
    requires multiset(p + [x]) == multiset(q)
    ensures q == q1 + [x] + q2 && multiset(p) == multiset(q1 + q2)
  {
    assert x in multiset(q);
    var i :| 0 <= i < |q| && q[i] == x;
    q1, q2 := q[..i], q[i + 1..];
    assert q == q1 + [x] + q2;
    CancelOne(multiset(p), multiset(q1 + q2), x);
  }

  lemma CancelOne<T>(a: multiset<T>, b: multiset<T>, x: T)
    requires a + multiset{x} == b + multiset{x}
    ensures a == b
  {
    assert a == a + multiset{x} - multiset{x};
  }

  lemma {:induction false} InputsLeaveNothing(ts: seq<Tensor>, tid: u32)
    ensures Outputs(Declare(ts, In), tid) == []
  {
    if ts != [] {
      var n := |ts| - 1;
      InputsLeaveNothing(ts[..n], tid);
      assert Declare(ts, In)[..n] == Declare(ts[..n], In);
    }
  }

  // ---- One task ----------------------------------------------------------------------------------

  lemma DeclaredMember(ts: seq<Tensor>, a: Access, p: Pending)
    ensures p in Declare(ts, a) <==> p.access == a && p.t in ts
  {
    if p.access == a && p.t in ts {
      var i :| 0 <= i < |ts| && ts[i] == p.t;
      assert Declare(ts, a)[i] == p;
    }
  }

  lemma SameReads(pend: seq<Pending>, td: TaskTensors, p: Pending)
    requires SameTensors(pend, td) && p.Reads()
    ensures p in pend <==> p in LookupOrder(td)
  {
    assert p in pend <==> p in multiset(pend);
    assert p in pend <==> p in Declare(td.ins, In) + InsertOrder(td);
    InTurnIs(td.ins, In, td.inouts);
    InTurnIs(td.outs, Out, td.inouts);
    DeclaredMember(td.outs, Out, p);
  }

  /** Both orders of lookups hit and cover the same records. */
  lemma SameHits(pend: seq<Pending>, td: TaskTensors, r: Rec)
    requires SameTensors(pend, td)
    ensures HitBy(r, pend, 0) <==> HitBy(r, LookupOrder(td), 0)
    ensures CoveredBy(r, pend, 0) <==> CoveredBy(r, LookupOrder(td), 0)
  {
    HitByMembers(r, pend);
    HitByMembers(r, LookupOrder(td));
    forall p: Pending | p.Reads() ensures p in pend <==> p in LookupOrder(td) {
      SameReads(pend, td, p);
    }
  }

  lemma HitByMembers(r: Rec, pend: seq<Pending>)
    ensures HitBy(r, pend, 0) <==> exists p :: p in pend && p.Reads() && IsHit(r, p.t, 0)
    ensures CoveredBy(r, pend, 0) <==>
              exists p :: p in pend && p.Reads() && p.access == InOut && IsHit(r, p.t, 0)
                          && CheckOverlap(p.t, r.view) == Covered
  {
  }

  /** One task on maps that hold the same records: the same predecessors, and again the same records. */
  lemma StepAgrees(log: Log, bag: Log, cfg: Config, dcfg: Config, pend: seq<Pending>, td: TaskTensors, tid: u32)
    requires multiset(log) == multiset(bag) && SameTensors(pend, td) && cfg.poolSize <= dcfg.poolSize
    requires |HitProducers(log, 0, pend, tid)| <= MAX_PRED
    requires |Outputs(pend, tid)| + |LookAll(log, 0, pend, tid).0| <= cfg.poolSize
    ensures SetOf(LookAll(log, 0, pend, tid).1.preds) == SetOf(Detected(bag, dcfg, td, tid).1)
    ensures multiset(InsertAll(LookAll(log, 0, pend, tid).0, cfg, pend, tid))
         == multiset(Detected(bag, dcfg, td, tid).0)
  {
    var q := LookupOrder(td);
    forall r ensures HitBy(r, pend, 0) == HitBy(r, q, 0) && CoveredBy(r, pend, 0) == CoveredBy(r, q, 0) {
      SameHits(pend, td, r);
    }
    SameProducers(log, bag, pend, q, tid);
    CollectsAll(log, 0, pend, tid);
    CollectsAll(bag, 0, q, tid);
    SameSurvivors(log, bag, pend, q, tid);
    SameOutputs(pend, td, tid);
    var a, b := LookAll(log, 0, pend, tid).0, LookAll(bag, 0, q, tid).0;
    BagSize(a, b);
    BagSize(Outputs(pend, tid), Outputs(InsertOrder(td), tid));
    InsertsAll(a, cfg, pend, tid);
    InsertsAll(b, dcfg, InsertOrder(td), tid);
  }

  lemma SameProducers(log: Log, bag: Log, pend: seq<Pending>, q: seq<Pending>, tid: u32)
    requires multiset(log) == multiset(bag) && forall r :: HitBy(r, pend, 0) == HitBy(r, q, 0)
    ensures HitProducers(log, 0, pend, tid) == HitProducers(bag, 0, q, tid)
  {
    forall r ensures r in log <==> r in bag {
      assert r in log <==> r in multiset(log);
      assert r in bag <==> r in multiset(bag);
    }
  }

  lemma SameSurvivors(log: Log, bag: Log, pend: seq<Pending>, q: seq<Pending>, tid: u32)
    requires multiset(log) == multiset(bag) && forall r :: CoveredBy(r, pend, 0) == CoveredBy(r, q, 0)
    ensures multiset(LookAll(log, 0, pend, tid).0) == multiset(LookAll(bag, 0, q, tid).0)
  {
    LookAllExact(log, 0, pend, tid);
    LookAllExact(bag, 0, q, tid);
    FilterBag(log, bag, Surviving(pend, 0));
    FilterSame(bag, Surviving(pend, 0), Surviving(q, 0));
  }

  lemma SameOutputs(pend: seq<Pending>, td: TaskTensors, tid: u32)
    requires SameTensors(pend, td)
    ensures multiset(Outputs(pend, tid)) == multiset(Outputs(InsertOrder(td), tid))
  {
    OutputsBag(pend, Declare(td.ins, In) + InsertOrder(td), tid);
    OutputsAppend(Declare(td.ins, In), InsertOrder(td), tid);
    InputsLeaveNothing(td.ins, tid);
  }

  // ---- Whole runs ------------------------------------------------------------------------------------

  /** While the watermark stays at 0, synchronising changes nothing. */
  lemma QuietSync(m: MapState, cfg: Config, k: u32)
    requires cfg.window > 0 && m.lastCleanup == 0
    ensures Synced(m, cfg, 0, k).log == m.log && Synced(m, cfg, 0, k).lastCleanup == 0
  {
  }

  lemma {:induction false} NeverCleaned(run: Run, d: Described, cfg: Config, k: nat)
    requires cfg.window > 0 && k <= |run| && SameTasks(run, d)
    ensures MapAfter(run, cfg, k).lastCleanup == 0
  {
    if k > 0 {
      NeverCleaned(run, d, cfg, k - 1);
      assert SameTask(run, d, k - 1);
      QuietSync(MapAfter(run, cfg, k - 1), cfg, k - 1);
    }
  }

  /** The same records, each as often. */
  ghost predicate Alike(m: MapState, bag: Log) {
    multiset(m.log) == multiset(bag)
  }

  ghost function Maps(run: Run, cfg: Config): nat -> MapState
    requires cfg.window > 0 && |run| <= ID_LIMIT
  {
    (k: nat) => if k <= |run| && cfg.window > 0 && |run| <= ID_LIMIT then MapAfter(run, cfg, k) else MapState([], 0, 0)
  }

  ghost function Bags(d: Described, cfg: Config): nat -> Log
    requires Filled(d)
  {
    (k: nat) => if k <= ID_LIMIT && Filled(d) then LogBefore(d, cfg, k) else []
  }

  lemma {:induction false} Together(maps: nat -> MapState, bags: nat -> Log, k: nat)
    requires Alike(maps(0), bags(0))
    requires forall j: nat :: j < k && Alike(maps(j), bags(j)) ==> Alike(maps(j + 1), bags(j + 1))
    ensures Alike(maps(k), bags(k))
  {
    if k > 0 {
      Together(maps, bags, k - 1);
      assert Alike(maps(k - 1 + 1), bags(k - 1 + 1));
    }
  }

  lemma SameRecords(run: Run, d: Described, cfg: Config, dcfg: Config, k: nat)
    requires cfg.window > 0 && cfg.poolSize <= dcfg.poolSize
    requires k <= |run| && SameTasks(run, d) && NoLimitHit(run, cfg)
    ensures Alike(MapAfter(run, cfg, k), LogBefore(d, dcfg, k))
  {
    var maps, bags := Maps(run, cfg), Bags(d, dcfg);
    forall j: nat | j < k && Alike(maps(j), bags(j)) ensures Alike(maps(j + 1), bags(j + 1)) {
      NextAgrees(run, d, cfg, dcfg, maps, bags, j);
    }
    Together(maps, bags, k);
  }

  lemma NextAgrees(run: Run, d: Described, cfg: Config, dcfg: Config, maps: nat -> MapState, bags: nat -> Log, j: nat)
    requires cfg.window > 0 && cfg.poolSize <= dcfg.poolSize
    requires j < |run| && SameTasks(run, d) && NoLimitHit(run, cfg)
    requires maps == Maps(run, cfg) && bags == Bags(d, dcfg) && Alike(maps(j), bags(j))
    ensures Alike(maps(j + 1), bags(j + 1))
  {
    TaskAgrees(run, d, cfg, dcfg, j);
  }

  /** Before every task both routes hold the same records, although they look up and insert in different
      orders, and they find the same predecessors for it. Bucket counts and windows may differ, and the detect
      threads' pools may be larger. */
  lemma RoutesAgree(run: Run, d: Described, cfg: Config, dcfg: Config, k: nat)
    requires cfg.window > 0 && cfg.poolSize <= dcfg.poolSize
    requires k < |run| && SameTasks(run, d) && NoLimitHit(run, cfg)
    ensures multiset(MapAfter(run, cfg, k).log) == multiset(LogBefore(d, dcfg, k))
    ensures SetOf(PredsAt(run, cfg, k)) == SetOf(PredsOf(d, dcfg, k))
  {
    SameRecords(run, d, cfg, dcfg, k);
    TaskAgrees(run, d, cfg, dcfg, k);
  }

  lemma TaskAgrees(run: Run, d: Described, cfg: Config, dcfg: Config, k: nat)
    requires cfg.window > 0 && cfg.poolSize <= dcfg.poolSize
    requires k < |run| && SameTasks(run, d) && NoLimitHit(run, cfg)
    requires Alike(MapAfter(run, cfg, k), LogBefore(d, dcfg, k))
    ensures Alike(MapAfter(run, cfg, k + 1), LogBefore(d, dcfg, k + 1))
    ensures SetOf(PredsAt(run, cfg, k)) == SetOf(PredsOf(d, dcfg, k))
  {
    NeverCleaned(run, d, cfg, k);
    assert SameTask(run, d, k);
    QuietSync(MapAfter(run, cfg, k), cfg, k);
    assert WithinLimits(run, cfg, k);
    StepAgrees(MapAfter(run, cfg, k).log, LogBefore(d, dcfg, k), cfg, dcfg, run[k].pend, TaskOf(d, k), k);
  }

  // ---- Declarations in the order IN, OUT, INOUT ------------------------------------------------------

  predicate AllOf(pend: seq<Pending>, a: Access) {
    forall i :: 0 <= i < |pend| ==> pend[i].access == a
  }

  /** OUT declarations take no part in the lookups. */
  lemma {:induction false} LookSkips(log: Log, alive: i32, a: seq<Pending>, outs: seq<Pending>, c: seq<Pending>,
                                     tid: u32)
    requires AllOf(outs, Out)
    ensures LookAll(log, alive, a + outs + c, tid) == LookAll(log, alive, a + c, tid)
    decreases |c|, |outs|
  {
    if c != [] {
      var n := |c| - 1;
      LookSkips(log, alive, a, outs, c[..n], tid);
      LookLast(log, alive, a + outs + c[..n], c[n], a + outs + c, tid);
      LookLast(log, alive, a + c[..n], c[n], a + c, tid);
    } else if outs != [] {
      var n := |outs| - 1;
      LookSkips(log, alive, a, outs[..n], c, tid);
      assert a + outs[..n] + c == a + outs[..n];
      LookLast(log, alive, a + outs[..n], outs[n], a + outs + c, tid);
    } else {
      assert a + outs + c == a + c;
    }
  }

  lemma LookLast(log: Log, alive: i32, before: seq<Pending>, p: Pending, all: seq<Pending>, tid: u32)
    requires all == before + [p]
    ensures var (l, c) := LookAll(log, alive, before, tid);
            LookAll(log, alive, all, tid) == if p.Reads() then LookUp(l, alive, p, c) else (l, c)
  {
    assert all[..|all| - 1] == before && all[|all| - 1] == p;
  }

  /** IN declarations take no part in the insertions. */
  lemma {:induction false} InsertSkips(log: Log, cfg: Config, ins: seq<Pending>, c: seq<Pending>, tid: u32)
    requires AllOf(ins, In)
    ensures InsertAll(log, cfg, ins + c, tid) == InsertAll(log, cfg, c, tid)
    decreases |c|, |ins|
  {
    if c != [] {
      assert (ins + c)[..|ins + c| - 1] == ins + c[..|c| - 1];
      InsertSkips(log, cfg, ins, c[..|c| - 1], tid);
    } else if ins != [] {
      assert (ins + c)[..|ins + c| - 1] == ins[..|ins| - 1] + c;
      InsertSkips(log, cfg, ins[..|ins| - 1], c, tid);
    }
  }

  /** For a body that declares its IN, then its OUT, then its INOUT tensors, detection does exactly what tm_submit
      does at watermark 0: the same list in the same order and the same map, whichever limits are hit. */
  lemma SortedExactly(log: Log, cfg: Config, td: TaskTensors, pend: seq<Pending>, tid: u32)
    requires pend == Declare(td.ins, In) + (Declare(td.outs, Out) + Declare(td.inouts, InOut))
    ensures var (l, c) := LookAll(log, 0, pend, tid);
            Detected(log, cfg, td, tid) == (InsertAll(l, cfg, pend, tid), c.preds)
  {
    var ins, outs, inouts := Declare(td.ins, In), Declare(td.outs, Out), Declare(td.inouts, InOut);
    InTurnIs(td.ins, In, td.inouts);
    InTurnIs(td.outs, Out, td.inouts);
    assert pend == ins + outs + inouts;
    LookSkips(log, 0, ins, outs, inouts, tid);
    InsertSkips(LookAll(log, 0, pend, tid).0, cfg, ins, outs + inouts, tid);
  }

  // ---- Read-after-write ------------------------------------------------------------------------------

  /** One row of edges per task. */
  function RowsOf(answer: nat -> seq<u32>, total: nat): (g: Graph)
    ensures |g| == total
  {
    if total == 0 then [] else RowsOf(answer, total - 1) + [EdgeRow(answer(total - 1), 0)]
  }

  lemma {:induction false} RowsAt(answer: nat -> seq<u32>, total: nat, k: nat)
    requires k < total
    ensures RowsOf(answer, total)[k] == EdgeRow(answer(k), 0)
  {
    if k < total - 1 {
      RowsAt(answer, total - 1, k);
    }
  }

  /** Read-after-write ordering holds for the lists the detect threads hand to add_predecessors. */
  lemma DetectedReadAfterWrite(run: Run, d: Described, cfg: Config, dcfg: Config, ringSize: nat,
                               p: nat, c: nat, w: Pending, r: Pending, x: int)
    requires WellTimed(run, cfg, ringSize) && SameTasks(run, d) && NoLimitHit(run, cfg) && Trustworthy(run)
    requires cfg.poolSize <= dcfg.poolSize && c < |run| && p < c && forall k :: 0 <= k < |run| ==> run[k].minTask == 0
    requires WritesAt(run, p, w) && ReadsAt(run, c, r) && w.t.view.base == r.t.view.base
    requires Addresses(w.t.view, x) && Addresses(r.t.view, x)
    ensures Reach(RowsOf(Answers(d, dcfg), |run|), p, c)
  {
    ReadAfterWrite(run, cfg, ringSize, p, c, w, r, x);
    var g, h := Edges(run, cfg), RowsOf(Answers(d, dcfg), |run|);
    forall k | 0 <= k <= c ensures g[k] <= h[k] {
      RoutesAgree(run, d, cfg, dcfg, k);
      RowOf(run, cfg, |run|, k);
      RowsAt(Answers(d, dcfg), |run|, k);
      forall m: nat | m in g[k] ensures m in h[k] {
        assert m in SetOf(PredsAt(run, cfg, k));
      }
    }
    ReachMono(g, h, p, c);
  }
}
