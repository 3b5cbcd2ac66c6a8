/** Whole runs of tm_submit on consecutive task ids: retirement and read-after-write ordering. */
module Runs {
  import opened Words
  import opened Tensors
  import opened Overlaps
  import opened MapLogs
  import opened Submits
  import opened Graphs
  import OverlapLoops

  /** One submission; its task id is its position in the run. `alive` and `minTask` are the two reads of the
      completion watermark. */
  datatype Sub = Sub(pend: seq<Pending>, alive: i32, minTask: nat)

  type Run = seq<Sub>

  /** Watermarks only grow, never pass the task being submitted, and new_task held the task back until it was
      less than a ring ahead; the window is at least the ring. */
  ghost predicate WellTimed(run: Run, cfg: Config, ringSize: nat) {
    && ValidConfig(cfg) && |run| <= ID_LIMIT && 0 < ringSize <= cfg.window
    && (forall k :: 0 <= k < |run| ==> Timely(run, ringSize, k))
    && (forall j, k :: 0 <= j < k < |run| ==> InOrder(run, j, k))
  }

  predicate Timely(run: Run, ringSize: nat, k: nat)
    requires k < |run|
  {
    0 <= run[k].alive <= run[k].minTask <= k && k - run[k].alive < ringSize
  }

  predicate InOrder(run: Run, j: nat, k: nat)
    requires j < k < |run|
  {
    run[j].minTask <= run[k].alive
  }

  ghost function MapAfter(run: Run, cfg: Config, k: nat): MapState
    requires cfg.window > 0 && k <= |run| <= ID_LIMIT
  {
    if k == 0 then MapState([], 0, 0)
    else Submitted(MapAfter(run, cfg, k - 1), cfg, run[k - 1].pend, k - 1, run[k - 1].alive).0
  }

  ghost function SyncedAt(run: Run, cfg: Config, k: nat): MapState
    requires cfg.window > 0 && k < |run| <= ID_LIMIT
  {
    Synced(MapAfter(run, cfg, k), cfg, run[k].alive, k)
  }

  ghost function PredsAt(run: Run, cfg: Config, k: nat): seq<u32>
    requires cfg.window > 0 && k < |run| <= ID_LIMIT
  {
    LookAll(SyncedAt(run, cfg, k).log, run[k].alive, run[k].pend, k).1.preds
  }

  function EdgeRow(preds: seq<u32>, minTask: nat): set<nat> {
    set p: nat | p in preds && p >= minTask
  }

  /** The edges add_predecessors stores without dedup. */
  ghost function Edges(run: Run, cfg: Config): (g: Graph)
    requires cfg.window > 0 && |run| <= ID_LIMIT
    ensures |g| == |run|
  {
    EdgesUpTo(run, cfg, |run|)
  }

  ghost function EdgesUpTo(run: Run, cfg: Config, k: nat): (g: Graph)
    requires cfg.window > 0 && k <= |run| <= ID_LIMIT
    ensures |g| == k
  {
    if k == 0 then [] else EdgesUpTo(run, cfg, k - 1) + [EdgeRow(PredsAt(run, cfg, k - 1), run[k - 1].minTask)]
  }

  lemma {:induction false} RowOf(run: Run, cfg: Config, k: nat, t: nat)
    requires cfg.window > 0 && t < k <= |run| <= ID_LIMIT
    ensures EdgesUpTo(run, cfg, k)[t] == EdgeRow(PredsAt(run, cfg, t), run[t].minTask)
  {
    if t < k - 1 {
      RowOf(run, cfg, k - 1, t);
    }
  }

  // ---- Retirement ----------------------------------------------------------------------------

  /** Live producers lie in `[last_cleanup, next id)`, which fits in one window. */
  ghost predicate Windowed(m: MapState, cfg: Config, next: nat) {
    && m.lastCleanup <= next <= m.lastCleanup as int + cfg.window
    && forall r :: r in m.log ==> m.lastCleanup <= r.producer < next
  }

  /** One synchronisation frees exactly the records below the watermark when 64 tasks or more have retired since
      the last cleanup or the window is about to wrap, and nothing otherwise; it leaves room in the window for the
      new id. */
  lemma SyncExact(m: MapState, cfg: Config, alive: i32, k: u32, ringSize: nat)
    requires 0 < ringSize <= cfg.window && Windowed(m, cfg, k)
    requires m.lastCleanup <= alive <= k && k - alive < ringSize
    ensures var s := Synced(m, cfg, alive, k);
            && s.log == (if s.lastCleanup == m.lastCleanup then m.log else Filter(m.log, From(alive)))
            && s.lastAlive == alive && s.lastCleanup in {m.lastCleanup, alive}
            && k < s.lastCleanup as int + cfg.window && alive - s.lastCleanup < 64
            && (forall r :: r in s.log <==> r in m.log && s.lastCleanup <= r.producer)
            && s.lastCleanup == (if alive - m.lastCleanup >= 64 || k == m.lastCleanup || k == m.lastCleanup + cfg.window
                                 then alive else m.lastCleanup)
  {
    var s := Synced(m, cfg, alive, k);
    SlotMeets(cfg, m.lastCleanup, k);
    forall r ensures r in Filter(m.log, From(alive)) <==> r in m.log && From(alive)(r) {
      FilterMember(m.log, From(alive), r);
    }
    if alive as int - m.lastCleanup >= CLEANUP_INTERVAL || Slot(cfg, k) == Slot(cfg, m.lastCleanup) {
      forall i | 0 <= i < |m.log| ensures m.lastCleanup <= m.log[i].producer < m.lastCleanup as int + cfg.window {
        assert m.log[i] in m.log;
      }
      PurgeExact(m.log, cfg, m.lastCleanup, alive);
      if s.lastCleanup == m.lastCleanup {
        assert Purge(m.log, cfg, m.lastCleanup, alive) == m.log;
      }
    } else {
      SlotAfterWindow(cfg, m.lastCleanup);
    }
  }

  /** Within a window the slot of an id meets an earlier one only at its two ends. */
  lemma SlotMeets(cfg: Config, a: int, b: int)
    requires cfg.window > 0 && a <= b <= a + cfg.window
    ensures Slot(cfg, b) == Slot(cfg, a) <==> b == a || b == a + cfg.window
  {
    if b == a + cfg.window {
      SlotAfterWindow(cfg, a);
    } else if Slot(cfg, b) == Slot(cfg, a) {
      SameResidue(b, a, cfg.window);
    }
  }

  lemma SlotAfterWindow(cfg: Config, a: int)
    requires cfg.window > 0
    ensures Slot(cfg, a + cfg.window) == Slot(cfg, a)
  {
    ModOfSum(a, 1, cfg.window);
  }

  lemma SubmittedMembers(s: MapState, cfg: Config, pend: seq<Pending>, k: u32, r: Rec)
    requires r in InsertAll(LookAll(s.log, s.lastAlive, pend, k).0, cfg, pend, k)
    ensures r in s.log || r.producer == k
  {
    LookAllExact(s.log, s.lastAlive, pend, k);
    FilterMember(s.log, Surviving(pend, s.lastAlive), r);
    InsertMembers(LookAll(s.log, s.lastAlive, pend, k).0, cfg, pend, k, r);
  }

  lemma {:induction false} InsertMembers(log: Log, cfg: Config, pend: seq<Pending>, k: u32, r: Rec)
    requires r in InsertAll(log, cfg, pend, k)
    ensures r in log || (r.producer == k && Makes(pend, k, r))
  {
    if pend != [] {
      var n := |pend| - 1;
      MakesMore(pend[..n], pend[n], k, r);
      assert pend == pend[..n] + [pend[n]];
      if r in InsertAll(log, cfg, pend[..n], k) {
        InsertMembers(log, cfg, pend[..n], k, r);
      }
    }
  }

  lemma WindowedStep(run: Run, cfg: Config, ringSize: nat, k: nat)
    requires WellTimed(run, cfg, ringSize) && k < |run| && Windowed(MapAfter(run, cfg, k), cfg, k)
    requires MapAfter(run, cfg, k).lastCleanup <= run[k].alive
    ensures Windowed(MapAfter(run, cfg, k + 1), cfg, k + 1)
    ensures MapAfter(run, cfg, k + 1).lastCleanup <= run[k].alive
  {
    var m, s := MapAfter(run, cfg, k), SyncedAt(run, cfg, k);
    assert Timely(run, ringSize, k);
    SyncExact(m, cfg, run[k].alive, k, ringSize);
    forall r | r in MapAfter(run, cfg, k + 1).log ensures s.lastCleanup <= r.producer < k + 1 {
      SubmittedMembers(s, cfg, run[k].pend, k, r);
    }
  }

  /** In every well-timed run, before and after every submission, the live producers span less than a window,
      so no cleanup ever frees a live record or leaves a retired one behind a wrapped slot. */
  lemma {:induction false} AlwaysWindowed(run: Run, cfg: Config, ringSize: nat, k: nat)
    requires WellTimed(run, cfg, ringSize) && k <= |run|
    ensures Windowed(MapAfter(run, cfg, k), cfg, k)
    ensures k < |run| ==> MapAfter(run, cfg, k).lastCleanup <= run[k].alive
    ensures k > 0 ==> MapAfter(run, cfg, k).lastCleanup <= run[k - 1].alive
  {
    assert k < |run| ==> Timely(run, ringSize, k);
    if k > 0 {
      assert Timely(run, ringSize, k - 1);
      assert k < |run| ==> InOrder(run, k - 1, k);
      AlwaysWindowed(run, cfg, ringSize, k - 1);
      WindowedStep(run, cfg, ringSize, k - 1);
    }
  }

  /** Retirement is exact in every well-timed run: a cleanup frees the records of retired tasks and no others,
      after it no live record sits in the task slot the new id is about to use, and no record stays in the map for
      64 retirements or more. */
  lemma RetirementExact(run: Run, cfg: Config, ringSize: nat, k: nat)
    requires WellTimed(run, cfg, ringSize) && k < |run|
    ensures var m, s := MapAfter(run, cfg, k), SyncedAt(run, cfg, k);
            && (s.log == m.log || s.log == Filter(m.log, From(run[k].alive)))
            && (forall r :: r in m.log && r.producer >= run[k].alive ==> r in s.log)
            && (forall r :: r in s.log ==> Slot(cfg, r.producer) != Slot(cfg, k))
            && run[k].alive - s.lastCleanup < 64
            && (forall r :: r in s.log ==> run[k].alive - 64 < r.producer)
  {
    var m, s := MapAfter(run, cfg, k), SyncedAt(run, cfg, k);
    assert Timely(run, ringSize, k);
    AlwaysWindowed(run, cfg, ringSize, k);
    SyncExact(m, cfg, run[k].alive, k, ringSize);
    forall r | r in s.log ensures Slot(cfg, r.producer) != Slot(cfg, k) {
      if r.producer % cfg.window == k % cfg.window {
        SameResidue(r.producer, k, cfg.window);
      }
    }
  }

  // ---- Read after write ------------------------------------------------------------------------

  /** No limit of the engine is reached: 64 predecessors per task, and the pool. */
  ghost predicate NoLimitHit(run: Run, cfg: Config)
    requires cfg.window > 0 && |run| <= ID_LIMIT
  {
    forall k :: 0 <= k < |run| ==> WithinLimits(run, cfg, k)
  }

  ghost predicate WithinLimits(run: Run, cfg: Config, k: nat)
    requires cfg.window > 0 && k < |run| <= ID_LIMIT
  {
    var log := SyncedAt(run, cfg, k).log;
    && |HitProducers(log, run[k].alive, run[k].pend, k)| <= MAX_PRED
    && |Outputs(run[k].pend, k)| + |LookAll(log, run[k].alive, run[k].pend, k).0| <= cfg.poolSize
  }

  ghost predicate WritesAt(run: Run, k: nat, p: Pending) {
    k < |run| && p in run[k].pend && p.access != In
  }

  ghost predicate ReadsAt(run: Run, k: nat, p: Pending) {
    k < |run| && p in run[k].pend && p.access != Out
  }

  /** Written views set `is_contiguous` honestly, and the classifier is right about every pair of a write and
      a later read on one buffer. */
  ghost predicate Trustworthy(run: Run) {
    && (forall j: nat, w | WritesAt(run, j, w) :: OverlapLoops.FlagHonest(w.t.view))
    && (forall j: nat, k: nat, w, r |
          j < k && WritesAt(run, j, w) && ReadsAt(run, k, r) && r.t.view.base == w.t.view.base ::
          Sound(r.t, EntryOf(w.t.view)))
  }

  lemma EntryAddresses(v: View, x: int)
    requires OverlapLoops.FlagHonest(v)
    ensures Addresses(EntryOf(v), x) <==> Addresses(v, x)
  {
    assert Steps(EntryOf(v)) == Steps(v) && Shape(EntryOf(v)) == Shape(v);
  }

  /** Every record in the map is some task's declared output. */
  ghost predicate FromRun(run: Run, log: Log, k: nat) {
    forall r :: r in log ==> r.producer < k && Declared(run, r)
  }

  ghost predicate Declared(run: Run, r: Rec) {
    exists w :: WritesAt(run, r.producer, w) && r == RecOf(w, r.producer)
  }

  lemma StepFromRun(run: Run, cfg: Config, k: nat, r: Rec)
    requires cfg.window > 0 && k < |run| <= ID_LIMIT && FromRun(run, MapAfter(run, cfg, k).log, k)
    requires r in MapAfter(run, cfg, k + 1).log
    ensures r.producer < k + 1 && Declared(run, r)
  {
    var s, pend := SyncedAt(run, cfg, k), run[k].pend;
    SyncedSubset(MapAfter(run, cfg, k), cfg, run[k].alive, k);
    LookAllExact(s.log, s.lastAlive, pend, k);
    InsertMembers(LookAll(s.log, s.lastAlive, pend, k).0, cfg, pend, k, r);
    FilterMember(s.log, Surviving(pend, s.lastAlive), r);
    if r !in s.log {
      var p :| p in pend && p.Writes() && r == RecOf(p, k);
      assert WritesAt(run, k, p);
    }
  }

  lemma {:induction false} AlwaysFromRun(run: Run, cfg: Config, k: nat)
    requires cfg.window > 0 && k <= |run| <= ID_LIMIT
    ensures FromRun(run, MapAfter(run, cfg, k).log, k)
  {
    if k > 0 {
      AlwaysFromRun(run, cfg, k - 1);
      forall r | r in MapAfter(run, cfg, k).log ensures r.producer < k && Declared(run, r) {
        StepFromRun(run, cfg, k - 1, r);
      }
    }
  }

  /** Every stored edge leads to an earlier task with an overlapping output on the same buffer, so the graph
      is acyclic and has no unfounded edge. */
  lemma EdgesFounded(run: Run, cfg: Config, c: nat, p: nat)
    requires cfg.window > 0 && c < |run| <= ID_LIMIT && p in Edges(run, cfg)[c]
    ensures run[c].minTask <= p < c
    ensures exists r, w :: ReadsAt(run, c, r) && WritesAt(run, p, w) && r.t.view.base == w.t.view.base
                           && CheckOverlap(r.t, EntryOf(w.t.view)) != Nothing
  {
    var e := EdgeEntry(run, cfg, c, p);
    var w :| WritesAt(run, e.producer, w) && e == RecOf(w, e.producer);
    var i :| 0 <= i < |run[c].pend| && run[c].pend[i].Reads() && IsHit(e, run[c].pend[i].t, run[c].alive);
    assert ReadsAt(run, c, run[c].pend[i]);
  }

  /** The record behind an edge. */
  lemma EdgeEntry(run: Run, cfg: Config, c: nat, p: nat) returns (e: Rec)
    requires cfg.window > 0 && c < |run| <= ID_LIMIT && p in Edges(run, cfg)[c]
    ensures run[c].minTask <= p < c && e.producer == p && HitBy(e, run[c].pend, run[c].alive)
    ensures exists w :: WritesAt(run, p, w) && e == RecOf(w, p)
  {
    var s := SyncedAt(run, cfg, c);
    RowOf(run, cfg, |run|, c);
    AlwaysFromRun(run, cfg, c);
    SyncedSubset(MapAfter(run, cfg, c), cfg, run[c].alive, c);
    LookAllExact(s.log, run[c].alive, run[c].pend, c);
    e :| e in s.log && HitBy(e, run[c].pend, run[c].alive) && e.producer == p;
  }

  lemma EdgesDownward(run: Run, cfg: Config)
    requires cfg.window > 0 && |run| <= ID_LIMIT
    ensures Downward(Edges(run, cfg))
  {
    forall t, m | 0 <= t < |run| && m in Edges(run, cfg)[t] ensures m < t {
      EdgesFounded(run, cfg, t, m);
    }
  }

  /** The map still knows the write of element `x` of buffer `base` by task `p`: through the task's own record,
      or through a record of a later task that already waits, transitively, for `p`. */
  ghost predicate Tracked(g: Graph, log: Log, p: nat, base: u64, x: int) {
    exists r :: r in log && r.view.base == base && Addresses(r.view, x) && (r.producer == p || Reach(g, p, r.producer))
  }

  /** A hit by a declared read becomes an edge. */
  lemma HitIsEdge(run: Run, cfg: Config, k: nat, e: Rec)
    requires cfg.window > 0 && k < |run| <= ID_LIMIT && NoLimitHit(run, cfg)
    requires e in SyncedAt(run, cfg, k).log && HitBy(e, run[k].pend, run[k].alive)
    requires run[k].minTask <= e.producer < k
    ensures e.producer in Edges(run, cfg)[k]
  {
    assert WithinLimits(run, cfg, k);
    RowOf(run, cfg, |run|, k);
    CollectsAll(SyncedAt(run, cfg, k).log, run[k].alive, run[k].pend, k);
    assert e.producer in HitProducers(SyncedAt(run, cfg, k).log, run[k].alive, run[k].pend, k);
  }

  /** The records left after task `k`: its outputs, and what no INOUT of it covered. */
  lemma LogAfter(run: Run, cfg: Config, k: nat, e: Rec)
    requires cfg.window > 0 && k < |run| <= ID_LIMIT && NoLimitHit(run, cfg)
    ensures e in MapAfter(run, cfg, k + 1).log <==>
              e in Outputs(run[k].pend, k)
              || (e in SyncedAt(run, cfg, k).log && !CoveredBy(e, run[k].pend, run[k].alive))
  {
    var s := SyncedAt(run, cfg, k);
    LookAllExact(s.log, run[k].alive, run[k].pend, k);
    assert WithinLimits(run, cfg, k);
    InsertsAll(LookAll(s.log, run[k].alive, run[k].pend, k).0, cfg, run[k].pend, k);
    FilterMember(s.log, Surviving(run[k].pend, run[k].alive), e);
  }

  /** A task's own write is in the map after it. */
  lemma OwnWriteTracked(run: Run, cfg: Config, k: nat, w: Pending, x: int)
    requires cfg.window > 0 && k < |run| <= ID_LIMIT && NoLimitHit(run, cfg) && Trustworthy(run)
    requires WritesAt(run, k, w) && Addresses(w.t.view, x)
    ensures exists e :: e in MapAfter(run, cfg, k + 1).log && e.producer == k && e.view.base == w.t.view.base
                        && Addresses(e.view, x)
  {
    var e := RecOf(w, k);
    OutputsMembers(run[k].pend, k, e);
    LogAfter(run, cfg, k, e);
    EntryAddresses(w.t.view, x);
  }

  /** One submission keeps every unretired write tracked, even when it deletes the entry that tracked it. */
  lemma TrackedStep(run: Run, cfg: Config, ringSize: nat, k: nat, p: nat, base: u64, x: int)
    requires WellTimed(run, cfg, ringSize) && k < |run| && NoLimitHit(run, cfg) && Trustworthy(run)
    requires run[k].minTask <= p < k && Tracked(Edges(run, cfg), MapAfter(run, cfg, k).log, p, base, x)
    ensures Tracked(Edges(run, cfg), MapAfter(run, cfg, k + 1).log, p, base, x)
  {
    var g, pend := Edges(run, cfg), run[k].pend;
    var e :| e in MapAfter(run, cfg, k).log && e.view.base == base && Addresses(e.view, x)
             && (e.producer == p || Reach(g, p, e.producer));
    KnownEntry(run, cfg, ringSize, k, p, e);
    LogAfter(run, cfg, k, e);
    if CoveredBy(e, pend, run[k].alive) {
      CoveredStaysTracked(run, cfg, k, e, x);
      ReachEdge(g, p, e.producer, k);
    }
  }

  /** The INOUT that deletes an entry waits for its producer and writes all of its elements. */
  lemma CoveredStaysTracked(run: Run, cfg: Config, k: nat, e: Rec, x: int)
    requires cfg.window > 0 && k < |run| <= ID_LIMIT && NoLimitHit(run, cfg) && Trustworthy(run)
    requires e in SyncedAt(run, cfg, k).log && run[k].minTask <= e.producer < k && Declared(run, e)
    requires CoveredBy(e, run[k].pend, run[k].alive) && Addresses(e.view, x)
    ensures e.producer in Edges(run, cfg)[k]
    ensures exists f :: f in MapAfter(run, cfg, k + 1).log && f.producer == k && f.view.base == e.view.base
                        && Addresses(f.view, x)
  {
    var pend := run[k].pend;
    HitByMore(e, pend, Pending(Tensor(SCALAR_VIEW, 0), Out), run[k].alive);
    HitIsEdge(run, cfg, k, e);
    var i :| 0 <= i < |pend| && pend[i].access == InOut && IsHit(e, pend[i].t, run[k].alive)
             && CheckOverlap(pend[i].t, e.view) == Covered;
    var w :| WritesAt(run, e.producer, w) && e == RecOf(w, e.producer);
    assert ReadsAt(run, k, pend[i]) && WritesAt(run, k, pend[i]);
    OwnWriteTracked(run, cfg, k, pend[i], x);
  }

  /** An entry that tracks an unretired task survives the synchronisation and is valid. */
  lemma KnownEntry(run: Run, cfg: Config, ringSize: nat, k: nat, p: nat, e: Rec)
    requires WellTimed(run, cfg, ringSize) && k < |run| && run[k].minTask <= p
    requires e in MapAfter(run, cfg, k).log && (e.producer == p || Reach(Edges(run, cfg), p, e.producer))
    ensures p <= e.producer < k && e in SyncedAt(run, cfg, k).log && AsI32(e.producer) >= run[k].alive
    ensures Declared(run, e)
  {
    AlwaysFromRun(run, cfg, k);
    AlwaysWindowed(run, cfg, ringSize, k);
    assert Timely(run, ringSize, k);
    SyncExact(MapAfter(run, cfg, k), cfg, run[k].alive, k, ringSize);
    if e.producer != p {
      ReachBelow(Edges(run, cfg), p, e.producer);
    }
  }

  lemma {:induction false} AlwaysTracked(run: Run, cfg: Config, ringSize: nat, k: nat, p: nat, w: Pending, x: int)
    requires WellTimed(run, cfg, ringSize) && k < |run| && NoLimitHit(run, cfg) && Trustworthy(run)
    requires run[k].minTask <= p < k && WritesAt(run, p, w) && Addresses(w.t.view, x)
    ensures Tracked(Edges(run, cfg), MapAfter(run, cfg, k).log, p, w.t.view.base, x)
    decreases k
  {
    if p == k - 1 {
      OwnWriteTracked(run, cfg, p, w, x);
    } else {
      assert InOrder(run, k - 1, k) && Timely(run, ringSize, k);
      AlwaysTracked(run, cfg, ringSize, k - 1, p, w, x);
      TrackedStep(run, cfg, ringSize, k - 1, p, w.t.view.base, x);
    }
  }

  /** A declared read that shares an element with a valid record of the run hits it. */
  lemma SharedIsHit(run: Run, c: nat, r: Pending, e: Rec, x: int)
    requires c < |run| && Trustworthy(run) && ReadsAt(run, c, r) && AsI32(e.producer) >= run[c].alive && e.producer < c
    requires Declared(run, e)
    requires e.view.base == r.t.view.base && Addresses(e.view, x) && Addresses(r.t.view, x)
    ensures HitBy(e, run[c].pend, run[c].alive)
  {
    var u :| WritesAt(run, e.producer, u) && e == RecOf(u, e.producer);
    assert Sound(r.t, EntryOf(u.t.view));
    assert IsHit(e, r.t, run[c].alive);
    var i :| 0 <= i < |run[c].pend| && run[c].pend[i] == r;
  }

  /** Read after write: if task `c` reads an element that an earlier, not yet retired task `p` wrote, the
      stored edges lead from `c` down to `p`, although covered INOUT lookups delete entries on the way. */
  lemma ReadAfterWrite(run: Run, cfg: Config, ringSize: nat, p: nat, c: nat, w: Pending, r: Pending, x: int)
    requires WellTimed(run, cfg, ringSize) && NoLimitHit(run, cfg) && Trustworthy(run)
    requires c < |run| && run[c].minTask <= p < c
    requires WritesAt(run, p, w) && ReadsAt(run, c, r) && w.t.view.base == r.t.view.base
    requires Addresses(w.t.view, x) && Addresses(r.t.view, x)
    ensures Reach(Edges(run, cfg), p, c)
  {
    var g := Edges(run, cfg);
    AlwaysTracked(run, cfg, ringSize, c, p, w, x);
    var e :| e in MapAfter(run, cfg, c).log && e.view.base == w.t.view.base && Addresses(e.view, x)
             && (e.producer == p || Reach(g, p, e.producer));
    KnownEntry(run, cfg, ringSize, c, p, e);
    SharedIsHit(run, c, r, e, x);
    HitIsEdge(run, cfg, c, e);
    ReachEdge(g, p, e.producer, c);
  }
}
