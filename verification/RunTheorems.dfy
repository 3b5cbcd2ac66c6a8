/** Read-after-write ordering for the views the library makes, with and without ENABLE_DAG_DEDUP. */
module RunTheorems {
  import opened Words
  import opened Sequences
  import opened Tensors
  import opened Overlaps
  import opened OverlapLoops
  import opened MapLogs
  import opened Submits
  import opened Graphs
  import opened Runs
  import Dedup

  // ---- Which views can be trusted ----------------------------------------------------------

  lemma EntrySound(t: Tensor, v: View)
    requires FlagHonest(v) && Sound(t, v)
    ensures Sound(t, EntryOf(v))
  {
    EntryKeepsOverlap(t, v);
    forall x ensures Addresses(EntryOf(v), x) <==> Addresses(v, x) {
      EntryAddresses(v, x);
    }
  }

  /** A read that is newer than the write, or whose range test is not misled by a one-short extent. */
  predicate Seen(t: Tensor, v: View)
    requires NonEmpty(t.view) && NonEmpty(v)
  {
    t.view.version > v.version || !(RangeApart(t.view, v) && (StopsAt(t.view, v) || StopsAt(v, t.view)))
  }

  /** A read and a write whose extents are their hulls or one short, and that are not missed for that. */
  ghost predicate GoodPair(t: Tensor, v: View) {
    ExtentNearHull(t.view) && ExtentNearHull(v) && Seen(t, v)
  }

  ghost predicate GoodViews(run: Run) {
    && (forall j: nat, w | WritesAt(run, j, w) :: FlagHonest(w.t.view))
    && (forall j: nat, k: nat, w, r |
          j < k && WritesAt(run, j, w) && ReadsAt(run, k, r) && r.t.view.base == w.t.view.base ::
          GoodPair(r.t, w.t.view))
  }

  lemma GoodPairSound(t: Tensor, v: View)
    requires GoodPair(t, v)
    ensures Sound(t, v)
  {
    CheckOverlapCases(t, v);
    if CheckOverlap(t, v) == Nothing {
      NothingExact(t, v);
    } else if CheckOverlap(t, v) == Covered {
      CoveredIsContained(t, v);
    }
  }

  lemma GoodViewsTrustworthy(run: Run)
    requires GoodViews(run)
    ensures Trustworthy(run)
  {
    forall j: nat, k: nat, w, r |
      j < k && WritesAt(run, j, w) && ReadsAt(run, k, r) && r.t.view.base == w.t.view.base
      ensures Sound(r.t, EntryOf(w.t.view))
    {
      assert GoodPair(r.t, w.t.view);
      GoodPairSound(r.t, w.t.view);
      EntrySound(r.t, w.t.view);
    }
  }

  /** Read-after-write ordering stated on the views alone. */
  lemma OrderedOnGoodViews(run: Run, cfg: Config, ringSize: nat, p: nat, c: nat, w: Pending, r: Pending, x: int)
    requires WellTimed(run, cfg, ringSize) && NoLimitHit(run, cfg) && GoodViews(run)
    requires c < |run| && run[c].minTask <= p < c
    requires WritesAt(run, p, w) && ReadsAt(run, c, r) && w.t.view.base == r.t.view.base
    requires Addresses(w.t.view, x) && Addresses(r.t.view, x)
    ensures Reach(Edges(run, cfg), p, c)
  {
    GoodViewsTrustworthy(run);
    ReadAfterWrite(run, cfg, ringSize, p, c, w, r, x);
  }

  /** A write of `a` by task 0, then a read of `b` by task 1. */
  function WriteThenRead(a: Tensor, b: Tensor): Run {
    [Sub([Pending(a, Out)], 0, 0), Sub([Pending(b, In)], 0, 0)]
  }

  /** The hypotheses fit together: a write and then a read of a shared element, with any good pair of views, is
      a well-timed run that hits no limit, and its one edge is there. */
  lemma WriteThenReadOrdered(cfg: Config, a: Tensor, b: Tensor, x: int)
    requires ValidConfig(cfg) && cfg.window > 1 && cfg.poolSize > 0
    requires FlagHonest(a.view) && GoodPair(b, a.view) && a.view.base == b.view.base
    requires Addresses(a.view, x) && Addresses(b.view, x)
    ensures var run := WriteThenRead(a, b);
            && WellTimed(run, cfg, 2) && NoLimitHit(run, cfg) && GoodViews(run)
            && Reach(Edges(run, cfg), 0, 1)
  {
    var run := WriteThenRead(a, b);
    WriteThenReadFits(cfg, a, b);
    assert forall w, j: nat :: WritesAt(run, j, w) ==> w == Pending(a, Out);
    assert forall r, j: nat :: ReadsAt(run, j, r) ==> r == Pending(b, In);
    assert WritesAt(run, 0, Pending(a, Out)) && ReadsAt(run, 1, Pending(b, In));
    OrderedOnGoodViews(run, cfg, 2, 0, 1, Pending(a, Out), Pending(b, In), x);
  }

  lemma WriteThenReadFits(cfg: Config, a: Tensor, b: Tensor)
    requires ValidConfig(cfg) && cfg.window > 1 && cfg.poolSize > 0
    ensures var run := WriteThenRead(a, b);
            WellTimed(run, cfg, 2) && NoLimitHit(run, cfg)
  {
    var run := WriteThenRead(a, b);
    FewRecords(run, cfg, 0);
    FewRecords(run, cfg, 1);
  }

  lemma FewRecords(run: Run, cfg: Config, k: nat)
    requires cfg.window > 0 && cfg.poolSize > 0 && k < |run| == 2
    requires |run[0].pend| == |run[1].pend| == 1 && !run[1].pend[0].Writes()
    ensures WithinLimits(run, cfg, k)
  {
    var log, pend := SyncedAt(run, cfg, k).log, run[k].pend;
    FewProducers(run, cfg, k);
    LookAllExact(log, run[k].alive, pend, k);
    FilterShorter(log, Surviving(pend, run[k].alive));
    SyncedShorter(MapAfter(run, cfg, k), cfg, run[k].alive, k);
    assert pend[..0] == [];
    if k == 1 {
      OneOutput(run, cfg);
    }
  }

  lemma SyncedShorter(m: MapState, cfg: Config, alive: i32, current: u32)
    requires cfg.window > 0
    ensures |Synced(m, cfg, alive, current).log| <= |m.log|
  {
    PurgeIsFilter(m.log, cfg, m.lastCleanup, alive);
    FilterShorter(m.log, OffSlots(cfg, m.lastCleanup, alive));
  }

  lemma FewProducers(run: Run, cfg: Config, k: nat)
    requires cfg.window > 0 && k < |run| == 2
    ensures |HitProducers(SyncedAt(run, cfg, k).log, run[k].alive, run[k].pend, k)| <= 1
  {
    AlwaysFromRun(run, cfg, k);
    SyncedSubset(MapAfter(run, cfg, k), cfg, run[k].alive, k);
    forall r | r in SyncedAt(run, cfg, k).log ensures r.producer == 0 {
      assert r in MapAfter(run, cfg, k).log;
    }
    OneProducer(SyncedAt(run, cfg, k).log, run[k].alive, run[k].pend, k);
  }

  lemma OneProducer(log: Log, alive: i32, pend: seq<Pending>, tid: u32)
    requires forall r :: r in log ==> r.producer == 0
    ensures |HitProducers(log, alive, pend, tid)| <= 1
  {
    var hit := HitProducers(log, alive, pend, tid);
    assert hit <= {0};
    SubsetOfOne(hit);
  }

  /** Insertion never overfills the pool. */
  lemma {:induction false} InsertBounded(log: Log, cfg: Config, pend: seq<Pending>, tid: u32)
    requires |log| <= cfg.poolSize
    ensures |InsertAll(log, cfg, pend, tid)| <= cfg.poolSize
  {
    if pend != [] {
      InsertBounded(log, cfg, pend[..|pend| - 1], tid);
    }
  }

  lemma OneOutput(run: Run, cfg: Config)
    requires cfg.window > 0 && |run| == 2
    ensures |MapAfter(run, cfg, 1).log| <= cfg.poolSize
  {
    var m, s, pend := MapAfter(run, cfg, 0), SyncedAt(run, cfg, 0), run[0].pend;
    PurgeIsFilter(m.log, cfg, m.lastCleanup, run[0].alive);
    FilterShorter(m.log, OffSlots(cfg, m.lastCleanup, run[0].alive));
    LookAllExact(s.log, run[0].alive, pend, 0);
    FilterShorter(s.log, Surviving(pend, run[0].alive));
    InsertBounded(LookAll(s.log, run[0].alive, pend, 0).0, cfg, pend, 0);
  }

  lemma SubsetOfOne(s: set<u32>)
    requires s <= {0}
    ensures |s| <= 1
  {
    if 0 in s {
      assert s == {0};
    } else {
      assert s == {};
    }
  }

  lemma MissedIsUnordered(cfg: Config, a: Tensor, b: Tensor)
    requires cfg.window > 0 && FlagHonest(a.view) && CheckOverlap(b, a.view) == Nothing
    ensures !Reach(Edges(WriteThenRead(a, b), cfg), 0, 1)
  {
    var run := WriteThenRead(a, b);
    if Reach(Edges(run, cfg), 0, 1) {
      var m: nat :| m in Edges(run, cfg)[1] && m < 1;
      EdgesFounded(run, cfg, 1, 0);
      EntryKeepsOverlap(b, a.view);
    }
  }

  /** Exactly when one write and one read of a shared element are ordered: always, unless a one-short extent of
      one view stops at the other view's first element. */
  lemma WriteThenReadExact(cfg: Config, a: Tensor, b: Tensor, x: int)
    requires ValidConfig(cfg) && cfg.window > 1 && cfg.poolSize > 0
    requires FlagHonest(a.view) && ExtentNearHull(a.view) && ExtentNearHull(b.view) && a.view.base == b.view.base
    requires Addresses(a.view, x) && Addresses(b.view, x)
    ensures Reach(Edges(WriteThenRead(a, b), cfg), 0, 1) <==> Seen(b, a.view)
  {
    CheckOverlapCases(b, a.view);
    if CheckOverlap(b, a.view) == Nothing {
      NothingExact(b, a.view);
      MissedIsUnordered(cfg, a, b);
    } else {
      SeenIsOrdered(cfg, a, b, x);
    }
  }

  lemma SeenIsOrdered(cfg: Config, a: Tensor, b: Tensor, x: int)
    requires ValidConfig(cfg) && cfg.window > 1 && cfg.poolSize > 0
    requires FlagHonest(a.view) && ExtentNearHull(a.view) && ExtentNearHull(b.view) && a.view.base == b.view.base
    requires Addresses(a.view, x) && Addresses(b.view, x) && CheckOverlap(b, a.view) != Nothing
    ensures Reach(Edges(WriteThenRead(a, b), cfg), 0, 1)
  {
    var run := WriteThenRead(a, b);
    WriteThenReadFits(cfg, a, b);
    if CheckOverlap(b, a.view) == Covered {
      CoveredIsContained(b, a.view);
    }
    EntrySound(b, a.view);
    assert forall w, j: nat :: WritesAt(run, j, w) ==> w == Pending(a, Out);
    assert forall r, j: nat :: ReadsAt(run, j, r) ==> r == Pending(b, In);
    assert WritesAt(run, 0, Pending(a, Out)) && ReadsAt(run, 1, Pending(b, In));
    ReadAfterWrite(run, cfg, 2, 0, 1, Pending(a, Out), Pending(b, In), x);
  }

  // ---- Which sets of views are safe ------------------------------------------------------------

  ghost predicate Uses(run: Run, views: iset<Tensor>) {
    forall k, p :: 0 <= k < |run| && p in run[k].pend ==> p.t in views
  }

  /** Every read of an element is ordered after every unretired write of it. */
  ghost predicate Ordered(run: Run, cfg: Config)
    requires cfg.window > 0 && |run| <= ID_LIMIT
  {
    forall p: nat, c: nat, w, r, x: int ::
      && c < |run| && run[c].minTask <= p < c && WritesAt(run, p, w) && ReadsAt(run, c, r)
      && w.t.view.base == r.t.view.base && Addresses(w.t.view, x) && Addresses(r.t.view, x)
      ==> Reach(Edges(run, cfg), p, c)
  }

  ghost predicate AlwaysOrdered(views: iset<Tensor>, cfg: Config) {
    forall run: Run, ringSize: nat :: WellTimed(run, cfg, ringSize) && NoLimitHit(run, cfg) && Uses(run, views) ==>
      Ordered(run, cfg)
  }

  ghost predicate AllSeen(views: iset<Tensor>) {
    forall a, b :: a in views && b in views && a.view.base == b.view.base ==> GoodPair(b, a.view)
  }

  lemma SeenRunOrdered(views: iset<Tensor>, run: Run, cfg: Config, ringSize: nat)
    requires (forall t :: t in views ==> FlagHonest(t.view) && ExtentNearHull(t.view)) && AllSeen(views)
    requires WellTimed(run, cfg, ringSize) && NoLimitHit(run, cfg) && Uses(run, views)
    ensures Ordered(run, cfg)
  {
    assert GoodViews(run);
    forall p: nat, c: nat, w, r, x: int |
      && c < |run| && run[c].minTask <= p < c && WritesAt(run, p, w) && ReadsAt(run, c, r)
      && w.t.view.base == r.t.view.base && Addresses(w.t.view, x) && Addresses(r.t.view, x)
      ensures Reach(Edges(run, cfg), p, c)
    {
      OrderedOnGoodViews(run, cfg, ringSize, p, c, w, r, x);
    }
  }

  /** A pair that is not seen shares an element, and the two-step run on it is not ordered. */
  lemma UnseenUnordered(views: iset<Tensor>, cfg: Config, a: Tensor, b: Tensor)
    requires ValidConfig(cfg) && cfg.window > 1 && cfg.poolSize > 0 && a in views && b in views
    requires FlagHonest(a.view) && ExtentNearHull(a.view) && ExtentNearHull(b.view)
    requires a.view.base == b.view.base && !Seen(b, a.view)
    ensures !AlwaysOrdered(views, cfg)
  {
    CheckOverlapCases(b, a.view);
    NothingExact(b, a.view);
    var x :| Addresses(a.view, x) && Addresses(b.view, x);
    var run := WriteThenRead(a, b);
    WriteThenReadFits(cfg, a, b);
    WriteThenReadExact(cfg, a, b, x);
    assert WritesAt(run, 0, Pending(a, Out)) && ReadsAt(run, 1, Pending(b, In));
    assert !Ordered(run, cfg);
    assert Uses(run, views);
  }

  /** Over any set of honestly flagged near-hull views, every run is ordered if and only if every pair on one
      buffer is seen. */
  lemma AlwaysOrderedExact(views: iset<Tensor>, cfg: Config)
    requires ValidConfig(cfg) && cfg.window > 1 && cfg.poolSize > 0
    requires forall t :: t in views ==> FlagHonest(t.view) && ExtentNearHull(t.view)
    ensures AlwaysOrdered(views, cfg) <==> AllSeen(views)
  {
    if AllSeen(views) {
      forall run: Run, ringSize: nat | WellTimed(run, cfg, ringSize) && NoLimitHit(run, cfg) && Uses(run, views)
        ensures Ordered(run, cfg)
      {
        SeenRunOrdered(views, run, cfg, ringSize);
      }
    } else {
      var a, b :| a in views && b in views && a.view.base == b.view.base && !GoodPair(b, a.view);
      UnseenUnordered(views, cfg, a, b);
    }
  }

  /** The hypothesis on the views is needed: of two view_at tiles that share one corner element, the task
      reading the second is left unordered after the task writing the first. */
  lemma CornerReadUnordered(cfg: Config)
    requires ValidConfig(cfg) && cfg.window > 1
    ensures var base := Tensor(ViewFields(0, 0, 0, 2, 4, true, [4, 4, 0, 0, 0], 16, [4, 1, 0, 0, 0]), 64);
            var a, b := ViewAt(base, 0, 0, 2, 2), ViewAt(base, 1, 1, 2, 2);
            var run := WriteThenRead(a, b);
            && WellTimed(run, cfg, 2)
            && Addresses(a.view, 5) && Addresses(b.view, 5)
            && !Reach(Edges(run, cfg), 0, 1)
  {
    var base := Tensor(ViewFields(0, 0, 0, 2, 4, true, [4, 4, 0, 0, 0], 16, [4, 1, 0, 0, 0]), 64);
    ViewAtCornerMissed();
    ViewAtFlagHonest(base, 0, 0, 2, 2);
    MissedIsUnordered(cfg, ViewAt(base, 0, 0, 2, 2), ViewAt(base, 1, 1, 2, 2));
  }

  // ---- With dedup ----------------------------------------------------------------------------

  /** The calls of add_predecessors that the run makes. */
  ghost function Calls(run: Run, cfg: Config, k: nat): (calls: seq<Dedup.Call>)
    requires cfg.window > 0 && k <= |run| <= ID_LIMIT
    ensures |calls| == k
  {
    if k == 0 then []
    else Calls(run, cfg, k - 1) + [Dedup.Call(k - 1, PredsAt(run, cfg, k - 1), run[k - 1].minTask)]
  }

  lemma {:induction false} CallAt(run: Run, cfg: Config, k: nat, i: nat)
    requires cfg.window > 0 && i < k <= |run| <= ID_LIMIT
    ensures Calls(run, cfg, k)[i] == Dedup.Call(i, PredsAt(run, cfg, i), run[i].minTask)
  {
    if i < k - 1 {
      CallAt(run, cfg, k - 1, i);
    }
  }

  lemma CallsGood(run: Run, cfg: Config, n: nat)
    requires cfg.window > 0 && |run| <= ID_LIMIT && |run| <= n
    ensures Dedup.GoodCalls(Calls(run, cfg, |run|), n)
  {
    var calls := Calls(run, cfg, |run|);
    forall i | 0 <= i < |calls| ensures calls[i].task == i && Dedup.GoodCall(calls[i], n) {
      CallAt(run, cfg, |run|, i);
      PredsEarlier(run, cfg, i);
    }
  }

  lemma PredsEarlier(run: Run, cfg: Config, k: nat)
    requires cfg.window > 0 && k < |run| <= ID_LIMIT
    ensures forall i :: 0 <= i < |PredsAt(run, cfg, k)| ==> PredsAt(run, cfg, k)[i] < k
  {
    AlwaysFromRun(run, cfg, k);
    SubmittedPreds(MapAfter(run, cfg, k), cfg, run[k].pend, k, run[k].alive, k);
  }

  lemma StepRows(s: Dedup.DState, c: Dedup.Call, t: nat, m: nat)
    requires |s.full| == |s.kept| == |s.done| == |s.anc| && c.task < |s.anc| && t < |s.anc|
    requires forall i :: 0 <= i < |c.targets| ==> c.targets[i] < |s.anc|
    ensures m in Dedup.Step(s, c).full[t] <==> m in s.full[t] || (t == c.task && m in SetOf(c.targets))
    ensures m in Dedup.Step(s, c).done[t] ==> m in s.done[t] || (t == c.task && m < c.minTask)
  {
  }

  /** Rows of the graphs after calls made in id order, one for each task. */
  lemma {:induction false} GraphRows(calls: seq<Dedup.Call>, n: nat, t: nat, m: nat)
    requires t < n && Dedup.GoodCalls(calls, n) && forall i :: 0 <= i < |calls| ==> calls[i].task == i
    ensures var s := Dedup.After(calls, n);
            && (m in s.full[t] <==> t < |calls| && m in SetOf(calls[t].targets))
            && (m in s.done[t] ==> t < |calls| && m < calls[t].minTask)
  {
    if calls != [] {
      var k := |calls| - 1;
      assert Dedup.GoodCall(calls[k], n);
      GraphRows(calls[..k], n, t, m);
      StepRows(Dedup.After(calls[..k], n), calls[k], t, m);
    }
  }

  lemma RunRows(run: Run, cfg: Config, n: nat, calls: seq<Dedup.Call>, t: nat, m: nat)
    requires cfg.window > 0 && |run| <= ID_LIMIT && |run| <= n && t < |run|
    requires calls == Calls(run, cfg, |run|) && Dedup.GoodCalls(calls, n)
    ensures var s := Dedup.After(calls, n);
            && (m in s.full[t] <==> m in SetOf(PredsAt(run, cfg, t)))
            && (m in s.done[t] ==> m < run[t].minTask)
  {
    forall i | 0 <= i < |calls| ensures calls[i].task == i {
      CallAt(run, cfg, |run|, i);
    }
    CallAt(run, cfg, |run|, t);
    GraphRows(calls, n, t, m);
  }

  /** The edges stored by the run when add_predecessors drops redundant targets. */
  ghost function DedupEdges(run: Run, cfg: Config, n: nat): (g: Graph)
    requires cfg.window > 0 && |run| <= ID_LIMIT && |run| <= n
    ensures |g| == n
  {
    CallsGood(run, cfg, n);
    Dedup.After(Calls(run, cfg, |run|), n).kept
  }

  /** Dropping redundant edges leaves read-after-write ordering intact: between unretired tasks every path
      of the full graph survives in the stored edges. */
  lemma DedupKeepsOrder(run: Run, cfg: Config, ringSize: nat, n: nat, p: nat, c: nat)
    requires WellTimed(run, cfg, ringSize) && |run| <= n && c < |run| && run[c].minTask <= p
    requires Reach(Edges(run, cfg), p, c)
    ensures Reach(DedupEdges(run, cfg, n), p, c)
  {
    var calls := Calls(run, cfg, |run|);
    CallsGood(run, cfg, n);
    var s := Dedup.After(calls, n);
    EdgesAreFull(run, cfg, n);
    ReachMono(Edges(run, cfg), s.full, p, c);
    Dedup.DedupKeepsReach(calls, n, p, c);
    EffectiveIsKept(run, cfg, ringSize, n, p, c);
    ReachAbove(Dedup.Effective(s), s.kept, p, p, c);
  }

  lemma EdgesAreFull(run: Run, cfg: Config, n: nat)
    requires cfg.window > 0 && |run| <= ID_LIMIT && |run| <= n
    ensures Dedup.GoodCalls(Calls(run, cfg, |run|), n)
    ensures forall t :: 0 <= t < |run| ==> Edges(run, cfg)[t] <= Dedup.After(Calls(run, cfg, |run|), n).full[t]
  {
    CallsGood(run, cfg, n);
    var calls := Calls(run, cfg, |run|);
    var full := Dedup.After(calls, n).full;
    forall t, m: nat | 0 <= t < |run| && m in Edges(run, cfg)[t] ensures m in full[t] {
      RowOf(run, cfg, |run|, t);
      RunRows(run, cfg, n, calls, t, m);
    }
  }

  /** Above the watermark, the kept edges are all there is: skipped targets lie below it. */
  lemma EffectiveIsKept(run: Run, cfg: Config, ringSize: nat, n: nat, p: nat, c: nat)
    requires WellTimed(run, cfg, ringSize) && |run| <= n && c < |run| && run[c].minTask <= p
    ensures Dedup.GoodCalls(Calls(run, cfg, |run|), n)
    ensures var s := Dedup.After(Calls(run, cfg, |run|), n);
            SharedAbove(Dedup.Effective(s), s.kept, p, c)
  {
    CallsGood(run, cfg, n);
    var calls := Calls(run, cfg, |run|);
    var s := Dedup.After(calls, n);
    var g := Dedup.Effective(s);
    forall t, m: nat | 0 <= t <= c && m in g[t] && m >= p ensures m in s.kept[t] {
      RunRows(run, cfg, n, calls, t, m);
      EarlierWatermark(run, cfg, ringSize, t, c);
    }
  }

  lemma EarlierWatermark(run: Run, cfg: Config, ringSize: nat, t: nat, c: nat)
    requires WellTimed(run, cfg, ringSize) && t <= c < |run|
    ensures run[t].minTask <= run[c].minTask
  {
    assert Timely(run, ringSize, c);
    assert t < c ==> InOrder(run, t, c);
  }
}
