/** Collecting predecessors and inserting outputs for one task (esl_proxy/include/algorithm/tensormap.h). */
module Submits {
  import opened Words
  import opened Sequences
  import opened Tensors
  import opened Overlaps
  import opened MapLogs

  /** TM_PENDING_MAX_IO and TM_PENDING_MAX_PRED. */
  const MAX_IO: nat := 16
  const MAX_PRED: nat := 64

  datatype Access = In | Out | InOut

  datatype Pending = Pending(t: Tensor, access: Access) {
    predicate Reads() {
      access != Out
    }

    predicate Writes() {
      access != In
    }
  }

  datatype CollectCtx = CollectCtx(consumer: u32, preds: seq<u32>, isInout: bool)

  /** tm_collect_on_match: note the producer once, and drop an entry that an INOUT covers. */
  function CollectOnMatch(r: Rec, ov: Overlap, c: CollectCtx): Verdict<CollectCtx> {
    var p := r.producer;
    var preds := if p != c.consumer && p !in c.preds && |c.preds| < MAX_PRED then c.preds + [p] else c.preds;
    Verdict(c.(preds := preds), c.isInout && ov == Covered, true)
  }

  function LookUp(log: Log, alive: i32, p: Pending, c: CollectCtx): (Log, CollectCtx) {
    Visit(log, p.t, alive, CollectOnMatch, c.(isInout := p.access == InOut))
  }

  /** The lookup loop of tm_submit_ptr. */
  function LookAll(log: Log, alive: i32, pend: seq<Pending>, consumer: u32): (Log, CollectCtx) {
    if pend == [] then (log, CollectCtx(consumer, [], false))
    else
      var p := pend[|pend| - 1];
      var (l, c) := LookAll(log, alive, pend[..|pend| - 1], consumer);
      if p.Reads() then LookUp(l, alive, p, c) else (l, c)
  }

  function RecOf(p: Pending, tid: u32): Rec {
    Rec(EntryOf(p.t.view), tid)
  }

  /** The insertion loop of tm_submit_ptr. */
  function InsertAll(log: Log, cfg: Config, pend: seq<Pending>, tid: u32): Log {
    if pend == [] then log
    else
      var p := pend[|pend| - 1];
      var l := InsertAll(log, cfg, pend[..|pend| - 1], tid);
      if p.Writes() then Inserted(l, cfg, RecOf(p, tid)) else l
  }

  /** tm_submit_ptr: the new map state and the collected predecessors. */
  function Submitted(m: MapState, cfg: Config, pend: seq<Pending>, tid: u32, alive: i32): (MapState, seq<u32>)
    requires cfg.window > 0
  {
    var s := Synced(m, cfg, alive, tid);
    var (l, c) := LookAll(s.log, alive, pend, tid);
    (s.(log := InsertAll(l, cfg, pend, tid)), c.preds)
  }

  // ---- What one lookup collects ---------------------------------------------------------

  /** Covered entries go only under an INOUT. */
  function Removes(inout: bool): Overlap -> bool {
    (ov: Overlap) => inout && ov == Covered
  }

  predicate ListOk(c: CollectCtx) {
    |c.preds| <= MAX_PRED && Distinct(c.preds) && c.consumer !in c.preds
  }

  /** The list grows by the hits' producers, each once, until it is full. */
  lemma {:induction false} FoldCollects(hits: Log, t: Tensor, c: CollectCtx)
    requires ListOk(c)
    ensures var d := Fold(hits, t, CollectOnMatch, c);
            && d == c.(preds := d.preds) && ListOk(d) && |d.preds| >= |c.preds|
            && (forall p :: p in c.preds ==> p in d.preds)
            && (forall p :: p in d.preds ==> p in c.preds || exists r :: r in hits && r.producer == p)
            && (|d.preds| < MAX_PRED ==> forall r :: r in hits && r.producer != c.consumer ==> r.producer in d.preds)
  {
    if hits != [] {
      var h := hits[0];
      var v := CollectOnMatch(h, CheckOverlap(t, h.view), c).ctx;
      FoldCollects(hits[1..], t, v);
      assert hits == [h] + hits[1..];
    }
  }

  /** One lookup: what stays in the map, and who is collected. */
  lemma LookUpCollects(log: Log, alive: i32, p: Pending, c: CollectCtx)
    requires ListOk(c)
    ensures var (l, d) := LookUp(log, alive, p, c);
            && l == Filter(log, Spared(p.t, alive, Removes(p.access == InOut)))
            && d == c.(preds := d.preds, isInout := p.access == InOut) && ListOk(d) && |d.preds| >= |c.preds|
            && (forall x :: x in c.preds ==> x in d.preds)
            && (forall x :: x in d.preds ==>
                  x in c.preds || exists r :: r in log && IsHit(r, p.t, alive) && r.producer == x)
            && (|d.preds| < MAX_PRED ==>
                  forall r :: r in log && IsHit(r, p.t, alive) && r.producer != c.consumer ==> r.producer in d.preds)
  {
    var inout := p.access == InOut;
    var c' := c.(isInout := inout);
    var hits := Filter(log, Hits(p.t, alive));
    VisitIsFold(log, p.t, alive, CollectOnMatch, c', (x: CollectCtx) => x.isInout == inout, Removes(inout));
    FoldCollects(hits, p.t, c');
    forall r ensures r in hits <==> r in log && IsHit(r, p.t, alive) {
      FilterMember(log, Hits(p.t, alive), r);
    }
  }

  // ---- What all lookups of a task collect --------------------------------------------------

  predicate HitBy(r: Rec, pend: seq<Pending>, alive: i32) {
    exists i :: 0 <= i < |pend| && pend[i].Reads() && IsHit(r, pend[i].t, alive)
  }

  predicate CoveredBy(r: Rec, pend: seq<Pending>, alive: i32) {
    exists i :: 0 <= i < |pend| && pend[i].access == InOut && IsHit(r, pend[i].t, alive)
                && CheckOverlap(pend[i].t, r.view) == Covered
  }

  function Surviving(pend: seq<Pending>, alive: i32): Rec -> bool {
    (r: Rec) => !CoveredBy(r, pend, alive)
  }

  /** The collected list against the map before the task: sound, and complete unless it is full. */
  ghost predicate Collected(log: Log, alive: i32, pend: seq<Pending>, c: CollectCtx) {
    && ListOk(c)
    && (forall x :: x in c.preds ==> exists r :: r in log && HitBy(r, pend, alive) && r.producer == x)
    && (|c.preds| < MAX_PRED ==>
          forall r :: r in log && HitBy(r, pend, alive) && r.producer != c.consumer ==> r.producer in c.preds)
  }

  lemma HitByMore(r: Rec, pend: seq<Pending>, p: Pending, alive: i32)
    ensures HitBy(r, pend + [p], alive) <==> HitBy(r, pend, alive) || (p.Reads() && IsHit(r, p.t, alive))
    ensures CoveredBy(r, pend + [p], alive) <==>
              CoveredBy(r, pend, alive)
              || (p.access == InOut && IsHit(r, p.t, alive) && CheckOverlap(p.t, r.view) == Covered)
    ensures CoveredBy(r, pend, alive) ==> HitBy(r, pend, alive)
  {
    var q := pend + [p];
    assert q[|pend|] == p;
    if i :| 0 <= i < |pend| && pend[i].Reads() && IsHit(r, pend[i].t, alive) {
      assert q[i] == pend[i];
    }
    if i :| 0 <= i < |pend| && pend[i].access == InOut && IsHit(r, pend[i].t, alive)
            && CheckOverlap(pend[i].t, r.view) == Covered {
      assert q[i] == pend[i] && pend[i].Reads();
    }
  }

  /** Although each lookup sees what the earlier ones left, the outcome depends only on the map before the
      task: every producer hit by some declared read is collected, and exactly the entries covered by some
      INOUT are gone. */
  lemma {:induction false} LookAllExact(log: Log, alive: i32, pend: seq<Pending>, consumer: u32)
    ensures var (l, c) := LookAll(log, alive, pend, consumer);
            && c.consumer == consumer
            && l == Filter(log, Surviving(pend, alive))
            && Collected(log, alive, pend, c)
  {
    if pend == [] {
      FilterAll(log, Surviving(pend, alive));
    } else {
      var p, before := pend[|pend| - 1], pend[..|pend| - 1];
      assert pend == before + [p];
      LookAllExact(log, alive, before, consumer);
      var (l, c) := LookAll(log, alive, before, consumer);
      if p.Reads() {
        LookUpCollects(l, alive, p, c);
        SurvivingStep(log, alive, before, p);
        CollectedStep(log, alive, before, p, c, LookUp(l, alive, p, c).1);
      } else {
        OutputsCollectNothing(log, alive, before, p, c);
      }
    }
  }

  lemma OutputsCollectNothing(log: Log, alive: i32, before: seq<Pending>, p: Pending, c: CollectCtx)
    requires !p.Reads() && Collected(log, alive, before, c)
    ensures Collected(log, alive, before + [p], c)
    ensures Filter(log, Surviving(before + [p], alive)) == Filter(log, Surviving(before, alive))
  {
    forall r
      ensures CoveredBy(r, before + [p], alive) == CoveredBy(r, before, alive)
      ensures HitBy(r, before + [p], alive) == HitBy(r, before, alive)
    {
      HitByMore(r, before, p, alive);
    }
    FilterSame(log, Surviving(before + [p], alive), Surviving(before, alive));
  }

  lemma SurvivingStep(log: Log, alive: i32, before: seq<Pending>, p: Pending)
    ensures Filter(Filter(log, Surviving(before, alive)), Spared(p.t, alive, Removes(p.access == InOut)))
         == Filter(log, Surviving(before + [p], alive))
  {
    var a, b := Surviving(before, alive), Spared(p.t, alive, Removes(p.access == InOut));
    FilterFilter(log, a, b);
    forall r: Rec ensures Both(a, b)(r) == Surviving(before + [p], alive)(r) {
      HitByMore(r, before, p, alive);
    }
    FilterSame(log, Both(a, b), Surviving(before + [p], alive));
  }

  lemma CollectedStep(log: Log, alive: i32, before: seq<Pending>, p: Pending, c: CollectCtx, d: CollectCtx)
    requires p.Reads() && Collected(log, alive, before, c) && ListOk(d) && d.consumer == c.consumer
    requires forall x :: x in c.preds ==> x in d.preds
    requires var l := Filter(log, Surviving(before, alive));
             && (forall x :: x in d.preds ==>
                   x in c.preds || exists r :: r in l && IsHit(r, p.t, alive) && r.producer == x)
             && (|d.preds| < MAX_PRED ==>
                   forall r :: r in l && IsHit(r, p.t, alive) && r.producer != c.consumer ==> r.producer in d.preds)
    requires |d.preds| < MAX_PRED ==> |c.preds| < MAX_PRED
    ensures Collected(log, alive, before + [p], d)
  {
    forall r ensures r in Filter(log, Surviving(before, alive)) <==> r in log && !CoveredBy(r, before, alive) {
      FilterMember(log, Surviving(before, alive), r);
    }
    forall r ensures HitBy(r, before + [p], alive) <==> HitBy(r, before, alive) || IsHit(r, p.t, alive) {
      HitByMore(r, before, p, alive);
    }
    forall r ensures CoveredBy(r, before, alive) ==> HitBy(r, before, alive) {
      HitByMore(r, before, p, alive);
    }
  }

  ghost predicate ProducersBelow(log: Log, n: nat) {
    forall r :: r in log ==> r.producer < n
  }

  lemma SyncedSubset(m: MapState, cfg: Config, alive: i32, tid: u32)
    requires cfg.window > 0
    ensures forall r :: r in Synced(m, cfg, alive, tid).log ==> r in m.log
  {
    PurgeIsFilter(m.log, cfg, m.lastCleanup, alive);
    forall r: Rec {
      FilterMember(m.log, OffSlots(cfg, m.lastCleanup, alive), r);
    }
  }

  /** Collected predecessors are unretired producers in the map; at most 64 of them. */
  lemma SubmittedPreds(m: MapState, cfg: Config, pend: seq<Pending>, tid: u32, alive: i32, n: nat)
    requires cfg.window > 0 && ProducersBelow(m.log, n)
    ensures var preds := Submitted(m, cfg, pend, tid, alive).1;
            |preds| <= 64 && forall i :: 0 <= i < |preds| ==> preds[i] < n && AsI32(preds[i]) >= alive
  {
    var log := Synced(m, cfg, alive, tid).log;
    SyncedSubset(m, cfg, alive, tid);
    LookAllExact(log, alive, pend, tid);
    var preds := LookAll(log, alive, pend, tid).1.preds;
    forall i | 0 <= i < |preds| ensures preds[i] < n && AsI32(preds[i]) >= alive {
      assert preds[i] in preds;
    }
  }

  // ---- When no limit is hit ------------------------------------------------------------------

  /** The distinct producers that the declared reads hit. */
  function HitProducers(log: Log, alive: i32, pend: seq<Pending>, tid: u32): set<u32> {
    set r | r in log && HitBy(r, pend, alive) && r.producer != tid :: r.producer
  }

  lemma {:induction false} DistinctSize(s: seq<u32>)
    requires Distinct(s)
    ensures |SetOf(s)| == |s|
  {
    if s != [] {
      var n := |s| - 1;
      DistinctSize(s[..n]);
      assert SetOf(s) == SetOf(s[..n]) + {s[n]};
      assert s[n] !in SetOf(s[..n]);
    }
  }

  /** With at most 64 hit producers the collected list is exactly their set. */
  lemma CollectsAll(log: Log, alive: i32, pend: seq<Pending>, tid: u32)
    requires |HitProducers(log, alive, pend, tid)| <= MAX_PRED
    ensures SetOf(LookAll(log, alive, pend, tid).1.preds) == HitProducers(log, alive, pend, tid)
  {
    LookAllExact(log, alive, pend, tid);
    CompleteList(log, alive, pend, LookAll(log, alive, pend, tid).1);
  }

  lemma CompleteList(log: Log, alive: i32, pend: seq<Pending>, c: CollectCtx)
    requires Collected(log, alive, pend, c) && |HitProducers(log, alive, pend, c.consumer)| <= MAX_PRED
    ensures SetOf(c.preds) == HitProducers(log, alive, pend, c.consumer)
  {
    var got, want := SetOf(c.preds), HitProducers(log, alive, pend, c.consumer);
    DistinctSize(c.preds);
    assert got <= want;
    if |c.preds| == MAX_PRED {
      SubsetSize(got, want);
    }
  }

  lemma SubsetSize<T>(a: set<T>, b: set<T>)
    requires a <= b && |a| >= |b|
    ensures a == b
  {
    assert |b - a| == |b| - |a|;
  }

  /** The records a task leaves in the map, newest first. */
  function Outputs(pend: seq<Pending>, tid: u32): Log {
    if pend == [] then []
    else
      var n := |pend| - 1;
      var older := Outputs(pend[..n], tid);
      if pend[n].Writes() then [RecOf(pend[n], tid)] + older else older
  }

  /** `r` is the record of one of the declared writes. */
  predicate Makes(pend: seq<Pending>, tid: u32, r: Rec) {
    exists p :: p in pend && p.Writes() && r == RecOf(p, tid)
  }

  lemma MakesMore(before: seq<Pending>, p: Pending, tid: u32, r: Rec)
    ensures Makes(before + [p], tid, r) <==> Makes(before, tid, r) || (p.Writes() && r == RecOf(p, tid))
  {
  }

  lemma {:induction false} OutputsMembers(pend: seq<Pending>, tid: u32, r: Rec)
    ensures r in Outputs(pend, tid) <==> Makes(pend, tid, r)
  {
    if pend != [] {
      var n := |pend| - 1;
      OutputsMembers(pend[..n], tid, r);
      MakesMore(pend[..n], pend[n], tid, r);
      assert pend == pend[..n] + [pend[n]];
    }
  }

  /** With room in the pool nothing is dropped. */
  lemma {:induction false} InsertsAll(log: Log, cfg: Config, pend: seq<Pending>, tid: u32)
    requires |Outputs(pend, tid)| + |log| <= cfg.poolSize
    ensures InsertAll(log, cfg, pend, tid) == Outputs(pend, tid) + log
  {
    if pend == [] {
      assert Outputs(pend, tid) + log == log;
    } else {
      var n := |pend| - 1;
      InsertsAll(log, cfg, pend[..n], tid);
      if pend[n].Writes() {
        assert [RecOf(pend[n], tid)] + (Outputs(pend[..n], tid) + log) == Outputs(pend, tid) + log;
      }
    }
  }
}
