/** What one submission collects and deletes, said in terms of elements and watermarks
    (esl_proxy/include/algorithm/tensormap.h:89-185). */
module Meanings {
  import opened Words
  import opened Sequences
  import opened Tensors
  import opened Overlaps
  import opened OverlapLoops
  import opened OverlapAnswers
  import opened MapLogs
  import opened Submits
  import opened Graphs
  import opened Runs

  // ---- Retired records ---------------------------------------------------------------------------

  /** No retired producer is ever collected, and a retired record is neither hit nor deleted by a lookup. */
  lemma RetiredIgnored(log: Log, alive: i32, pend: seq<Pending>, tid: u32)
    ensures forall x :: x in LookAll(log, alive, pend, tid).1.preds ==> AsI32(x) >= alive
    ensures forall r :: r in log && AsI32(r.producer) < alive ==> r in LookAll(log, alive, pend, tid).0
  {
    LookAllExact(log, alive, pend, tid);
    forall r | r in log && AsI32(r.producer) < alive ensures r in LookAll(log, alive, pend, tid).0 {
      FilterMember(log, Surviving(pend, alive), r);
    }
  }

  predicate OnReadBuffer(r: Rec, pend: seq<Pending>) {
    exists p :: p in pend && p.access != Out && p.t.view.base == r.view.base
  }

  lemma HitOnReadBuffer(r: Rec, pend: seq<Pending>, alive: i32)
    ensures HitBy(r, pend, alive) || CoveredBy(r, pend, alive) ==> OnReadBuffer(r, pend)
  {
    if i :| 0 <= i < |pend| && pend[i].Reads() && IsHit(r, pend[i].t, alive) {
      assert pend[i] in pend;
    }
    if i :| 0 <= i < |pend| && pend[i].access == InOut && IsHit(r, pend[i].t, alive)
            && CheckOverlap(pend[i].t, r.view) == Covered {
      assert pend[i] in pend;
    }
  }

  /** Records on buffers the task does not read are neither collected nor deleted. */
  lemma OtherBuffersIgnored(log: Log, alive: i32, pend: seq<Pending>, tid: u32)
    ensures forall r :: r in log && !OnReadBuffer(r, pend) ==> r in LookAll(log, alive, pend, tid).0
    ensures forall x :: x in LookAll(log, alive, pend, tid).1.preds ==>
              exists r :: r in log && OnReadBuffer(r, pend) && r.producer == x
  {
    LookAllExact(log, alive, pend, tid);
    forall r | r in log && !OnReadBuffer(r, pend) ensures r in LookAll(log, alive, pend, tid).0 {
      HitOnReadBuffer(r, pend, alive);
      FilterMember(log, Surviving(pend, alive), r);
    }
    forall x | x in LookAll(log, alive, pend, tid).1.preds
      ensures exists r :: r in log && OnReadBuffer(r, pend) && r.producer == x
    {
      var r :| r in log && HitBy(r, pend, alive) && r.producer == x;
      HitOnReadBuffer(r, pend, alive);
    }
  }

  // ---- Clear pairs ---------------------------------------------------------------------------------

  /** Nothing keeps the classifier from the truth: the views are alike, the extents are hulls or one short
      without stopping at the other view, and the reader is not newer. */
  predicate Clear(t: Tensor, v: View) {
    && ExtentNearHull(t.view) && ExtentNearHull(v) && Alike(t, v)
    && t.view.version <= v.version && !Misled(t.view, v)
  }

  lemma ClearAnswers(t: Tensor, v: View)
    requires Clear(t, v)
    ensures CheckOverlap(t, v) == Nothing <==> Disjoint(t.view, v)
    ensures CheckOverlap(t, v) == Covered <==> Contains(t.view, v)
  {
    AlikeAnswers(t, v);
  }

  ghost predicate ClearLog(log: Log, pend: seq<Pending>) {
    forall r, p :: r in log && p in pend && p.access != Out && r.view.base == p.t.view.base ==> Clear(p.t, r.view)
  }

  /** A declared read of a live record's element. */
  ghost predicate ReadBy(r: Rec, pend: seq<Pending>, alive: i32) {
    && AsI32(r.producer) >= alive
    && exists p :: p in pend && p.access != Out && p.t.view.base == r.view.base && !Disjoint(p.t.view, r.view)
  }

  /** A declared INOUT of all elements of a live record. */
  ghost predicate OverwrittenBy(r: Rec, pend: seq<Pending>, alive: i32) {
    && AsI32(r.producer) >= alive
    && exists p :: p in pend && p.access == InOut && p.t.view.base == r.view.base && Contains(p.t.view, r.view)
  }

  ghost function NotOverwritten(pend: seq<Pending>, alive: i32): Rec -> bool {
    (r: Rec) => !OverwrittenBy(r, pend, alive)
  }

  lemma HitIsRead(log: Log, alive: i32, pend: seq<Pending>, r: Rec)
    requires ClearLog(log, pend) && r in log
    ensures HitBy(r, pend, alive) <==> ReadBy(r, pend, alive)
  {
    forall p | p in pend && p.Reads() && r.view.base == p.t.view.base
      ensures CheckOverlap(p.t, r.view) == Nothing <==> Disjoint(p.t.view, r.view)
    {
      ClearAnswers(p.t, r.view);
    }
    if ReadBy(r, pend, alive) {
      var p :| p in pend && p.access != Out && p.t.view.base == r.view.base && !Disjoint(p.t.view, r.view);
      var i :| 0 <= i < |pend| && pend[i] == p;
      assert pend[i].Reads() && IsHit(r, pend[i].t, alive);
    }
    if HitBy(r, pend, alive) {
      var i :| 0 <= i < |pend| && pend[i].Reads() && IsHit(r, pend[i].t, alive);
      assert pend[i] in pend;
    }
  }

  lemma CoveredIsOverwritten(log: Log, alive: i32, pend: seq<Pending>, r: Rec)
    requires ClearLog(log, pend) && r in log
    ensures CoveredBy(r, pend, alive) <==> OverwrittenBy(r, pend, alive)
  {
    forall p | p in pend && p.Reads() && r.view.base == p.t.view.base
      ensures CheckOverlap(p.t, r.view) == Covered <==> Contains(p.t.view, r.view)
    {
      ClearAnswers(p.t, r.view);
    }
    if OverwrittenBy(r, pend, alive) {
      var p :| p in pend && p.access == InOut && p.t.view.base == r.view.base && Contains(p.t.view, r.view);
      var i :| 0 <= i < |pend| && pend[i] == p;
      assert p.Reads() && CheckOverlap(pend[i].t, r.view) == Covered;
      assert IsHit(r, pend[i].t, alive);
    }
    if CoveredBy(r, pend, alive) {
      var i :| 0 <= i < |pend| && pend[i].access == InOut && IsHit(r, pend[i].t, alive)
               && CheckOverlap(pend[i].t, r.view) == Covered;
      assert pend[i] in pend && pend[i].Reads();
    }
  }

  /** One submission over clear pairs: with at most 64 of them, the predecessors are exactly the live producers of
      an element that a declared IN or INOUT reads; and exactly the live records whose elements a declared INOUT
      has all of are gone, the others staying in order. */
  lemma SubmitMeaning(log: Log, alive: i32, pend: seq<Pending>, tid: u32)
    requires ClearLog(log, pend)
    ensures var (l, c) := LookAll(log, alive, pend, tid);
            var readers := set r | r in log && ReadBy(r, pend, alive) && r.producer != tid :: r.producer;
            && (|readers| <= 64 ==> SetOf(c.preds) == readers)
            && |c.preds| <= 64 && SetOf(c.preds) <= readers
            && l == Filter(log, NotOverwritten(pend, alive))
  {
    var (l, c) := LookAll(log, alive, pend, tid);
    var readers := set r | r in log && ReadBy(r, pend, alive) && r.producer != tid :: r.producer;
    LookAllExact(log, alive, pend, tid);
    forall r | r in log
      ensures HitBy(r, pend, alive) <==> ReadBy(r, pend, alive)
      ensures CoveredBy(r, pend, alive) <==> OverwrittenBy(r, pend, alive)
    {
      HitIsRead(log, alive, pend, r);
      CoveredIsOverwritten(log, alive, pend, r);
    }
    assert HitProducers(log, alive, pend, tid) == readers;
    if |readers| <= 64 {
      CollectsAll(log, alive, pend, tid);
    }
    FilterSame(log, Surviving(pend, alive), NotOverwritten(pend, alive));
  }

  // ---- Runs -------------------------------------------------------------------------------------------

  /** Every write and every later read on one buffer is a clear pair. */
  ghost predicate ClearRun(run: Run) {
    && (forall j: nat, w | WritesAt(run, j, w) :: FlagHonest(w.t.view))
    && (forall j: nat, k: nat, w, r |
          j < k && WritesAt(run, j, w) && ReadsAt(run, k, r) && r.t.view.base == w.t.view.base ::
          Clear(r.t, w.t.view))
  }

  lemma ClearTrustworthy(run: Run)
    requires ClearRun(run)
    ensures Trustworthy(run)
  {
    forall j: nat, k: nat, w, r |
      j < k && WritesAt(run, j, w) && ReadsAt(run, k, r) && r.t.view.base == w.t.view.base
      ensures Sound(r.t, EntryOf(w.t.view))
    {
      ClearAnswers(r.t, w.t.view);
      EntryKeepsOverlap(r.t, w.t.view);
      forall x ensures Addresses(EntryOf(w.t.view), x) <==> Addresses(w.t.view, x) {
        EntryAddresses(w.t.view, x);
      }
    }
  }

  /** No needless edge: a task waits only for an earlier, unretired task that wrote an element it reads. */
  lemma EdgesShareElements(run: Run, cfg: Config, c: nat, p: nat)
    requires cfg.window > 0 && c < |run| <= ID_LIMIT && p in Edges(run, cfg)[c] && ClearRun(run)
    ensures run[c].minTask <= p < c
    ensures exists r, w, x :: ReadsAt(run, c, r) && WritesAt(run, p, w) && r.t.view.base == w.t.view.base
                              && Addresses(r.t.view, x) && Addresses(w.t.view, x)
  {
    EdgesFounded(run, cfg, c, p);
    var r, w :| ReadsAt(run, c, r) && WritesAt(run, p, w) && r.t.view.base == w.t.view.base
                && CheckOverlap(r.t, EntryOf(w.t.view)) != Nothing;
    EntryKeepsOverlap(r.t, w.t.view);
    ClearAnswers(r.t, w.t.view);
  }
}
