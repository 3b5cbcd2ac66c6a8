/** Read-after-write ordering in the lists the cutter reads out of the predecessor ring. */
module StoredEdges {
  import opened Words
  import opened Sequences
  import opened Tensors
  import opened MapLogs
  import opened Submits
  import opened Graphs
  import opened Predecessors
  import opened Runs
  import opened RunTheorems
  import opened StoredRuns
  import Dedup

  ghost function JobsUpTo(run: Run, cfg: Config, k: nat): (jobs: seq<Job>)
    requires cfg.window > 0 && k <= |run| <= ID_LIMIT
    ensures |jobs| == k
  {
    if k == 0 then []
    else
      var alive: nat := if run[k - 1].alive < 0 then 0 else run[k - 1].alive;
      JobsUpTo(run, cfg, k - 1) + [Job(PredsAt(run, cfg, k - 1), alive, run[k - 1].minTask)]
  }

  /** What the run's submissions hand to add_predecessors. */
  ghost function JobsOf(run: Run, cfg: Config): (jobs: seq<Job>)
    requires cfg.window > 0 && |run| <= ID_LIMIT
    ensures |jobs| == |run|
  {
    JobsUpTo(run, cfg, |run|)
  }

  lemma {:induction false} JobAt(run: Run, cfg: Config, k: nat, j: nat)
    requires cfg.window > 0 && j < k <= |run| <= ID_LIMIT
    ensures var alive: nat := if run[j].alive < 0 then 0 else run[j].alive;
            JobsUpTo(run, cfg, k)[j] == Job(PredsAt(run, cfg, j), alive, run[j].minTask)
  {
    if j < k - 1 {
      JobAt(run, cfg, k - 1, j);
    }
  }

  lemma JobsGood(run: Run, cfg: Config, ringSize: nat, dedup: bool)
    requires WellTimed(run, cfg, ringSize) && (dedup ==> |run| <= ringSize)
    ensures GoodJobs(JobsOf(run, cfg), ringSize, dedup)
  {
    var jobs := JobsOf(run, cfg);
    forall k | 0 <= k < |jobs| ensures GoodJob(jobs[k], k, ringSize) {
      JobAt(run, cfg, |run|, k);
      PredsEarlier(run, cfg, k);
      assert Timely(run, ringSize, k);
    }
  }

  /** Without dedup the list of a task has exactly the edges of its row. */
  lemma StoredRow(run: Run, cfg: Config, ringSize: nat, k: nat)
    requires WellTimed(run, cfg, ringSize) && k < |run|
    ensures GoodJobs(JobsOf(run, cfg), ringSize, false)
    ensures SetOf(ListFor(JobsOf(run, cfg), ringSize, false, k)) == Edges(run, cfg)[k]
  {
    JobsGood(run, cfg, ringSize, false);
    JobAt(run, cfg, |run|, k);
    RowOf(run, cfg, |run|, k);
    var preds := PredsAt(run, cfg, k);
    KeptMembers(preds, |preds|, run[k].minTask, false, RowsBefore(JobsOf(run, cfg), ringSize, false, k));
  }

  /** The graph the cutter has read. */
  function ReadGraph(read: seq<seq<nat>>): (g: Graph)
    ensures |g| == |read|
  {
    if read == [] then [] else ReadGraph(read[..|read| - 1]) + [SetOf(read[|read| - 1])]
  }

  lemma {:induction false} ReadGraphAt(read: seq<seq<nat>>, k: nat)
    requires k < |read|
    ensures ReadGraph(read)[k] == SetOf(read[k])
  {
    if k < |read| - 1 {
      ReadGraphAt(read[..|read| - 1], k);
    }
  }

  /** Read-after-write in what the cutter reads: for every interleaving of submissions and commits, once the
      consumer is committed, the lists read so far lead from it to the unretired producer. */
  lemma ReadAfterWriteAtCutter(run: Run, cfg: Config, ringSize: nat, ring: seq<RingState>, i: nat,
                               p: nat, c: nat, w: Pending, r: Pending, x: int)
    requires WellTimed(run, cfg, ringSize) && NoLimitHit(run, cfg) && Trustworthy(run)
    requires c < |run| && run[c].minTask <= p < c
    requires WritesAt(run, p, w) && ReadsAt(run, c, r) && w.t.view.base == r.t.view.base
    requires Addresses(w.t.view, x) && Addresses(r.t.view, x)
    requires Behaviour(ring, JobsOf(run, cfg), ringSize, false) && i < |ring| && c < ring[i].committed
    ensures Reach(ReadGraph(ring[i].read), p, c)
  {
    ReadAfterWrite(run, cfg, ringSize, p, c, w, r, x);
    JobsGood(run, cfg, ringSize, false);
    StoredRuns.Always(ring, JobsOf(run, cfg), ringSize, false, i);
    var g, h := Edges(run, cfg), ReadGraph(ring[i].read);
    forall k | 0 <= k <= c ensures g[k] <= h[k] {
      ReadExactly(ring, JobsOf(run, cfg), ringSize, false, i, k);
      StoredRow(run, cfg, ringSize, k);
      ReadGraphAt(ring[i].read, k);
    }
    ReachMono(g, h, p, c);
  }

  // ---- With dedup ------------------------------------------------------------------------------

  /** The functional account of dedup and the ring agree, row by row and list by list. */
  ghost predicate SameAt(s: Dedup.DState, jobs: seq<Job>, ringSize: nat, k: nat)
    requires GoodJobs(jobs, ringSize, true) && k <= |jobs|
  {
    && |s.full| == |s.kept| == |s.done| == |s.anc| == ringSize && s.anc == RowsBefore(jobs, ringSize, true, k)
    && (forall t :: 0 <= t < k ==> s.kept[t] == SetOf(ListFor(jobs, ringSize, true, t)))
    && (forall t :: k <= t < ringSize ==> s.kept[t] == {})
  }

  lemma SameStep(s: Dedup.DState, jobs: seq<Job>, ringSize: nat, k: nat)
    requires GoodJobs(jobs, ringSize, true) && k < |jobs|
    requires SameAt(s, jobs, ringSize, k) && GoodJob(jobs[k], k, ringSize)
    ensures SameAt(Dedup.Step(s, Dedup.Call(k, jobs[k].preds, jobs[k].minTask)), jobs, ringSize, k + 1)
  {
  }

  predicate CallFor(c: Dedup.Call, j: Job, k: nat) {
    c == Dedup.Call(k, j.preds, j.minTask)
  }

  lemma {:induction false} SameCalls(calls: seq<Dedup.Call>, jobs: seq<Job>, ringSize: nat)
    requires GoodJobs(jobs, ringSize, true) && |calls| <= |jobs| && Dedup.GoodCalls(calls, ringSize)
    requires forall i :: 0 <= i < |calls| ==> CallFor(calls[i], jobs[i], i)
    ensures SameAt(Dedup.After(calls, ringSize), jobs, ringSize, |calls|)
  {
    if calls != [] {
      var k := |calls| - 1;
      SameCalls(calls[..k], jobs, ringSize);
      assert GoodJob(jobs[k], k, ringSize) && CallFor(calls[k], jobs[k], k) && Dedup.GoodCall(calls[k], ringSize);
      SameStep(Dedup.After(calls[..k], ringSize), jobs, ringSize, k);
    }
  }

  lemma SameDedup(run: Run, cfg: Config, ringSize: nat)
    requires WellTimed(run, cfg, ringSize) && |run| <= ringSize
    ensures GoodJobs(JobsOf(run, cfg), ringSize, true) && Dedup.GoodCalls(Calls(run, cfg, |run|), ringSize)
    ensures SameAt(Dedup.After(Calls(run, cfg, |run|), ringSize), JobsOf(run, cfg), ringSize, |run|)
  {
    var calls, jobs := Calls(run, cfg, |run|), JobsOf(run, cfg);
    JobsGood(run, cfg, ringSize, true);
    CallsGood(run, cfg, ringSize);
    forall i | 0 <= i < |calls| ensures CallFor(calls[i], jobs[i], i) {
      CallAt(run, cfg, |run|, i);
      JobAt(run, cfg, |run|, i);
    }
    SameCalls(calls, jobs, ringSize);
  }

  /** With dedup the lists read still order every unretired pair. */
  lemma DedupOrderAtCutter(run: Run, cfg: Config, ringSize: nat, ring: seq<RingState>, i: nat,
                           p: nat, c: nat, w: Pending, r: Pending, x: int)
    requires WellTimed(run, cfg, ringSize) && |run| <= ringSize && NoLimitHit(run, cfg) && Trustworthy(run)
    requires c < |run| && run[c].minTask <= p < c
    requires WritesAt(run, p, w) && ReadsAt(run, c, r) && w.t.view.base == r.t.view.base
    requires Addresses(w.t.view, x) && Addresses(r.t.view, x)
    requires Behaviour(ring, JobsOf(run, cfg), ringSize, true) && i < |ring| && c < ring[i].committed
    ensures Reach(ReadGraph(ring[i].read), p, c)
  {
    ReadAfterWrite(run, cfg, ringSize, p, c, w, r, x);
    DedupKeepsOrder(run, cfg, ringSize, ringSize, p, c);
    JobsGood(run, cfg, ringSize, true);
    StoredRuns.Always(ring, JobsOf(run, cfg), ringSize, true, i);
    SameDedup(run, cfg, ringSize);
    var g, h := DedupEdges(run, cfg, ringSize), ReadGraph(ring[i].read);
    forall k | 0 <= k <= c ensures g[k] <= h[k] {
      ReadExactly(ring, JobsOf(run, cfg), ringSize, true, i, k);
      ReadGraphAt(ring[i].read, k);
    }
    ReachMono(g, h, p, c);
  }
}
