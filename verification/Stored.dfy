/** What submissions leave in the predecessor ring and what the cutter reads out of it, over whole runs
    (esl_proxy/include/algorithm/ring_buf.h:127-186, esl_proxy/src/algorithm/cutter.c:123-273). */
module StoredRuns {
  import opened Words
  import opened Predecessors
  import opened Deps

  /** What one submission hands to add_predecessors; `alive` is the watermark it has waited for. */
  datatype Job = Job(preds: seq<u32>, alive: nat, minTask: nat)

  /** Earlier predecessors only, less than a ring ahead of the watermark; with dedup ids index the bitset rows. */
  ghost predicate GoodJobs(jobs: seq<Job>, ringSize: nat, dedup: bool) {
    && 0 < ringSize && |jobs| <= ID_LIMIT && (dedup ==> |jobs| <= ringSize)
    && forall k :: 0 <= k < |jobs| ==> GoodJob(jobs[k], k, ringSize)
  }

  ghost predicate GoodJob(j: Job, k: nat, ringSize: nat) {
    j.alive <= k && k - j.alive < ringSize && forall i :: 0 <= i < |j.preds| ==> j.preds[i] < k
  }

  /** Ancestor rows before job `k`. */
  ghost function RowsBefore(jobs: seq<Job>, ringSize: nat, dedup: bool, k: nat): (r: Rows)
    requires GoodJobs(jobs, ringSize, dedup) && k <= |jobs|
    ensures |r| == ringSize
  {
    if k == 0 then seq(ringSize, _ => {})
    else
      var r := RowsBefore(jobs, ringSize, dedup, k - 1);
      assert GoodJob(jobs[k - 1], k - 1, ringSize);
      if dedup && jobs[k - 1].preds != [] then Recorded(r, k - 1, jobs[k - 1].preds) else r
  }

  /** The list job `k` should be read with. */
  ghost function ListFor(jobs: seq<Job>, ringSize: nat, dedup: bool, k: nat): seq<nat>
    requires GoodJobs(jobs, ringSize, dedup) && k < |jobs|
  {
    assert GoodJob(jobs[k], k, ringSize);
    Kept(jobs[k].preds, jobs[k].minTask, dedup, RowsBefore(jobs, ringSize, dedup, k))
  }

  /** Slots used up by the first `k` jobs; the tail of the slot buffer never goes back. */
  ghost function Used(jobs: seq<Job>, ringSize: nat, dedup: bool, k: nat): nat
    requires GoodJobs(jobs, ringSize, dedup) && k <= |jobs|
  {
    if k == 0 then 0 else Used(jobs, ringSize, dedup, k - 1) + |ListFor(jobs, ringSize, dedup, k - 1)|
  }

  // ---- The ring between orchestrator and cutter ------------------------------------------------

  /** `submitted` is g_task_id, `committed` g_commit_task_id, and `read` what the cutter has read, by task. */
  datatype RingState = RingState(lists: Lists, rows: Rows, submitted: nat, committed: nat, read: seq<seq<nat>>)

  ghost predicate Initial(s: RingState, ringSize: nat) {
    s == RingState(Lists([], seq(ringSize, _ => 0), seq(ringSize, _ => 0)), seq(ringSize, _ => {}), 0, 0, [])
  }

  /** The next submission. A task completes only after it was committed, so the watermark is not past it. */
  ghost predicate Submits(s: RingState, s': RingState, jobs: seq<Job>, ringSize: nat, dedup: bool) {
    && s.submitted < |jobs| <= ID_LIMIT && jobs[s.submitted].alive <= s.committed
    && Recording(s.lists, s.rows, s'.lists, s'.rows, s.submitted, jobs[s.submitted].preds, jobs[s.submitted].minTask,
                 ringSize, dedup)
    && s' == s.(lists := s'.lists, rows := s'.rows, submitted := s.submitted + 1)
  }

  /** add_successors for the next task: it reads the list and empties it. */
  ghost predicate Commits(s: RingState, s': RingState, ringSize: nat) {
    && s.committed < s.submitted && 0 < ringSize == |s.lists.cnt| == |s.lists.exp|
    && var slot := s.committed % ringSize;
       && InBuffer(s.lists, slot)
       && s' == s.(lists := Emptied(s.lists, slot), committed := s.committed + 1,
                   read := s.read + [ListOf(s.lists, slot)])
  }

  function Emptied(l: Lists, slot: nat): Lists
    requires slot < |l.cnt| == |l.exp|
  {
    l.(cnt := l.cnt[slot := 0], exp := l.exp[slot := l.exp[slot] + l.cnt[slot]])
  }

  ghost predicate Step(s: RingState, s': RingState, jobs: seq<Job>, ringSize: nat, dedup: bool) {
    Submits(s, s', jobs, ringSize, dedup) || Commits(s, s', ringSize)
  }

  ghost predicate Behaviour(run: seq<RingState>, jobs: seq<Job>, ringSize: nat, dedup: bool) {
    && run != [] && Initial(run[0], ringSize)
    && forall i :: 0 <= i < |run| - 1 ==> Step(run[i], run[i + 1], jobs, ringSize, dedup)
  }

  // ---- The invariant ------------------------------------------------------------------------------

  /** A task waits in the slot. */
  predicate Occupied(s: RingState, ringSize: nat, slot: nat)
    requires ringSize > 0
  {
    exists j :: s.committed <= j < s.submitted && j % ringSize == slot
  }

  ghost predicate Shaped(s: RingState, jobs: seq<Job>, ringSize: nat, dedup: bool)
    requires GoodJobs(jobs, ringSize, dedup)
  {
    && s.committed <= s.submitted <= |jobs| && |s.read| == s.committed && s.submitted - s.committed <= ringSize
    && |s.lists.cnt| == |s.lists.exp| == ringSize && Tidy(s.lists)
    && s.rows == RowsBefore(jobs, ringSize, dedup, s.submitted)
    && |s.lists.slots| == Used(jobs, ringSize, dedup, s.submitted)
  }

  ghost predicate Waiting(s: RingState, jobs: seq<Job>, ringSize: nat, dedup: bool, j: nat)
    requires GoodJobs(jobs, ringSize, dedup) && Shaped(s, jobs, ringSize, dedup) && j < |jobs|
  {
    ListOf(s.lists, j % ringSize) == ListFor(jobs, ringSize, dedup, j)
  }

  ghost predicate ReadRight(s: RingState, jobs: seq<Job>, ringSize: nat, dedup: bool, j: nat)
    requires GoodJobs(jobs, ringSize, dedup) && j < |s.read| && j < |jobs|
  {
    s.read[j] == ListFor(jobs, ringSize, dedup, j)
  }

  ghost predicate Inv(s: RingState, jobs: seq<Job>, ringSize: nat, dedup: bool)
    requires GoodJobs(jobs, ringSize, dedup)
  {
    && Shaped(s, jobs, ringSize, dedup)
    && (forall slot :: 0 <= slot < ringSize && !Occupied(s, ringSize, slot) ==> s.lists.cnt[slot] == 0)
    && (forall j :: s.committed <= j < s.submitted ==> Waiting(s, jobs, ringSize, dedup, j))
    && (forall j :: 0 <= j < s.committed ==> ReadRight(s, jobs, ringSize, dedup, j))
  }

  /** The slot of the next task has been emptied: its last holder is below the watermark, so it was committed. */
  lemma NextSlotEmpty(s: RingState, jobs: seq<Job>, ringSize: nat, dedup: bool)
    requires GoodJobs(jobs, ringSize, dedup) && Inv(s, jobs, ringSize, dedup)
    requires s.submitted < |jobs| && jobs[s.submitted].alive <= s.committed
    ensures s.submitted - s.committed < ringSize
    ensures s.lists.cnt[s.submitted % ringSize] == 0
    ensures forall j :: s.committed <= j < s.submitted ==> j % ringSize != s.submitted % ringSize
  {
    assert GoodJob(jobs[s.submitted], s.submitted, ringSize);
    forall j | s.committed <= j < s.submitted ensures j % ringSize != s.submitted % ringSize {
      if j % ringSize == s.submitted % ringSize {
        SameResidue(j, s.submitted, ringSize);
      }
    }
    assert !Occupied(s, ringSize, s.submitted % ringSize);
  }

  /** The lists after a submission into an empty slot. */
  lemma SubmittedLists(l: Lists, l': Lists, rows: Rows, rows': Rows, k: u32, j: Job, ringSize: nat, dedup: bool)
    requires Tidy(l) && |l.cnt| == |l.exp| == ringSize > 0 && l.cnt[k % ringSize] == 0
    requires Recording(l, rows, l', rows', k, j.preds, j.minTask, ringSize, dedup)
    requires dedup ==> k < |rows| && forall i :: 0 <= i < |j.preds| ==> j.preds[i] < |rows|
    ensures |l'.cnt| == |l'.exp| == ringSize && Tidy(l')
    ensures |l'.slots| == |l.slots| + |Kept(j.preds, j.minTask, dedup, rows)|
    ensures ListOf(l', k % ringSize) == Kept(j.preds, j.minTask, dedup, rows)
    ensures forall s :: 0 <= s < ringSize && s != k % ringSize ==>
              ListOf(l', s) == ListOf(l, s) && l'.cnt[s] == l.cnt[s]
  {
    var slot, kept := k % ringSize, Kept(j.preds, j.minTask, dedup, rows);
    if j.preds != [] {
      ExtendsAtTail(l, slot, kept);
      AddedKeepsOthers(l, slot, kept);
      assert ListOf(l, slot) + kept == kept;
    }
  }

  lemma StillWaiting(s: RingState, s': RingState, jobs: seq<Job>, ringSize: nat, dedup: bool, j: nat)
    requires GoodJobs(jobs, ringSize, dedup) && Inv(s, jobs, ringSize, dedup) && Shaped(s', jobs, ringSize, dedup)
    requires s.committed <= j < s.submitted && ListOf(s'.lists, j % ringSize) == ListOf(s.lists, j % ringSize)
    ensures Waiting(s', jobs, ringSize, dedup, j)
  {
    assert Waiting(s, jobs, ringSize, dedup, j);
  }

  lemma SubmitKeeps(s: RingState, s': RingState, jobs: seq<Job>, ringSize: nat, dedup: bool)
    requires GoodJobs(jobs, ringSize, dedup) && Inv(s, jobs, ringSize, dedup) && Submits(s, s', jobs, ringSize, dedup)
    ensures Inv(s', jobs, ringSize, dedup)
  {
    var k := s.submitted;
    NextSlotEmpty(s, jobs, ringSize, dedup);
    assert GoodJob(jobs[k], k, ringSize);
    SubmittedLists(s.lists, s'.lists, s.rows, s'.rows, k, jobs[k], ringSize, dedup);
    assert Shaped(s', jobs, ringSize, dedup);
    forall j | s'.committed <= j < s'.submitted ensures Waiting(s', jobs, ringSize, dedup, j) {
      if j < k {
        StillWaiting(s, s', jobs, ringSize, dedup, j);
      }
    }
    forall slot | 0 <= slot < ringSize && !Occupied(s', ringSize, slot) ensures s'.lists.cnt[slot] == 0 {
      OccupiedGrows(s, s', ringSize, slot);
    }
    forall j | 0 <= j < s'.committed ensures ReadRight(s', jobs, ringSize, dedup, j) {
      assert ReadRight(s, jobs, ringSize, dedup, j);
    }
  }

  lemma OccupiedGrows(s: RingState, s': RingState, ringSize: nat, slot: nat)
    requires ringSize > 0 && s'.committed == s.committed <= s.submitted && s'.submitted == s.submitted + 1
    ensures Occupied(s', ringSize, slot) <==> Occupied(s, ringSize, slot) || slot == s.submitted % ringSize
  {
    if Occupied(s, ringSize, slot) {
      var j :| s.committed <= j < s.submitted && j % ringSize == slot;
      assert s'.committed <= j < s'.submitted && j % ringSize == slot;
    }
    if slot == s.submitted % ringSize {
      assert s'.committed <= s.submitted < s'.submitted;
    }
  }

  lemma EmptiedLists(l: Lists, slot: nat)
    requires Tidy(l) && slot < |l.cnt|
    ensures var m := Emptied(l, slot);
            Tidy(m) && forall s :: 0 <= s < |l.cnt| && s != slot ==> ListOf(m, s) == ListOf(l, s)
  {
    var m := Emptied(l, slot);
    forall s | 0 <= s < |m.cnt| ensures InBuffer(m, s) && (s != slot ==> ListOf(m, s) == ListOf(l, s)) {
      assert InBuffer(l, s);
    }
    forall s, r | 0 <= s < |m.cnt| && 0 <= r < |m.cnt| && s != r && m.cnt[s] > 0 && m.cnt[r] > 0
      ensures Apart(m, s, r)
    {
      assert Apart(l, s, r);
    }
  }

  lemma CommitKeeps(s: RingState, s': RingState, jobs: seq<Job>, ringSize: nat, dedup: bool)
    requires GoodJobs(jobs, ringSize, dedup) && Inv(s, jobs, ringSize, dedup) && Commits(s, s', ringSize)
    ensures Inv(s', jobs, ringSize, dedup)
  {
    var c, slot := s.committed, s.committed % ringSize;
    EmptiedLists(s.lists, slot);
    assert Waiting(s, jobs, ringSize, dedup, c);
    assert Shaped(s', jobs, ringSize, dedup);
    forall j | s'.committed <= j < s'.submitted ensures Waiting(s', jobs, ringSize, dedup, j) {
      assert Waiting(s, jobs, ringSize, dedup, j);
      if j % ringSize == slot {
        SameResidue(j, c, ringSize);
      }
    }
    forall i | 0 <= i < ringSize && !Occupied(s', ringSize, i) ensures s'.lists.cnt[i] == 0 {
      if Occupied(s, ringSize, i) {
        var j :| s.committed <= j < s.submitted && j % ringSize == i;
        assert j == c;
      }
    }
    forall j | 0 <= j < s'.committed ensures ReadRight(s', jobs, ringSize, dedup, j) {
      if j < c {
        assert ReadRight(s, jobs, ringSize, dedup, j);
      }
    }
  }

  lemma StartsRight(s: RingState, jobs: seq<Job>, ringSize: nat, dedup: bool)
    requires GoodJobs(jobs, ringSize, dedup) && Initial(s, ringSize)
    ensures Inv(s, jobs, ringSize, dedup)
  {
  }

  lemma {:induction false} Always(run: seq<RingState>, jobs: seq<Job>, ringSize: nat, dedup: bool, i: nat)
    requires GoodJobs(jobs, ringSize, dedup) && Behaviour(run, jobs, ringSize, dedup) && i < |run|
    ensures Inv(run[i], jobs, ringSize, dedup)
  {
    if i == 0 {
      StartsRight(run[0], jobs, ringSize, dedup);
    } else {
      Always(run, jobs, ringSize, dedup, i - 1);
      assert Step(run[i - 1], run[i - 1 + 1], jobs, ringSize, dedup);
      if Submits(run[i - 1], run[i], jobs, ringSize, dedup) {
        SubmitKeeps(run[i - 1], run[i], jobs, ringSize, dedup);
      } else {
        CommitKeeps(run[i - 1], run[i], jobs, ringSize, dedup);
      }
    }
  }

  /** In every interleaving of submissions and commits the cutter reads for each task exactly the list its own
      submission kept, however often the ring has wrapped. */
  lemma ReadExactly(run: seq<RingState>, jobs: seq<Job>, ringSize: nat, dedup: bool, i: nat, j: nat)
    requires GoodJobs(jobs, ringSize, dedup) && Behaviour(run, jobs, ringSize, dedup) && i < |run|
    requires j < run[i].committed
    ensures j < |run[i].read| && j < |jobs| && run[i].read[j] == ListFor(jobs, ringSize, dedup, j)
  {
    Always(run, jobs, ringSize, dedup, i);
    assert ReadRight(run[i], jobs, ringSize, dedup, j);
  }

  /** The room the hypothesis on the slot buffer asks for, exactly. */
  lemma RoomExactly(run: seq<RingState>, jobs: seq<Job>, ringSize: nat, dedup: bool, i: nat)
    requires GoodJobs(jobs, ringSize, dedup) && Behaviour(run, jobs, ringSize, dedup) && i < |run|
    ensures run[i].submitted <= |jobs|
    ensures |run[i].lists.slots| == Used(jobs, ringSize, dedup, run[i].submitted)
  {
    Always(run, jobs, ringSize, dedup, i);
  }

  // ---- Such interleavings exist -------------------------------------------------------------------

  /** The ring after the next submission. */
  ghost function Submitted(s: RingState, j: Job, ringSize: nat, dedup: bool): RingState
    requires s.submitted < ID_LIMIT && 0 < ringSize == |s.lists.cnt| == |s.lists.exp| == |s.rows|
    requires dedup ==> s.submitted < ringSize && forall i :: 0 <= i < |j.preds| ==> j.preds[i] < ringSize
  {
    if j.preds == [] then s.(submitted := s.submitted + 1)
    else
      var kept := Kept(j.preds, j.minTask, dedup, s.rows);
      s.(lists := Added(s.lists, s.submitted % ringSize, 0, kept), submitted := s.submitted + 1,
         rows := if dedup then Recorded(s.rows, s.submitted, j.preds) else s.rows)
  }

  lemma Extended(run: seq<RingState>, s: RingState, jobs: seq<Job>, ringSize: nat, dedup: bool)
    requires Behaviour(run, jobs, ringSize, dedup) && Step(run[|run| - 1], s, jobs, ringSize, dedup)
    ensures Behaviour(run + [s], jobs, ringSize, dedup)
  {
    var more := run + [s];
    forall i | 0 <= i < |more| - 1 ensures Step(more[i], more[i + 1], jobs, ringSize, dedup) {
      if i < |run| - 1 {
        assert Step(run[i], run[i + 1], jobs, ringSize, dedup);
      }
    }
  }

  /** Nothing good jobs ask for gets stuck: the first `n` of them can all be submitted, committed and read. */
  lemma {:induction false} CanCommit(jobs: seq<Job>, ringSize: nat, dedup: bool, n: nat) returns (run: seq<RingState>)
    requires GoodJobs(jobs, ringSize, dedup) && n <= |jobs|
    ensures Behaviour(run, jobs, ringSize, dedup)
    ensures run[|run| - 1].submitted == run[|run| - 1].committed == n
  {
    if n == 0 {
      run := [RingState(Lists([], seq(ringSize, _ => 0), seq(ringSize, _ => 0)), seq(ringSize, _ => {}), 0, 0, [])];
    } else {
      run := CanCommit(jobs, ringSize, dedup, n - 1);
      var s := run[|run| - 1];
      Always(run, jobs, ringSize, dedup, |run| - 1);
      assert GoodJob(jobs[n - 1], n - 1, ringSize);
      var s1 := Submitted(s, jobs[n - 1], ringSize, dedup);
      assert Submits(s, s1, jobs, ringSize, dedup);
      Extended(run, s1, jobs, ringSize, dedup);
      SubmitKeeps(s, s1, jobs, ringSize, dedup);
      var slot := (n - 1) % ringSize;
      assert InBuffer(s1.lists, slot);
      var s2 := s1.(lists := Emptied(s1.lists, slot), committed := n, read := s1.read + [ListOf(s1.lists, slot)]);
      Extended(run + [s1], s2, jobs, ringSize, dedup);
      run := run + [s1] + [s2];
    }
  }
}
