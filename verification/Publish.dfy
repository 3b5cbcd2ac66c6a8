/** What the detect threads leave in the shared predecessor ring (esl_proxy/cases/qwen3_14b_decoder_detect.h:125-142
    with esl_proxy/include/algorithm/ring_buf.h:127-186). */
module Publishing {
  import opened Words
  import opened Sequences
  import opened Tensors
  import opened MapLogs
  import opened Submits
  import opened Graphs
  import opened Runs
  import opened Detects
  import opened Routes
  import opened Predecessors
  import opened Writers
  import Racing
  import RunTheorems

  /** The edges a reader of the task's list finds; a task without a call has none. */
  function ReadRow(s: State, task: nat): set<nat> {
    var p := PhaseOf(s, task);
    if p.Published? && p.exp + p.cnt <= |s.slots| then SetOf(TargetsOf(ReadBack(s, task))) else {}
  }

  function ReadGraph(s: State, total: nat): (g: Graph)
    ensures |g| == total
  {
    if total == 0 then [] else ReadGraph(s, total - 1) + [ReadRow(s, total - 1)]
  }

  lemma {:induction false} ReadGraphAt(s: State, total: nat, k: nat)
    requires k < total
    ensures ReadGraph(s, total)[k] == ReadRow(s, k)
  {
    if k < total - 1 {
      ReadGraphAt(s, total - 1, k);
    }
  }

  /** Some interleaving in which every task with predecessors has made its call; no task completes meanwhile. */
  ghost predicate Publishes(acts: seq<Action>, answer: nat -> seq<u32>, total: nat) {
    && Legal(acts)
    && forall k: nat :: k < total ==> HandedOver(acts, answer, k)
  }

  ghost predicate HandedOver(acts: seq<Action>, answer: nat -> seq<u32>, k: nat)
    requires Legal(acts)
  {
    if answer(k) == [] then PhaseOf(After(acts), k).Idle?
    else PhaseOf(After(acts), k).Published? && StoredBy(acts, k) == Kept(answer(k), 0, false, [])
  }

  lemma {:induction false} NothingCompleted(targets: seq<nat>, k: nat)
    requires k <= |targets|
    ensures KeptUpTo(targets, k, 0, false, []) == targets[..k]
  {
    if k > 0 {
      NothingCompleted(targets, k - 1);
      assert targets[..k] == targets[..k - 1] + [targets[k - 1]];
    }
  }

  /** What can be read for a task is what its thread handed over, if no other call interrupted its own. */
  lemma RowAsHandedOver(acts: seq<Action>, answer: nat -> seq<u32>, total: nat, k: nat)
    requires Publishes(acts, answer, total) && k < total && !Interrupted(acts, k)
    ensures ReadRow(After(acts), k) == EdgeRow(answer(k), 0)
  {
    assert HandedOver(acts, answer, k);
    if answer(k) != [] {
      ListOwnExactly(acts, k);
      NothingCompleted(answer(k), |answer(k)|);
      var given: seq<nat> := answer(k);
      assert given[..|given|] == given;
      assert TargetsOf(Tagged(k, given)) == given;
    }
  }

  /** Read-after-write ordering in the ring the detect threads have filled, for every interleaving in which no
      call is interrupted. */
  lemma PublishedReadAfterWrite(run: Run, d: Described, cfg: Config, dcfg: Config, ringSize: nat, acts: seq<Action>,
                                p: nat, c: nat, w: Pending, r: Pending, x: int)
    requires WellTimed(run, cfg, ringSize) && SameTasks(run, d) && NoLimitHit(run, cfg) && Trustworthy(run)
    requires cfg.poolSize <= dcfg.poolSize && c < |run| && p < c && forall k :: 0 <= k < |run| ==> run[k].minTask == 0
    requires WritesAt(run, p, w) && ReadsAt(run, c, r) && w.t.view.base == r.t.view.base
    requires Addresses(w.t.view, x) && Addresses(r.t.view, x)
    requires Publishes(acts, Answers(d, dcfg), |run|) && forall k: nat :: k < |run| ==> !Interrupted(acts, k)
    ensures Reach(ReadGraph(After(acts), |run|), p, c)
  {
    DetectedReadAfterWrite(run, d, cfg, dcfg, ringSize, p, c, w, r, x);
    SameGraph(acts, Answers(d, dcfg), |run|, c);
    ReachMono(RowsOf(Answers(d, dcfg), |run|), ReadGraph(After(acts), |run|), p, c);
  }

  lemma SameGraph(acts: seq<Action>, answer: nat -> seq<u32>, total: nat, c: nat)
    requires Publishes(acts, answer, total) && c < total && forall k: nat :: k < total ==> !Interrupted(acts, k)
    ensures forall k :: 0 <= k <= c ==> ReadGraph(After(acts), total)[k] == RowsOf(answer, total)[k]
  {
    forall k | 0 <= k <= c ensures ReadGraph(After(acts), total)[k] == RowsOf(answer, total)[k] {
      RowAsHandedOver(acts, answer, total, k);
      RowsAt(answer, total, k);
      ReadGraphAt(After(acts), total, k);
    }
  }

  /** With calls made one after the other, as by a single detect thread, nothing more is needed. */
  lemma SerialReadAfterWrite(run: Run, d: Described, cfg: Config, dcfg: Config, ringSize: nat, acts: seq<Action>,
                             p: nat, c: nat, w: Pending, r: Pending, x: int)
    requires WellTimed(run, cfg, ringSize) && SameTasks(run, d) && NoLimitHit(run, cfg) && Trustworthy(run)
    requires cfg.poolSize <= dcfg.poolSize && c < |run| && p < c && forall k :: 0 <= k < |run| ==> run[k].minTask == 0
    requires WritesAt(run, p, w) && ReadsAt(run, c, r) && w.t.view.base == r.t.view.base
    requires Addresses(w.t.view, x) && Addresses(r.t.view, x)
    requires Publishes(acts, Answers(d, dcfg), |run|) && Serial(acts)
    ensures Reach(ReadGraph(After(acts), |run|), p, c)
  {
    SerialAlone(acts);
    PublishedReadAfterWrite(run, d, cfg, dcfg, ringSize, acts, p, c, w, r, x);
  }

  /** Such interleavings exist for any lists: the calls can be made one after the other. */
  lemma {:induction false} CanPublish(answer: nat -> seq<u32>, total: nat) returns (acts: seq<Action>)
    ensures Publishes(acts, answer, total) && Serial(acts) && NoneStoring(After(acts))
    ensures forall t: nat :: t >= total ==> PhaseOf(After(acts), t).Idle?
  {
    if total == 0 {
      acts := [];
    } else {
      var k := total - 1;
      var before := CanPublish(answer, k);
      acts := before;
      if answer(k) != [] {
        acts := OneCall(before, k, Kept(answer(k), 0, false, []));
      }
      forall t: nat | t != k ensures SameFor(before, acts, t) {
      }
      forall j: nat | j < total ensures HandedOver(acts, answer, j) {
        if j < k {
          assert HandedOver(before, answer, j) && SameFor(before, acts, j);
        }
      }
      forall t: nat ensures !PhaseOf(After(acts), t).Storing? && (t >= total ==> PhaseOf(After(acts), t).Idle?) {
        assert t != k ==> SameFor(before, acts, t);
      }
    }
  }

  // ---- With dedup ------------------------------------------------------------------------------

  /** What the detect threads hand to add_predecessors; no task completes meanwhile. */
  function AsksOf(answer: nat -> seq<u32>, total: nat): (asks: seq<Racing.Ask>)
    ensures |asks| == total && forall k :: 0 <= k < total ==> asks[k] == Racing.Ask(answer(k), 0)
  {
    seq(total, k requires 0 <= k < total => Racing.Ask(answer(k), 0))
  }

  /** Under ENABLE_DAG_DEDUP all calls have been made, in whatever interleaving. */
  ghost predicate DedupPublishes(answer: nat -> seq<u32>, total: nat, words: nat, moves: seq<nat>) {
    && Racing.GoodAsks(AsksOf(answer, total), words) && Racing.Possible(AsksOf(answer, total), words, moves)
    && Racing.AllPublished(Racing.Play(AsksOf(answer, total), words, moves), AsksOf(answer, total))
  }

  /** The history of the slot buffer in such an interleaving. */
  ghost function HistoryOf(answer: nat -> seq<u32>, total: nat, words: nat, moves: seq<nat>): (acts: seq<Action>)
    requires DedupPublishes(answer, total, words, moves)
    ensures Legal(acts)
  {
    Racing.Always(AsksOf(answer, total), words, moves);
    Racing.Play(AsksOf(answer, total), words, moves).acts
  }

  /** What can be read for a task is what its call stored, if no other call interrupted it. */
  lemma RowAsStored(acts: seq<Action>, k: nat)
    requires Legal(acts) && !Interrupted(acts, k) && !PhaseOf(After(acts), k).Storing?
    ensures ReadRow(After(acts), k) == SetOf(StoredBy(acts, k))
  {
    Writers.AlwaysTracked(acts, k);
    if PhaseOf(After(acts), k).Published? {
      ListOwnExactly(acts, k);
      assert TargetsOf(Tagged(k, StoredBy(acts, k))) == StoredBy(acts, k);
    }
  }

  /** The lists are read back as they were stored, and no target was skipped as completed. */
  lemma RowsAsStored(answer: nat -> seq<u32>, total: nat, words: nat, moves: seq<nat>, k: nat)
    requires DedupPublishes(answer, total, words, moves) && k < total
    requires !Interrupted(HistoryOf(answer, total, words, moves), k)
    ensures var acts := HistoryOf(answer, total, words, moves);
            ReadGraph(After(acts), total)[k] == Racing.Left(acts, AsksOf(answer, total))[k]
  {
    var asks, acts := AsksOf(answer, total), HistoryOf(answer, total, words, moves);
    Racing.Always(asks, words, moves);
    assert Racing.Fine(Racing.Play(asks, words, moves), asks, k);
    ReadGraphAt(After(acts), total, k);
    RowAsStored(acts, k);
  }

  /** Read-after-write ordering in the ring with dedup: the calls may race and read half-filled bitsets, as long as
      none is interrupted between its load of the tail and its last store. */
  lemma DedupPublishedReadAfterWrite(run: Run, d: Described, cfg: Config, dcfg: Config, ringSize: nat, words: nat,
                                     moves: seq<nat>, p: nat, c: nat, w: Pending, r: Pending, x: int)
    requires WellTimed(run, cfg, ringSize) && SameTasks(run, d) && NoLimitHit(run, cfg) && Trustworthy(run)
    requires cfg.poolSize <= dcfg.poolSize && c < |run| && p < c && forall k :: 0 <= k < |run| ==> run[k].minTask == 0
    requires WritesAt(run, p, w) && ReadsAt(run, c, r) && w.t.view.base == r.t.view.base
    requires Addresses(w.t.view, x) && Addresses(r.t.view, x)
    requires DedupPublishes(Answers(d, dcfg), |run|, words, moves)
    requires forall k: nat :: k < |run| ==> !Interrupted(HistoryOf(Answers(d, dcfg), |run|, words, moves), k)
    ensures Reach(ReadGraph(After(HistoryOf(Answers(d, dcfg), |run|, words, moves)), |run|), p, c)
  {
    var answer, n := Answers(d, dcfg), |run|;
    var asks, acts := AsksOf(answer, n), HistoryOf(answer, n, words, moves);
    DetectedReadAfterWrite(run, d, cfg, dcfg, ringSize, p, c, w, r, x);
    RowsAreFull(answer, n, c);
    ReachMono(RowsOf(answer, n), Racing.Full(asks), p, c);
    Racing.RaceKeepsReach(asks, words, moves, p, c);
    forall k | 0 <= k <= c ensures Racing.Left(acts, asks)[k] <= ReadGraph(After(acts), n)[k] {
      RowsAsStored(answer, n, words, moves, k);
    }
    ReachMono(Racing.Left(acts, asks), ReadGraph(After(acts), n), p, c);
  }

  lemma RowsAreFull(answer: nat -> seq<u32>, total: nat, c: nat)
    requires c < total
    ensures forall k :: 0 <= k <= c ==> RowsOf(answer, total)[k] <= Racing.Full(AsksOf(answer, total))[k]
  {
    forall k | 0 <= k <= c ensures RowsOf(answer, total)[k] <= Racing.Full(AsksOf(answer, total))[k] {
      RowsAt(answer, total, k);
    }
  }

  /** With dedup too, calls made one after the other, in any order of the tasks, need nothing more. */
  lemma DedupSerialReadAfterWrite(run: Run, d: Described, cfg: Config, dcfg: Config, ringSize: nat, words: nat,
                                  moves: seq<nat>, p: nat, c: nat, w: Pending, r: Pending, x: int)
    requires WellTimed(run, cfg, ringSize) && SameTasks(run, d) && NoLimitHit(run, cfg) && Trustworthy(run)
    requires cfg.poolSize <= dcfg.poolSize && c < |run| && p < c && forall k :: 0 <= k < |run| ==> run[k].minTask == 0
    requires WritesAt(run, p, w) && ReadsAt(run, c, r) && w.t.view.base == r.t.view.base
    requires Addresses(w.t.view, x) && Addresses(r.t.view, x)
    requires DedupPublishes(Answers(d, dcfg), |run|, words, moves)
    requires Serial(HistoryOf(Answers(d, dcfg), |run|, words, moves))
    ensures Reach(ReadGraph(After(HistoryOf(Answers(d, dcfg), |run|, words, moves)), |run|), p, c)
  {
    SerialAlone(HistoryOf(Answers(d, dcfg), |run|, words, moves));
    DedupPublishedReadAfterWrite(run, d, cfg, dcfg, ringSize, words, moves, p, c, w, r, x);
  }

  /** The lists of a run's tasks name earlier tasks only, so such interleavings exist. */
  lemma DedupCanPublish(run: Run, d: Described, cfg: Config, dcfg: Config, words: nat)
    returns (moves: seq<nat>)
    requires cfg.window > 0 && cfg.poolSize <= dcfg.poolSize
    requires SameTasks(run, d) && NoLimitHit(run, cfg) && |run| <= 64 * words
    ensures DedupPublishes(Answers(d, dcfg), |run|, words, moves)
    ensures Serial(HistoryOf(Answers(d, dcfg), |run|, words, moves))
  {
    var answer := Answers(d, dcfg);
    var asks := AsksOf(answer, |run|);
    forall k | 0 <= k < |run| ensures Racing.GoodAsk(asks[k], k) {
      RoutesAgree(run, d, cfg, dcfg, k);
      RunTheorems.PredsEarlier(run, cfg, k);
      forall i | 0 <= i < |answer(k)| ensures answer(k)[i] < k {
        assert answer(k)[i] in SetOf(answer(k));
        assert answer(k)[i] in PredsAt(run, cfg, k);
      }
    }
    moves := Racing.CanFinish(asks, words, []);
  }
}
