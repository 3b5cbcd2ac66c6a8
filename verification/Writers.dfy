/** Several threads in add_predecessors at once (esl_proxy/include/algorithm/ring_buf.h:127-186): each call reads
    the shared tail once and then takes its slots one by one. */
module Writers {
  /** A filled slot of the shared buffer, with the task whose call filled it. */
  datatype Stored = Stored(writer: nat, target: nat)

  /** One task's call: `exp` is the tail it read. */
  datatype Phase = Idle | Storing(exp: nat, stored: nat) | Published(exp: nat, cnt: nat)

  datatype State = State(slots: seq<Stored>, phase: map<nat, Phase>)

  datatype Action = Begin(task: nat) | Store(task: nat, target: nat) | Finish(task: nat)

  function PhaseOf(s: State, task: nat): Phase {
    if task in s.phase then s.phase[task] else Idle
  }

  predicate Enabled(s: State, a: Action) {
    if a.Begin? then PhaseOf(s, a.task).Idle? else PhaseOf(s, a.task).Storing?
  }

  /** The load of the tail, the compare-exchange with its store, and the write of the count. */
  function Do(s: State, a: Action): State
    requires Enabled(s, a)
  {
    match a
    case Begin(t) => s.(phase := s.phase[t := Storing(|s.slots|, 0)])
    case Store(t, m) =>
      State(s.slots + [Stored(t, m)], s.phase[t := Storing(PhaseOf(s, t).exp, PhaseOf(s, t).stored + 1)])
    case Finish(t) => s.(phase := s.phase[t := Published(PhaseOf(s, t).exp, PhaseOf(s, t).stored)])
  }

  predicate Legal(acts: seq<Action>)
    decreases |acts|, 0
  {
    acts != [] ==> Legal(acts[..|acts| - 1]) && Enabled(After(acts[..|acts| - 1]), acts[|acts| - 1])
  }

  function After(acts: seq<Action>): State
    requires Legal(acts)
    decreases |acts|, 1
  {
    if acts == [] then State([], map[]) else Do(After(acts[..|acts| - 1]), acts[|acts| - 1])
  }

  predicate Stores(a: Action, task: nat) {
    a.Store? && a.task == task
  }

  /** The targets the task's call has stored, in order. */
  function StoredBy(acts: seq<Action>, task: nat): seq<nat> {
    if acts == [] then []
    else
      var last, before := acts[|acts| - 1], StoredBy(acts[..|acts| - 1], task);
      if Stores(last, task) then before + [last.target] else before
  }

  function Tagged(task: nat, targets: seq<nat>): (s: seq<Stored>)
    ensures |s| == |targets|
  {
    seq(|targets|, i requires 0 <= i < |targets| => Stored(task, targets[i]))
  }

  /** Another call has stored something since this task's call read the tail. */
  ghost predicate OtherSince(acts: seq<Action>, task: nat) {
    exists i, j :: 0 <= i < j < |acts| && acts[i] == Begin(task) && acts[j].Store? && acts[j].task != task
  }

  /** Another call stores something between this call's load of the tail and its last store. */
  ghost predicate Interrupted(acts: seq<Action>, task: nat) {
    exists k :: 0 <= k < |acts| && Stores(acts[k], task) && OtherSince(acts[..k], task)
  }

  /** The slots a reader of the task's `exp` and `cnt` gets. */
  function ReadBack(s: State, task: nat): seq<Stored>
    requires var p := PhaseOf(s, task); p.Published? && p.exp + p.cnt <= |s.slots|
  {
    s.slots[PhaseOf(s, task).exp..PhaseOf(s, task).exp + PhaseOf(s, task).cnt]
  }

  // ---- One call among others ------------------------------------------------------------------

  /** What a call that read tail `exp` and has stored `kept` can rely on. */
  ghost predicate Tracks(slots: seq<Stored>, task: nat, exp: nat, kept: seq<nat>, other: bool, interrupted: bool) {
    && exp + |kept| <= |slots|
    && (other <==> exp + |kept| < |slots|)
    && (!interrupted ==> slots[exp..exp + |kept|] == Tagged(task, kept))
    && (!interrupted && other ==> slots[exp + |kept|].writer != task)
    && (interrupted ==> other && exists q :: exp <= q < exp + |kept| && slots[q].writer != task)
  }

  ghost predicate PhaseTracks(p: Phase, slots: seq<Stored>, task: nat, kept: seq<nat>, other: bool, interrupted: bool) {
    match p
    case Idle => !interrupted && !other && kept == []
    case Storing(exp, n) => Tracks(slots, task, exp, kept, other, interrupted) && n == |kept|
    case Published(exp, n) => Tracks(slots, task, exp, kept, other, interrupted) && n == |kept|
  }

  ghost predicate Tracked(acts: seq<Action>, task: nat)
    requires Legal(acts)
  {
    PhaseTracks(PhaseOf(After(acts), task), After(acts).slots, task, StoredBy(acts, task),
                OtherSince(acts, task), Interrupted(acts, task))
  }

  lemma Begun(acts: seq<Action>, task: nat)
    requires Legal(acts)
    ensures PhaseOf(After(acts), task).Idle? <==> !exists i :: 0 <= i < |acts| && acts[i] == Begin(task)
  {
    if acts != [] {
      var before, last := acts[..|acts| - 1], acts[|acts| - 1];
      Begun(before, task);
      if i :| 0 <= i < |before| && before[i] == Begin(task) {
        assert acts[i] == before[i];
      }
      if last == Begin(task) {
        assert acts[|acts| - 1] == Begin(task);
      }
    }
  }

  lemma OtherMore(before: seq<Action>, last: Action, task: nat)
    requires Legal(before)
    ensures OtherSince(before + [last], task) <==>
              OtherSince(before, task) || (last.Store? && last.task != task && !PhaseOf(After(before), task).Idle?)
  {
    var acts := before + [last];
    Begun(before, task);
    if i, j :| 0 <= i < j < |before| && before[i] == Begin(task) && before[j].Store? && before[j].task != task {
      assert acts[i] == before[i] && acts[j] == before[j];
    }
    if last.Store? && last.task != task && !PhaseOf(After(before), task).Idle? {
      var i :| 0 <= i < |before| && before[i] == Begin(task);
      assert acts[i] == before[i] && acts[|before|] == last;
    }
  }

  lemma InterruptedMore(before: seq<Action>, last: Action, task: nat)
    ensures Interrupted(before + [last], task)
       <==> Interrupted(before, task) || (Stores(last, task) && OtherSince(before, task))
  {
    var acts := before + [last];
    if k :| 0 <= k < |before| && Stores(before[k], task) && OtherSince(before[..k], task) {
      assert acts[k] == before[k] && acts[..k] == before[..k];
    }
    if Stores(last, task) && OtherSince(before, task) {
      assert acts[|before|] == last && acts[..|before|] == before;
    }
    if k :| 0 <= k < |acts| && Stores(acts[k], task) && OtherSince(acts[..k], task) {
      assert acts[..k] == before[..k];
      assert k < |before| ==> before[k] == acts[k];
      assert k == |before| ==> before[..k] == before;
    }
  }

  lemma OwnStore(slots: seq<Stored>, task: nat, exp: nat, kept: seq<nat>, m: nat, other: bool, interrupted: bool)
    requires Tracks(slots, task, exp, kept, other, interrupted)
    ensures Tracks(slots + [Stored(task, m)], task, exp, kept + [m], other, interrupted || other)
  {
    var slots', n := slots + [Stored(task, m)], |kept|;
    if interrupted {
      var q :| exp <= q < exp + n && slots[q].writer != task;
      assert slots'[q].writer != task;
    } else if other {
      assert slots'[exp + n].writer != task;
    } else {
      assert slots'[exp..exp + n] == slots[exp..exp + n] == Tagged(task, kept);
      assert slots'[exp..exp + n + 1] == slots'[exp..exp + n] + [Stored(task, m)];
      assert Tagged(task, kept + [m]) == Tagged(task, kept) + [Stored(task, m)];
    }
  }

  lemma OtherStore(slots: seq<Stored>, task: nat, exp: nat, kept: seq<nat>, other: bool, interrupted: bool, e: Stored)
    requires Tracks(slots, task, exp, kept, other, interrupted) && e.writer != task
    ensures Tracks(slots + [e], task, exp, kept, true, interrupted)
  {
    var slots' := slots + [e];
    assert slots'[exp..exp + |kept|] == slots[exp..exp + |kept|];
    if interrupted {
      var q :| exp <= q < exp + |kept| && slots[q].writer != task;
      assert slots'[q].writer != task;
    }
  }

  /** What one step does to one task and to the slots. */
  lemma Observed(before: seq<Action>, last: Action, task: nat)
    requires Legal(before) && Enabled(After(before), last)
    ensures Legal(before + [last])
    ensures var s, s' := After(before), After(before + [last]);
            && s' == Do(s, last)
            && (last.task != task ==> PhaseOf(s', task) == PhaseOf(s, task))
            && StoredBy(before + [last], task) ==
               if Stores(last, task) then StoredBy(before, task) + [last.target] else StoredBy(before, task)
  {
    assert (before + [last])[..|before|] == before;
  }

  lemma OwnStep(s: State, last: Action, kept: seq<nat>, other: bool, interrupted: bool)
    requires Enabled(s, last) && PhaseTracks(PhaseOf(s, last.task), s.slots, last.task, kept, other, interrupted)
    ensures PhaseTracks(PhaseOf(Do(s, last), last.task), Do(s, last).slots, last.task,
                        if last.Store? then kept + [last.target] else kept, other,
                        interrupted || (last.Store? && other))
  {
    match last {
      case Begin(t) =>
        assert s.slots[|s.slots|..|s.slots|] == [] == Tagged(t, kept);
      case Store(t, m) =>
        OwnStore(s.slots, t, PhaseOf(s, t).exp, kept, m, other, interrupted);
      case Finish(t) =>
    }
  }

  lemma ElseStep(p: Phase, slots: seq<Stored>, task: nat, kept: seq<nat>, other: bool, interrupted: bool, e: Stored)
    requires PhaseTracks(p, slots, task, kept, other, interrupted) && e.writer != task
    ensures PhaseTracks(p, slots + [e], task, kept, other || !p.Idle?, interrupted)
  {
    if !p.Idle? {
      OtherStore(slots, task, p.exp, kept, other, interrupted, e);
    }
  }

  lemma TrackStep(before: seq<Action>, last: Action, task: nat)
    requires Legal(before) && Enabled(After(before), last) && Tracked(before, task)
    ensures Legal(before + [last]) && Tracked(before + [last], task)
  {
    var s := After(before);
    var other, interrupted := OtherSince(before, task), Interrupted(before, task);
    Observed(before, last, task);
    OtherMore(before, last, task);
    InterruptedMore(before, last, task);
    if last.task == task {
      OwnStep(s, last, StoredBy(before, task), other, interrupted);
    } else if last.Store? {
      ElseStep(PhaseOf(s, task), s.slots, task, StoredBy(before, task), other, interrupted,
               Stored(last.task, last.target));
    }
  }

  lemma {:induction false} AlwaysTracked(acts: seq<Action>, task: nat)
    requires Legal(acts)
    ensures Tracked(acts, task)
  {
    if acts != [] {
      var n := |acts| - 1;
      AlwaysTracked(acts[..n], task);
      assert acts == acts[..n] + [acts[n]];
      TrackStep(acts[..n], acts[n], task);
    }
  }

  /** In every interleaving, a published list holds exactly the slots of its own call, in order, if and only if
      no other call stored anything between this call's load of the tail and its last store. */
  lemma ListOwnExactly(acts: seq<Action>, task: nat)
    requires Legal(acts) && PhaseOf(After(acts), task).Published?
    ensures var s := After(acts);
            && PhaseOf(s, task).exp + PhaseOf(s, task).cnt <= |s.slots|
            && (ReadBack(s, task) == Tagged(task, StoredBy(acts, task)) <==> !Interrupted(acts, task))
  {
    AlwaysTracked(acts, task);
    var s := After(acts);
    var p := PhaseOf(s, task);
    if Interrupted(acts, task) {
      var q :| p.exp <= q < p.exp + p.cnt && s.slots[q].writer != task;
      assert ReadBack(s, task)[q - p.exp].writer != task;
    }
  }

  function TargetsOf(slots: seq<Stored>): (t: seq<nat>)
    ensures |t| == |slots|
  {
    seq(|slots|, i requires 0 <= i < |slots| => slots[i].target)
  }

  lemma Grow(before: seq<Action>, s: State, last: Action, acts: seq<Action>, s': State)
    requires Legal(before) && After(before) == s && Enabled(s, last)
    requires acts == before + [last] && s' == Do(s, last)
    ensures Legal(acts) && After(acts) == s'
  {
    assert acts[..|before|] == before;
  }

  /** The first half of an interleaving of two calls: one store of each. */
  lemma MixBegins()
    ensures var acts := [Begin(0), Store(0, 5), Begin(1), Store(1, 7)];
            && Legal(acts)
            && After(acts) == State([Stored(0, 5), Stored(1, 7)], map[0 := Storing(0, 1), 1 := Storing(1, 1)])
  {
    var s1 := State([], map[0 := Storing(0, 0)]);
    var s2 := State([Stored(0, 5)], map[0 := Storing(0, 1)]);
    var s3 := s2.(phase := map[0 := Storing(0, 1), 1 := Storing(1, 0)]);
    var s4 := State([Stored(0, 5), Stored(1, 7)], map[0 := Storing(0, 1), 1 := Storing(1, 1)]);
    Grow([], State([], map[]), Begin(0), [Begin(0)], s1);
    Grow([Begin(0)], s1, Store(0, 5), [Begin(0), Store(0, 5)], s2);
    Grow([Begin(0), Store(0, 5)], s2, Begin(1), [Begin(0), Store(0, 5), Begin(1)], s3);
    assert s3.slots + [Stored(1, 7)] == s4.slots;
    Grow([Begin(0), Store(0, 5), Begin(1)], s3, Store(1, 7), [Begin(0), Store(0, 5), Begin(1), Store(1, 7)], s4);
  }

  /** Two calls whose stores alternate: both finish, task 0 stored targets 5 and 6, and a reader of its list finds
      5 and the other call's 7. */
  lemma TwoWritersMix()
    ensures var acts := [Begin(0), Store(0, 5), Begin(1), Store(1, 7), Store(0, 6), Finish(0), Finish(1)];
            && Legal(acts) && PhaseOf(After(acts), 0) == Published(0, 2) && |After(acts).slots| == 3
            && TargetsOf(ReadBack(After(acts), 0)) == [5, 7]
  {
    var a4 := [Begin(0), Store(0, 5), Begin(1), Store(1, 7)];
    var slots := [Stored(0, 5), Stored(1, 7), Stored(0, 6)];
    var s4 := State([Stored(0, 5), Stored(1, 7)], map[0 := Storing(0, 1), 1 := Storing(1, 1)]);
    var s5 := State(slots, map[0 := Storing(0, 2), 1 := Storing(1, 1)]);
    var s6 := State(slots, map[0 := Published(0, 2), 1 := Storing(1, 1)]);
    var s7 := State(slots, map[0 := Published(0, 2), 1 := Published(1, 1)]);
    MixBegins();
    assert s4.slots + [Stored(0, 6)] == slots;
    Grow(a4, s4, Store(0, 6), a4 + [Store(0, 6)], s5);
    Grow(a4 + [Store(0, 6)], s5, Finish(0), a4 + [Store(0, 6)] + [Finish(0)], s6);
    var acts := [Begin(0), Store(0, 5), Begin(1), Store(1, 7), Store(0, 6), Finish(0), Finish(1)];
    Grow(a4 + [Store(0, 6)] + [Finish(0)], s6, Finish(1), acts, s7);
    assert TargetsOf(ReadBack(s7, 0)) == [5, 7];
  }

  // ---- One call after another ------------------------------------------------------------------

  /** A call begins only when no other one is under way: one thread, or threads taking turns. */
  ghost predicate Serial(acts: seq<Action>)
    requires Legal(acts)
    decreases |acts|
  {
    acts != [] ==>
      && Serial(acts[..|acts| - 1])
      && (acts[|acts| - 1].Begin? ==> NoneStoring(After(acts[..|acts| - 1])))
  }

  ghost predicate NoneStoring(s: State) {
    forall t :: !PhaseOf(s, t).Storing?
  }

  /** Then at most one call is under way, and nothing of another call lies behind the tail it read. */
  ghost predicate Alone(acts: seq<Action>)
    requires Legal(acts)
  {
    && (forall t, u :: PhaseOf(After(acts), t).Storing? && PhaseOf(After(acts), u).Storing? ==> t == u)
    && (forall t :: PhaseOf(After(acts), t).Storing? ==> !OtherSince(acts, t))
    && (forall t :: !Interrupted(acts, t))
  }

  lemma {:induction false} SerialAlone(acts: seq<Action>)
    requires Legal(acts) && Serial(acts)
    ensures Alone(acts)
  {
    if acts != [] {
      var before, last := acts[..|acts| - 1], acts[|acts| - 1];
      assert acts == before + [last];
      SerialAlone(before);
      forall t
        ensures PhaseOf(After(acts), t).Storing? ==>
                  PhaseOf(After(before), t).Storing? || (last.Begin? && last.task == t)
        ensures PhaseOf(After(acts), t).Storing? ==> !OtherSince(acts, t)
        ensures !Interrupted(acts, t)
      {
        Observed(before, last, t);
        OtherMore(before, last, t);
        InterruptedMore(before, last, t);
        AlwaysTracked(before, t);
      }
    }
  }

  /** Calls made one after the other publish exactly their own lists. */
  lemma SerialListsOwn(acts: seq<Action>, task: nat)
    requires Legal(acts) && Serial(acts) && PhaseOf(After(acts), task).Published?
    ensures var s := After(acts);
            && PhaseOf(s, task).exp + PhaseOf(s, task).cnt <= |s.slots|
            && ReadBack(s, task) == Tagged(task, StoredBy(acts, task))
  {
    SerialAlone(acts);
    ListOwnExactly(acts, task);
  }

  ghost predicate OthersSame(acts: seq<Action>, more: seq<Action>, task: nat)
    requires Legal(acts) && Legal(more)
  {
    forall t: nat :: t != task ==> SameFor(acts, more, t)
  }

  ghost predicate SameFor(acts: seq<Action>, more: seq<Action>, t: nat)
    requires Legal(acts) && Legal(more)
  {
    PhaseOf(After(more), t) == PhaseOf(After(acts), t) && StoredBy(more, t) == StoredBy(acts, t)
  }

  /** One more step of the task's own call. */
  lemma OwnMore(acts: seq<Action>, more: seq<Action>, last: Action, task: nat)
    requires Legal(acts) && Legal(more) && Serial(more) && OthersSame(acts, more, task)
    requires last.task == task && Enabled(After(more), last) && (last.Begin? ==> NoneStoring(After(more)))
    ensures Legal(more + [last]) && Serial(more + [last]) && OthersSame(acts, more + [last], task)
    ensures After(more + [last]) == Do(After(more), last)
    ensures StoredBy(more + [last], task) ==
              if last.Store? then StoredBy(more, task) + [last.target] else StoredBy(more, task)
  {
    assert (more + [last])[..|more|] == more;
    Observed(more, last, task);
    forall t: nat | t != task ensures SameFor(acts, more + [last], t) {
      Observed(more, last, t);
      assert SameFor(acts, more, t);
    }
  }

  /** A task that has not called yet can make its whole call next. */
  lemma OneCall(acts: seq<Action>, task: nat, kept: seq<nat>) returns (more: seq<Action>)
    requires Legal(acts) && Serial(acts) && NoneStoring(After(acts)) && PhaseOf(After(acts), task).Idle?
    ensures Legal(more) && Serial(more) && OthersSame(acts, more, task)
    ensures PhaseOf(After(more), task).Published? && StoredBy(more, task) == kept
  {
    AlwaysTracked(acts, task);
    more := acts + [Begin(task)];
    OwnMore(acts, acts, Begin(task), task);
    for n := 0 to |kept|
      invariant Legal(more) && Serial(more) && OthersSame(acts, more, task)
      invariant PhaseOf(After(more), task).Storing? && StoredBy(more, task) == kept[..n]
    {
      OwnMore(acts, more, Store(task, kept[n]), task);
      more := more + [Store(task, kept[n])];
    }
    OwnMore(acts, more, Finish(task), task);
    more := more + [Finish(task)];
    assert kept[..|kept|] == kept;
  }
}
