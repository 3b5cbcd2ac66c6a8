/** Dropping redundant edges under ENABLE_DAG_DEDUP keeps reachability
    (esl_proxy/include/algorithm/ring_buf.h:127-186). */
module Dedup {
  import opened Sequences
  import opened Graphs
  import opened Predecessors

  /** One call of add_predecessors; `minTask` is the watermark it reads. */
  datatype Call = Call(task: nat, targets: seq<nat>, minTask: nat)

  /** All edges asked for, the stored ones, those to already completed targets, and the bitsets. */
  datatype DState = DState(full: Graph, kept: Graph, done: Graph, anc: Rows)

  function Blank(n: nat): DState {
    DState(seq(n, _ => {}), seq(n, _ => {}), seq(n, _ => {}), seq(n, _ => {}))
  }

  ghost predicate GoodCall(c: Call, n: nat) {
    c.task < n && forall i :: 0 <= i < |c.targets| ==> c.targets[i] < c.task
  }

  function Step(s: DState, c: Call): (s': DState)
    requires |s.full| == |s.kept| == |s.done| == |s.anc| && c.task < |s.anc|
    requires forall i :: 0 <= i < |c.targets| ==> c.targets[i] < |s.anc|
    ensures |s'.full| == |s'.kept| == |s'.done| == |s'.anc| == |s.anc|
  {
    var kept := SetOf(Kept(c.targets, c.minTask, true, s.anc));
    DState(s.full[c.task := s.full[c.task] + SetOf(c.targets)],
           s.kept[c.task := s.kept[c.task] + kept],
           s.done[c.task := s.done[c.task] + (set m | m in c.targets && m < c.minTask)],
           Recorded(s.anc, c.task, c.targets))
  }

  /** Each target is an earlier task; the calls may come in any order, and several for one task. */
  ghost predicate GoodCalls(calls: seq<Call>, n: nat) {
    forall i :: 0 <= i < |calls| ==> GoodCall(calls[i], n)
  }

  ghost function After(calls: seq<Call>, n: nat): (s: DState)
    requires GoodCalls(calls, n)
    ensures |s.full| == |s.kept| == |s.done| == |s.anc| == n
  {
    if calls == [] then Blank(n)
    else
      var c := calls[|calls| - 1];
      assert GoodCall(c, n);
      Step(After(calls[..|calls| - 1], n), c)
  }

  /** Stored edges together with the edges to completed targets. */
  function Effective(s: DState): (g: Graph)
    requires |s.kept| == |s.done|
    ensures |g| == |s.kept|
  {
    seq(|s.kept|, t requires 0 <= t < |s.kept| => s.kept[t] + s.done[t])
  }

  // ---- Calls in any order ------------------------------------------------------------------

  /** What every order of calls keeps: bits are true, and only bypassed edges are missing. */
  ghost predicate Account(s: DState) {
    && |s.full| == |s.kept| == |s.done| == |s.anc|
    && (forall t :: 0 <= t < |s.anc| ==> BitsTrue(s, t))
    && (forall t :: 0 <= t < |s.full| ==> Effective(s)[t] <= s.full[t])
    && AllBypassed(s.full, Effective(s))
  }

  ghost predicate BitsTrue(s: DState, t: nat)
    requires t < |s.anc|
  {
    forall a :: a in s.anc[t] ==> Reach(s.full, a, t)
  }

  lemma StepGrows(s: DState, c: Call, a: nat, t: nat)
    requires Account(s) && GoodCall(c, |s.anc|) && Reach(s.full, a, t)
    ensures Reach(Step(s, c).full, a, t)
  {
    ReachMono(s.full, Step(s, c).full, a, t);
  }

  lemma StepBitsTrue(s: DState, c: Call, t: nat)
    requires Account(s) && GoodCall(c, |s.anc|) && t < |s.anc|
    ensures BitsTrue(Step(s, c), t)
  {
    var s' := Step(s, c);
    RecordedRows(s.anc, c.task, c.targets, |c.targets|);
    assert BitsTrue(s, t);
    forall a | a in s'.anc[t] ensures Reach(s'.full, a, t) {
      if a in s.anc[t] {
        StepGrows(s, c, a, t);
      } else {
        var i :| 0 <= i < |c.targets| && (a == c.targets[i] || a in s.anc[c.targets[i]]);
        if a != c.targets[i] {
          assert BitsTrue(s, c.targets[i]);
          StepGrows(s, c, a, c.targets[i]);
        }
        ReachEdge(s'.full, a, c.targets[i], t);
      }
    }
  }

  /** A target of the call is stored, completed, or waited for by another target. */
  lemma TargetBypassed(s: DState, c: Call, i: nat)
    requires Account(s) && GoodCall(c, |s.anc|) && i < |c.targets|
    ensures Bypassed(Step(s, c).full, Effective(Step(s, c)), c.task, c.targets[i])
  {
    var m := c.targets[i];
    KeptMembers(c.targets, |c.targets|, c.minTask, true, s.anc);
    if m >= c.minTask && !Keeps(c.targets, i, c.minTask, true, s.anc) {
      var j :| 0 <= j < |c.targets| && j != i && m in s.anc[c.targets[j]];
      assert BitsTrue(s, c.targets[j]);
      StepGrows(s, c, m, c.targets[j]);
    }
  }

  lemma StepBypasses(s: DState, c: Call, t: nat, m: nat)
    requires Account(s) && GoodCall(c, |s.anc|) && t < |s.anc| && m in Step(s, c).full[t]
    ensures Bypassed(Step(s, c).full, Effective(Step(s, c)), t, m)
  {
    if m in s.full[t] {
      assert Bypassed(s.full, Effective(s), t, m);
      if m !in Effective(s)[t] {
        var b :| b in s.full[t] && Reach(s.full, m, b);
        StepGrows(s, c, m, b);
      }
    } else {
      var i :| 0 <= i < |c.targets| && c.targets[i] == m;
      TargetBypassed(s, c, i);
    }
  }

  lemma StepAccount(s: DState, c: Call)
    requires Account(s) && GoodCall(c, |s.anc|)
    ensures Account(Step(s, c))
  {
    var s' := Step(s, c);
    KeptMembers(c.targets, |c.targets|, c.minTask, true, s.anc);
    forall t | 0 <= t < |s'.anc| ensures BitsTrue(s', t) && Effective(s')[t] <= s'.full[t] {
      StepBitsTrue(s, c, t);
      assert Effective(s)[t] <= s.full[t];
    }
    forall t, m | 0 <= t < |s'.full| && m in s'.full[t] ensures Bypassed(s'.full, Effective(s'), t, m) {
      StepBypasses(s, c, t, m);
    }
  }

  /** A target of the call is still waited for, directly or through another target. */
  lemma TargetStillReached(s: DState, c: Call, i: nat)
    requires Account(s) && GoodCall(c, |s.anc|) && i < |c.targets|
    ensures Reach(Effective(Step(s, c)), c.targets[i], c.task)
  {
    StepAccount(s, c);
    BypassEdge(Step(s, c).full, Effective(Step(s, c)), c.targets[i], c.task);
  }

  lemma {:induction false} AlwaysAccount(calls: seq<Call>, n: nat)
    requires GoodCalls(calls, n)
    ensures Account(After(calls, n))
  {
    if calls != [] {
      AlwaysAccount(calls[..|calls| - 1], n);
      assert GoodCall(calls[|calls| - 1], n);
      StepAccount(After(calls[..|calls| - 1], n), calls[|calls| - 1]);
    }
  }

  /** Whatever the order of the calls, kept edges and edges to completed targets have the transitive closure of
      all edges asked for. */
  lemma DedupKeepsReach(calls: seq<Call>, n: nat, a: nat, t: nat)
    requires GoodCalls(calls, n) && t < n
    ensures Reach(Effective(After(calls, n)), a, t) <==> Reach(After(calls, n).full, a, t)
  {
    var s := After(calls, n);
    AlwaysAccount(calls, n);
    if Reach(s.full, a, t) {
      BypassReach(s.full, Effective(s), a, t);
    }
    if Reach(Effective(s), a, t) {
      ReachMono(Effective(s), s.full, a, t);
    }
  }

  /** Whatever the order of the calls, a bit that is set is true. */
  lemma AncestorsTrue(calls: seq<Call>, n: nat, a: nat, t: nat)
    requires GoodCalls(calls, n) && t < n && a in After(calls, n).anc[t]
    ensures Reach(After(calls, n).full, a, t)
  {
    AlwaysAccount(calls, n);
    assert BitsTrue(After(calls, n), t);
  }

  /** Whatever the order of the calls, a dropped target is one that another target already waits for. */
  lemma DroppedIsReached(calls: seq<Call>, n: nat, c: Call, i: nat)
    requires GoodCalls(calls, n) && GoodCall(c, n) && i < |c.targets| && c.targets[i] >= c.minTask
    requires c.targets[i] !in Kept(c.targets, c.minTask, true, After(calls, n).anc)
    ensures exists j :: 0 <= j < |c.targets| && Reach(After(calls, n).full, c.targets[i], c.targets[j])
  {
    var s := After(calls, n);
    KeptMembers(c.targets, |c.targets|, c.minTask, true, s.anc);
    assert Redundant(c.targets, i, s.anc);
    var j :| 0 <= j < |c.targets| && j != i && c.targets[i] in s.anc[c.targets[j]];
    AncestorsTrue(calls, n, c.targets[i], c.targets[j]);
  }

  // ---- The bitsets -------------------------------------------------------------------------

  /** `a` is one of the first `k` targets or an ancestor of one. */
  predicate Brings(anc: Rows, targets: seq<nat>, k: nat, a: nat)
    requires k <= |targets| && forall j :: 0 <= j < |targets| ==> targets[j] < |anc|
  {
    exists i :: 0 <= i < k && (a == targets[i] || a in anc[targets[i]])
  }

  lemma {:induction false} RecordedRows(anc: Rows, task: nat, targets: seq<nat>, k: nat)
    requires task < |anc| && k <= |targets| && forall j :: 0 <= j < |targets| ==> targets[j] < task
    ensures var r := RecordedUpTo(anc, task, targets, k);
            && (forall t :: 0 <= t < |anc| && t != task ==> r[t] == anc[t])
            && (forall a :: a in r[task] <==> a in anc[task] || Brings(anc, targets, k, a))
  {
    if k > 0 {
      RecordedRows(anc, task, targets, k - 1);
      var r, m := RecordedUpTo(anc, task, targets, k - 1), targets[k - 1];
      assert r[m] == anc[m];
      forall a: nat ensures Brings(anc, targets, k, a) <==> Brings(anc, targets, k - 1, a) || a == m || a in anc[m] {
        if Brings(anc, targets, k - 1, a) {
          var i :| 0 <= i < k - 1 && (a == targets[i] || a in anc[targets[i]]);
        }
      }
    }
  }

  // ---- When the bitsets are exact ------------------------------------------------------------

  ghost predicate Exact(s: DState, t: nat)
    requires t < |s.anc|
  {
    forall a: nat :: a in s.anc[t] <==> Reach(s.full, a, t)
  }

  ghost predicate AllExact(s: DState) {
    |s.full| == |s.anc| && forall t :: 0 <= t < |s.anc| ==> Exact(s, t)
  }

  /** No call for a task comes after a call that names the task; a call without targets does no harm. */
  ghost predicate Settled(calls: seq<Call>) {
    forall i, j :: 0 <= i < j < |calls| && calls[j].targets != [] ==> calls[j].task !in calls[i].targets
  }

  ghost predicate Unnamed(g: Graph, x: nat) {
    forall t :: 0 <= t < |g| ==> x !in g[t]
  }

  lemma {:induction false} NeverNamed(calls: seq<Call>, n: nat, x: nat)
    requires GoodCalls(calls, n) && forall i :: 0 <= i < |calls| ==> x !in calls[i].targets
    ensures Unnamed(After(calls, n).full, x)
  {
    if calls != [] {
      NeverNamed(calls[..|calls| - 1], n, x);
      assert GoodCall(calls[|calls| - 1], n) && x !in calls[|calls| - 1].targets;
    }
  }

  /** What the call's own task reaches afterwards. */
  lemma StepReach(s: DState, c: Call, a: nat)
    requires Account(s) && GoodCall(c, |s.anc|)
    ensures Reach(Step(s, c).full, a, c.task) <==>
              || Reach(s.full, a, c.task)
              || exists i :: 0 <= i < |c.targets| && (a == c.targets[i] || Reach(s.full, a, c.targets[i]))
  {
    var g := Step(s, c).full;
    if Reach(g, a, c.task) {
      var m: nat :| m in g[c.task] && m < c.task && (a == m || Reach(g, a, m));
      ReachLocal(s.full, g, a, m);
      if m in s.full[c.task] {
        ReachEdge(s.full, a, m, c.task);
      } else {
        var i :| 0 <= i < |c.targets| && c.targets[i] == m;
      }
    }
    if Reach(s.full, a, c.task) {
      StepGrows(s, c, a, c.task);
    }
    if i :| 0 <= i < |c.targets| && (a == c.targets[i] || Reach(s.full, a, c.targets[i])) {
      TargetReaches(s, c, a, i);
    }
  }

  lemma TargetReaches(s: DState, c: Call, a: nat, i: nat)
    requires Account(s) && GoodCall(c, |s.anc|) && i < |c.targets|
    requires a == c.targets[i] || Reach(s.full, a, c.targets[i])
    ensures Reach(Step(s, c).full, a, c.task)
  {
    if a != c.targets[i] {
      StepGrows(s, c, a, c.targets[i]);
    }
    ReachEdge(Step(s, c).full, a, c.targets[i], c.task);
  }

  lemma BringsIsReach(s: DState, c: Call, a: nat)
    requires GoodCall(c, |s.anc|) && AllExact(s)
    ensures Brings(s.anc, c.targets, |c.targets|, a) <==>
              exists i :: 0 <= i < |c.targets| && (a == c.targets[i] || Reach(s.full, a, c.targets[i]))
    ensures a in s.anc[c.task] <==> Reach(s.full, a, c.task)
  {
    assert Exact(s, c.task);
    forall i | 0 <= i < |c.targets| ensures a in s.anc[c.targets[i]] <==> Reach(s.full, a, c.targets[i]) {
      assert Exact(s, c.targets[i]);
    }
  }

  lemma StepExact(s: DState, c: Call, t: nat)
    requires GoodCall(c, |s.anc|) && Account(s) && AllExact(s) && Unnamed(s.full, c.task) && t < |s.anc|
    ensures Exact(Step(s, c), t)
  {
    var s' := Step(s, c);
    RecordedRows(s.anc, c.task, c.targets, |c.targets|);
    assert Exact(s, t);
    forall a: nat ensures a in s'.anc[t] <==> Reach(s'.full, a, t) {
      if t == c.task {
        StepReach(s, c, a);
        BringsIsReach(s, c, a);
      } else {
        if Reach(s'.full, a, t) {
          ReachAround(s'.full, s.full, c.task, a, t);
        }
        if Reach(s.full, a, t) {
          StepGrows(s, c, a, t);
        }
      }
    }
  }

  lemma NothingAsked(s: DState, c: Call)
    requires |s.full| == |s.kept| == |s.done| == |s.anc| && c.task < |s.anc| && c.targets == []
    ensures Step(s, c) == s
  {
    var none: set<nat> := {};
    assert SetOf(Kept(c.targets, c.minTask, true, s.anc)) == SetOf(c.targets) == none;
    assert (set m | m in c.targets && m < c.minTask) == none;
    assert s.full[c.task] + none == s.full[c.task] && s.kept[c.task] + none == s.kept[c.task];
    assert s.done[c.task] + none == s.done[c.task];
  }

  lemma {:induction false} SettledExact(calls: seq<Call>, n: nat)
    requires GoodCalls(calls, n) && Settled(calls)
    ensures AllExact(After(calls, n))
  {
    if calls != [] {
      var c, before := calls[|calls| - 1], calls[..|calls| - 1];
      var s := After(before, n);
      SettledExact(before, n);
      AlwaysAccount(before, n);
      assert GoodCall(c, n);
      if c.targets == [] {
        NothingAsked(s, c);
      } else {
        NeverNamed(before, n, c.task);
        forall t | 0 <= t < n ensures Exact(Step(s, c), t) {
          StepExact(s, c, t);
        }
      }
    }
  }

  /** When no call for a task comes after one that names it, every bitset is the strict-ancestor set of the
      undropped graph. */
  lemma AncestorsExact(calls: seq<Call>, n: nat, a: nat, t: nat)
    requires GoodCalls(calls, n) && Settled(calls) && t < n
    ensures a in After(calls, n).anc[t] <==> Reach(After(calls, n).full, a, t)
  {
    SettledExact(calls, n);
    assert Exact(After(calls, n), t);
  }

  /** Then an uncompleted target is dropped exactly when another target of the same call already waits for it:
      what is stored has no redundant edge, and nothing irredundant is lost. */
  lemma DroppedExactly(calls: seq<Call>, n: nat, c: Call, i: nat)
    requires GoodCalls(calls, n) && Settled(calls)
    requires GoodCall(c, n) && i < |c.targets| && c.targets[i] >= c.minTask
    ensures c.targets[i] in Kept(c.targets, c.minTask, true, After(calls, n).anc) <==>
            !exists j :: 0 <= j < |c.targets| && Reach(After(calls, n).full, c.targets[i], c.targets[j])
  {
    var s, m := After(calls, n), c.targets[i];
    KeptMembers(c.targets, |c.targets|, c.minTask, true, s.anc);
    forall j | 0 <= j < |c.targets| ensures m in s.anc[c.targets[j]] <==> Reach(s.full, m, c.targets[j]) {
      AncestorsExact(calls, n, m, c.targets[j]);
    }
    forall j | 0 <= j < |c.targets| && Reach(s.full, m, c.targets[j]) ensures m < c.targets[j] {
      ReachBelow(s.full, m, c.targets[j]);
    }
  }

  // ---- Which orders of calls are safe --------------------------------------------------------

  ghost predicate InThisOrder(calls: seq<Call>, tasks: seq<nat>) {
    |calls| == |tasks| && forall i :: 0 <= i < |calls| ==> calls[i].task == tasks[i]
  }

  /** Task 0 has no predecessors, so its calls may come at any time. */
  ghost predicate Ascending(tasks: seq<nat>) {
    forall i, j :: 0 <= i < j < |tasks| ==> tasks[i] <= tasks[j] || tasks[j] == 0
  }

  lemma AscendingSettles(calls: seq<Call>, tasks: seq<nat>, n: nat)
    requires GoodCalls(calls, n) && InThisOrder(calls, tasks) && Ascending(tasks)
    ensures Settled(calls)
  {
    forall i, j | 0 <= i < j < |calls| && calls[j].targets != [] ensures calls[j].task !in calls[i].targets {
      assert GoodCall(calls[i], n) && GoodCall(calls[j], n) && calls[j].targets[0] < calls[j].task;
    }
  }

  /** Calls in the given order in which only two ask for anything: a later task for an earlier one, and then
      the earlier one for task 0. */
  function Late(tasks: seq<nat>, i: nat, j: nat): (calls: seq<Call>)
    requires i < j < |tasks|
    ensures InThisOrder(calls, tasks)
  {
    seq(|tasks|, k requires 0 <= k < |tasks| =>
      Call(tasks[k], if k == i then [tasks[j]] else if k == j then [0] else [], 0))
  }

  lemma OneTarget(s: DState, t: nat, m: nat)
    requires Account(s) && GoodCall(Call(t, [m], 0), |s.anc|)
    ensures var s' := Step(s, Call(t, [m], 0));
            && s'.full == s.full[t := s.full[t] + {m}]
            && s'.anc == s.anc[t := s.anc[t] + {m} + s.anc[m]]
  {
    assert SetOf([m]) == {m};
    assert RecordedUpTo(s.anc, t, [m], 1) == s.anc[t := s.anc[t] + {m} + s.anc[m]];
  }

  /** After the first `k` calls both the edges asked for and the bitsets are `g`. */
  ghost predicate BothAre(calls: seq<Call>, n: nat, k: nat, g: Graph)
    requires GoodCalls(calls, n) && k <= |calls|
  {
    After(calls[..k], n).full == g && After(calls[..k], n).anc == g
  }

  lemma AfterMore(calls: seq<Call>, n: nat, k: nat)
    requires GoodCalls(calls, n) && k < |calls|
    ensures GoodCall(calls[k], n) && After(calls[..k + 1], n) == Step(After(calls[..k], n), calls[k])
  {
    assert calls[..k + 1][..k] == calls[..k];
  }

  lemma {:induction false} StayBoth(calls: seq<Call>, n: nat, from: nat, to: nat, g: Graph)
    requires GoodCalls(calls, n) && from <= to <= |calls| && forall k :: from <= k < to ==> calls[k].targets == []
    requires BothAre(calls, n, from, g)
    ensures BothAre(calls, n, to, g)
  {
    if from < to {
      StayBoth(calls, n, from, to - 1, g);
      AfterMore(calls, n, to - 1);
      NothingAsked(After(calls[..to - 1], n), calls[to - 1]);
    }
  }

  lemma AskOne(calls: seq<Call>, n: nat, k: nat, m: nat, g: Graph)
    requires GoodCalls(calls, n) && k < |calls| && calls[k] == Call(calls[k].task, [m], 0) && m < calls[k].task < |g|
    requires BothAre(calls, n, k, g) && g[calls[k].task] == g[m] == {}
    ensures BothAre(calls, n, k + 1, g[calls[k].task := {m}])
  {
    var t := calls[k].task;
    AlwaysAccount(calls[..k], n);
    AfterMore(calls, n, k);
    assert [m][0] == m;
    OneTarget(After(calls[..k], n), t, m);
    assert g[t] + {m} == {m} && g[t] + {m} + g[m] == {m};
  }

  lemma LateGood(tasks: seq<nat>, n: nat, i: nat, j: nat)
    requires i < j < |tasks| && 0 < tasks[j] < tasks[i] && forall l :: 0 <= l < |tasks| ==> tasks[l] < n
    ensures var calls := Late(tasks, i, j);
            && GoodCalls(calls, n)
            && calls[i] == Call(tasks[i], [tasks[j]], 0) && calls[j] == Call(tasks[j], [0], 0)
            && forall k :: 0 <= k < |tasks| && k != i && k != j ==> calls[k].targets == []
  {
  }

  lemma AskRows(n: nat, high: nat, low: nat)
    requires 0 < low < high < n
    ensures var g0 := Blank(n).full;
            var g1 := g0[high := {low}];
            g0[high] == g0[low] == {} && g1[low] == g1[0] == {} && |g1| == n
  {
  }

  /** Among calls without targets, one call for one target. */
  lemma AskAmong(calls: seq<Call>, n: nat, from: nat, k: nat, to: nat, t: nat, m: nat, g: Graph)
    requires GoodCalls(calls, n) && from <= k < to <= |calls| && calls[k] == Call(t, [m], 0)
    requires forall l :: from <= l < to && l != k ==> calls[l].targets == []
    requires m < t < |g| && BothAre(calls, n, from, g) && g[t] == g[m] == {}
    ensures BothAre(calls, n, to, g[t := {m}])
  {
    StayBoth(calls, n, from, k, g);
    AskOne(calls, n, k, m, g);
    StayBoth(calls, n, k + 1, to, g[t := {m}]);
  }

  lemma TwoAsked(calls: seq<Call>, n: nat, i: nat, j: nat, high: nat, low: nat)
    requires GoodCalls(calls, n) && i < j < |calls| && 0 < low < high < n
    requires calls[i] == Call(high, [low], 0) && calls[j] == Call(low, [0], 0)
    requires forall k :: 0 <= k < |calls| && k != i && k != j ==> calls[k].targets == []
    ensures BothAre(calls, n, |calls|, Blank(n).full[high := {low}][low := {0}])
  {
    var g0 := Blank(n).full;
    AskRows(n, high, low);
    assert BothAre(calls, n, 0, g0);
    AskAmong(calls, n, 0, i, j, high, low, g0);
    AskAmong(calls, n, j, j, |calls|, low, 0, g0[high := {low}]);
  }

  lemma LateState(tasks: seq<nat>, n: nat, i: nat, j: nat)
    requires i < j < |tasks| && 0 < tasks[j] < tasks[i] && forall l :: 0 <= l < |tasks| ==> tasks[l] < n
    ensures GoodCalls(Late(tasks, i, j), n)
    ensures BothAre(Late(tasks, i, j), n, |tasks|, Blank(n).full[tasks[i] := {tasks[j]}][tasks[j] := {0}])
  {
    LateGood(tasks, n, i, j);
    TwoAsked(Late(tasks, i, j), n, i, j, tasks[i], tasks[j]);
  }

  /** A call that comes late for a task another call has named leaves that call's bitset without its ancestor,
      and the next call that names both stores the redundant edge. */
  lemma LateMissed(tasks: seq<nat>, n: nat, i: nat, j: nat)
    requires i < j < |tasks| && 0 < tasks[j] < tasks[i] && forall l :: 0 <= l < |tasks| ==> tasks[l] < n
    ensures GoodCalls(Late(tasks, i, j), n)
    ensures var s, next := After(Late(tasks, i, j), n), [0, tasks[i]];
            && Reach(s.full, 0, tasks[i]) && 0 !in s.anc[tasks[i]]
            && 0 in Kept(next, 0, true, s.anc)
  {
    var calls, next := Late(tasks, i, j), [0, tasks[i]];
    LateState(tasks, n, i, j);
    assert calls[..|tasks|] == calls;
    var s := After(calls, n);
    ReachEdge(s.full, 0, 0, tasks[j]);
    ReachEdge(s.full, 0, tasks[j], tasks[i]);
    KeptMembers(next, 2, 0, true, s.anc);
    assert s.anc[0] == {} && s.anc[tasks[i]] == {tasks[j]};
    assert Keeps(next, 0, 0, true, s.anc);
  }

  /** The smallest such input: task 2 names task 1 before task 1 names task 0. */
  lemma LateCallMissed()
    ensures var calls, c := [Call(2, [1], 0), Call(1, [0], 0)], Call(3, [0, 2], 0);
            && GoodCalls(calls, 4) && GoodCall(c, 4)
            && Reach(After(calls, 4).full, 0, 2) && 0 !in After(calls, 4).anc[2]
            && 0 in Kept(c.targets, c.minTask, true, After(calls, 4).anc)
  {
    assert [Call(2, [1], 0), Call(1, [0], 0)] == Late([2, 1], 0, 1);
    LateMissed([2, 1], 4, 0, 1);
  }

  /** The orders of calls for which the bitsets are exact whatever the targets are: no task's call comes after a
      call for a higher task, task 0 aside. */
  lemma OrderExactly(tasks: seq<nat>, n: nat)
    requires forall l :: 0 <= l < |tasks| ==> tasks[l] < n
    ensures (forall calls :: GoodCalls(calls, n) && InThisOrder(calls, tasks) ==> AllExact(After(calls, n)))
       <==> Ascending(tasks)
  {
    if Ascending(tasks) {
      forall calls | GoodCalls(calls, n) && InThisOrder(calls, tasks) ensures AllExact(After(calls, n)) {
        AscendingSettles(calls, tasks, n);
        SettledExact(calls, n);
      }
    } else {
      var i, j :| 0 <= i < j < |tasks| && !(tasks[i] <= tasks[j] || tasks[j] == 0);
      LateMissed(tasks, n, i, j);
      assert !Exact(After(Late(tasks, i, j), n), tasks[i]);
    }
  }

  ghost predicate DropsExactly(calls: seq<Call>, n: nat, c: Call)
    requires GoodCalls(calls, n) && GoodCall(c, n)
  {
    forall i :: 0 <= i < |c.targets| && c.targets[i] >= c.minTask ==> DropsRight(calls, n, c, i)
  }

  ghost predicate DropsRight(calls: seq<Call>, n: nat, c: Call, i: nat)
    requires GoodCalls(calls, n) && GoodCall(c, n) && i < |c.targets|
  {
    c.targets[i] in Kept(c.targets, c.minTask, true, After(calls, n).anc) <==>
      !exists j :: 0 <= j < |c.targets| && Reach(After(calls, n).full, c.targets[i], c.targets[j])
  }

  lemma SettledDrops(calls: seq<Call>, n: nat, c: Call)
    requires GoodCalls(calls, n) && Settled(calls) && GoodCall(c, n)
    ensures DropsExactly(calls, n, c)
  {
    forall i | 0 <= i < |c.targets| && c.targets[i] >= c.minTask ensures DropsRight(calls, n, c, i) {
      DroppedExactly(calls, n, c, i);
    }
  }

  lemma LateDropsWrong(tasks: seq<nat>, n: nat, i: nat, j: nat)
    requires i < j < |tasks| && 0 < tasks[j] < tasks[i] && forall l :: 0 <= l < |tasks| ==> tasks[l] + 1 < n
    ensures var c := Call(tasks[i] + 1, [0, tasks[i]], 0);
            GoodCalls(Late(tasks, i, j), n) && GoodCall(c, n) && !DropsExactly(Late(tasks, i, j), n, c)
  {
    var calls, c := Late(tasks, i, j), Call(tasks[i] + 1, [0, tasks[i]], 0);
    LateMissed(tasks, n, i, j);
    assert c.targets[1] == tasks[i];
    assert !DropsRight(calls, n, c, 0);
  }

  /** They are also the orders after which the next call drops exactly its redundant targets. */
  lemma OrderDropsExactly(tasks: seq<nat>, n: nat)
    requires forall l :: 0 <= l < |tasks| ==> tasks[l] + 1 < n
    ensures (forall calls, c :: GoodCalls(calls, n) && InThisOrder(calls, tasks) && GoodCall(c, n) ==>
               DropsExactly(calls, n, c))
       <==> Ascending(tasks)
  {
    if Ascending(tasks) {
      forall calls, c | GoodCalls(calls, n) && InThisOrder(calls, tasks) && GoodCall(c, n)
        ensures DropsExactly(calls, n, c)
      {
        AscendingSettles(calls, tasks, n);
        SettledDrops(calls, n, c);
      }
    } else {
      var i, j :| 0 <= i < j < |tasks| && !(tasks[i] <= tasks[j] || tasks[j] == 0);
      LateDropsWrong(tasks, n, i, j);
    }
  }
}
