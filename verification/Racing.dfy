/** Several threads in add_predecessors at once under ENABLE_DAG_DEDUP: each call decides target by target with
    reads of bitsets that other calls are still filling (esl_proxy/include/algorithm/ring_buf.h:127-186). */
module Racing {
  import opened Sequences
  import opened Graphs
  import opened Predecessors
  import opened Writers

  /** What the one call for a task is given; `low` is the watermark it reads. */
  datatype Ask = Ask(targets: seq<nat>, low: nat)

  /** Where a call is: it tests target `i` against the row of target `j`, or it records target `i`, bit first and
      then word `w - 1` of its row. The count is written between the two loops. */
  datatype Spot = Waiting | Judging(i: nat, j: nat) | Recording(i: nat, w: nat) | Recorded

  /** `acts` is what has happened to the slot buffer so far. */
  datatype Race = Race(acts: seq<Action>, rows: Rows, spots: seq<Spot>)

  /** Targets are earlier tasks, and ids fit the bitset rows of `words` words. */
  ghost predicate GoodAsks(asks: seq<Ask>, words: nat) {
    && |asks| <= 64 * words
    && forall t :: 0 <= t < |asks| ==> GoodAsk(asks[t], t)
  }

  ghost predicate GoodAsk(ask: Ask, t: nat) {
    forall i :: 0 <= i < |ask.targets| ==> ask.targets[i] < t
  }

  function Start(n: nat): Race {
    Race([], seq(n, _ => {}), seq(n, _ => Waiting))
  }

  function WordOf(row: set<nat>, w: nat): set<nat> {
    set a | a in row && a / 64 == w
  }

  predicate Shaped(s: Race, asks: seq<Ask>) {
    |s.rows| == |s.spots| == |asks|
  }

  /** A task without predecessors makes no call. */
  predicate CanMove(s: Race, asks: seq<Ask>, t: nat)
    requires Shaped(s, asks)
  {
    t < |asks| && !s.spots[t].Recorded? && (s.spots[t].Waiting? ==> asks[t].targets != [])
  }

  /** The next memory access of the call of task `t`. */
  ghost function Move(s: Race, asks: seq<Ask>, words: nat, t: nat): (s': Race)
    requires Shaped(s, asks) && GoodAsks(asks, words) && CanMove(s, asks, t)
    ensures Shaped(s', asks)
  {
    assert GoodAsk(asks[t], t);
    var targets := asks[t].targets;
    match s.spots[t]
    case Waiting => Acts(s, t, Begin(t), Judging(0, 0))
    case Judging(i, j) =>
      if i >= |targets| then Acts(s, t, Finish(t), Recording(0, 0))
      else if j == 0 && targets[i] < asks[t].low then Goes(s, t, Judging(i + 1, 0))
      else if j >= |targets| then Acts(s, t, Store(t, targets[i]), Judging(i + 1, 0))
      else if j != i && targets[i] in s.rows[targets[j]] then Goes(s, t, Judging(i + 1, 0))
      else Goes(s, t, Judging(i, j + 1))
    case Recording(i, w) =>
      if i >= |targets| then Goes(s, t, Recorded)
      else if w == 0 then Marks(s, t, {targets[i]}, Recording(i, 1))
      else if w <= words then Marks(s, t, WordOf(s.rows[targets[i]], w - 1), Recording(i, w + 1))
      else Goes(s, t, Recording(i + 1, 0))
    case Recorded => assert false; s
  }

  function Goes(s: Race, t: nat, spot: Spot): Race
    requires t < |s.spots|
  {
    s.(spots := s.spots[t := spot])
  }

  function Acts(s: Race, t: nat, a: Action, spot: Spot): Race
    requires t < |s.spots|
  {
    s.(acts := s.acts + [a], spots := s.spots[t := spot])
  }

  /** Only the own call writes a task's row. */
  function Marks(s: Race, t: nat, bits: set<nat>, spot: Spot): Race
    requires t < |s.spots| == |s.rows|
  {
    s.(rows := s.rows[t := s.rows[t] + bits], spots := s.spots[t := spot])
  }

  /** `moves` says whose call makes each step: any interleaving. */
  ghost predicate Possible(asks: seq<Ask>, words: nat, moves: seq<nat>)
    requires GoodAsks(asks, words)
    decreases |moves|, 0
  {
    moves != [] ==>
      && Possible(asks, words, moves[..|moves| - 1])
      && CanMove(Play(asks, words, moves[..|moves| - 1]), asks, moves[|moves| - 1])
  }

  ghost function Play(asks: seq<Ask>, words: nat, moves: seq<nat>): (s: Race)
    requires GoodAsks(asks, words) && Possible(asks, words, moves)
    ensures Shaped(s, asks)
    decreases |moves|, 1
  {
    if moves == [] then Start(|asks|)
    else Move(Play(asks, words, moves[..|moves| - 1]), asks, words, moves[|moves| - 1])
  }

  // ---- What every interleaving keeps -----------------------------------------------------------

  /** All edges asked for. */
  ghost function Full(asks: seq<Ask>): (g: Graph)
    ensures |g| == |asks|
  {
    seq(|asks|, t requires 0 <= t < |asks| => SetOf(asks[t].targets))
  }

  /** The stored edges together with the edges to completed targets. */
  ghost function Left(acts: seq<Action>, asks: seq<Ask>): (g: Graph)
    ensures |g| == |asks|
  {
    seq(|asks|, t requires 0 <= t < |asks| =>
      SetOf(StoredBy(acts, t)) + set m | m in asks[t].targets && m < asks[t].low)
  }

  /** Target `i` is stored, completed, or waited for by another target of the task. */
  ghost predicate Decided(asks: seq<Ask>, t: nat, i: nat, stored: seq<nat>)
    requires t < |asks| && i < |asks[t].targets|
  {
    var m := asks[t].targets[i];
    m in stored || m < asks[t].low || exists b :: b in asks[t].targets && Reach(Full(asks), m, b)
  }

  /** Calls of a task and the slot buffer agree on how far the call is. */
  predicate InStep(p: Phase, spot: Spot, n: nat) {
    match spot
    case Waiting => p.Idle?
    case Judging(i, _) => p.Storing? && i <= n
    case Recording(_, _) => p.Published?
    case Recorded => p.Published?
  }

  function DecidedSoFar(spot: Spot, n: nat): nat {
    match spot
    case Waiting => 0
    case Judging(i, _) => i
    case Recording(_, _) => n
    case Recorded => n
  }

  /** One task's part of the invariant: every bit set is true, and so far nothing was lost. */
  ghost predicate TaskOk(asks: seq<Ask>, t: nat, p: Phase, stored: seq<nat>, row: set<nat>, spot: Spot)
    requires t < |asks|
  {
    var n := |asks[t].targets|;
    && InStep(p, spot, n) && (n == 0 ==> spot.Waiting?)
    && (forall m :: m in stored ==> m in asks[t].targets)
    && (forall a :: a in row ==> Reach(Full(asks), a, t))
    && forall i :: 0 <= i < DecidedSoFar(spot, n) ==> Decided(asks, t, i, stored)
  }

  ghost predicate Fine(s: Race, asks: seq<Ask>, t: nat)
    requires Shaped(s, asks) && Legal(s.acts) && t < |asks|
  {
    TaskOk(asks, t, PhaseOf(After(s.acts), t), StoredBy(s.acts, t), s.rows[t], s.spots[t])
  }

  ghost predicate Inv(s: Race, asks: seq<Ask>) {
    Shaped(s, asks) && Legal(s.acts) && forall t :: 0 <= t < |asks| ==> Fine(s, asks, t)
  }

  lemma FullEdge(asks: seq<Ask>, words: nat, a: nat, b: nat, t: nat)
    requires GoodAsks(asks, words) && t < |asks| && b in asks[t].targets && (a == b || Reach(Full(asks), a, b))
    ensures Reach(Full(asks), a, t)
  {
    assert GoodAsk(asks[t], t);
    ReachEdge(Full(asks), a, b, t);
  }

  /** A step of the slot buffer: the own phase and list move on, all others stay. */
  lemma Acted(s: Race, asks: seq<Ask>, a: Action)
    requires Inv(s, asks) && a.task < |asks| && Enabled(After(s.acts), a)
    ensures Legal(s.acts + [a]) && After(s.acts + [a]) == Do(After(s.acts), a)
    ensures OthersSame(s.acts, s.acts + [a], a.task)
    ensures StoredBy(s.acts + [a], a.task) ==
              StoredBy(s.acts, a.task) + if a.Store? then [a.target] else []
  {
    Observed(s.acts, a, a.task);
    forall u: nat | u != a.task ensures SameFor(s.acts, s.acts + [a], u) {
      Observed(s.acts, a, u);
    }
  }

  lemma OthersFine(s: Race, s': Race, asks: seq<Ask>, t: nat)
    requires Inv(s, asks) && Shaped(s', asks) && Legal(s'.acts) && t < |asks|
    requires OthersSame(s.acts, s'.acts, t) && Fine(s', asks, t)
    requires forall u :: 0 <= u < |asks| && u != t ==> s'.rows[u] == s.rows[u] && s'.spots[u] == s.spots[u]
    ensures Inv(s', asks)
  {
    forall u | 0 <= u < |asks| ensures Fine(s', asks, u) {
      if u != t {
        assert Fine(s, asks, u) && SameFor(s.acts, s'.acts, u);
      }
    }
  }

  /** The call has decided one more target. */
  lemma TaskDecides(asks: seq<Ask>, t: nat, p: Phase, stored: seq<nat>, p': Phase, more: seq<nat>, row: set<nat>,
                    i: nat, j: nat)
    requires t < |asks| && i < |asks[t].targets| && TaskOk(asks, t, p, stored, row, Judging(i, j)) && p'.Storing?
    requires more == stored || more == stored + [asks[t].targets[i]]
    requires Decided(asks, t, i, more)
    ensures TaskOk(asks, t, p', more, row, Judging(i + 1, 0))
  {
    assert asks[t].targets[i] in asks[t].targets;
    forall k | 0 <= k < i + 1 ensures Decided(asks, t, k, more) {
      if k < i {
        assert Decided(asks, t, k, stored);
      }
    }
  }

  /** The redundancy test has answered for target `i`. */
  lemma TargetDecided(s: Race, asks: seq<Ask>, words: nat, t: nat)
    requires GoodAsks(asks, words) && Inv(s, asks) && t < |asks|
    requires s.spots[t].Judging? && s.spots[t].i < |asks[t].targets|
    requires var T, i, j := asks[t].targets, s.spots[t].i, s.spots[t].j;
             || (j == 0 && T[i] < asks[t].low)
             || (j < |T| && j != i && T[j] < |s.rows| && T[i] in s.rows[T[j]])
    ensures Decided(asks, t, s.spots[t].i, StoredBy(s.acts, t))
  {
    var targets, i, j := asks[t].targets, s.spots[t].i, s.spots[t].j;
    if !(j == 0 && targets[i] < asks[t].low) {
      assert Fine(s, asks, targets[j]);
      assert targets[j] in targets && Reach(Full(asks), targets[i], targets[j]);
    }
  }

  lemma StoreMove(s: Race, asks: seq<Ask>, words: nat, t: nat)
    requires GoodAsks(asks, words) && Inv(s, asks) && t < |asks|
    requires s.spots[t].Judging? && s.spots[t].i < |asks[t].targets|
    ensures var i := s.spots[t].i; Inv(Acts(s, t, Store(t, asks[t].targets[i]), Judging(i + 1, 0)), asks)
  {
    var i, j := s.spots[t].i, s.spots[t].j;
    var m := asks[t].targets[i];
    var s', p, stored := Acts(s, t, Store(t, m), Judging(i + 1, 0)), PhaseOf(After(s.acts), t), StoredBy(s.acts, t);
    assert Fine(s, asks, t);
    Acted(s, asks, Store(t, m));
    assert m in stored + [m];
    TaskDecides(asks, t, p, stored, PhaseOf(After(s'.acts), t), stored + [m], s.rows[t], i, j);
    OthersFine(s, s', asks, t);
  }

  lemma SkipMove(s: Race, asks: seq<Ask>, t: nat)
    requires Inv(s, asks) && t < |asks| && s.spots[t].Judging? && s.spots[t].i < |asks[t].targets|
    requires Decided(asks, t, s.spots[t].i, StoredBy(s.acts, t))
    ensures Inv(Goes(s, t, Judging(s.spots[t].i + 1, 0)), asks)
  {
    var i, p, stored := s.spots[t].i, PhaseOf(After(s.acts), t), StoredBy(s.acts, t);
    assert Fine(s, asks, t);
    TaskDecides(asks, t, p, stored, p, stored, s.rows[t], i, s.spots[t].j);
    OthersFine(s, Goes(s, t, Judging(i + 1, 0)), asks, t);
  }

  lemma JudgingMove(s: Race, asks: seq<Ask>, words: nat, t: nat)
    requires GoodAsks(asks, words) && Inv(s, asks) && CanMove(s, asks, t) && s.spots[t].Judging?
    ensures Inv(Move(s, asks, words, t), asks)
  {
    var targets, i, j := asks[t].targets, s.spots[t].i, s.spots[t].j;
    assert Fine(s, asks, t) && GoodAsk(asks[t], t);
    if i >= |targets| {
      Acted(s, asks, Finish(t));
      OthersFine(s, Acts(s, t, Finish(t), Recording(0, 0)), asks, t);
    } else if j == 0 && targets[i] < asks[t].low {
      TargetDecided(s, asks, words, t);
      SkipMove(s, asks, t);
    } else if j >= |targets| {
      StoreMove(s, asks, words, t);
    } else if j != i && targets[i] in s.rows[targets[j]] {
      TargetDecided(s, asks, words, t);
      SkipMove(s, asks, t);
    } else {
      OthersFine(s, Goes(s, t, Judging(i, j + 1)), asks, t);
    }
  }

  lemma RecordingMove(s: Race, asks: seq<Ask>, words: nat, t: nat)
    requires GoodAsks(asks, words) && Inv(s, asks) && CanMove(s, asks, t) && s.spots[t].Recording?
    ensures Inv(Move(s, asks, words, t), asks)
  {
    var s', targets, i, w := Move(s, asks, words, t), asks[t].targets, s.spots[t].i, s.spots[t].w;
    assert Fine(s, asks, t) && GoodAsk(asks[t], t);
    if i < |targets| {
      assert Fine(s, asks, targets[i]) && targets[i] in targets;
      forall a | a in s'.rows[t] ensures Reach(Full(asks), a, t) {
        if a !in s.rows[t] {
          FullEdge(asks, words, a, targets[i], t);
        }
      }
    }
    OthersFine(s, s', asks, t);
  }

  lemma BeginMove(s: Race, asks: seq<Ask>, t: nat)
    requires Inv(s, asks) && t < |asks| && s.spots[t].Waiting? && asks[t].targets != []
    ensures Inv(Acts(s, t, Begin(t), Judging(0, 0)), asks)
  {
    assert Fine(s, asks, t);
    Acted(s, asks, Begin(t));
    OthersFine(s, Acts(s, t, Begin(t), Judging(0, 0)), asks, t);
  }

  lemma MoveKeeps(s: Race, asks: seq<Ask>, words: nat, t: nat)
    requires GoodAsks(asks, words) && Inv(s, asks) && CanMove(s, asks, t)
    ensures Inv(Move(s, asks, words, t), asks)
  {
    match s.spots[t] {
      case Waiting => BeginMove(s, asks, t);
      case Judging(_, _) => JudgingMove(s, asks, words, t);
      case Recording(_, _) => RecordingMove(s, asks, words, t);
    }
  }

  lemma {:induction false} Always(asks: seq<Ask>, words: nat, moves: seq<nat>)
    requires GoodAsks(asks, words) && Possible(asks, words, moves)
    ensures Inv(Play(asks, words, moves), asks)
  {
    if moves == [] {
      forall t | 0 <= t < |asks| ensures Fine(Start(|asks|), asks, t) {
      }
    } else {
      var before := moves[..|moves| - 1];
      Always(asks, words, before);
      MoveKeeps(Play(asks, words, before), asks, words, moves[|moves| - 1]);
    }
  }

  /** Every call has written its count. */
  ghost predicate AllPublished(s: Race, asks: seq<Ask>)
    requires Shaped(s, asks)
  {
    forall t :: 0 <= t < |asks| && asks[t].targets != [] ==> s.spots[t].Recording? || s.spots[t].Recorded?
  }

  /** Whatever calls race and whatever half-filled bitsets they read: once all lists are published, they and the
      edges to completed targets have the transitive closure of all edges asked for. */
  lemma RaceKeepsReach(asks: seq<Ask>, words: nat, moves: seq<nat>, a: nat, t: nat)
    requires GoodAsks(asks, words) && Possible(asks, words, moves) && AllPublished(Play(asks, words, moves), asks)
    requires t < |asks|
    ensures Reach(Left(Play(asks, words, moves).acts, asks), a, t) <==> Reach(Full(asks), a, t)
  {
    var s := Play(asks, words, moves);
    var full, left := Full(asks), Left(s.acts, asks);
    Always(asks, words, moves);
    if Reach(full, a, t) {
      forall u, m | 0 <= u < |full| && m in full[u] ensures m < u && Bypassed(full, left, u, m) {
        EdgeDecided(s, asks, words, u, m);
      }
      BypassReach(full, left, a, t);
    }
    if Reach(left, a, t) {
      forall u | 0 <= u <= t ensures left[u] <= full[u] {
        assert Fine(s, asks, u);
      }
      ReachMono(left, full, a, t);
    }
  }

  lemma EdgeDecided(s: Race, asks: seq<Ask>, words: nat, u: nat, m: nat)
    requires GoodAsks(asks, words) && Inv(s, asks) && AllPublished(s, asks) && u < |asks| && m in Full(asks)[u]
    ensures m < u && Bypassed(Full(asks), Left(s.acts, asks), u, m)
  {
    assert Fine(s, asks, u) && GoodAsk(asks[u], u);
    var i :| 0 <= i < |asks[u].targets| && asks[u].targets[i] == m;
    assert Decided(asks, u, i, StoredBy(s.acts, u));
  }

  // ---- Every race can be finished --------------------------------------------------------------

  function Stage(spot: Spot): nat {
    match spot
    case Waiting => 3
    case Judging(_, _) => 2
    case Recording(_, _) => 1
    case Recorded => 0
  }

  function Rest(n: int, i: int): nat {
    if i < n then n - i else 0
  }

  function OuterRest(spot: Spot, n: nat): nat {
    match spot
    case Judging(i, _) => Rest(n, i)
    case Recording(i, _) => Rest(n, i)
    case _ => 0
  }

  function InnerRest(spot: Spot, n: nat, words: nat): nat {
    match spot
    case Judging(_, j) => Rest(n, j)
    case Recording(_, w) => Rest(words + 1, w)
    case _ => 0
  }

  /** Each step brings the call nearer to its end, lexicographically. */
  predicate Nearer(after: Spot, before: Spot, n: nat, words: nat) {
    || Stage(after) < Stage(before)
    || (Stage(after) == Stage(before) && OuterRest(after, n) < OuterRest(before, n))
    || (Stage(after) == Stage(before) && OuterRest(after, n) == OuterRest(before, n)
        && InnerRest(after, n, words) < InnerRest(before, n, words))
  }

  /** No call is blocked by another, and every step brings its own call nearer to its end and no other call
      further from it, so every interleaving ends. */
  lemma RaceProgress(s: Race, asks: seq<Ask>, words: nat, t: nat)
    requires Shaped(s, asks) && GoodAsks(asks, words) && t < |asks|
    ensures CanMove(s, asks, t) <==> !s.spots[t].Recorded? && !(s.spots[t].Waiting? && asks[t].targets == [])
    ensures CanMove(s, asks, t) ==>
              var s' := Move(s, asks, words, t);
              && Nearer(s'.spots[t], s.spots[t], |asks[t].targets|, words)
              && forall u :: 0 <= u < |asks| && u != t ==> s'.spots[u] == s.spots[u]
  {
  }

  /** Calls have been made one after the other, and no other call is under way. */
  ghost predicate Turn(s: Race, t: nat) {
    && Legal(s.acts) && Serial(s.acts)
    && forall u: nat :: u != t ==> !PhaseOf(After(s.acts), u).Storing?
  }

  lemma MoveTurn(s: Race, asks: seq<Ask>, words: nat, t: nat)
    requires GoodAsks(asks, words) && Inv(s, asks) && CanMove(s, asks, t) && Turn(s, t)
    ensures Turn(Move(s, asks, words, t), t)
  {
    var s' := Move(s, asks, words, t);
    assert Fine(s, asks, t);
    MoveKeeps(s, asks, words, t);
    if s'.acts != s.acts {
      var a := s'.acts[|s.acts|];
      assert s'.acts == s.acts + [a] && a.task == t;
      forall u: nat | u != t ensures !PhaseOf(After(s'.acts), u).Storing? {
        Observed(s.acts, a, u);
      }
      if a.Begin? {
        assert NoneStoring(After(s.acts));
      }
      assert s'.acts[..|s.acts|] == s.acts;
    }
  }

  lemma {:induction false} FinishTask(asks: seq<Ask>, words: nat, moves: seq<nat>, t: nat) returns (more: seq<nat>)
    requires GoodAsks(asks, words) && Possible(asks, words, moves) && t < |asks| && asks[t].targets != []
    ensures Possible(asks, words, more)
    ensures var s, s' := Play(asks, words, moves), Play(asks, words, more);
            && s'.spots[t].Recorded? && (forall u :: 0 <= u < |asks| && u != t ==> s'.spots[u] == s.spots[u])
            && (Turn(s, t) ==> Turn(s', t))
    decreases Stage(Play(asks, words, moves).spots[t]),
              OuterRest(Play(asks, words, moves).spots[t], |asks[t].targets|),
              InnerRest(Play(asks, words, moves).spots[t], |asks[t].targets|, words)
  {
    var s := Play(asks, words, moves);
    if s.spots[t].Recorded? {
      more := moves;
    } else {
      var next := moves + [t];
      assert next[..|moves|] == moves;
      Always(asks, words, moves);
      RaceProgress(s, asks, words, t);
      if Turn(s, t) {
        MoveTurn(s, asks, words, t);
      }
      more := FinishTask(asks, words, next, t);
    }
  }

  lemma NextTurn(s: Race, asks: seq<Ask>, t: nat)
    requires Inv(s, asks) && Turn(s, t) && t < |asks| && (s.spots[t].Recorded? || s.spots[t].Waiting?)
    ensures NoneStoring(After(s.acts))
  {
    assert Fine(s, asks, t);
  }

  /** From every point of every race all lists can still be published, and from the start by calls that are made
      one after the other. */
  lemma CanFinish(asks: seq<Ask>, words: nat, moves: seq<nat>) returns (more: seq<nat>)
    requires GoodAsks(asks, words) && Possible(asks, words, moves)
    ensures Possible(asks, words, more) && AllPublished(Play(asks, words, more), asks)
    ensures moves == [] ==> Legal(Play(asks, words, more).acts) && Serial(Play(asks, words, more).acts)
  {
    more := moves;
    Always(asks, words, moves);
    for t := 0 to |asks|
      invariant Possible(asks, words, more) && Inv(Play(asks, words, more), asks)
      invariant forall u :: 0 <= u < t && asks[u].targets != [] ==> Play(asks, words, more).spots[u].Recorded?
      invariant moves == [] ==>
                  && Serial(Play(asks, words, more).acts) && NoneStoring(After(Play(asks, words, more).acts))
                  && forall u :: t <= u < |asks| ==> Play(asks, words, more).spots[u].Waiting?
    {
      if asks[t].targets != [] {
        more := FinishTask(asks, words, more, t);
        Always(asks, words, more);
        if moves == [] {
          NextTurn(Play(asks, words, more), asks, t);
        }
      }
    }
  }

  // ---- A call that nothing interrupts ------------------------------------------------------------

  /** `more` continues `moves` with steps of task `t` alone. */
  predicate OnlyBy(moves: seq<nat>, more: seq<nat>, t: nat) {
    |moves| <= |more| && more[..|moves|] == moves && forall k :: |moves| <= k < |more| ==> more[k] == t
  }

  /** A call under way: where it is, what it has stored, and the rows, which only it has changed. */
  ghost predicate Alone(asks: seq<Ask>, words: nat, moves: seq<nat>, more: seq<nat>, t: nat, spot: Spot,
                        stored: seq<nat>, rows: Rows)
    requires GoodAsks(asks, words)
  {
    && t < |asks| && Possible(asks, words, more) && OnlyBy(moves, more, t)
    && var s := Play(asks, words, more);
       s.spots[t] == spot && StoredBy(s.acts, t) == stored && s.rows == rows
  }

  lemma AlonePlay(asks: seq<Ask>, words: nat, moves: seq<nat>, more: seq<nat>, t: nat)
    requires GoodAsks(asks, words) && t < |asks| && Possible(asks, words, more) && OnlyBy(moves, more, t)
    requires CanMove(Play(asks, words, more), asks, t)
    ensures Possible(asks, words, more + [t]) && OnlyBy(moves, more + [t], t)
    ensures Play(asks, words, more + [t]) == Move(Play(asks, words, more), asks, words, t)
  {
    assert (more + [t])[..|more|] == more;
  }

  lemma OneMoreAct(acts: seq<Action>, a: Action, t: nat)
    ensures StoredBy(acts + [a], t) == if Stores(a, t) then StoredBy(acts, t) + [a.target] else StoredBy(acts, t)
  {
    assert (acts + [a])[..|acts|] == acts;
  }

  lemma AloneBegins(asks: seq<Ask>, words: nat, moves: seq<nat>, more: seq<nat>, t: nat, rows: Rows)
    requires GoodAsks(asks, words) && Alone(asks, words, moves, more, t, Waiting, [], rows) && asks[t].targets != []
    ensures Alone(asks, words, moves, more + [t], t, Judging(0, 0), [], rows)
  {
    AlonePlay(asks, words, moves, more, t);
    OneMoreAct(Play(asks, words, more).acts, Begin(t), t);
  }

  lemma AloneFinishes(asks: seq<Ask>, words: nat, moves: seq<nat>, more: seq<nat>, t: nat, j: nat, stored: seq<nat>,
                      rows: Rows)
    requires GoodAsks(asks, words)
    requires t < |asks| && Alone(asks, words, moves, more, t, Judging(|asks[t].targets|, j), stored, rows)
    ensures Alone(asks, words, moves, more + [t], t, Recording(0, 0), stored, rows)
  {
    AlonePlay(asks, words, moves, more, t);
    OneMoreAct(Play(asks, words, more).acts, Finish(t), t);
  }

  /** Target `i` is found completed or redundant. */
  lemma AloneSkips(asks: seq<Ask>, words: nat, moves: seq<nat>, more: seq<nat>, t: nat, i: nat, j: nat,
                   stored: seq<nat>, rows: Rows)
    requires GoodAsks(asks, words) && Alone(asks, words, moves, more, t, Judging(i, j), stored, rows)
    requires i < |asks[t].targets| && GoodAsk(asks[t], t) && |rows| == |asks|
    requires var T := asks[t].targets;
             || (j == 0 && T[i] < asks[t].low)
             || (T[i] >= asks[t].low && j < |T| && j != i && T[i] in rows[T[j]])
    ensures Alone(asks, words, moves, more + [t], t, Judging(i + 1, 0), stored, rows)
  {
    AlonePlay(asks, words, moves, more, t);
  }

  lemma AloneCompares(asks: seq<Ask>, words: nat, moves: seq<nat>, more: seq<nat>, t: nat, i: nat, j: nat,
                      stored: seq<nat>, rows: Rows)
    requires GoodAsks(asks, words) && Alone(asks, words, moves, more, t, Judging(i, j), stored, rows)
    requires i < |asks[t].targets| && j < |asks[t].targets| && GoodAsk(asks[t], t) && |rows| == |asks|
    requires var T := asks[t].targets; T[i] >= asks[t].low && !(j != i && T[i] in rows[T[j]])
    ensures Alone(asks, words, moves, more + [t], t, Judging(i, j + 1), stored, rows)
  {
    AlonePlay(asks, words, moves, more, t);
  }

  lemma AloneStores(asks: seq<Ask>, words: nat, moves: seq<nat>, more: seq<nat>, t: nat, i: nat, stored: seq<nat>,
                    rows: Rows)
    requires GoodAsks(asks, words) && t < |asks| && i < |asks[t].targets| && asks[t].targets[i] >= asks[t].low
    requires Alone(asks, words, moves, more, t, Judging(i, |asks[t].targets|), stored, rows)
    ensures Alone(asks, words, moves, more + [t], t, Judging(i + 1, 0), stored + [asks[t].targets[i]], rows)
  {
    AlonePlay(asks, words, moves, more, t);
    OneMoreAct(Play(asks, words, more).acts, Store(t, asks[t].targets[i]), t);
  }

  lemma AloneMarks(asks: seq<Ask>, words: nat, moves: seq<nat>, more: seq<nat>, t: nat, i: nat, w: nat,
                   stored: seq<nat>, rows: Rows, row: set<nat>)
    requires GoodAsks(asks, words) && Alone(asks, words, moves, more, t, Recording(i, w), stored, rows)
    requires i < |asks[t].targets| && w <= words && GoodAsk(asks[t], t) && |rows| == |asks|
    requires var m := asks[t].targets[i]; row == rows[t] + if w == 0 then {m} else WordOf(rows[m], w - 1)
    ensures Alone(asks, words, moves, more + [t], t, Recording(i, w + 1), stored, rows[t := row])
  {
    AlonePlay(asks, words, moves, more, t);
  }

  lemma AloneNext(asks: seq<Ask>, words: nat, moves: seq<nat>, more: seq<nat>, t: nat, i: nat, stored: seq<nat>,
                  rows: Rows)
    requires GoodAsks(asks, words) && Alone(asks, words, moves, more, t, Recording(i, words + 1), stored, rows)
    requires i < |asks[t].targets|
    ensures Alone(asks, words, moves, more + [t], t, Recording(i + 1, 0), stored, rows)
  {
    AlonePlay(asks, words, moves, more, t);
  }

  lemma AloneEnds(asks: seq<Ask>, words: nat, moves: seq<nat>, more: seq<nat>, t: nat, stored: seq<nat>, rows: Rows)
    requires GoodAsks(asks, words)
    requires t < |asks| && Alone(asks, words, moves, more, t, Recording(|asks[t].targets|, 0), stored, rows)
    ensures Alone(asks, words, moves, more + [t], t, Recorded, stored, rows)
  {
    AlonePlay(asks, words, moves, more, t);
  }

  /** One turn of the storing loop keeps or drops target `i` as the sequential code does. */
  lemma JudgeAlone(asks: seq<Ask>, words: nat, moves: seq<nat>, more0: seq<nat>, t: nat, i: nat, stored: seq<nat>,
                   rows: Rows)
    returns (more: seq<nat>)
    requires GoodAsks(asks, words) && Alone(asks, words, moves, more0, t, Judging(i, 0), stored, rows)
    requires i < |asks[t].targets| && |rows| == |asks| && GoodAsk(asks[t], t)
    ensures var T := asks[t].targets;
            Alone(asks, words, moves, more, t, Judging(i + 1, 0),
                  if Keeps(T, i, asks[t].low, true, rows) then stored + [T[i]] else stored, rows)
  {
    var targets := asks[t].targets;
    more := more0;
    if targets[i] < asks[t].low {
      AloneSkips(asks, words, moves, more, t, i, 0, stored, rows);
      more := more + [t];
      return;
    }
    for j := 0 to |targets|
      invariant Alone(asks, words, moves, more, t, Judging(i, j), stored, rows)
      invariant forall k :: 0 <= k < j && k != i ==> targets[i] !in rows[targets[k]]
    {
      if j != i && targets[i] in rows[targets[j]] {
        AloneSkips(asks, words, moves, more, t, i, j, stored, rows);
        more := more + [t];
        assert Redundant(targets, i, rows);
        return;
      }
      AloneCompares(asks, words, moves, more, t, i, j, stored, rows);
      more := more + [t];
    }
    AloneStores(asks, words, moves, more, t, i, stored, rows);
    more := more + [t];
  }

  /** The words of a row below word `w`. */
  function WordsOf(row: set<nat>, w: nat): set<nat> {
    set a | a in row && a / 64 < w
  }

  lemma AllWords(row: set<nat>, words: nat, n: nat)
    requires n <= 64 * words && forall a :: a in row ==> a < n
    ensures WordsOf(row, words) == row
  {
    forall a | a in row ensures a / 64 < words {
    }
  }

  /** The word loop of ancestor_union. */
  lemma UnionAlone(asks: seq<Ask>, words: nat, moves: seq<nat>, more0: seq<nat>, t: nat, i: nat, stored: seq<nat>,
                   rows: Rows, own: set<nat>, other: set<nat>)
    returns (more: seq<nat>)
    requires GoodAsks(asks, words) && t < |asks| == |rows| && i < |asks[t].targets| && GoodAsk(asks[t], t)
    requires rows[asks[t].targets[i]] == other
    requires Alone(asks, words, moves, more0, t, Recording(i, 1), stored, rows[t := own])
    ensures Alone(asks, words, moves, more, t, Recording(i, words + 1), stored, rows[t := own + WordsOf(other, words)])
  {
    more := more0;
    assert own + WordsOf(other, 0) == own;
    for w := 0 to words
      invariant Alone(asks, words, moves, more, t, Recording(i, w + 1), stored, rows[t := own + WordsOf(other, w)])
    {
      var now, row := rows[t := own + WordsOf(other, w)], own + WordsOf(other, w + 1);
      assert row == now[t] + WordOf(other, w);
      AloneMarks(asks, words, moves, more, t, i, w + 1, stored, now, row);
      assert now[t := row] == rows[t := row];
      more := more + [t];
    }
  }

  lemma RowsBounded(asks: seq<Ask>, words: nat, more: seq<nat>, m: nat)
    requires GoodAsks(asks, words) && Possible(asks, words, more) && m < |asks|
    ensures forall a :: a in Play(asks, words, more).rows[m] ==> a < |asks|
  {
    Always(asks, words, more);
    assert Fine(Play(asks, words, more), asks, m);
    forall a | a in Play(asks, words, more).rows[m] ensures a < |asks| {
      ReachBelow(Full(asks), a, m);
    }
  }

  /** One turn of the recording loop adds target `i` and its ancestors. */
  lemma RecordAlone(asks: seq<Ask>, words: nat, moves: seq<nat>, more0: seq<nat>, t: nat, i: nat, stored: seq<nat>,
                    rows: Rows)
    returns (more: seq<nat>)
    requires GoodAsks(asks, words) && Alone(asks, words, moves, more0, t, Recording(i, 0), stored, rows)
    requires i < |asks[t].targets| && |rows| == |asks| && GoodAsk(asks[t], t)
    ensures var m := asks[t].targets[i];
            Alone(asks, words, moves, more, t, Recording(i + 1, 0), stored, rows[t := rows[t] + {m} + rows[m]])
  {
    var m := asks[t].targets[i];
    RowsBounded(asks, words, more0, m);
    AllWords(rows[m], words, |asks|);
    AloneMarks(asks, words, moves, more0, t, i, 0, stored, rows, rows[t] + {m});
    more := UnionAlone(asks, words, moves, more0 + [t], t, i, stored, rows, rows[t] + {m}, rows[m]);
    AloneNext(asks, words, moves, more, t, i, stored, rows[t := rows[t] + {m} + rows[m]]);
    more := more + [t];
  }

  lemma JudgeAll(asks: seq<Ask>, words: nat, moves: seq<nat>, more0: seq<nat>, t: nat, rows: Rows)
    returns (more: seq<nat>)
    requires GoodAsks(asks, words) && Alone(asks, words, moves, more0, t, Judging(0, 0), [], rows)
    requires |rows| == |asks| && GoodAsk(asks[t], t)
    ensures Alone(asks, words, moves, more, t, Recording(0, 0), Kept(asks[t].targets, asks[t].low, true, rows), rows)
  {
    var targets, low := asks[t].targets, asks[t].low;
    more := more0;
    for i := 0 to |targets|
      invariant Alone(asks, words, moves, more, t, Judging(i, 0), KeptUpTo(targets, i, low, true, rows), rows)
    {
      var stored := KeptUpTo(targets, i, low, true, rows);
      more := JudgeAlone(asks, words, moves, more, t, i, stored, rows);
      assert stored + [] == stored;
    }
    AloneFinishes(asks, words, moves, more, t, 0, Kept(targets, low, true, rows), rows);
    more := more + [t];
  }

  lemma RecordAll(asks: seq<Ask>, words: nat, moves: seq<nat>, more0: seq<nat>, t: nat, stored: seq<nat>, rows: Rows)
    returns (more: seq<nat>)
    requires GoodAsks(asks, words) && Alone(asks, words, moves, more0, t, Recording(0, 0), stored, rows)
    requires |rows| == |asks| && GoodAsk(asks[t], t)
    ensures Alone(asks, words, moves, more, t, Recorded, stored, Predecessors.Recorded(rows, t, asks[t].targets))
  {
    var targets := asks[t].targets;
    more := more0;
    for i := 0 to |targets|
      invariant Alone(asks, words, moves, more, t, Recording(i, 0), stored, RecordedUpTo(rows, t, targets, i))
    {
      more := RecordAlone(asks, words, moves, more, t, i, stored, RecordedUpTo(rows, t, targets, i));
    }
    AloneEnds(asks, words, moves, more, t, stored, Predecessors.Recorded(rows, t, targets));
    more := more + [t];
  }

  /** A call that nothing interrupts is the sequential one: it stores exactly the targets AddPredecessors keeps and
      records exactly their ancestors. */
  lemma CallAlone(asks: seq<Ask>, words: nat, moves: seq<nat>, t: nat) returns (more: seq<nat>)
    requires GoodAsks(asks, words) && Possible(asks, words, moves) && t < |asks| && asks[t].targets != []
    requires Play(asks, words, moves).spots[t].Waiting?
    ensures Possible(asks, words, more) && OnlyBy(moves, more, t)
    ensures var s, s', T := Play(asks, words, moves), Play(asks, words, more), asks[t].targets;
            && (forall i :: 0 <= i < |T| ==> T[i] < |s.rows|) && s'.spots[t].Recorded?
            && StoredBy(s'.acts, t) == Kept(T, asks[t].low, true, s.rows)
            && s'.rows == Predecessors.Recorded(s.rows, t, T)
  {
    var s := Play(asks, words, moves);
    var kept: seq<nat>;
    assert GoodAsk(asks[t], t);
    Always(asks, words, moves);
    assert Fine(s, asks, t);
    AlwaysTracked(s.acts, t);
    AloneBegins(asks, words, moves, moves, t, s.rows);
    more := JudgeAll(asks, words, moves, moves + [t], t, s.rows);
    kept := Kept(asks[t].targets, asks[t].low, true, s.rows);
    more := RecordAll(asks, words, moves, more, t, kept, s.rows);
  }
}
