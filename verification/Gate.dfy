/** The doorbell gate between stagers, notifiers and the one executor (esl_proxy/include/algorithm/ed_gate.h),
    as a machine of sequentially consistent steps. */
module Gates {
  /** EXE_TYPE_CNT and AIC_OSTD. */
  datatype Dims = Dims(kinds: nat, slots: nat)

  datatype Core = Core(kind: nat, index: nat)

  datatype Place = Place(core: Core, slot: nat)

  /** Where a slot is in its life. Staging goes from Reserved to Recorded, notifying from Recorded to Rung;
      Sent is the normal dispatch. */
  datatype Phase = Idle | Reserved | Cleared | Published | Announced | Recorded | Claimed | Rung | Sent | Spent

  /** The executor inside ed_drain_gated_cores. `pending` is the copy it works off; `still` is still_gated. */
  datatype Walk = Walk(pending: set<Core>, core: Core, slot: nat, still: bool)

  datatype Pc =
    | Away
    | Peek(kind: nat)
    | Swap(kind: nat)
    | Pick(kind: nat, pending: set<Core>)
    | Scan(kind: nat, w: Walk)
    | Bell(kind: nat, w: Walk)
    | Cas(kind: nat, w: Walk)
    | Absorb(kind: nat, w: Walk)
    | Clear(kind: nat, w: Walk)
    | Count(kind: nat, w: Walk)

  /** `gated` and `runnable` are the places in those slot states, all others are EMPTY; `bell` are the doorbells
      at 1; `mask` is g_ed_gated_core_mask and `local` is local_pending. `rings` counts the doorbell writes,
      `opens` is g_ed_gate_open_cnt. `due` is no variable of the program: it remembers the gates that were rung
      when the last drain began and whose task has not completed since. */
  datatype State = State(gated: set<Place>, runnable: set<Place>, bell: set<Place>, mask: set<Core>, local: set<Core>,
                         phase: map<Place, Phase>, pc: Pc, rings: nat, opens: nat, due: set<Place>)

  datatype Action =
    | Reserve(p: Place) | GiveBack(p: Place) | ClearStale(p: Place)
    | Publish(p: Place) | Announce(p: Place) | Record(p: Place)
    | Claim(p: Place) | Ring(p: Place)
    | Send(p: Place) | Complete(p: Place) | Release(p: Place)
    | Execute(next: Core)

  function PhaseOf(s: State, p: Place): Phase {
    if p in s.phase then s.phase[p] else Idle
  }

  function OfKind(cores: set<Core>, kind: nat): set<Core> {
    set c | c in cores && c.kind == kind
  }

  predicate Lowest(pending: set<Core>, c: Core) {
    c in pending && forall d :: d in pending ==> c.index <= d.index
  }

  function Here(w: Walk): Place {
    Place(w.core, w.slot)
  }

  function Init(): State {
    State({}, {}, {}, {}, {}, map[], Away, 0, 0, {})
  }

  // ---- Steps -------------------------------------------------------------------------------------

  predicate Enabled(s: State, d: Dims, a: Action) {
    match a
    case Reserve(p) => p.core.kind < d.kinds && p.slot < d.slots && PhaseOf(s, p).Idle?
    case GiveBack(p) => PhaseOf(s, p).Reserved?
    case ClearStale(p) => PhaseOf(s, p).Reserved?
    case Publish(p) => PhaseOf(s, p).Cleared?
    case Announce(p) => PhaseOf(s, p).Published?
    case Record(p) => PhaseOf(s, p).Announced?
    case Claim(p) => PhaseOf(s, p).Recorded?
    case Ring(p) => PhaseOf(s, p).Claimed?
    case Send(p) => PhaseOf(s, p).Reserved?
    case Complete(p) => s.pc == Away && p in s.runnable
    case Release(p) => PhaseOf(s, p).Spent?
    case Execute(c) => s.pc.Pick? && s.pc.pending != {} ==> Lowest(s.pc.pending, c)
  }

  /** Stagers, notifiers and dispatchers; one shared access each. */
  function Outside(s: State, a: Action): State
    requires !a.Execute?
  {
    match a
    case Reserve(p) => s.(phase := s.phase[p := Reserved])
    case GiveBack(p) => s.(phase := s.phase[p := Idle])
    case ClearStale(p) => s.(phase := s.phase[p := Cleared], bell := s.bell - {p})
    case Publish(p) => s.(phase := s.phase[p := Published], gated := s.gated + {p})
    case Announce(p) => s.(phase := s.phase[p := Announced], mask := s.mask + {p.core})
    case Record(p) => s.(phase := s.phase[p := Recorded])
    case Claim(p) => s.(phase := s.phase[p := Claimed])
    case Ring(p) => s.(phase := s.phase[p := Rung], bell := s.bell + {p}, rings := s.rings + 1)
    case Send(p) => s.(phase := s.phase[p := Sent], runnable := s.runnable + {p})
    case Complete(p) => s.(phase := s.phase[p := Spent], runnable := s.runnable - {p}, due := s.due - {p})
    case Release(p) => s.(phase := s.phase[p := Idle])
  }

  function NextKind(d: Dims, kind: nat): Pc {
    if kind + 1 < d.kinds then Peek(kind + 1) else Away
  }

  function NextSlot(kind: nat, w: Walk, still: bool): Pc {
    Scan(kind, w.(slot := w.slot + 1, still := still))
  }

  /** One shared access of ed_drain_gated_cores and ed_poll_doorbell. */
  function Drain(s: State, d: Dims, next: Core): State {
    match s.pc
    case Away => s.(pc := if d.kinds > 0 then Peek(0) else Away,
                    due := set p | p in s.gated && PhaseOf(s, p).Rung?)
    case Peek(k) => s.(pc := if OfKind(s.mask, k) != {} then Swap(k) else Pick(k, OfKind(s.local, k)))
    case Swap(k) =>
      var local := s.local + OfKind(s.mask, k);
      s.(mask := s.mask - OfKind(s.mask, k), local := local, pc := Pick(k, OfKind(local, k)))
    case Pick(k, pending) =>
      s.(pc := if pending == {} then NextKind(d, k) else Scan(k, Walk(pending - {next}, next, 0, false)))
    case Scan(k, w) =>
      if w.slot >= d.slots then
        s.(pc := Pick(k, w.pending), local := if w.still then s.local else s.local - {w.core})
      else
        s.(pc := if Here(w) in s.gated then Bell(k, w) else NextSlot(k, w, w.still))
    case Bell(k, w) => s.(pc := if Here(w) in s.bell then Cas(k, w) else NextSlot(k, w, true))
    case Cas(k, w) =>
      if Here(w) in s.gated then
        s.(gated := s.gated - {Here(w)}, runnable := s.runnable + {Here(w)}, pc := Clear(k, w))
      else
        s.(pc := Absorb(k, w))
    case Absorb(k, w) => s.(bell := s.bell - {Here(w)}, pc := NextSlot(k, w, true))
    case Clear(k, w) => s.(bell := s.bell - {Here(w)}, pc := Count(k, w))
    case Count(k, w) => s.(opens := s.opens + 1, pc := NextSlot(k, w, w.still))
  }

  function Do(s: State, d: Dims, a: Action): State {
    match a
    case Execute(c) => Drain(s, d, c)
    case _ => Outside(s, a)
  }

  ghost predicate Step(s: State, s': State, d: Dims) {
    exists a :: Enabled(s, d, a) && s' == Do(s, d, a)
  }

  /** A finite run of the machine. */
  ghost predicate Behaviour(run: seq<State>, d: Dims) {
    && run != [] && run[0] == Init()
    && forall i :: 0 <= i < |run| - 1 ==> Step(run[i], run[i + 1], d)
  }

  // ---- The invariant -----------------------------------------------------------------------------------

  predicate Walking(pc: Pc) {
    pc.Scan? || pc.Bell? || pc.Cas? || pc.Absorb? || pc.Clear? || pc.Count?
  }

  predicate Staged(ph: Phase) {
    ph.Published? || ph.Announced? || ph.Recorded? || ph.Claimed?
  }

  /** Slot states and phases fit together. */
  ghost predicate Phased(s: State, d: Dims) {
    && (forall p :: p in s.gated ==>
          p.core.kind < d.kinds && p.slot < d.slots && p !in s.runnable
          && (Staged(PhaseOf(s, p)) || PhaseOf(s, p).Rung?))
    && (forall p :: p in s.runnable ==> PhaseOf(s, p).Sent? || PhaseOf(s, p).Rung?)
    && (forall p :: !PhaseOf(s, p).Idle? ==> p.core.kind < d.kinds && p.slot < d.slots)
  }

  ghost predicate Occupied(s: State) {
    && (forall p :: Staged(PhaseOf(s, p)) ==> p in s.gated)
    && (forall p :: PhaseOf(s, p).Rung? ==> p in s.gated || p in s.runnable)
    && (forall p :: PhaseOf(s, p).Sent? ==> p in s.runnable)
  }

  /** A doorbell is at 1 exactly from the ring until the executor has opened the gate and cleared it. */
  ghost predicate BellsFit(s: State) {
    forall p :: p in s.bell <==> PhaseOf(s, p).Rung? && (p in s.gated || (s.pc.Clear? && Here(s.pc.w) == p))
  }

  /** The stager has still to set the mask bit, or the bit is in the global mask. */
  predicate OnItsWay(s: State, p: Place) {
    p.core in s.mask || PhaseOf(s, p).Published?
  }

  /** Every gated slot is announced: in the mask, in local_pending, or its stager is between its two steps. */
  ghost predicate Remembered(s: State) {
    forall p :: p in s.gated ==> OnItsWay(s, p) || p.core in s.local
  }

  /** The executor may forget a core only if no gated slot it has passed depends on being remembered. */
  ghost predicate ScanFits(s: State, d: Dims) {
    && (Walking(s.pc) ==>
          var w := s.pc.w;
          && w.core in s.local && w.core.kind == s.pc.kind < d.kinds && w.core !in w.pending
          && w.pending <= OfKind(s.local, s.pc.kind)
          && (forall p :: p in s.gated && p.core == w.core && p.slot < w.slot ==> w.still || OnItsWay(s, p))
          && (!s.pc.Scan? ==> w.slot < d.slots))
    && (s.pc.Bell? || s.pc.Cas? ==> Here(s.pc.w) in s.gated)
    && (s.pc.Cas? ==> Here(s.pc.w) in s.bell)
    && (s.pc.Clear? || s.pc.Count? ==> Here(s.pc.w) in s.runnable)
    && (s.pc.Clear? ==> Here(s.pc.w) in s.bell)
    && !s.pc.Absorb?
    && (s.pc.Pick? ==> s.pc.pending <= OfKind(s.local, s.pc.kind) && s.pc.kind < d.kinds)
    && (s.pc.Peek? || s.pc.Swap? ==> s.pc.kind < d.kinds)
  }

  /** Every ring is consumed, waiting at a doorbell, or about to be counted. */
  predicate Balanced(s: State) {
    s.rings == s.opens + |s.bell| + (if s.pc.Count? then 1 else 0)
  }

  /** The drain has still to reach the gate. */
  predicate Ahead(s: State, p: Place) {
    match s.pc
    case Away => false
    case Peek(k) => p.core.kind >= k && (p.core in s.mask || p.core in s.local)
    case Swap(k) => p.core.kind >= k && (p.core in s.mask || p.core in s.local)
    case Pick(k, pending) => LaterKind(s, k, p) || p.core in pending
    case _ => LaterKind(s, s.pc.kind, p) || p.core in s.pc.w.pending || (p.core == s.pc.w.core && p.slot >= s.pc.w.slot)
  }

  predicate LaterKind(s: State, k: nat, p: Place) {
    p.core.kind > k && (p.core in s.mask || p.core in s.local)
  }

  /** Gates rung before the drain stay rung until their task completes, and are open once the drain is past. */
  ghost predicate DueFits(s: State) {
    forall p :: p in s.due ==> PhaseOf(s, p).Rung? && (p in s.gated ==> Ahead(s, p))
  }

  ghost predicate Inv(s: State, d: Dims) {
    Phased(s, d) && Occupied(s) && BellsFit(s) && Remembered(s) && ScanFits(s, d) && Balanced(s) && DueFits(s)
  }

  lemma OutsidePhased(s: State, d: Dims, a: Action)
    requires Phased(s, d) && Occupied(s) && Enabled(s, d, a) && !a.Execute?
    ensures Phased(Outside(s, a), d)
  {
  }

  lemma DrainPhased(s: State, d: Dims, c: Core)
    requires Phased(s, d) && BellsFit(s) && ScanFits(s, d) && Enabled(s, d, Execute(c))
    ensures Phased(Drain(s, d, c), d)
  {
  }

  lemma OutsideOccupied(s: State, d: Dims, a: Action)
    requires Phased(s, d) && Occupied(s) && Enabled(s, d, a) && !a.Execute?
    ensures Occupied(Outside(s, a))
  {
  }

  lemma DrainOccupied(s: State, d: Dims, c: Core)
    requires Phased(s, d) && Occupied(s) && BellsFit(s) && ScanFits(s, d) && Enabled(s, d, Execute(c))
    ensures Occupied(Drain(s, d, c))
  {
  }

  lemma OutsideBells(s: State, d: Dims, a: Action)
    requires Phased(s, d) && Occupied(s) && BellsFit(s) && Enabled(s, d, a) && !a.Execute?
    ensures BellsFit(Outside(s, a))
  {
  }

  lemma DrainBells(s: State, d: Dims, c: Core)
    requires Phased(s, d) && Occupied(s) && BellsFit(s) && ScanFits(s, d) && Enabled(s, d, Execute(c))
    ensures BellsFit(Drain(s, d, c))
  {
  }

  lemma OutsideRemembered(s: State, d: Dims, a: Action)
    requires Phased(s, d) && Remembered(s) && Enabled(s, d, a) && !a.Execute?
    ensures Remembered(Outside(s, a))
  {
  }

  lemma DrainRemembered(s: State, d: Dims, c: Core)
    requires Phased(s, d) && Remembered(s) && ScanFits(s, d) && Enabled(s, d, Execute(c))
    ensures Remembered(Drain(s, d, c))
  {
  }

  lemma OutsideScan(s: State, d: Dims, a: Action)
    requires Phased(s, d) && Occupied(s) && BellsFit(s) && ScanFits(s, d) && Enabled(s, d, a) && !a.Execute?
    ensures ScanFits(Outside(s, a), d)
  {
  }

  lemma DrainScan(s: State, d: Dims, c: Core)
    requires Phased(s, d) && BellsFit(s) && ScanFits(s, d) && Enabled(s, d, Execute(c))
    ensures ScanFits(Drain(s, d, c), d)
  {
  }

  lemma OutsideBalanced(s: State, d: Dims, a: Action)
    requires BellsFit(s) && Balanced(s) && Enabled(s, d, a) && !a.Execute?
    ensures Balanced(Outside(s, a))
  {
  }

  lemma DrainBalanced(s: State, d: Dims, c: Core)
    requires BellsFit(s) && ScanFits(s, d) && Balanced(s) && Enabled(s, d, Execute(c))
    ensures Balanced(Drain(s, d, c))
  {
  }

  lemma OutsideDue(s: State, d: Dims, a: Action)
    requires Phased(s, d) && Occupied(s) && DueFits(s) && Enabled(s, d, a) && !a.Execute?
    ensures DueFits(Outside(s, a))
  {
  }

  lemma DrainDue(s: State, d: Dims, c: Core)
    requires Phased(s, d) && BellsFit(s) && Remembered(s) && ScanFits(s, d) && DueFits(s) && Enabled(s, d, Execute(c))
    ensures DueFits(Drain(s, d, c))
  {
    var s' := Drain(s, d, c);
    forall p | p in s'.due ensures PhaseOf(s', p).Rung? && (p in s'.gated ==> Ahead(s', p)) {
      if !s.pc.Away? && p in s'.gated {
        assert p in s.gated && Ahead(s, p);
        if s.pc.Peek? {
          assert p.core in s.mask && p.core.kind == s.pc.kind ==> p.core in OfKind(s.mask, s.pc.kind);
        }
      }
    }
  }

  lemma StepKeeps(s: State, s': State, d: Dims)
    requires Inv(s, d) && Step(s, s', d)
    ensures Inv(s', d)
  {
    var a :| Enabled(s, d, a) && s' == Do(s, d, a);
    if a.Execute? {
      ExecuteKeeps(s, d, a.next, s');
    } else {
      OutsideKeeps(s, d, a, s');
    }
  }

  lemma ExecuteKeeps(s: State, d: Dims, c: Core, s': State)
    requires Inv(s, d) && Enabled(s, d, Execute(c)) && s' == Drain(s, d, c)
    ensures Inv(s', d)
  {
    DrainPhased(s, d, c);
    DrainOccupied(s, d, c);
    DrainBells(s, d, c);
    DrainRemembered(s, d, c);
    DrainScan(s, d, c);
    DrainBalanced(s, d, c);
    DrainDue(s, d, c);
  }

  lemma OutsideKeeps(s: State, d: Dims, a: Action, s': State)
    requires Inv(s, d) && Enabled(s, d, a) && !a.Execute? && s' == Outside(s, a)
    ensures Inv(s', d)
  {
    OutsidePhased(s, d, a);
    OutsideOccupied(s, d, a);
    OutsideBells(s, d, a);
    OutsideRemembered(s, d, a);
    OutsideScan(s, d, a);
    OutsideBalanced(s, d, a);
    OutsideDue(s, d, a);
  }

  lemma {:induction false} Always(run: seq<State>, d: Dims, i: nat)
    requires Behaviour(run, d) && i < |run|
    ensures Inv(run[i], d)
  {
    if i > 0 {
      Always(run, d, i - 1);
      assert Step(run[i - 1], run[i - 1 + 1], d);
      StepKeeps(run[i - 1], run[i], d);
    }
  }

  // ---- What the protocol guarantees ---------------------------------------------------------------

  /** No lost wakeup: in every reachable state a gated slot's core is in the global mask or in the executor's
      private set, or its stager has published the slot and has the mask bit still to set. */
  lemma NoLostWakeup(run: seq<State>, d: Dims, i: nat, p: Place)
    requires Behaviour(run, d) && i < |run| && p in run[i].gated
    ensures p.core in run[i].mask || p.core in run[i].local || PhaseOf(run[i], p).Published?
  {
    Always(run, d, i);
  }

  /** Between the doorbell load and the compare-exchange the slot stays gated, so the exchange succeeds and
      the path that absorbs a stale doorbell is never taken. */
  lemma ExchangeNeverFails(run: seq<State>, d: Dims, i: nat)
    requires Behaviour(run, d) && i < |run|
    ensures run[i].pc.Cas? ==> Here(run[i].pc.w) in run[i].gated
    ensures !run[i].pc.Absorb?
  {
    Always(run, d, i);
  }

  /** A slot leaves GATED only for RUNNABLE, only after its own doorbell was rung in this generation, and only
      by the executor. */
  lemma OpensOnlyAfterRing(run: seq<State>, d: Dims, i: nat, p: Place)
    requires Behaviour(run, d) && i + 1 < |run| && p in run[i].gated && p !in run[i + 1].gated
    ensures p in run[i + 1].runnable && PhaseOf(run[i], p).Rung? && p in run[i].bell
    ensures run[i].pc.Cas? && Here(run[i].pc.w) == p
  {
    Always(run, d, i);
    assert Step(run[i], run[i + 1], d);
  }

  /** Gate openings are conserved: every ring has been counted as one opening, or its doorbell is still at 1,
      or the executor is about to count it. */
  lemma OpeningsConserved(run: seq<State>, d: Dims, i: nat)
    requires Behaviour(run, d) && i < |run|
    ensures run[i].opens <= run[i].rings
    ensures run[i].rings == run[i].opens + |run[i].bell| + (if run[i].pc.Count? then 1 else 0)
    ensures run[i].pc.Away? ==> run[i].bell <= run[i].gated
  {
    Always(run, d, i);
  }

  /** The states from `i` to `j` are one drain. */
  ghost predicate OneDrain(run: seq<State>, i: nat, j: nat) {
    && i < j < |run| && run[i].pc.Away? && run[j].pc.Away? && run[i + 1].pc == Peek(0)
    && forall k :: i < k < j ==> !run[k].pc.Away?
  }

  lemma {:induction false} StaysDue(run: seq<State>, d: Dims, i: nat, j: nat, k: nat, p: Place)
    requires Behaviour(run, d) && OneDrain(run, i, j) && i < k <= j
    requires p in run[i].gated && PhaseOf(run[i], p).Rung?
    ensures p in run[k].due
  {
    var before, s := run[k - 1], run[k - 1 + 1];
    assert Step(before, s, d);
    if k > i + 1 {
      assert !before.pc.Away?;
      StaysDue(run, d, i, j, k - 1, p);
      DueStep(before, s, d, p);
    } else {
      DueStart(before, s, d, p);
    }
  }

  /** While the executor is inside a drain no step makes it forget a rung gate. */
  lemma DueStep(s: State, s': State, d: Dims, p: Place)
    requires Step(s, s', d) && !s.pc.Away? && p in s.due
    ensures p in s'.due
  {
  }

  lemma DueStart(s: State, s': State, d: Dims, p: Place)
    requires Step(s, s', d) && s.pc.Away? && s'.pc == Peek(0) && p in s.gated && PhaseOf(s, p).Rung?
    ensures p in s'.due
  {
  }

  /** A gate that has been rung when a drain begins is open when that drain ends, whatever the stagers and
      notifiers do meanwhile. */
  lemma OpensWithinDrain(run: seq<State>, d: Dims, i: nat, j: nat, p: Place)
    requires Behaviour(run, d) && OneDrain(run, i, j)
    requires p in run[i].gated && PhaseOf(run[i], p).Rung?
    ensures p in run[j].runnable && p !in run[j].gated
  {
    StaysDue(run, d, i, j, j, p);
    Always(run, d, j);
  }

  // ---- The drain ends --------------------------------------------------------------------------------

  /** Kinds left, then the part of the kind, then cores left, then slots left and the part of the slot. */
  function Left(pc: Pc, d: Dims): (nat, nat, nat, nat) {
    match pc
    case Away => (0, 0, 0, 0)
    case Peek(k) => (LessCut(d.kinds, k), 2, 0, 0)
    case Swap(k) => (LessCut(d.kinds, k), 1, 0, 0)
    case Pick(k, pending) => (LessCut(d.kinds, k), 0, 2 * |pending|, 0)
    case Scan(k, w) => (LessCut(d.kinds, k), 0, 2 * |w.pending| + 1, 6 * LessCut(d.slots, w.slot) + 5)
    case Bell(k, w) => (LessCut(d.kinds, k), 0, 2 * |w.pending| + 1, 6 * LessCut(d.slots, w.slot) + 4)
    case Cas(k, w) => (LessCut(d.kinds, k), 0, 2 * |w.pending| + 1, 6 * LessCut(d.slots, w.slot) + 3)
    case Clear(k, w) => (LessCut(d.kinds, k), 0, 2 * |w.pending| + 1, 6 * LessCut(d.slots, w.slot) + 2)
    case Absorb(k, w) => (LessCut(d.kinds, k), 0, 2 * |w.pending| + 1, 6 * LessCut(d.slots, w.slot) + 1)
    case Count(k, w) => (LessCut(d.kinds, k), 0, 2 * |w.pending| + 1, 6 * LessCut(d.slots, w.slot) + 1)
  }

  function LessCut(a: nat, b: nat): nat {
    if b < a then a - b else 0
  }

  predicate Smaller(a: (nat, nat, nat, nat), b: (nat, nat, nat, nat)) {
    a.0 < b.0 || (a.0 == b.0 && (a.1 < b.1 || (a.1 == b.1 && (a.2 < b.2 || (a.2 == b.2 && a.3 < b.3)))))
  }

  lemma WalkSmaller(s: State, d: Dims, c: Core)
    requires ScanFits(s, d) && Walking(s.pc)
    ensures Smaller(Left(Drain(s, d, c).pc, d), Left(s.pc, d))
  {
    var w := s.pc.w;
    assert w.slot < d.slots ==> LessCut(d.slots, w.slot) == LessCut(d.slots, w.slot + 1) + 1;
  }

  lemma DrainSmaller(s: State, d: Dims, c: Core)
    requires ScanFits(s, d) && !s.pc.Away? && Enabled(s, d, Execute(c))
    ensures Smaller(Left(Drain(s, d, c).pc, d), Left(s.pc, d))
  {
    if Walking(s.pc) {
      WalkSmaller(s, d, c);
    } else if s.pc.Pick? && s.pc.pending != {} {
      assert |s.pc.pending - {c}| == |s.pc.pending| - 1;
    }
  }

  /** Every executor step of a drain comes closer to its end, and no other thread can set it back. */
  lemma DrainProgress(run: seq<State>, d: Dims, i: nat, a: Action)
    requires Behaviour(run, d) && i < |run| && !run[i].pc.Away? && Enabled(run[i], d, a)
    ensures if a.Execute? then Smaller(Left(Do(run[i], d, a).pc, d), Left(run[i].pc, d))
            else Do(run[i], d, a).pc == run[i].pc
  {
    Always(run, d, i);
    if a.Execute? {
      DrainSmaller(run[i], d, a.next);
    }
  }

  // ---- Every rung gate can be opened -------------------------------------------------------------------

  ghost predicate ExecutorStep(s: State, s': State, d: Dims) {
    exists c :: Enabled(s, d, Execute(c)) && s' == Drain(s, d, c)
  }

  /** `more` goes on from `run` by executor steps alone. */
  ghost predicate GoesOn(run: seq<State>, more: seq<State>, d: Dims) {
    && 0 < |run| <= |more| && more[..|run|] == run
    && forall i :: |run| - 1 <= i < |more| - 1 ==> ExecutorStep(more[i], more[i + 1], d)
  }

  lemma GoOn(run: seq<State>, so: seq<State>, d: Dims, c: Core)
    requires Behaviour(so, d) && GoesOn(run, so, d) && Enabled(so[|so| - 1], d, Execute(c))
    ensures var more := so + [Drain(so[|so| - 1], d, c)]; Behaviour(more, d) && GoesOn(run, more, d)
  {
    var last := so[|so| - 1];
    var more := so + [Drain(last, d, c)];
    assert Do(last, d, Execute(c)) == Drain(last, d, c);
    forall i | 0 <= i < |more| - 1
      ensures Step(more[i], more[i + 1], d) && (i >= |run| - 1 ==> ExecutorStep(more[i], more[i + 1], d))
    {
      if i < |so| - 1 {
        assert Step(so[i], so[i + 1], d) && (i >= |run| - 1 ==> ExecutorStep(so[i], so[i + 1], d));
      }
    }
    assert more[..|run|] == so[..|run|];
  }

  /** The executor can always take a step, and inside a drain it forgets no rung gate. */
  lemma CanExecute(s: State, d: Dims) returns (c: Core)
    ensures Enabled(s, d, Execute(c))
    ensures Drain(s, d, c).phase == s.phase
    ensures !s.pc.Away? ==> Drain(s, d, c).due == s.due
  {
    if s.pc.Pick? && s.pc.pending != {} {
      LowestExists(s.pc.pending);
      c :| c in s.pc.pending && forall d :: d in s.pc.pending ==> c.index <= d.index;
    } else {
      c := Core(0, 0);
    }
  }

  lemma {:induction false} FinishDrain(run: seq<State>, so: seq<State>, d: Dims) returns (more: seq<State>)
    requires Behaviour(so, d) && GoesOn(run, so, d)
    ensures Behaviour(more, d) && GoesOn(run, more, d) && more[|more| - 1].pc.Away?
    ensures more[|more| - 1].phase == so[|so| - 1].phase && more[|more| - 1].due == so[|so| - 1].due
    decreases Left(so[|so| - 1].pc, d).0, Left(so[|so| - 1].pc, d).1, Left(so[|so| - 1].pc, d).2,
              Left(so[|so| - 1].pc, d).3
  {
    var last := so[|so| - 1];
    if last.pc.Away? {
      more := so;
    } else {
      var c := CanExecute(last, d);
      Always(so, d, |so| - 1);
      DrainSmaller(last, d, c);
      GoOn(run, so, d, c);
      more := FinishDrain(run, so + [Drain(last, d, c)], d);
    }
  }

  /** A staged and rung gate is never lost: from every state of every run the executor, by its own steps, comes to
      open it. */
  lemma RungGateOpens(run: seq<State>, d: Dims, p: Place) returns (more: seq<State>)
    requires Behaviour(run, d) && p in run[|run| - 1].gated && PhaseOf(run[|run| - 1], p).Rung?
    ensures Behaviour(more, d) && GoesOn(run, more, d)
    ensures p in more[|more| - 1].runnable && p !in more[|more| - 1].gated && more[|more| - 1].pc.Away?
  {
    Always(run, d, |run| - 1);
    more := FinishDrain(run, run, d);
    Always(more, d, |more| - 1);
    var s := more[|more| - 1];
    if p in s.gated {
      var c := CanExecute(s, d);
      GoOn(run, more, d, c);
      more := FinishDrain(run, more + [Drain(s, d, c)], d);
      Always(more, d, |more| - 1);
    }
  }

  lemma Acted(run: seq<State>, d: Dims, a: Action)
    requires Behaviour(run, d) && Enabled(run[|run| - 1], d, a)
    ensures Behaviour(run + [Do(run[|run| - 1], d, a)], d)
  {
    var more := run + [Do(run[|run| - 1], d, a)];
    forall i | 0 <= i < |more| - 1 ensures Step(more[i], more[i + 1], d) {
      if i < |run| - 1 {
        assert Step(run[i], run[i + 1], d);
      }
    }
  }

  lemma Staging(run: seq<State>, d: Dims, p: Place) returns (more: seq<State>)
    requires Behaviour(run, d) && PhaseOf(run[|run| - 1], p).Idle? && p.core.kind < d.kinds && p.slot < d.slots
    ensures Behaviour(more, d) && run <= more && PhaseOf(more[|more| - 1], p).Announced?
    ensures p in more[|more| - 1].gated && p.core in more[|more| - 1].mask && more[|more| - 1].pc == run[|run| - 1].pc
  {
    Acted(run, d, Reserve(p));
    more := run + [Do(run[|run| - 1], d, Reserve(p))];
    Acted(more, d, ClearStale(p));
    more := more + [Do(more[|more| - 1], d, ClearStale(p))];
    Acted(more, d, Publish(p));
    more := more + [Do(more[|more| - 1], d, Publish(p))];
    Acted(more, d, Announce(p));
    more := more + [Do(more[|more| - 1], d, Announce(p))];
  }

  lemma Notifying(run: seq<State>, d: Dims, p: Place) returns (more: seq<State>)
    requires Behaviour(run, d) && PhaseOf(run[|run| - 1], p).Announced?
    ensures Behaviour(more, d) && run <= more && PhaseOf(more[|more| - 1], p).Rung?
    ensures p in more[|more| - 1].bell && more[|more| - 1].gated == run[|run| - 1].gated
    ensures more[|more| - 1].pc == run[|run| - 1].pc && more[|more| - 1].rings == run[|run| - 1].rings + 1
  {
    Acted(run, d, Record(p));
    more := run + [Do(run[|run| - 1], d, Record(p))];
    Acted(more, d, Claim(p));
    more := more + [Do(more[|more| - 1], d, Claim(p))];
    Acted(more, d, Ring(p));
    more := more + [Do(more[|more| - 1], d, Ring(p))];
  }

  /** A free slot can be staged, notified, opened, completed and freed again, whatever the run has been. */
  lemma SlotCycles(run: seq<State>, d: Dims, p: Place) returns (ran: seq<State>, freed: seq<State>)
    requires Behaviour(run, d) && PhaseOf(run[|run| - 1], p).Idle? && p.core.kind < d.kinds && p.slot < d.slots
    ensures Behaviour(ran, d) && run <= ran && p in ran[|ran| - 1].runnable
    ensures Behaviour(freed, d) && ran <= freed && PhaseOf(freed[|freed| - 1], p).Idle?
  {
    var staged := Staging(run, d, p);
    var rung := Notifying(staged, d, p);
    ran := RungGateOpens(rung, d, p);
    assert ran[..|rung|] == rung;
    Acted(ran, d, Complete(p));
    freed := ran + [Do(ran[|ran| - 1], d, Complete(p))];
    Acted(freed, d, Release(p));
    freed := freed + [Do(freed[|freed| - 1], d, Release(p))];
  }

  // ---- The drain on its own ----------------------------------------------------------------------------

  /** The shared words of ed_gate.h, for a drain that no other thread disturbs. */
  class GateBoard {
    const kinds: nat
    const slots: nat
    var gated: set<Place>
    var runnable: set<Place>
    var doorbell: set<Place>
    var coreMask: set<Core>
    var openCnt: nat

    constructor (kinds: nat, slots: nat)
      ensures this.kinds == kinds && this.slots == slots
      ensures gated == runnable == doorbell == {} && coreMask == {} && openCnt == 0
    {
      this.kinds, this.slots := kinds, slots;
      gated, runnable, doorbell, coreMask, openCnt := {}, {}, {}, {}, 0;
    }

    /** ed_poll_doorbell: true when the gate has just been opened. */
    method PollDoorbell(p: Place) returns (success: bool)
      modifies this`gated, this`runnable, this`doorbell, this`openCnt
      ensures success == (p in old(doorbell) && p in old(gated))
      ensures doorbell == old(doorbell) - {p}
      ensures gated == if success then old(gated) - {p} else old(gated)
      ensures runnable == if success then old(runnable) + {p} else old(runnable)
      ensures openCnt == if success then old(openCnt) + 1 else old(openCnt)
    {
      if p !in doorbell {
        return false;
      }
      if p !in gated {
        doorbell := doorbell - {p};
        return false;
      }
      gated, runnable := gated - {p}, runnable + {p};
      doorbell := doorbell - {p};
      openCnt := openCnt + 1;
      success := true;
    }

    /** Exactly the gates in `open` have gone from gated to runnable since the board was `was`, each counted. */
    ghost predicate Opened(was: Board, open: set<Place>)
      reads this
    {
      && open <= was.gated && open <= was.bell
      && gated == was.gated - open && runnable == was.runnable + open && doorbell == was.bell - open
      && openCnt == was.count + |open|
    }

    ghost predicate HasGated(core: Core)
      reads this
    {
      exists p :: p in gated && p.core == core && p.slot < slots
    }

    /** The slot loop for one core: opens its rung gates and says whether a gated slot is left. */
    method DrainCore(core: Core, ghost was: Board, ghost open0: set<Place>)
      returns (still: bool, ghost open: set<Place>)
      requires Opened(was, open0) && forall p :: p in open0 ==> p.core != core
      modifies this`gated, this`runnable, this`doorbell, this`openCnt
      ensures Opened(was, open) && still == HasGated(core)
      ensures forall p :: p in open <==>
                p in open0 || (p.core == core && p.slot < slots && p in was.gated && p in was.bell)
    {
      still, open := false, open0;
      for slot := 0 to slots
        invariant Opened(was, open)
        invariant forall p :: p in open <==>
                    p in open0 || (p.core == core && p.slot < slot && p in was.gated && p in was.bell)
        invariant still <==> exists p :: p in gated && p.core == core && p.slot < slot
      {
        var p := Place(core, slot);
        if p in gated {
          var success := PollDoorbell(p);
          if success {
            open := open + {p};
          } else {
            still := true;
          }
        }
      }
    }

    /** Mid-drain: the cores in `done` have been scanned, and `local` watches the cores in `seen` except those
        found without a gated slot. */
    ghost predicate Scanned(was: Board, open: set<Place>, done: set<Core>, seen: set<Core>, local: set<Core>)
      reads this
    {
      && Opened(was, open) && done <= seen
      && (forall p :: p in open <==> p in was.gated && p in was.bell && p.core in done)
      && (forall c :: c in local <==> c in seen && (c in done ==> HasGated(c)))
    }

    /** The core loop for one kind. */
    method DrainKind(kind: nat, local0: set<Core>, ghost was: Board, ghost open0: set<Place>,
                     ghost done0: set<Core>, ghost seen: set<Core>)
      returns (local: set<Core>, ghost open: set<Place>, ghost done: set<Core>)
      requires Scanned(was, open0, done0, seen, local0) && forall c :: c in done0 ==> c.kind != kind
      requires forall p :: p in was.gated ==> p.slot < slots
      modifies this`gated, this`runnable, this`doorbell, this`openCnt
      ensures Scanned(was, open, done, seen, local)
      ensures done == done0 + OfKind(seen, kind)
    {
      local, open, done := local0, open0, done0;
      var pending := OfKind(local, kind);
      while pending != {}
        invariant Scanned(was, open, done, seen, local)
        invariant done + pending == done0 + OfKind(seen, kind) && done !! pending
        decreases |pending|
      {
        LowestExists(pending);
        var core :| core in pending && forall d :: d in pending ==> core.index <= d.index;
        pending := pending - {core};
        local, open := DrainPicked(core, local, was, open, done, seen);
        done := done + {core};
      }
    }

    /** The body of the core loop. */
    method DrainPicked(core: Core, local0: set<Core>, ghost was: Board, ghost open0: set<Place>,
                       ghost done: set<Core>, ghost seen: set<Core>)
      returns (local: set<Core>, ghost open: set<Place>)
      requires Scanned(was, open0, done, seen, local0) && core in seen && core !in done
      requires forall p :: p in was.gated ==> p.slot < slots
      modifies this`gated, this`runnable, this`doorbell, this`openCnt
      ensures Scanned(was, open, done + {core}, seen, local)
    {
      var still;
      still, open := DrainCore(core, was, open0);
      local := if still then local0 else local0 - {core};
    }

    /** ed_drain_gated_cores, undisturbed: it opens exactly the rung gates of the cores in the mask or in
        local_pending, empties the mask, and keeps watching exactly those of the cores that still have a gate. */
    method DrainGatedCores(localPending: set<Core>) returns (local: set<Core>)
      requires forall c :: c in coreMask || c in localPending ==> c.kind < kinds
      requires forall p :: p in gated ==> p.slot < slots
      modifies this
      ensures var watched := old(coreMask) + localPending;
              && Opened(old(Now()), set p | p in old(gated) && p in old(doorbell) && p.core in watched)
              && coreMask == {}
              && forall c :: c in local <==> c in watched && HasGated(c)
    {
      local := localPending;
      ghost var was, mask0 := Now(), coreMask;
      ghost var open, done, seen := {}, {}, localPending;
      for kind := 0 to kinds
        invariant Scanned(was, open, done, seen, local)
        invariant seen == localPending + (mask0 - coreMask) && coreMask <= mask0
        invariant forall c :: c in coreMask <==> c in mask0 && c.kind >= kind
        invariant forall c :: c in done <==> c in seen && c.kind < kind
      {
        var arrived := OfKind(coreMask, kind);
        if arrived != {} {
          coreMask := coreMask - arrived;
          local := local + arrived;
          seen := seen + arrived;
        }
        local, open, done := DrainKind(kind, local, was, open, done, seen);
      }
      assert open == set p | p in was.gated && p in was.bell && p.core in mask0 + localPending;
    }

    ghost function Now(): Board
      reads this
    {
      Board(gated, runnable, doorbell, openCnt)
    }
  }

  datatype Board = Board(gated: set<Place>, runnable: set<Place>, bell: set<Place>, count: nat)

  lemma {:induction false} LowestExists(pending: set<Core>)
    requires pending != {}
    ensures exists c :: c in pending && forall d :: d in pending ==> c.index <= d.index
    decreases |pending|
  {
    var c :| c in pending;
    if pending != {c} {
      assert pending - {c} != {};
      LowestExists(pending - {c});
      var e :| e in pending - {c} && forall d :: d in pending - {c} ==> e.index <= d.index;
      var low := if e.index <= c.index then e else c;
      assert low in pending && forall d :: d in pending ==> low.index <= d.index;
    }
  }
}
