/** Predecessor lists and ancestor bitsets (esl_proxy/include/algorithm/ring_buf.h). */
module Predecessors {
  import opened Words
  import opened BitWords

  // ---- Bitset rows ------------------------------------------------------------------------

  function RowSets(rows: seq<Row>): (r: Rows)
    ensures |r| == |rows|
  {
    seq(|rows|, t requires 0 <= t < |rows| => RowSet(rows[t]))
  }

  lemma RowSetsUpdate(rows: seq<Row>, t: nat, row: Row, s: set<nat>)
    requires t < |rows| && RowSet(row) == s
    ensures RowSets(rows[t := row]) == RowSets(rows)[t := s]
  {
  }

  // ---- What one call keeps and records --------------------------------------------------

  type Rows = seq<set<nat>>

  /** Another target already has target `i` as an ancestor. */
  predicate Redundant(targets: seq<nat>, i: nat, anc: Rows)
    requires i < |targets| && forall j :: 0 <= j < |targets| ==> targets[j] < |anc|
  {
    exists j :: 0 <= j < |targets| && j != i && targets[i] in anc[targets[j]]
  }

  predicate Keeps(targets: seq<nat>, i: nat, minTask: nat, dedup: bool, anc: Rows)
    requires i < |targets| && (dedup ==> forall j :: 0 <= j < |targets| ==> targets[j] < |anc|)
  {
    targets[i] >= minTask && !(dedup && Redundant(targets, i, anc))
  }

  /** The targets stored by the first `k` iterations, in order. */
  function KeptUpTo(targets: seq<nat>, k: nat, minTask: nat, dedup: bool, anc: Rows): seq<nat>
    requires k <= |targets| && (dedup ==> forall j :: 0 <= j < |targets| ==> targets[j] < |anc|)
  {
    if k == 0 then []
    else KeptUpTo(targets, k - 1, minTask, dedup, anc)
         + (if Keeps(targets, k - 1, minTask, dedup, anc) then [targets[k - 1]] else [])
  }

  function Kept(targets: seq<nat>, minTask: nat, dedup: bool, anc: Rows): seq<nat>
    requires dedup ==> forall j :: 0 <= j < |targets| ==> targets[j] < |anc|
  {
    KeptUpTo(targets, |targets|, minTask, dedup, anc)
  }

  lemma {:induction false} KeptMembers(targets: seq<nat>, k: nat, minTask: nat, dedup: bool, anc: Rows)
    requires k <= |targets| && (dedup ==> forall j :: 0 <= j < |targets| ==> targets[j] < |anc|)
    ensures |KeptUpTo(targets, k, minTask, dedup, anc)| <= k
    ensures forall m :: m in KeptUpTo(targets, k, minTask, dedup, anc) <==>
                        exists i :: 0 <= i < k && targets[i] == m && Keeps(targets, i, minTask, dedup, anc)
  {
    if k > 0 {
      KeptMembers(targets, k - 1, minTask, dedup, anc);
    }
  }

  /** Ancestor rows after the first `k` targets of `task` have been recorded. */
  function RecordedUpTo(anc: Rows, task: nat, targets: seq<nat>, k: nat): (r: Rows)
    requires task < |anc| && k <= |targets| && forall j :: 0 <= j < |targets| ==> targets[j] < |anc|
    ensures |r| == |anc|
  {
    if k == 0 then anc
    else
      var r := RecordedUpTo(anc, task, targets, k - 1);
      r[task := r[task] + {targets[k - 1]} + r[targets[k - 1]]]
  }

  function Recorded(anc: Rows, task: nat, targets: seq<nat>): Rows
    requires task < |anc| && forall j :: 0 <= j < |targets| ==> targets[j] < |anc|
  {
    RecordedUpTo(anc, task, targets, |targets|)
  }

  /** Setting the bit and then taking the union: also right when a task names itself. */
  lemma RecordStep(r: Rows, s: Rows, task: nat, m: nat)
    requires task < |r| && m < |r| && s == r[task := r[task] + {m}]
    ensures s[task := s[task] + s[m]] == r[task := r[task] + {m} + r[m]]
  {
    assert s[task] + s[m] == r[task] + {m} + r[m];
  }

  // ---- Predecessor lists ---------------------------------------------------------------------

  /** The filled part of the slot buffer, and per ring slot the list's length and first position. */
  datatype Lists = Lists(slots: seq<nat>, cnt: seq<nat>, exp: seq<nat>)

  /** What one call of add_predecessors does to the lists. */
  function Added(l: Lists, slot: nat, start: nat, kept: seq<nat>): Lists
    requires slot < |l.cnt| == |l.exp|
  {
    Lists(l.slots + kept,
          l.cnt[slot := start + |kept|],
          if l.cnt[slot] == 0 then l.exp[slot := |l.slots|] else l.exp)
  }

  ghost predicate InBuffer(l: Lists, slot: nat)
    requires slot < |l.cnt| == |l.exp|
  {
    l.cnt[slot] > 0 ==> l.exp[slot] + l.cnt[slot] <= |l.slots|
  }

  /** The list a reader of `exp` and `cnt` sees. */
  ghost function ListOf(l: Lists, slot: nat): seq<nat>
    requires slot < |l.cnt| == |l.exp| && InBuffer(l, slot)
  {
    if l.cnt[slot] == 0 then [] else l.slots[l.exp[slot]..l.exp[slot] + l.cnt[slot]]
  }

  /** Lists lie in the buffer and no two share a slot. */
  ghost predicate Tidy(l: Lists) {
    && |l.cnt| == |l.exp|
    && (forall s :: 0 <= s < |l.cnt| ==> InBuffer(l, s))
    && (forall s, r :: 0 <= s < |l.cnt| && 0 <= r < |l.cnt| && s != r && l.cnt[s] > 0 && l.cnt[r] > 0 ==>
          Apart(l, s, r))
  }

  predicate Apart(l: Lists, s: nat, r: nat)
    requires s < |l.cnt| == |l.exp| && r < |l.cnt|
  {
    l.exp[s] + l.cnt[s] <= l.exp[r] || l.exp[r] + l.cnt[r] <= l.exp[s]
  }

  /** No other list was written since this one was last extended. */
  ghost predicate AtTail(l: Lists, slot: nat)
    requires slot < |l.cnt| == |l.exp|
  {
    l.cnt[slot] > 0 ==> l.exp[slot] + l.cnt[slot] == |l.slots|
  }

  /** After the call a reader sees the old list followed by the kept targets. */
  ghost predicate Extends(l: Lists, slot: nat, start: nat, kept: seq<nat>)
    requires slot < |l.cnt| == |l.exp| && InBuffer(l, slot)
  {
    var m := Added(l, slot, start, kept);
    InBuffer(m, slot) && ListOf(m, slot) == ListOf(l, slot) + kept
  }

  lemma ExtendsAtTail(l: Lists, slot: nat, kept: seq<nat>)
    requires slot < |l.cnt| == |l.exp| && InBuffer(l, slot) && (AtTail(l, slot) || kept == [])
    ensures Extends(l, slot, l.cnt[slot], kept)
  {
  }

  /** A call with another `start` shows the reader a list of another length. */
  lemma WrongStart(l: Lists, slot: nat, start: nat, kept: seq<nat>)
    requires slot < |l.cnt| == |l.exp| && InBuffer(l, slot) && start != l.cnt[slot]
    ensures !Extends(l, slot, start, kept)
  {
    var m := Added(l, slot, start, kept);
    if InBuffer(m, slot) {
      assert |ListOf(m, slot)| == start + |kept| && |ListOf(l, slot) + kept| == l.cnt[slot] + |kept|;
    }
  }

  /** A call that comes after another list was written shows the reader the other list's slot. */
  lemma NotAtTail(l: Lists, slot: nat, n: nat)
    requires slot < |l.cnt| == |l.exp| && InBuffer(l, slot) && !AtTail(l, slot) && n > 0
    ensures var other := l.slots[l.exp[slot] + l.cnt[slot]];
            !Extends(l, slot, l.cnt[slot], seq(n, _ => other + 1))
  {
    var other := l.slots[l.exp[slot] + l.cnt[slot]];
    var m := Added(l, slot, l.cnt[slot], seq(n, _ => other + 1));
    if InBuffer(m, slot) {
      assert ListOf(m, slot)[l.cnt[slot]] == other;
    }
  }

  /** A call of `n` targets extends its list, whatever the targets are, if and only if `start` is the list's
      current length and no other list was written since this one was last extended. */
  lemma AddedExtends(l: Lists, slot: nat, start: nat, n: nat)
    requires slot < |l.cnt| == |l.exp| && InBuffer(l, slot)
    ensures (forall kept: seq<nat> :: |kept| == n ==> Extends(l, slot, start, kept)) <==>
              start == l.cnt[slot] && (n == 0 || AtTail(l, slot))
  {
    if start != l.cnt[slot] {
      WrongStart(l, slot, start, seq(n, _ => 0));
    } else if n == 0 || AtTail(l, slot) {
      forall kept: seq<nat> | |kept| == n ensures Extends(l, slot, start, kept) {
        ExtendsAtTail(l, slot, kept);
      }
    } else {
      NotAtTail(l, slot, n);
    }
  }

  /** Such a call leaves every other list as it was, and lists still share nothing. */
  lemma AddedKeepsOthers(l: Lists, slot: nat, kept: seq<nat>)
    requires Tidy(l) && slot < |l.cnt| && AtTail(l, slot)
    ensures var m := Added(l, slot, l.cnt[slot], kept);
            && Tidy(m) && AtTail(m, slot)
            && forall s :: 0 <= s < |l.cnt| && s != slot ==> ListOf(m, s) == ListOf(l, s)
  {
    var m := Added(l, slot, l.cnt[slot], kept);
    forall s | 0 <= s < |l.cnt| ensures InBuffer(m, s) && (s != slot ==> ListOf(m, s) == ListOf(l, s)) {
      assert InBuffer(l, s);
    }
    forall s, r | 0 <= s < |m.cnt| && 0 <= r < |m.cnt| && s != r && m.cnt[s] > 0 && m.cnt[r] > 0
      ensures Apart(m, s, r)
    {
      StillApart(l, slot, kept, s, r);
    }
  }

  lemma StillApart(l: Lists, slot: nat, kept: seq<nat>, s: nat, r: nat)
    requires Tidy(l) && slot < |l.cnt| && s < |l.cnt| && r < |l.cnt| && s != r && AtTail(l, slot)
    requires Added(l, slot, l.cnt[slot], kept).cnt[s] > 0 && Added(l, slot, l.cnt[slot], kept).cnt[r] > 0
    ensures Apart(Added(l, slot, l.cnt[slot], kept), s, r)
  {
    if s == slot {
      ExtendedApart(l, slot, kept, r);
    } else if r == slot {
      ExtendedApart(l, slot, kept, s);
    } else {
      assert Apart(l, s, r);
    }
  }

  lemma ExtendedApart(l: Lists, slot: nat, kept: seq<nat>, r: nat)
    requires Tidy(l) && slot < |l.cnt| && r < |l.cnt| && r != slot && l.cnt[r] > 0 && AtTail(l, slot)
    ensures Apart(Added(l, slot, l.cnt[slot], kept), slot, r)
    ensures Apart(Added(l, slot, l.cnt[slot], kept), r, slot)
  {
    assert InBuffer(l, r);
    if l.cnt[slot] > 0 {
      assert Apart(l, slot, r);
    }
  }

  /** A second call that starts over at 0 loses its targets to the reader: the list still ends after the first. */
  lemma RestartLosesTargets(l: Lists, slot: nat, a: nat, b: nat)
    requires Tidy(l) && slot < |l.cnt| && l.cnt[slot] == 0
    ensures var m := Added(Added(l, slot, 0, [a]), slot, 0, [b]);
            InBuffer(m, slot) && ListOf(m, slot) == [a]
  {
    var m := Added(Added(l, slot, 0, [a]), slot, 0, [b]);
    assert m.slots == l.slots + [a] + [b] && m.exp[slot] == |l.slots| && m.cnt[slot] == 1;
  }

  /** So does a call with the right start that another list's call has come before: the reader gets the other
      list's target `b` instead of `c`. */
  lemma InterruptedLosesTargets(l: Lists, slot: nat, other: nat, a: nat, b: nat, c: nat)
    requires Tidy(l) && slot < |l.cnt| && other < |l.cnt| && slot != other && l.cnt[slot] == l.cnt[other] == 0
    ensures var m := Added(Added(Added(l, slot, 0, [a]), other, 0, [b]), slot, 1, [c]);
            InBuffer(m, slot) && ListOf(m, slot) == [a, b]
  {
    var m := Added(Added(Added(l, slot, 0, [a]), other, 0, [b]), slot, 1, [c]);
    assert m.slots == l.slots + [a] + [b] + [c] && m.exp[slot] == |l.slots| && m.cnt[slot] == 2;
  }

  function Concat(parts: seq<seq<nat>>): seq<nat> {
    if parts == [] then [] else Concat(parts[..|parts| - 1]) + parts[|parts| - 1]
  }

  /** Calls for one task, each starting at the previous return value. */
  function AddedAll(l: Lists, slot: nat, parts: seq<seq<nat>>): (m: Lists)
    requires slot < |l.cnt| == |l.exp|
    ensures slot < |m.cnt| == |m.exp| == |l.cnt|
  {
    if parts == [] then l
    else
      var m := AddedAll(l, slot, parts[..|parts| - 1]);
      Added(m, slot, m.cnt[slot], parts[|parts| - 1])
  }

  /** Chained calls build one contiguous list, in call order. */
  lemma {:induction false} ChainedCalls(l: Lists, slot: nat, parts: seq<seq<nat>>)
    requires Tidy(l) && slot < |l.cnt| && l.cnt[slot] == 0
    ensures var m := AddedAll(l, slot, parts);
            && Tidy(m) && AtTail(m, slot)
            && ListOf(m, slot) == Concat(parts)
            && forall s :: 0 <= s < |l.cnt| && s != slot ==> ListOf(m, s) == ListOf(l, s)
  {
    if parts != [] {
      var p := parts[..|parts| - 1];
      ChainedCalls(l, slot, p);
      var m := AddedAll(l, slot, p);
      ExtendsAtTail(m, slot, parts[|parts| - 1]);
      AddedKeepsOthers(m, slot, parts[|parts| - 1]);
    }
  }

  class PredecessorStore {
    const ringSize: nat
    const dedup: bool
    /** The shared slot buffer and its tail. */
    const slots: array<u32>
    var tail: nat
    /** `g_predecessors[i].cnt` and `.exp`, the latter as an index into `slots`. */
    const cnt: array<nat>
    const exp: array<nat>
    /** `g_ancestors`. */
    const ancestors: array<Row>

    ghost function Repr(): set<object> {
      {this, slots, cnt, exp, ancestors}
    }

    ghost predicate Valid()
      reads this
    {
      && ringSize >= 64 && ringSize % 64 == 0 && U32_RANGE % ringSize == 0
      && tail <= slots.Length && cnt.Length == exp.Length == ringSize && cnt != exp
      && ancestors.Length == ringSize
    }

    ghost predicate RowsValid()
      reads ancestors
    {
      forall t :: 0 <= t < ancestors.Length ==> 64 * |ancestors[t]| == ringSize
    }

    constructor (ringSize: nat, capacity: nat, dedup: bool)
      requires ringSize >= 64 && ringSize % 64 == 0 && U32_RANGE % ringSize == 0
      ensures Valid() && RowsValid() && fresh(Repr()) && this.ringSize == ringSize && this.dedup == dedup
      ensures slots.Length == capacity && tail == 0 && View() == Lists([], seq(ringSize, _ => 0), seq(ringSize, _ => 0))
      ensures AncRows() == seq(ringSize, _ => {})
    {
      this.ringSize, this.dedup := ringSize, dedup;
      slots, tail := new u32[capacity], 0;
      cnt, exp := new nat[ringSize](_ => 0), new nat[ringSize](_ => 0);
      ancestors := new Row[ringSize](_ => seq(ringSize / 64, _ => 0));
      new;
      NoBits(ringSize / 64);
      assert forall t :: 0 <= t < ringSize ==> RowSets(ancestors[..])[t] == {};
    }

    ghost function AncRows(): (r: Rows)
      reads ancestors
      ensures |r| == ancestors.Length
    {
      RowSets(ancestors[..])
    }

    ghost function View(): Lists
      requires tail <= slots.Length
      reads this, slots, cnt, exp
    {
      Lists(slots[..tail], cnt[..], exp[..])
    }

    /** ancestor_test. */
    method AncestorTest(task: nat, candidate: nat) returns (r: bool)
      requires Valid() && RowsValid() && task < ringSize && candidate < ringSize
      ensures r <==> candidate in AncRows()[task]
    {
      r := Bit(ancestors[task][candidate / 64], candidate % 64);
    }

    /** ancestor_set_bit. */
    method AncestorSetBit(task: nat, candidate: nat)
      requires Valid() && RowsValid() && task < ringSize && candidate < ringSize
      modifies ancestors
      ensures RowsValid()
      ensures AncRows() == old(AncRows())[task := old(AncRows())[task] + {candidate}]
    {
      ghost var rows := ancestors[..];
      var w := candidate / 64;
      ancestors[task] := ancestors[task][w := Or(ancestors[task][w], OneBit(candidate % 64))];
      SetRowBit(rows[task], candidate);
      RowSetsUpdate(rows, task, ancestors[task], RowSet(rows[task]) + {candidate});
      assert ancestors[..] == rows[task := ancestors[task]];
    }

    /** ancestor_union. */
    method AncestorUnion(dst: nat, src: nat)
      requires Valid() && RowsValid() && dst < ringSize && src < ringSize
      modifies ancestors
      ensures RowsValid()
      ensures AncRows() == old(AncRows())[dst := old(AncRows())[dst] + old(AncRows())[src]]
    {
      ghost var a, b, rows := ancestors[dst], ancestors[src], ancestors[..];
      for w := 0 to ringSize / 64
        invariant |ancestors[dst]| == |a| && ancestors[..] == rows[dst := ancestors[dst]]
        invariant forall v :: 0 <= v < |a| ==> ancestors[dst][v] == if v < w then Or(a[v], b[v]) else a[v]
      {
        ancestors[dst] := ancestors[dst][w := Or(ancestors[dst][w], ancestors[src][w])];
      }
      OrRows(a, b, ancestors[dst]);
      RowSetsUpdate(rows, dst, ancestors[dst], RowSet(a) + RowSet(b));
    }

    /** The redundancy loop of add_predecessors. */
    method IsRedundant(targets: seq<u32>, i: nat) returns (r: bool)
      requires Valid() && RowsValid() && i < |targets| && forall j :: 0 <= j < |targets| ==> targets[j] < ringSize
      ensures r <==> Redundant(targets, i, AncRows())
    {
      r := false;
      for j := 0 to |targets|
        invariant !r && forall k :: 0 <= k < j && k != i ==> targets[i] !in AncRows()[targets[k]]
      {
        if j != i {
          r := AncestorTest(targets[j], targets[i]);
          if r {
            return;
          }
        }
      }
    }

    /** The recording loop of add_predecessors. */
    method RecordAncestors(task: nat, targets: seq<u32>)
      requires Valid() && RowsValid() && task < ringSize && forall j :: 0 <= j < |targets| ==> targets[j] < ringSize
      modifies ancestors
      ensures RowsValid()
      ensures AncRows() == Recorded(old(AncRows()), task, targets)
    {
      for i := 0 to |targets|
        invariant RowsValid() && AncRows() == RecordedUpTo(old(AncRows()), task, targets, i)
      {
        ghost var r, m := AncRows(), targets[i] as nat;
        AncestorSetBit(task, targets[i]);
        ghost var s := AncRows();
        AncestorUnion(task, targets[i]);
        RecordStep(r, s, task, m);
      }
    }

    /** The appending loop of add_predecessors. */
    method AppendKept(targets: seq<u32>, minTask: nat, ghost kept: seq<nat>) returns (stored: nat)
      requires Valid() && RowsValid() && tail + |targets| <= slots.Length
      requires dedup ==> forall j :: 0 <= j < |targets| ==> targets[j] < ringSize
      requires kept == Kept(targets, minTask, dedup, AncRows())
      modifies this`tail, slots
      ensures stored == |kept| && tail == old(tail) + stored <= slots.Length
      ensures slots[..old(tail)] == old(slots[..tail]) && slots[old(tail)..tail] == kept
    {
      stored := 0;
      KeptMembers(targets, 0, minTask, dedup, AncRows());
      for i := 0 to |targets|
        invariant stored <= i && tail == old(tail) + stored <= slots.Length
        invariant slots[..old(tail)] == old(slots[..tail])
        invariant slots[old(tail)..tail] == KeptUpTo(targets, i, minTask, dedup, AncRows())
      {
        if targets[i] < minTask {
          continue;
        }
        if dedup {
          var redundant := IsRedundant(targets, i);
          if redundant {
            continue;
          }
        }
        slots[tail] := targets[i];
        tail := tail + 1;
        stored := stored + 1;
      }
    }

    /** add_predecessors with a single writer and room in the slot buffer. */
    method AddPredecessors(task: u32, targets: seq<u32>, start: nat, minTask: nat) returns (n: nat)
      requires Valid() && RowsValid() && tail + |targets| <= slots.Length
      requires dedup ==> task < ringSize && forall j :: 0 <= j < |targets| ==> targets[j] < ringSize
      modifies this`tail, slots, cnt, exp, ancestors
      ensures Valid() && RowsValid()
      ensures var kept := Kept(targets, minTask, dedup, old(AncRows()));
              && n == start + |kept|
              && View() == Added(old(View()), task % ringSize, start, kept)
      ensures AncRows() == if dedup then Recorded(old(AncRows()), task, targets) else old(AncRows())
    {
      var slot := task % ringSize;
      ghost var kept := Kept(targets, minTask, dedup, AncRows());
      if cnt[slot] <= 0 {
        exp[slot] := tail;
      }
      var stored := AppendKept(targets, minTask, kept);
      n := start + stored;
      cnt[slot] := n;
      if dedup {
        RecordAncestors(task, targets);
      }
      assert slots[..tail] == slots[..old(tail)] + slots[old(tail)..tail];
    }
  }
}
