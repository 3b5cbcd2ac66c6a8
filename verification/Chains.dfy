/** Intrusive doubly linked chains threaded through the entry pool, as facts about plain sequences. */
module Chains {
  import opened Words
  import opened Sequences
  import opened MapLogs

  /** Every entry is on two chains: its hash bucket's and its producer slot's. */
  datatype Kind = ByBucket | ByTask

  /** Pool indices; -1 means none. */
  datatype Link = Link(next: int, prev: int)

  const NO_LINK := Link(-1, -1)

  datatype TmEntry = TmEntry(rec: Rec, bucketIndex: int, bucket: Link, task: Link) {
    function At(k: Kind): Link {
      if k.ByBucket? then bucket else task
    }

    function With(k: Kind, l: Link): TmEntry {
      if k.ByBucket? then this.(bucket := l) else this.(task := l)
    }
  }

  type Pool = seq<TmEntry>

  ghost predicate InPool(pool: Pool, log: seq<int>) {
    forall i :: 0 <= i < |log| ==> 0 <= log[i] < |pool|
  }

  /** The log entries on list `v`, in log order. */
  function Pushed(chain: seq<int>, idx: int, front: bool): seq<int> {
    if front then [idx] + chain else chain
  }

  ghost function Select(pool: Pool, log: seq<int>, key: Rec -> nat, v: nat): seq<int>
    requires InPool(pool, log)
  {
    if log == [] then []
    else Pushed(Select(pool, log[1..], key, v), log[0], key(pool[log[0]].rec) == v)
  }

  function First(s: seq<int>): int {
    if s == [] then -1 else s[0]
  }

  function Last(s: seq<int>): int {
    if s == [] then -1 else s[|s| - 1]
  }

  function LinkAt(chain: seq<int>, i: nat): Link
    requires i < |chain|
  {
    Link(if i + 1 < |chain| then chain[i + 1] else -1, if i > 0 then chain[i - 1] else -1)
  }

  /** `head` starts a list whose mutually inverse links visit exactly `chain`. */
  ghost predicate IsChain(pool: Pool, k: Kind, head: int, chain: seq<int>)
    requires InPool(pool, chain)
  {
    head == First(chain) && forall i :: 0 <= i < |chain| ==> pool[chain[i]].At(k) == LinkAt(chain, i)
  }

  ghost predicate ChainOk(pool: Pool, head: int, key: Rec -> nat, k: Kind, log: seq<int>, v: nat)
    requires InPool(pool, log)
  {
    SelectMembers(pool, log, key, v);
    IsChain(pool, k, head, Select(pool, log, key, v))
  }

  ghost predicate ChainsOk(pool: Pool, heads: seq<int>, key: Rec -> nat, k: Kind, log: seq<int>)
  {
    && InPool(pool, log)
    && forall v :: 0 <= v < |heads| ==> ChainOk(pool, heads[v], key, k, log, v)
  }

  // ---- Selection ------------------------------------------------------------------------

  lemma {:induction false} SelectMembers(pool: Pool, log: seq<int>, key: Rec -> nat, v: nat)
    requires InPool(pool, log)
    ensures InPool(pool, Select(pool, log, key, v))
    ensures forall x :: x in Select(pool, log, key, v) <==> x in log && key(pool[x].rec) == v
  {
    if log != [] {
      SelectMembers(pool, log[1..], key, v);
    }
  }

  lemma {:induction false} SelectDistinct(pool: Pool, log: seq<int>, key: Rec -> nat, v: nat)
    requires InPool(pool, log) && Distinct(log)
    ensures Distinct(Select(pool, log, key, v))
  {
    if log != [] {
      SelectDistinct(pool, log[1..], key, v);
      SelectMembers(pool, log[1..], key, v);
    }
  }

  lemma {:induction false} SelectFrame(pool: Pool, pool': Pool, log: seq<int>, key: Rec -> nat, v: nat)
    requires InPool(pool, log) && InPool(pool', log)
    requires forall i :: 0 <= i < |log| ==> pool'[log[i]].rec == pool[log[i]].rec
    ensures Select(pool', log, key, v) == Select(pool, log, key, v)
  {
    if log != [] {
      SelectFrame(pool, pool', log[1..], key, v);
    }
  }

  lemma PushedAppend(a: seq<int>, b: seq<int>, idx: int, front: bool)
    ensures Pushed(a + b, idx, front) == Pushed(a, idx, front) + b
  {
  }

  lemma {:induction false} SelectAppend(pool: Pool, a: seq<int>, b: seq<int>, key: Rec -> nat, v: nat)
    requires InPool(pool, a) && InPool(pool, b)
    ensures InPool(pool, a + b)
    ensures Select(pool, a + b, key, v) == Select(pool, a, key, v) + Select(pool, b, key, v)
  {
    if a == [] {
      assert a + b == b;
    } else {
      assert (a + b)[1..] == a[1..] + b;
      SelectAppend(pool, a[1..], b, key, v);
      PushedAppend(Select(pool, a[1..], key, v), Select(pool, b, key, v), a[0], key(pool[a[0]].rec) == v);
    }
  }

  /** Chains depend only on the records and links of the log's entries. */
  lemma ChainsFrame(pool: Pool, pool': Pool, heads: seq<int>, key: Rec -> nat, k: Kind, log: seq<int>)
    requires ChainsOk(pool, heads, key, k, log) && |pool'| == |pool|
    requires forall i :: 0 <= i < |log| ==>
               pool'[log[i]].rec == pool[log[i]].rec && pool'[log[i]].At(k) == pool[log[i]].At(k)
    ensures ChainsOk(pool', heads, key, k, log)
  {
    forall v | 0 <= v < |heads| ensures ChainOk(pool', heads[v], key, k, log, v) {
      assert ChainOk(pool, heads[v], key, k, log, v);
      SelectFrame(pool, pool', log, key, v);
      SelectMembers(pool, log, key, v);
      ChainFrame(pool, pool', k, heads[v], Select(pool, log, key, v), log);
    }
  }

  lemma ChainFrame(pool: Pool, pool': Pool, k: Kind, head: int, chain: seq<int>, log: seq<int>)
    requires InPool(pool, log) && |pool'| == |pool| && (forall x :: x in chain ==> x in log)
    requires InPool(pool, chain) && IsChain(pool, k, head, chain)
    requires forall i :: 0 <= i < |log| ==> pool'[log[i]].At(k) == pool[log[i]].At(k)
    ensures IsChain(pool', k, head, chain)
  {
    forall i | 0 <= i < |chain| ensures pool'[chain[i]].At(k) == LinkAt(chain, i) {
      assert chain[i] in chain;
      var j :| 0 <= j < |log| && log[j] == chain[i];
    }
  }

  // ---- Linking in front -------------------------------------------------------------------

  function PushedPool(pool: Pool, heads: seq<int>, k: Kind, idx: int, v: nat): (p: Pool)
    requires 0 <= idx < |pool| && v < |heads| && -1 <= heads[v] < |pool|
    ensures |p| == |pool|
  {
    var p1 := pool[idx := pool[idx].With(k, Link(heads[v], -1))];
    if heads[v] != -1 then p1[heads[v] := p1[heads[v]].With(k, p1[heads[v]].At(k).(prev := idx))] else p1
  }

  lemma HeadInPool(pool: Pool, heads: seq<int>, key: Rec -> nat, k: Kind, log: seq<int>, v: nat)
    requires ChainsOk(pool, heads, key, k, log) && v < |heads|
    ensures -1 <= heads[v] < |pool|
    ensures heads[v] != -1 ==> heads[v] in log && key(pool[heads[v]].rec) == v
  {
    assert ChainOk(pool, heads[v], key, k, log, v);
    SelectMembers(pool, log, key, v);
  }

  lemma PushKeepsChains(pool: Pool, heads: seq<int>, key: Rec -> nat, k: Kind, log: seq<int>, idx: int, v: nat)
    requires ChainsOk(pool, heads, key, k, log)
    requires 0 <= idx < |pool| && idx !in log && Distinct(log) && v == key(pool[idx].rec) && v < |heads|
    ensures -1 <= heads[v] < |pool|
    ensures ChainsOk(PushedPool(pool, heads, k, idx, v), heads[v := idx], key, k, [idx] + log)
  {
    HeadInPool(pool, heads, key, k, log, v);
    var p, h, l := PushedPool(pool, heads, k, idx, v), heads[v := idx], [idx] + log;
    assert InPool(p, l);
    forall w | 0 <= w < |h| ensures ChainOk(p, h[w], key, k, l, w) {
      assert ChainOk(pool, heads[w], key, k, log, w);
      PushOneChain(pool, heads, key, k, log, idx, v, w);
      SelectPushed(pool, p, key, log, idx, v, w);
    }
  }

  lemma SelectPushed(pool: Pool, p: Pool, key: Rec -> nat, log: seq<int>, idx: int, v: nat, w: nat)
    requires InPool(pool, log) && |p| == |pool| && 0 <= idx < |pool|
    requires forall x :: 0 <= x < |pool| ==> p[x].rec == pool[x].rec
    requires v == key(pool[idx].rec)
    ensures InPool(p, [idx] + log)
    ensures Select(p, [idx] + log, key, w) == Pushed(Select(pool, log, key, w), idx, w == v)
  {
    assert ([idx] + log)[1..] == log;
    SelectFrame(pool, p, log, key, w);
  }

  lemma PushOneChain(pool: Pool, heads: seq<int>, key: Rec -> nat, k: Kind, log: seq<int>, idx: int, v: nat, w: nat)
    requires InPool(pool, log) && w < |heads| && v < |heads|
    requires 0 <= idx < |pool| && idx !in log && Distinct(log)
    requires -1 <= heads[v] < |pool| && (heads[v] != -1 ==> heads[v] in log && key(pool[heads[v]].rec) == v)
    requires ChainOk(pool, heads[w], key, k, log, w)
    ensures var p, chain := PushedPool(pool, heads, k, idx, v), Select(pool, log, key, w);
            var chain' := Pushed(chain, idx, w == v);
            InPool(p, chain') && IsChain(p, k, heads[v := idx][w], chain')
  {
    var p, chain := PushedPool(pool, heads, k, idx, v), Select(pool, log, key, w);
    SelectMembers(pool, log, key, w);
    SelectDistinct(pool, log, key, w);
    forall i | 0 <= i < |chain| ensures chain[i] != idx && (w != v ==> chain[i] != heads[v]) {
      assert chain[i] in chain;
    }
    if w == v {
      FrontChain(pool, heads, k, idx, v, chain);
    } else {
      OtherChain(pool, heads, k, idx, v, heads[w], chain);
    }
  }

  lemma OtherChain(pool: Pool, heads: seq<int>, k: Kind, idx: int, v: nat, head: int, chain: seq<int>)
    requires InPool(pool, chain) && IsChain(pool, k, head, chain)
    requires v < |heads| && 0 <= idx < |pool| && -1 <= heads[v] < |pool|
    requires forall i :: 0 <= i < |chain| ==> chain[i] != idx && chain[i] != heads[v]
    ensures InPool(PushedPool(pool, heads, k, idx, v), chain)
    ensures IsChain(PushedPool(pool, heads, k, idx, v), k, head, chain)
  {
    var p := PushedPool(pool, heads, k, idx, v);
    forall i | 0 <= i < |chain| ensures p[chain[i]] == pool[chain[i]] {
    }
  }

  lemma FrontChain(pool: Pool, heads: seq<int>, k: Kind, idx: int, v: nat, chain: seq<int>)
    requires InPool(pool, chain) && Distinct(chain) && v < |heads| && IsChain(pool, k, heads[v], chain)
    requires 0 <= idx < |pool| && forall i :: 0 <= i < |chain| ==> chain[i] != idx
    ensures InPool(PushedPool(pool, heads, k, idx, v), [idx] + chain)
    ensures IsChain(PushedPool(pool, heads, k, idx, v), k, idx, [idx] + chain)
  {
    var p, chain' := PushedPool(pool, heads, k, idx, v), [idx] + chain;
    forall i | 0 <= i < |chain'| ensures p[chain'[i]].At(k) == LinkAt(chain', i) {
      if i > 0 {
        assert chain'[i] == chain[i - 1] && pool[chain[i - 1]].At(k) == LinkAt(chain, i - 1);
        assert i > 1 ==> chain[i - 1] != chain[0];
      }
    }
  }

  // ---- Unlinking -------------------------------------------------------------------------

  function UnlinkedHeads(pool: Pool, heads: seq<int>, k: Kind, idx: int, v: nat): seq<int>
    requires 0 <= idx < |pool| && v < |heads|
  {
    if pool[idx].At(k).prev == -1 then heads[v := pool[idx].At(k).next] else heads
  }

  predicate LinksInPool(pool: Pool, k: Kind, idx: int) {
    0 <= idx < |pool| && -1 <= pool[idx].At(k).next < |pool| && -1 <= pool[idx].At(k).prev < |pool|
  }

  function UnlinkedPool(pool: Pool, k: Kind, idx: int): (p: Pool)
    requires LinksInPool(pool, k, idx)
    ensures |p| == |pool|
  {
    var l := pool[idx].At(k);
    var p1 := if l.prev == -1 then pool else pool[l.prev := pool[l.prev].With(k, pool[l.prev].At(k).(next := l.next))];
    if l.next == -1 then p1 else p1[l.next := p1[l.next].With(k, p1[l.next].At(k).(prev := l.prev))]
  }

  lemma SelectOne(pool: Pool, idx: int, key: Rec -> nat, v: nat)
    requires 0 <= idx < |pool|
    ensures Select(pool, [idx], key, v) == if key(pool[idx].rec) == v then [idx] else []
  {
    assert [idx][1..] == [];
  }

  lemma SplitSelect(pool: Pool, key: Rec -> nat, a: seq<int>, idx: int, b: seq<int>, w: nat)
    requires InPool(pool, a + [idx] + b)
    ensures InPool(pool, a) && InPool(pool, b) && InPool(pool, a + b) && 0 <= idx < |pool|
    ensures var sa, sb := Select(pool, a, key, w), Select(pool, b, key, w);
            && Select(pool, a + b, key, w) == sa + sb
            && Select(pool, a + [idx] + b, key, w) ==
               (if key(pool[idx].rec) == w then sa + [idx] + sb else sa + sb)
  {
    var log := a + [idx] + b;
    assert log[|a|] == idx;
    forall i | 0 <= i < |a| ensures 0 <= a[i] < |pool| { assert a[i] == log[i]; }
    forall i | 0 <= i < |b| ensures 0 <= b[i] < |pool| { assert b[i] == log[|a| + 1 + i]; }
    SelectAppend(pool, a + [idx], b, key, w);
    SelectAppend(pool, a, [idx], key, w);
    SelectAppend(pool, a, b, key, w);
    SelectOne(pool, idx, key, w);
    var sa := Select(pool, a, key, w);
    assert sa + [] == sa;
  }

  /** The links of an entry name its neighbours on its own chain. */
  lemma ChainAround(pool: Pool, heads: seq<int>, key: Rec -> nat, k: Kind, a: seq<int>, idx: int, b: seq<int>, v: nat)
    requires InPool(pool, a + [idx] + b) && v < |heads|
    requires ChainOk(pool, heads[v], key, k, a + [idx] + b, v)
    requires 0 <= idx < |pool| && v == key(pool[idx].rec)
    ensures InPool(pool, a) && InPool(pool, b)
    ensures var sa, sb := Select(pool, a, key, v), Select(pool, b, key, v);
            && InPool(pool, sa + [idx] + sb) && IsChain(pool, k, heads[v], sa + [idx] + sb)
            && pool[idx].At(k) == Link(First(sb), Last(sa))
            && LinksInPool(pool, k, idx)
  {
    SplitSelect(pool, key, a, idx, b, v);
    SelectMembers(pool, a, key, v);
    SelectMembers(pool, b, key, v);
    SelectMembers(pool, a + [idx] + b, key, v);
    var sa, sb := Select(pool, a, key, v), Select(pool, b, key, v);
    var chain := sa + [idx] + sb;
    assert chain[|sa|] == idx && pool[chain[|sa|]].At(k) == LinkAt(chain, |sa|);
    assert sb != [] ==> chain[|sa| + 1] == sb[0];
    assert sa != [] ==> chain[|sa| - 1] == sa[|sa| - 1];
  }

  lemma UnlinkedLink(pool: Pool, k: Kind, idx: int, x: int)
    requires LinksInPool(pool, k, idx) && 0 <= x < |pool|
    ensures UnlinkedPool(pool, k, idx)[x].At(k)
         == Link(if x == pool[idx].At(k).prev then pool[idx].At(k).next else pool[x].At(k).next,
                 if x == pool[idx].At(k).next then pool[idx].At(k).prev else pool[x].At(k).prev)
  {
  }

  /** Position `i` of the shortened chain is position `j` of the old one with one link rerouted at most. */
  lemma LinkAfterRemoval(sa: seq<int>, idx: int, sb: seq<int>, i: nat, j: nat)
    requires i < |sa + sb| && j == (if i < |sa| then i else i + 1) && Distinct(sa + [idx] + sb)
    requires forall x :: x in sa + [idx] + sb ==> x >= 0
    ensures var old_ := LinkAt(sa + [idx] + sb, j);
            var x := (sa + [idx] + sb)[j];
            && x == (sa + sb)[i]
            && LinkAt(sa + sb, i) == Link(if x == Last(sa) then First(sb) else old_.next,
                                          if x == First(sb) then Last(sa) else old_.prev)
  {
    var chain, n := sa + [idx] + sb, |sa|;
    assert chain[j] in chain;
    assert n > 0 ==> Last(sa) == chain[n - 1] && (j != n - 1 ==> chain[j] != chain[n - 1]);
    assert sb != [] ==> First(sb) == chain[n + 1] && (j != n + 1 ==> chain[j] != chain[n + 1]);
    assert i + 1 < |sa + sb| ==> (sa + sb)[i + 1] == chain[if i + 1 < n then i + 1 else i + 2];
    assert i > 0 ==> (sa + sb)[i - 1] == chain[if i - 1 < n then i - 1 else i];
  }

  lemma UnlinkOwnChain(pool: Pool, k: Kind, head: int, sa: seq<int>, idx: int, sb: seq<int>)
    requires InPool(pool, sa + [idx] + sb) && Distinct(sa + [idx] + sb)
    requires IsChain(pool, k, head, sa + [idx] + sb) && LinksInPool(pool, k, idx)
    requires pool[idx].At(k) == Link(First(sb), Last(sa))
    ensures InPool(UnlinkedPool(pool, k, idx), sa + sb)
    ensures IsChain(UnlinkedPool(pool, k, idx), k, if sa == [] then First(sb) else head, sa + sb)
  {
    var p, chain, chain' := UnlinkedPool(pool, k, idx), sa + [idx] + sb, sa + sb;
    forall i | 0 <= i < |chain'| ensures 0 <= chain'[i] < |p| && p[chain'[i]].At(k) == LinkAt(chain', i) {
      var j := if i < |sa| then i else i + 1;
      LinkAfterRemoval(sa, idx, sb, i, j);
      assert pool[chain[j]].At(k) == LinkAt(chain, j);
      UnlinkedLink(pool, k, idx, chain[j]);
    }
  }

  lemma OtherChainUntouched(pool: Pool, key: Rec -> nat, k: Kind, log: seq<int>, idx: int, head: int, w: nat)
    requires InPool(pool, log) && LinksInPool(pool, k, idx)
    requires ChainOk(pool, head, key, k, log, w)
    requires forall x :: (x == pool[idx].At(k).next || x == pool[idx].At(k).prev) && x != -1 ==>
               key(pool[x].rec) != w
    ensures InPool(UnlinkedPool(pool, k, idx), Select(pool, log, key, w))
    ensures IsChain(UnlinkedPool(pool, k, idx), k, head, Select(pool, log, key, w))
  {
    SelectMembers(pool, log, key, w);
    var chain := Select(pool, log, key, w);
    forall i | 0 <= i < |chain| ensures UnlinkedPool(pool, k, idx)[chain[i]] == pool[chain[i]] {
      assert chain[i] in chain;
    }
  }

  lemma UnlinkKeepsChains(pool: Pool, heads: seq<int>, key: Rec -> nat, k: Kind, a: seq<int>, idx: int,
                          b: seq<int>, v: nat)
    requires ChainsOk(pool, heads, key, k, a + [idx] + b) && Distinct(a + [idx] + b)
    requires 0 <= idx < |pool| && v == key(pool[idx].rec) && v < |heads|
    ensures LinksInPool(pool, k, idx)
    ensures ChainsOk(UnlinkedPool(pool, k, idx), UnlinkedHeads(pool, heads, k, idx, v), key, k, a + b)
  {
    assert ChainOk(pool, heads[v], key, k, a + [idx] + b, v);
    ChainAround(pool, heads, key, k, a, idx, b, v);
    SplitSelect(pool, key, a, idx, b, v);
    var p, h := UnlinkedPool(pool, k, idx), UnlinkedHeads(pool, heads, k, idx, v);
    forall w | 0 <= w < |h| ensures ChainOk(p, h[w], key, k, a + b, w) {
      assert ChainOk(pool, heads[w], key, k, a + [idx] + b, w);
      if w == v {
        UnlinkOwn(pool, heads, key, k, a, idx, b, v);
      } else {
        UnlinkOther(pool, heads, key, k, a, idx, b, v, w);
      }
    }
  }

  /** The own chain falls into the parts before and after the entry, and the shorter log selects both. */
  lemma UnlinkOwnSelected(pool: Pool, heads: seq<int>, key: Rec -> nat, k: Kind, a: seq<int>, idx: int, b: seq<int>,
                          v: nat)
    returns (sa: seq<int>, sb: seq<int>)
    requires InPool(pool, a + [idx] + b) && Distinct(a + [idx] + b)
    requires 0 <= idx < |pool| && v == key(pool[idx].rec) && v < |heads|
    requires ChainOk(pool, heads[v], key, k, a + [idx] + b, v)
    requires LinksInPool(pool, k, idx) && InPool(UnlinkedPool(pool, k, idx), a + b)
    ensures InPool(pool, sa + [idx] + sb) && Distinct(sa + [idx] + sb) && IsChain(pool, k, heads[v], sa + [idx] + sb)
    ensures pool[idx].At(k) == Link(First(sb), Last(sa)) && (sa == [] <==> Last(sa) == -1)
    ensures Select(UnlinkedPool(pool, k, idx), a + b, key, v) == sa + sb
  {
    ChainAround(pool, heads, key, k, a, idx, b, v);
    SplitSelect(pool, key, a, idx, b, v);
    SelectDistinct(pool, a + [idx] + b, key, v);
    LastIsNone(pool, a, key, v);
    SelectFrame(pool, UnlinkedPool(pool, k, idx), a + b, key, v);
    sa, sb := Select(pool, a, key, v), Select(pool, b, key, v);
  }

  lemma UnlinkOwn(pool: Pool, heads: seq<int>, key: Rec -> nat, k: Kind, a: seq<int>, idx: int, b: seq<int>, v: nat)
    requires InPool(pool, a + [idx] + b) && Distinct(a + [idx] + b)
    requires 0 <= idx < |pool| && v == key(pool[idx].rec) && v < |heads|
    requires ChainOk(pool, heads[v], key, k, a + [idx] + b, v)
    requires LinksInPool(pool, k, idx) && InPool(UnlinkedPool(pool, k, idx), a + b)
    ensures ChainOk(UnlinkedPool(pool, k, idx), UnlinkedHeads(pool, heads, k, idx, v)[v], key, k, a + b, v)
  {
    var sa, sb := UnlinkOwnSelected(pool, heads, key, k, a, idx, b, v);
    UnlinkOwnChain(pool, k, heads[v], sa, idx, sb);
  }

  lemma SelectWithout(pool: Pool, pool': Pool, key: Rec -> nat, a: seq<int>, idx: int, b: seq<int>, w: nat)
    requires InPool(pool, a + [idx] + b) && InPool(pool', a + b) && 0 <= idx < |pool| && key(pool[idx].rec) != w
    requires |pool'| == |pool| && forall x :: 0 <= x < |pool| ==> pool'[x].rec == pool[x].rec
    ensures Select(pool', a + b, key, w) == Select(pool, a + [idx] + b, key, w)
  {
    SplitSelect(pool, key, a, idx, b, w);
    SelectFrame(pool, pool', a + b, key, w);
  }

  lemma NeighboursElsewhere(pool: Pool, heads: seq<int>, key: Rec -> nat, k: Kind, a: seq<int>, idx: int,
                            b: seq<int>, v: nat)
    requires InPool(pool, a + [idx] + b) && v < |heads|
    requires ChainOk(pool, heads[v], key, k, a + [idx] + b, v)
    requires 0 <= idx < |pool| && v == key(pool[idx].rec)
    ensures LinksInPool(pool, k, idx)
    ensures pool[idx].At(k).next != -1 ==> key(pool[pool[idx].At(k).next].rec) == v
    ensures pool[idx].At(k).prev != -1 ==> key(pool[pool[idx].At(k).prev].rec) == v
  {
    ChainAround(pool, heads, key, k, a, idx, b, v);
    NeighbourKeys(pool, a, b, key, v);
  }

  lemma UnlinkOther(pool: Pool, heads: seq<int>, key: Rec -> nat, k: Kind, a: seq<int>, idx: int, b: seq<int>,
                    v: nat, w: nat)
    requires InPool(pool, a + [idx] + b)
    requires 0 <= idx < |pool| && v == key(pool[idx].rec) && v < |heads| && w < |heads| && w != v
    requires ChainOk(pool, heads[v], key, k, a + [idx] + b, v)
    requires ChainOk(pool, heads[w], key, k, a + [idx] + b, w)
    requires LinksInPool(pool, k, idx) && InPool(UnlinkedPool(pool, k, idx), a + b)
    ensures ChainOk(UnlinkedPool(pool, k, idx), UnlinkedHeads(pool, heads, k, idx, v)[w], key, k, a + b, w)
  {
    NeighboursElsewhere(pool, heads, key, k, a, idx, b, v);
    OtherChainUntouched(pool, key, k, a + [idx] + b, idx, heads[w], w);
    SelectWithout(pool, UnlinkedPool(pool, k, idx), key, a, idx, b, w);
  }

  lemma LastIsNone(pool: Pool, a: seq<int>, key: Rec -> nat, v: nat)
    requires InPool(pool, a)
    ensures Last(Select(pool, a, key, v)) == -1 <==> Select(pool, a, key, v) == []
  {
    SelectMembers(pool, a, key, v);
  }

  lemma NeighbourKeys(pool: Pool, a: seq<int>, b: seq<int>, key: Rec -> nat, v: nat)
    requires InPool(pool, a) && InPool(pool, b)
    ensures var x := First(Select(pool, b, key, v));
            x == -1 || (0 <= x < |pool| && key(pool[x].rec) == v)
    ensures var x := Last(Select(pool, a, key, v));
            x == -1 || (0 <= x < |pool| && key(pool[x].rec) == v)
  {
    SelectMembers(pool, a, key, v);
    SelectMembers(pool, b, key, v);
    var sa, sb := Select(pool, a, key, v), Select(pool, b, key, v);
    assert sb != [] ==> First(sb) in sb;
    assert sa != [] ==> Last(sa) in sa;
  }

  // ---- The pool ----------------------------------------------------------------------------

  /** Every index below `next` is exactly one of free or live, once. */
  ghost predicate PoolOk(log: seq<int>, free: seq<int>, next: nat, poolSize: nat) {
    && next <= poolSize
    && |log| + |free| == next
    && Distinct(log) && Distinct(free)
    && (forall x :: x in log ==> 0 <= x < next && x !in free)
    && (forall x :: x in free ==> 0 <= x < next)
  }

  lemma ConsDistinct(x: int, s: seq<int>)
    requires Distinct(s) && x !in s
    ensures Distinct([x] + s) && Distinct(s + [x])
  {
    forall i, j | 0 <= i < j < |s| + 1 ensures ([x] + s)[i] != ([x] + s)[j] && (s + [x])[i] != (s + [x])[j] {
      assert s[j - 1] in s && s[i] in s;
    }
  }

  lemma TailDistinct(x: int, s: seq<int>)
    requires Distinct([x] + s)
    ensures Distinct(s)
  {
    forall i, j | 0 <= i < j < |s| ensures s[i] != s[j] {
      assert ([x] + s)[i + 1] == s[i] && ([x] + s)[j + 1] == s[j];
    }
  }

  lemma TakeFree(log: seq<int>, free: seq<int>, next: nat, poolSize: nat)
    requires PoolOk(log, free, next, poolSize) && free != []
    ensures PoolOk([free[|free| - 1]] + log, free[..|free| - 1], next, poolSize)
    ensures free[|free| - 1] !in log && 0 <= free[|free| - 1] < poolSize
  {
    var n := |free| - 1;
    assert free[n] in free;
    ConsDistinct(free[n], log);
    forall x | x in free[..n] ensures x in free && x != free[n] {
      var i :| 0 <= i < n && free[..n][i] == x;
      assert free[i] == x;
    }
  }

  lemma TakeFresh(log: seq<int>, free: seq<int>, next: nat, poolSize: nat)
    requires PoolOk(log, free, next, poolSize) && next < poolSize
    ensures PoolOk([next] + log, free, next + 1, poolSize) && next !in log
  {
    ConsDistinct(next, log);
  }

  lemma CutDistinct(a: seq<int>, idx: int, b: seq<int>)
    requires Distinct(a + [idx] + b)
    ensures Distinct(a + b) && idx !in a + b
    ensures forall x :: x in a + b ==> x in a + [idx] + b
  {
    var log := a + [idx] + b;
    assert log[|a|] == idx;
    forall i | 0 <= i < |a + b| ensures (a + b)[i] == log[if i < |a| then i else i + 1] {
    }
  }

  lemma GiveBack(a: seq<int>, idx: int, b: seq<int>, free: seq<int>, next: nat, poolSize: nat)
    requires PoolOk(a + [idx] + b, free, next, poolSize)
    ensures PoolOk(a + b, free + [idx], next, poolSize) && |free| < poolSize && idx !in a + b
  {
    assert (a + [idx] + b)[|a|] == idx;
    assert idx in a + [idx] + b;
    CutDistinct(a, idx, b);
    ConsDistinct(idx, free);
  }

  /** Live entries remember their bucket. */
  ghost predicate BucketsKnown(pool: Pool, key: Rec -> nat, log: seq<int>)
    requires InPool(pool, log)
  {
    forall i :: 0 <= i < |log| ==> pool[log[i]].bucketIndex == key(pool[log[i]].rec)
  }

  ghost function Recs(pool: Pool, log: seq<int>): (l: Log)
    requires InPool(pool, log)
    ensures |l| == |log|
  {
    seq(|log|, i requires 0 <= i < |log| => pool[log[i]].rec)
  }

  lemma RecsAppend(pool: Pool, a: seq<int>, b: seq<int>)
    requires InPool(pool, a) && InPool(pool, b)
    ensures InPool(pool, a + b) && Recs(pool, a + b) == Recs(pool, a) + Recs(pool, b)
  {
  }

  lemma RecsFrame(pool: Pool, pool': Pool, log: seq<int>)
    requires InPool(pool, log) && InPool(pool', log)
    requires forall i :: 0 <= i < |log| ==> pool'[log[i]].rec == pool[log[i]].rec
    ensures Recs(pool', log) == Recs(pool, log)
  {
  }

  // ---- Linking an entry on both chains -------------------------------------------------------

  function Marked(e: TmEntry, producer: u32, bucket: nat): TmEntry {
    e.(rec := e.rec.(producer := producer), bucketIndex := bucket)
  }

  lemma MarkKeepsChains(pool: Pool, heads: seq<int>, key: Rec -> nat, k: Kind, log: seq<int>,
                        idx: int, producer: u32, bucket: nat)
    requires ChainsOk(pool, heads, key, k, log) && 0 <= idx < |pool| && idx !in log
    requires key(Marked(pool[idx], producer, bucket).rec) < |heads|
    ensures ChainsOk(pool[idx := Marked(pool[idx], producer, bucket)], heads, key, k, log)
    ensures var v := key(Marked(pool[idx], producer, bucket).rec);
            -1 <= heads[v] < |pool| && heads[v] != idx
  {
    ChainsFrame(pool, pool[idx := Marked(pool[idx], producer, bucket)], heads, key, k, log);
    HeadInPool(pool, heads, key, k, log, key(Marked(pool[idx], producer, bucket).rec));
  }

  /** After pushing an entry on its bucket and then on its task chain, both kinds of chain hold for the
      longer log. */
  lemma LinkedChains(pool: Pool, p1: Pool, p2: Pool, buckets: seq<int>, heads: seq<int>,
                     bucketKey: Rec -> nat, taskKey: Rec -> nat, log: seq<int>, idx: int, b: nat, slot: nat)
    requires Distinct(log) && 0 <= idx < |pool| && idx !in log && b < |buckets| && slot < |heads|
    requires ChainsOk(pool, buckets, bucketKey, ByBucket, log) && ChainsOk(pool, heads, taskKey, ByTask, log)
    requires b == bucketKey(pool[idx].rec) && slot == taskKey(pool[idx].rec)
    requires -1 <= buckets[b] < |pool| && -1 <= heads[slot] < |pool|
    requires p1 == PushedPool(pool, buckets, ByBucket, idx, b) && p2 == PushedPool(p1, heads, ByTask, idx, slot)
    ensures ChainsOk(p2, buckets[b := idx], bucketKey, ByBucket, [idx] + log)
    ensures ChainsOk(p2, heads[slot := idx], taskKey, ByTask, [idx] + log)
  {
    PushKeepsChains(pool, buckets, bucketKey, ByBucket, log, idx, b);
    ChainsFrame(pool, p1, heads, taskKey, ByTask, log);
    PushKeepsChains(p1, heads, taskKey, ByTask, log, idx, slot);
    ChainsFrame(p1, p2, buckets[b := idx], bucketKey, ByBucket, [idx] + log);
  }

  lemma LinkedRecords(pool: Pool, p1: Pool, p2: Pool, buckets: seq<int>, heads: seq<int>,
                      bucketKey: Rec -> nat, log: seq<int>, idx: int, b: nat, slot: nat, producer: u32)
    requires InPool(pool, log) && BucketsKnown(pool, bucketKey, log)
    requires 0 <= idx < |pool| && idx !in log && b < |buckets| && slot < |heads|
    requires -1 <= buckets[b] < |pool| && -1 <= heads[slot] < |pool|
    requires p1 == PushedPool(pool[idx := Marked(pool[idx], producer, b)], buckets, ByBucket, idx, b)
    requires p2 == PushedPool(p1, heads, ByTask, idx, slot)
    requires b == bucketKey(pool[idx].rec.(producer := producer))
    ensures InPool(p2, [idx] + log) && BucketsKnown(p2, bucketKey, [idx] + log)
    ensures Recs(p2, [idx] + log) == [pool[idx].rec.(producer := producer)] + Recs(pool, log)
  {
    var p0 := pool[idx := Marked(pool[idx], producer, b)];
    assert forall x :: 0 <= x < |pool| ==> p1[x].rec == p0[x].rec && p1[x].bucketIndex == p0[x].bucketIndex;
    assert forall x :: 0 <= x < |pool| ==> p2[x].rec == p0[x].rec && p2[x].bucketIndex == p0[x].bucketIndex;
    forall i | 0 <= i < |log|
      ensures p2[log[i]].rec == pool[log[i]].rec && p2[log[i]].bucketIndex == pool[log[i]].bucketIndex
    {
      assert log[i] in log;
    }
  }

  // ---- Walking a chain -------------------------------------------------------------------------

  lemma HeadIn(s: seq<int>)
    ensures s != [] ==> s[0] in s
  {
  }

  lemma FirstOnList(pool: Pool, log: seq<int>, key: Rec -> nat, v: nat) returns (q: nat)
    requires InPool(pool, log) && Select(pool, log, key, v) != []
    ensures q < |log| && key(pool[log[q]].rec) == v
    ensures forall i :: 0 <= i < q ==> key(pool[log[i]].rec) != v
  {
    SelectMembers(pool, log, key, v);
    assert Select(pool, log, key, v)[0] in log;
    q := 0;
    while key(pool[log[q]].rec) != v
      invariant q < |log| && forall i :: 0 <= i < q ==> key(pool[log[i]].rec) != v
      decreases |log| - q
    {
      assert exists i :: q < i < |log| && log[i] == Select(pool, log, key, v)[0];
      q := q + 1;
    }
  }

  /** The first entry of list `v`, and the entries before and after it. */
  lemma SplitFirst(pool: Pool, log: seq<int>, key: Rec -> nat, v: nat)
    returns (skip: seq<int>, rest: seq<int>)
    requires InPool(pool, log) && Select(pool, log, key, v) != []
    ensures var cur := Select(pool, log, key, v)[0];
            && log == skip + [cur] + rest
            && 0 <= cur < |pool| && key(pool[cur].rec) == v
            && InPool(pool, skip) && InPool(pool, rest)
            && Select(pool, log, key, v) == [cur] + Select(pool, rest, key, v)
            && forall i :: 0 <= i < |skip| ==> key(pool[skip[i]].rec) != v
  {
    var q := FirstOnList(pool, log, key, v);
    skip, rest := log[..q], log[q + 1..];
    assert log == skip + [log[q]] + rest;
    SplitSelect(pool, key, skip, log[q], rest, v);
    SelectMembers(pool, skip, key, v);
    HeadIn(Select(pool, skip, key, v));
  }

  /** While a slot is being cleared: its remaining entries can still be followed by `next`, and every
      other list is intact. */
  ghost predicate Clearing(pool: Pool, heads: seq<int>, key: Rec -> nat, log: seq<int>, slot: nat, rest: seq<int>)
    requires InPool(pool, log) && InPool(pool, rest)
  {
    && Select(pool, log, key, slot) == rest
    && (forall i :: 0 <= i < |rest| ==> pool[rest[i]].task.next == LinkAt(rest, i).next)
    && (forall w :: 0 <= w < |heads| && w != slot ==> ChainOk(pool, heads[w], key, ByTask, log, w))
  }

  /** Dropping the first remaining entry of the slot from the log continues the clearing. */
  lemma ClearStep(pool: Pool, pool': Pool, heads: seq<int>, key: Rec -> nat, a: seq<int>, cur: int, b: seq<int>,
                  slot: nat, rest: seq<int>)
    requires InPool(pool, a + [cur] + b) && InPool(pool, rest) && InPool(pool', a + b) && |pool'| == |pool|
    requires Distinct(a + [cur] + b) && rest != [] && rest[0] == cur
    requires Clearing(pool, heads, key, a + [cur] + b, slot, rest)
    requires forall x :: 0 <= x < |pool| ==> pool'[x].rec == pool[x].rec
    requires forall x :: 0 <= x < |pool| && x != cur ==> pool'[x].task == pool[x].task
    ensures InPool(pool', rest[1..]) && Clearing(pool', heads, key, a + b, slot, rest[1..])
  {
    var log := a + [cur] + b;
    SelectMembers(pool, log, key, slot);
    assert cur in rest && key(pool[cur].rec) == slot;
    SelectDistinct(pool, log, key, slot);
    forall i | 0 <= i < |rest[1..]|
      ensures pool'[rest[1..][i]].task.next == LinkAt(rest[1..], i).next
    {
      assert rest[1..][i] == rest[i + 1] != cur;
    }
    ClearedSelect(pool, pool', key, a, cur, b, slot, rest);
    forall w | 0 <= w < |heads| && w != slot ensures ChainOk(pool', heads[w], key, ByTask, a + b, w) {
      assert ChainOk(pool, heads[w], key, ByTask, log, w);
      SelectWithout(pool, pool', key, a, cur, b, w);
      SelectMembers(pool, log, key, w);
      var chain := Select(pool, log, key, w);
      forall i | 0 <= i < |chain| ensures pool'[chain[i]].task == pool[chain[i]].task {
        assert chain[i] in chain;
      }
    }
  }

  lemma ClearedSelect(pool: Pool, pool': Pool, key: Rec -> nat, a: seq<int>, cur: int, b: seq<int>, slot: nat,
                      rest: seq<int>)
    requires InPool(pool, a + [cur] + b) && InPool(pool', a + b) && |pool'| == |pool|
    requires Distinct(a + [cur] + b) && rest != [] && rest[0] == cur
    requires Select(pool, a + [cur] + b, key, slot) == rest && 0 <= cur < |pool| && key(pool[cur].rec) == slot
    requires forall x :: 0 <= x < |pool| ==> pool'[x].rec == pool[x].rec
    ensures Select(pool', a + b, key, slot) == rest[1..]
  {
    SplitSelect(pool, key, a, cur, b, slot);
    SelectFrame(pool, pool', a + b, key, slot);
    SelectMembers(pool, a, key, slot);
    CutDistinct(a, cur, b);
    FirstMatch(Select(pool, a, key, slot), cur, Select(pool, b, key, slot), rest);
  }

  lemma FirstMatch(sa: seq<int>, cur: int, sb: seq<int>, rest: seq<int>)
    requires rest == sa + [cur] + sb && rest[0] == cur && cur !in sa
    ensures sa + sb == rest[1..]
  {
    HeadIn(sa);
  }

  /** When no entry of the slot remains, an empty head makes all lists whole again. */
  lemma ClearDone(pool: Pool, heads: seq<int>, key: Rec -> nat, log: seq<int>, slot: nat)
    requires InPool(pool, log) && Clearing(pool, heads, key, log, slot, []) && slot < |heads|
    ensures ChainsOk(pool, heads[slot := -1], key, ByTask, log)
  {
    var h := heads[slot := -1];
    forall w | 0 <= w < |h| ensures ChainOk(pool, h[w], key, ByTask, log, w) {
      SelectMembers(pool, log, key, w);
      assert w != slot ==> ChainOk(pool, heads[w], key, ByTask, log, w);
    }
  }

  lemma ClearStart(pool: Pool, heads: seq<int>, key: Rec -> nat, log: seq<int>, slot: nat)
    requires ChainsOk(pool, heads, key, ByTask, log) && slot < |heads|
    ensures InPool(pool, Select(pool, log, key, slot))
    ensures Clearing(pool, heads, key, log, slot, Select(pool, log, key, slot))
    ensures heads[slot] == First(Select(pool, log, key, slot))
  {
    SelectMembers(pool, log, key, slot);
    assert ChainOk(pool, heads[slot], key, ByTask, log, slot);
  }
}
