/** The synthetic layered graph in offset/count form (tools/gen_synthetic_dag.py). */
module Synthetics {
  import opened Words
  import opened Sequences

  // ---- Task ids of one subgraph -----------------------------------------------------------------

  /** Per wave one contiguous slice of `per` ids. */
  function IdsOf(width: nat, per: nat, thread: nat, depth: nat): seq<nat> {
    if depth == 0 then [] else IdsOf(width, per, thread, depth - 1) + Slice((depth - 1) * width + thread * per, per)
  }

  function Slice(base: nat, n: nat): (s: seq<nat>)
    ensures |s| == n && forall i :: 0 <= i < n ==> s[i] == base + i
  {
    seq(n, i requires 0 <= i < n => base + i)
  }

  method GenerateTaskIds(taskCnt: nat, chainDepth: nat, threadIdx: nat, threadCnt: nat) returns (ids: seq<nat>)
    requires chainDepth > 0 && threadCnt > 0
    ensures ids == IdsOf(taskCnt / chainDepth, taskCnt / chainDepth / threadCnt, threadIdx, chainDepth)
  {
    var tasksPerWave: nat := taskCnt / chainDepth;
    var perThread: nat := tasksPerWave / threadCnt;
    ids := [];
    for wave := 0 to chainDepth
      invariant ids == IdsOf(tasksPerWave, perThread, threadIdx, wave)
    {
      var base: nat := wave * tasksPerWave + threadIdx * perThread;
      ghost var before := ids;
      for i := 0 to perThread
        invariant ids == before + Slice(base, i)
      {
        assert Slice(base, i + 1) == Slice(base, i) + [base + i];
        ids := ids + [base + i];
      }
    }
  }

  /** An id is in the subgraph exactly when its position in its wave falls into the thread's slice. */
  lemma IdsExact(width: nat, per: nat, thread: nat, depth: nat, x: nat)
    requires width > 0 && thread * per + per <= width
    ensures x in IdsOf(width, per, thread, depth)
       <==> x / width < depth && thread * per <= x % width < thread * per + per
  {
    IdsBelow(width, per, thread, depth, x, x / width, x % width);
  }

  lemma {:induction false} IdsBelow(width: nat, per: nat, thread: nat, depth: nat, x: nat, q: nat, r: nat)
    requires r < width && x == q * width + r && thread * per + per <= width
    ensures x in IdsOf(width, per, thread, depth) <==> q < depth && thread * per <= r < thread * per + per
  {
    if depth > 0 {
      IdsBelow(width, per, thread, depth - 1, x, q, r);
      LastWave(width, per, thread, depth, x, (depth - 1) * width + thread * per);
      InSlice(width, depth - 1, thread * per, per, x, q, r);
    }
  }

  lemma LastWave(width: nat, per: nat, thread: nat, depth: nat, x: nat, base: nat)
    requires depth > 0 && base == (depth - 1) * width + thread * per
    ensures x in IdsOf(width, per, thread, depth)
       <==> x in IdsOf(width, per, thread, depth - 1) || x in Slice(base, per)
  {
  }

  lemma InSlice(width: nat, wave: nat, from: nat, per: nat, x: nat, q: nat, r: nat)
    requires r < width && x == q * width + r && from + per <= width
    ensures x in Slice(wave * width + from, per) <==> q == wave && from <= r < from + per
  {
    var base := wave * width + from;
    if base <= x < base + per {
      QuotientIs(x, wave, x - wave * width, width);
      QuotientIs(x, q, r, width);
      assert Slice(base, per)[x - base] == x;
    }
  }

  lemma SliceFits(width: nat, threads: nat, thread: nat)
    requires thread < threads
    ensures thread * (width / threads) + width / threads <= threads * (width / threads) <= width
  {
    NextSliceFits(thread, threads, width / threads);
  }

  lemma NextSliceFits(thread: nat, threads: nat, per: nat)
    requires thread < threads
    ensures thread * per + per <= threads * per
  {
    assert (thread + 1) * per <= threads * per;
  }

  /** The subgraph lists its ids wave by wave. */
  lemma {:induction false} IdsAt(width: nat, per: nat, thread: nat, depth: nat, q: nat, r: nat)
    requires q < depth && r < per
    ensures q * per + r < |IdsOf(width, per, thread, depth)|
    ensures IdsOf(width, per, thread, depth)[q * per + r] == q * width + thread * per + r
  {
    IdsCount(width, per, thread, depth - 1);
    IdsCount(width, per, thread, depth);
    NextSliceFits(q, depth, per);
    if q < depth - 1 {
      NextSliceFits(q, depth - 1, per);
      IdsAt(width, per, thread, depth - 1, q, r);
    }
  }

  lemma LaterId(width: nat, low: nat, per: nat, q: nat, r: nat, u: nat, v: nat)
    requires low + per <= width && r < per && (q < u || (q == u && r < v))
    ensures q * width + low + r < u * width + low + v
  {
    if q < u {
      NextSliceFits(q, u, width);
    }
  }

  lemma Place(i: nat, per: nat, depth: nat) returns (q: nat, r: nat)
    requires i < depth * per
    ensures q < depth && r < per && i == q * per + r
  {
    q, r := i / per, i % per;
    CancelFactor(q, depth, per);
  }

  lemma PlacesInOrder(q: nat, r: nat, u: nat, v: nat, per: nat)
    requires r < per && v < per && q * per + r < u * per + v
    ensures q < u || (q == u && r < v)
  {
    if u < q {
      NextSliceFits(u, q, per);
    }
  }

  /** The ids of a subgraph are listed in increasing order. */
  lemma IdsIncrease(width: nat, per: nat, thread: nat, depth: nat, i: nat, j: nat)
    requires thread * per + per <= width && i < j < |IdsOf(width, per, thread, depth)|
    ensures IdsOf(width, per, thread, depth)[i] < IdsOf(width, per, thread, depth)[j]
  {
    IdsCount(width, per, thread, depth);
    var q, r := Place(i, per, depth);
    var u, v := Place(j, per, depth);
    PlacesInOrder(q, r, u, v, per);
    InOrder(width, per, thread, depth, q, r, i, u, v, j);
  }

  lemma InOrder(width: nat, per: nat, thread: nat, depth: nat, q: nat, r: nat, i: nat, u: nat, v: nat, j: nat)
    requires thread * per + per <= width && q < depth && u < depth && r < per && v < per
    requires (q < u || (q == u && r < v)) && i == q * per + r && j == u * per + v
    ensures i < |IdsOf(width, per, thread, depth)| && j < |IdsOf(width, per, thread, depth)|
    ensures IdsOf(width, per, thread, depth)[i] < IdsOf(width, per, thread, depth)[j]
  {
    LaterId(width, thread * per, per, q, r, u, v);
    IdIs(width, per, thread, depth, q, r, i, q * width + thread * per + r);
    IdIs(width, per, thread, depth, u, v, j, u * width + thread * per + v);
  }

  lemma IdIs(width: nat, per: nat, thread: nat, depth: nat, q: nat, r: nat, i: nat, x: nat)
    requires q < depth && r < per && i == q * per + r && x == q * width + thread * per + r
    ensures i < |IdsOf(width, per, thread, depth)| && IdsOf(width, per, thread, depth)[i] == x
  {
    IdsAt(width, per, thread, depth, q, r);
  }

  lemma {:induction false} IdsCount(width: nat, per: nat, thread: nat, depth: nat)
    ensures |IdsOf(width, per, thread, depth)| == depth * per
  {
    if depth > 0 {
      IdsCount(width, per, thread, depth - 1);
    }
  }

  predicate InSubgraph(width: nat, threads: nat, depth: nat, t: nat, x: nat)
    requires threads > 0
  {
    t < threads && x in IdsOf(width, width / threads, t, depth)
  }

  ghost predicate Covered(width: nat, threads: nat, depth: nat, x: nat)
    requires threads > 0
  {
    exists t: nat :: InSubgraph(width, threads, depth, t, x)
  }

  /** No id is in two subgraphs. */
  lemma SubgraphsDisjoint(width: nat, threads: nat, depth: nat, t: nat, u: nat, x: nat)
    requires width > 0 && threads > 0
    requires InSubgraph(width, threads, depth, t, x) && InSubgraph(width, threads, depth, u, x)
    ensures t == u
  {
    var per := width / threads;
    SliceFits(width, threads, t);
    SliceFits(width, threads, u);
    IdsExact(width, per, t, depth, x);
    IdsExact(width, per, u, depth, x);
    SameSlice(t, u, per, x % width);
  }

  /** An id is in some subgraph exactly when its position in the wave is below the threads' equal slices. */
  lemma CoveredExact(width: nat, threads: nat, depth: nat, x: nat)
    requires width > 0 && threads > 0
    ensures Covered(width, threads, depth, x) <==> x / width < depth && x % width < threads * (width / threads)
  {
    var per := width / threads;
    if Covered(width, threads, depth, x) {
      var t: nat :| InSubgraph(width, threads, depth, t, x);
      SliceFits(width, threads, t);
      IdsExact(width, per, t, depth, x);
    } else if x / width < depth && x % width < threads * per {
      var t := SliceOf(x % width, threads, per);
      SliceFits(width, threads, t);
      IdsExact(width, per, t, depth, x);
      assert InSubgraph(width, threads, depth, t, x);
    }
  }

  lemma SliceOf(x: nat, threads: nat, per: nat) returns (t: nat)
    requires x < threads * per
    ensures t < threads && t * per <= x < t * per + per
  {
    t := x / per;
    CancelFactor(t, threads, per);
  }

  /** The subgraphs hold all ids of all layers exactly when the thread count divides the layer width. */
  lemma SubgraphsPartition(width: nat, threads: nat, depth: nat)
    requires width > 0 && threads > 0 && depth > 0
    ensures (forall x: nat :: x / width < depth ==> Covered(width, threads, depth, x)) <==> width % threads == 0
  {
    var used := threads * (width / threads);
    assert used + width % threads == width;
    forall x: nat ensures Covered(width, threads, depth, x) <==> x / width < depth && x % width < used {
      CoveredExact(width, threads, depth, x);
    }
    QuotientIs(width - 1, 0, width - 1, width);
    assert Covered(width, threads, depth, width - 1) <==> width - 1 < used;
  }

  lemma SameSlice(t: nat, u: nat, per: nat, x: nat)
    requires t * per <= x < t * per + per && u * per <= x < u * per + per
    ensures t == u
  {
    QuotientIs(x, t, x - t * per, per);
    QuotientIs(x, u, x - u * per, per);
  }

  // ---- Predecessors in offset/count form ----------------------------------------------------------

  function Layer(layerSize: nat, i: nat): nat
    requires layerSize > 0
  {
    i / layerSize
  }

  function CntOf(pre: nat, layerSize: nat, i: nat): nat
    requires layerSize > 0
  {
    if Layer(layerSize, i) == 0 then 0 else Min(pre, layerSize)
  }

  /** Position of the k-th predecessor of position `i`: one layer up, wrapping inside the layer. */
  function PredPos(layerSize: nat, i: nat, k: nat): (p: nat)
    requires layerSize > 0 && Layer(layerSize, i) > 0
    ensures p < i && Layer(layerSize, p) == Layer(layerSize, i) - 1
  {
    var layer, pos := i / layerSize, (i % layerSize + k) % layerSize;
    PosBelow(layerSize, i, pos);
    (layer - 1) * layerSize + pos
  }

  lemma PosBelow(layerSize: nat, i: nat, pos: nat)
    requires layerSize > 0 && Layer(layerSize, i) > 0 && pos < layerSize
    ensures var p := (i / layerSize - 1) * layerSize + pos;
            0 <= p < i && p / layerSize == i / layerSize - 1
  {
    var layer := i / layerSize;
    QuotientIs((layer - 1) * layerSize + pos, layer - 1, pos, layerSize);
    assert (layer - 1) * layerSize + layerSize == layer * layerSize;
  }

  function PredsOf(ids: seq<nat>, pre: nat, layerSize: nat, i: nat): (s: seq<nat>)
    requires layerSize > 0 && i < |ids|
    ensures |s| == CntOf(pre, layerSize, i)
  {
    seq(CntOf(pre, layerSize, i),
        k requires 0 <= k < CntOf(pre, layerSize, i) && layerSize > 0 && i < |ids| => ids[PredPos(layerSize, i, k)])
  }

  /** Task `i` has its count, its offset is the prefix sum, and its list is found there. */
  ghost predicate Listed(ids: seq<nat>, pre: nat, layerSize: nat, cnts: seq<nat>, offsets: seq<nat>,
                         preds: seq<nat>, i: nat)
    requires layerSize > 0 && i < |ids| && i < |cnts| == |offsets|
  {
    && cnts[i] == CntOf(pre, layerSize, i) && offsets[i] == Offset(cnts, i) && offsets[i] + cnts[i] <= |preds|
    && preds[offsets[i]..offsets[i] + cnts[i]] == PredsOf(ids, pre, layerSize, i)
  }

  lemma ListedMore(ids: seq<nat>, pre: nat, layerSize: nat, cnts: seq<nat>, offsets: seq<nat>, preds: seq<nat>)
    requires layerSize > 0 && |cnts| == |offsets| < |ids| && |preds| == Offset(cnts, |cnts|)
    requires forall j :: 0 <= j < |cnts| ==> Listed(ids, pre, layerSize, cnts, offsets, preds, j)
    ensures var want := PredsOf(ids, pre, layerSize, |cnts|);
            && Offset(cnts + [|want|], |cnts| + 1) == |preds + want|
            && forall j :: 0 <= j <= |cnts| ==>
                 Listed(ids, pre, layerSize, cnts + [|want|], offsets + [|preds|], preds + want, j)
  {
    var want := PredsOf(ids, pre, layerSize, |cnts|);
    OffsetMore(cnts, |want|);
    forall j | 0 <= j <= |cnts|
      ensures Listed(ids, pre, layerSize, cnts + [|want|], offsets + [|preds|], preds + want, j)
    {
      if j < |cnts| {
        assert Listed(ids, pre, layerSize, cnts, offsets, preds, j);
      }
    }
  }

  /** The task at position `s` of the layer that begins at `base` is listed exactly when `s` is among the `pre`
      positions from `r` on, around the layer. */
  predicate WaitsRight(ids: seq<nat>, list: seq<nat>, pre: nat, layerSize: nat, base: nat, r: nat, s: nat)
    requires layerSize > 0
  {
    base + s < |ids| ==> (ids[base + s] in list <==> (s - r) % layerSize < pre)
  }

  /** Said by position: the count of task `i`, and which tasks of the layer before its own it waits for. */
  ghost predicate PredsRight(ids: seq<nat>, pre: nat, layerSize: nat, cnts: seq<nat>, offsets: seq<nat>,
                             preds: seq<nat>, i: nat)
    requires layerSize > 0 && i < |ids| == |cnts| == |offsets|
  {
    var layer, r := i / layerSize, i % layerSize;
    && offsets[i] + cnts[i] <= |preds|
    && cnts[i] == (if layer == 0 then 0 else if pre < layerSize then pre else layerSize)
    && (layer > 0 ==>
          var list, base := preds[offsets[i]..offsets[i] + cnts[i]], Above(layer, layerSize);
          forall s :: 0 <= s < layerSize ==> WaitsRight(ids, list, pre, layerSize, base, r, s))
  }

  /** Where the layer before a layer begins. */
  function Above(layer: nat, layerSize: nat): nat
    requires layer > 0
  {
    (layer - 1) * layerSize
  }

  /** Stepping `k` on from `r` around the layer arrives at `s` exactly when `k` is the distance. */
  lemma StepsTo(layerSize: nat, r: nat, k: nat, s: nat)
    requires r < layerSize && k < layerSize && s < layerSize
    ensures (r + k) % layerSize == s <==> k == (s - r) % layerSize
  {
    if r + k < layerSize {
      QuotientIs(r + k, 0, r + k, layerSize);
    } else {
      QuotientIs(r + k, 1, r + k - layerSize, layerSize);
    }
    if s >= r {
      QuotientIs(s - r, 0, s - r, layerSize);
    } else {
      QuotientIs(s - r, -1, s - r + layerSize, layerSize);
    }
  }

  lemma ListHas(ids: seq<nat>, pre: nat, layerSize: nat, i: nat, s: nat)
    requires layerSize > 0 && i < |ids| && Distinct(ids) && Layer(layerSize, i) > 0 && s < layerSize
    ensures WaitsRight(ids, PredsOf(ids, pre, layerSize, i), pre, layerSize, Above(i / layerSize, layerSize),
                       i % layerSize, s)
  {
    var list, r, m := PredsOf(ids, pre, layerSize, i), i % layerSize, Above(i / layerSize, layerSize) + s;
    var k := (s - r) % layerSize;
    StepsTo(layerSize, r, k, s);
    if k < pre && m < |ids| {
      assert list[k] == ids[PredPos(layerSize, i, k)] == ids[m];
    }
    if m < |ids| && ids[m] in list {
      var j :| 0 <= j < |list| && list[j] == ids[m];
      assert PredPos(layerSize, i, j) == m;
      StepsTo(layerSize, r, j, s);
    }
  }

  lemma ListedRight(ids: seq<nat>, pre: nat, layerSize: nat, cnts: seq<nat>, offsets: seq<nat>, preds: seq<nat>,
                    i: nat)
    requires layerSize > 0 && i < |ids| == |cnts| == |offsets| && Distinct(ids)
    requires Listed(ids, pre, layerSize, cnts, offsets, preds, i)
    ensures PredsRight(ids, pre, layerSize, cnts, offsets, preds, i)
  {
    if Layer(layerSize, i) > 0 {
      forall s | 0 <= s < layerSize
        ensures WaitsRight(ids, PredsOf(ids, pre, layerSize, i), pre, layerSize, Above(i / layerSize, layerSize),
                           i % layerSize, s)
      {
        ListHas(ids, pre, layerSize, i, s);
      }
    }
  }

  /** The inner loop: the list of one task. */
  method AppendPreds(ids: seq<nat>, pre: nat, layerSize: nat, i: nat, preds0: seq<nat>)
    returns (cnt: nat, preds: seq<nat>)
    requires layerSize > 0 && i < |ids|
    ensures cnt == CntOf(pre, layerSize, i) && preds == preds0 + PredsOf(ids, pre, layerSize, i)
  {
    cnt, preds := 0, preds0;
    ghost var want := PredsOf(ids, pre, layerSize, i);
    if Layer(layerSize, i) > 0 {
      cnt := Min(pre, layerSize);
      for k := 0 to cnt
        invariant preds == preds0 + want[..k]
      {
        preds := preds + [ids[PredPos(layerSize, i, k)]];
      }
    }
  }

  method GeneratePreCntData(ids: seq<nat>, pre: nat, layerSize: nat)
    returns (cnts: seq<nat>, offsets: seq<nat>, preds: seq<nat>)
    requires layerSize > 0
    ensures |cnts| == |offsets| == |ids| && Offset(cnts, |ids|) == |preds|
    ensures forall i :: 0 <= i < |ids| ==> Listed(ids, pre, layerSize, cnts, offsets, preds, i)
    ensures Distinct(ids) ==> forall i :: 0 <= i < |ids| ==> PredsRight(ids, pre, layerSize, cnts, offsets, preds, i)
  {
    cnts, offsets, preds := [], [], [];
    var offset := 0;
    for i := 0 to |ids|
      invariant |cnts| == |offsets| == i && offset == |preds| == Offset(cnts, i)
      invariant forall j :: 0 <= j < i ==> Listed(ids, pre, layerSize, cnts, offsets, preds, j)
    {
      ListedMore(ids, pre, layerSize, cnts, offsets, preds);
      offsets := offsets + [offset];
      var cnt;
      cnt, preds := AppendPreds(ids, pre, layerSize, i, preds);
      cnts := cnts + [cnt];
      offset := offset + cnt;
    }
    if Distinct(ids) {
      forall i | 0 <= i < |ids| ensures PredsRight(ids, pre, layerSize, cnts, offsets, preds, i) {
        ListedRight(ids, pre, layerSize, cnts, offsets, preds, i);
      }
    }
  }

  /** The prefix sum of the counts. */
  function Offset(cnts: seq<nat>, i: nat): nat
    requires i <= |cnts|
  {
    if i == 0 then 0 else Offset(cnts, i - 1) + cnts[i - 1]
  }

  lemma {:induction false} OffsetPrefix(cnts: seq<nat>, more: seq<nat>, i: nat)
    requires i <= |cnts|
    ensures Offset(cnts + more, i) == Offset(cnts, i)
  {
    if i > 0 {
      OffsetPrefix(cnts, more, i - 1);
    }
  }

  lemma OffsetMore(cnts: seq<nat>, cnt: nat)
    ensures forall i :: 0 <= i <= |cnts| ==> Offset(cnts + [cnt], i) == Offset(cnts, i)
    ensures Offset(cnts + [cnt], |cnts| + 1) == Offset(cnts, |cnts|) + cnt
  {
    forall i | 0 <= i <= |cnts| ensures Offset(cnts + [cnt], i) == Offset(cnts, i) {
      OffsetPrefix(cnts, [cnt], i);
    }
  }

  /** Each task below the first layer has min(pre, layerSize) different predecessor positions, all in the layer
      just before its own. */
  lemma PredsDistinct(pre: nat, layerSize: nat, i: nat, j: nat, k: nat)
    requires layerSize > 0 && Layer(layerSize, i) > 0 && j < k < CntOf(pre, layerSize, i)
    ensures PredPos(layerSize, i, j) != PredPos(layerSize, i, k)
    ensures Layer(layerSize, PredPos(layerSize, i, j)) == Layer(layerSize, i) - 1
  {
    if (i % layerSize + j) % layerSize == (i % layerSize + k) % layerSize {
      SameResidue(i % layerSize + j, i % layerSize + k, layerSize);
    }
  }

  // ---- Reading it back -------------------------------------------------------------------------------

  /** The edges found by looking up each task's list by its offset. */
  ghost predicate ByOffset(e: (nat, nat), ids: seq<nat>, cnts: seq<nat>, preds: seq<nat>, n: nat)
    requires n <= |ids| == |cnts| && Offset(cnts, |cnts|) <= |preds|
  {
    exists i, k :: 0 <= i < n && EdgeAt(e, ids, cnts, preds, i, k)
  }

  ghost predicate EdgeAt(e: (nat, nat), ids: seq<nat>, cnts: seq<nat>, preds: seq<nat>, i: nat, k: nat)
    requires i < |ids| == |cnts|
  {
    k < cnts[i] && Offset(cnts, i) + k < |preds| && e == (preds[Offset(cnts, i) + k], ids[i])
  }

  lemma {:induction false} OffsetMono(cnts: seq<nat>, i: nat, j: nat)
    requires i <= j <= |cnts|
    ensures Offset(cnts, i) <= Offset(cnts, j)
  {
    if i < j {
      OffsetMono(cnts, i, j - 1);
    }
  }

  /** The edge loop of generate_dot_from_data: a running pointer finds the edges the offsets describe. */
  method ReadEdges(ids: seq<nat>, cnts: seq<nat>, preds: seq<nat>) returns (edges: set<(nat, nat)>)
    requires |ids| == |cnts| && Offset(cnts, |cnts|) <= |preds|
    ensures forall e :: e in edges <==> ByOffset(e, ids, cnts, preds, |ids|)
  {
    edges := {};
    var ptr := 0;
    for i := 0 to |ids|
      invariant ptr == Offset(cnts, i)
      invariant forall e :: e in edges <==> ByOffset(e, ids, cnts, preds, i)
    {
      OffsetMono(cnts, i + 1, |cnts|);
      ghost var before := edges;
      for k := 0 to cnts[i]
        invariant ptr == Offset(cnts, i) + k
        invariant forall e :: e in edges <==> e in before || exists m :: 0 <= m < k && EdgeAt(e, ids, cnts, preds, i, m)
      {
        if ptr < |preds| {
          assert EdgeAt((preds[ptr], ids[i]), ids, cnts, preds, i, k);
          edges := edges + {(preds[ptr], ids[i])};
          ptr := ptr + 1;
        }
      }
    }
  }

  lemma GeneratedEdgeAt(ids: seq<nat>, pre: nat, layerSize: nat, cnts: seq<nat>, offsets: seq<nat>, preds: seq<nat>,
                        e: (nat, nat), i: nat, k: nat)
    requires layerSize > 0 && i < |cnts| == |offsets| == |ids| && Listed(ids, pre, layerSize, cnts, offsets, preds, i)
    ensures EdgeAt(e, ids, cnts, preds, i, k) <==>
              k < CntOf(pre, layerSize, i) && e == (PredsOf(ids, pre, layerSize, i)[k], ids[i])
  {
    if k < cnts[i] {
      assert preds[offsets[i]..offsets[i] + cnts[i]][k] == preds[offsets[i] + k];
    }
  }

  /** Reading the generated arrays back gives each task exactly its generated predecessors. */
  lemma GeneratedEdges(ids: seq<nat>, pre: nat, layerSize: nat, cnts: seq<nat>, offsets: seq<nat>, preds: seq<nat>,
                       e: (nat, nat))
    requires layerSize > 0 && |cnts| == |offsets| == |ids| && Offset(cnts, |ids|) == |preds|
    requires forall i :: 0 <= i < |ids| ==> Listed(ids, pre, layerSize, cnts, offsets, preds, i)
    ensures ByOffset(e, ids, cnts, preds, |ids|) <==>
              exists i :: 0 <= i < |ids| && e.1 == ids[i] && e.0 in PredsOf(ids, pre, layerSize, i)
  {
    forall i: nat, k: nat | i < |ids|
      ensures EdgeAt(e, ids, cnts, preds, i, k) <==>
                k < CntOf(pre, layerSize, i) && e == (PredsOf(ids, pre, layerSize, i)[k], ids[i])
    {
      GeneratedEdgeAt(ids, pre, layerSize, cnts, offsets, preds, e, i, k);
    }
    if i :| 0 <= i < |ids| && e.1 == ids[i] && e.0 in PredsOf(ids, pre, layerSize, i) {
      var k: nat :| k < CntOf(pre, layerSize, i) && PredsOf(ids, pre, layerSize, i)[k] == e.0;
      assert EdgeAt(e, ids, cnts, preds, i, k);
    }
  }

  lemma AboveAt(layerSize: nat, a: nat, layer: nat)
    requires layerSize > 0 && a / layerSize + 1 == layer
    ensures Above(layer, layerSize) + a % layerSize == a
  {
  }

  lemma ListedAbove(ids: seq<nat>, pre: nat, layerSize: nat, a: nat, b: nat)
    requires layerSize > 0 && a < |ids| && b < |ids| && Distinct(ids) && ids[a] in PredsOf(ids, pre, layerSize, b)
    ensures Layer(layerSize, a) + 1 == Layer(layerSize, b)
  {
    var list := PredsOf(ids, pre, layerSize, b);
    var j :| 0 <= j < |list| && list[j] == ids[a];
    assert PredPos(layerSize, b, j) == a;
  }

  lemma ListedByPosition(ids: seq<nat>, pre: nat, layerSize: nat, a: nat, b: nat)
    requires layerSize > 0 && a < |ids| && b < |ids| && Distinct(ids)
    ensures ids[a] in PredsOf(ids, pre, layerSize, b) <==>
              a / layerSize + 1 == b / layerSize && (a % layerSize - b % layerSize) % layerSize < pre
  {
    if ids[a] in PredsOf(ids, pre, layerSize, b) {
      ListedAbove(ids, pre, layerSize, a, b);
    }
    if Layer(layerSize, a) + 1 == Layer(layerSize, b) {
      ListHas(ids, pre, layerSize, b, a % layerSize);
      AboveAt(layerSize, a, b / layerSize);
    }
  }

  /** The edges read back, by position: from each task to those of the next layer that have it among the `pre`
      positions from their own on, around the layer. */
  lemma EdgesByPosition(ids: seq<nat>, pre: nat, layerSize: nat, cnts: seq<nat>, offsets: seq<nat>, preds: seq<nat>,
                        a: nat, b: nat)
    requires layerSize > 0 && |cnts| == |offsets| == |ids| && Offset(cnts, |ids|) == |preds| && Distinct(ids)
    requires forall i :: 0 <= i < |ids| ==> Listed(ids, pre, layerSize, cnts, offsets, preds, i)
    requires a < |ids| && b < |ids|
    ensures ByOffset((ids[a], ids[b]), ids, cnts, preds, |ids|) <==>
              a / layerSize + 1 == b / layerSize && (a % layerSize - b % layerSize) % layerSize < pre
  {
    GeneratedEdges(ids, pre, layerSize, cnts, offsets, preds, (ids[a], ids[b]));
    ListedByPosition(ids, pre, layerSize, a, b);
    assert forall i :: 0 <= i < |ids| && ids[b] == ids[i] ==> i == b;
  }

  /** In a subgraph every edge leads from one layer of the whole graph to the next. */
  lemma EdgesOneLayerDown(width: nat, per: nat, thread: nat, depth: nat, pre: nat, i: nat, k: nat)
    requires per > 0 && thread * per + per <= width && Layer(per, i) < depth
    requires i < |IdsOf(width, per, thread, depth)| && k < CntOf(pre, per, i)
    ensures var ids := IdsOf(width, per, thread, depth);
            PredsOf(ids, pre, per, i)[k] / width + 1 == ids[i] / width
  {
    var p := PredPos(per, i, k);
    LayerOfId(width, per, thread, depth, i);
    LayerOfId(width, per, thread, depth, p);
  }

  lemma Split(p: nat, per: nat) returns (q: nat, r: nat)
    requires per > 0
    ensures p == q * per + r && r < per && q == Layer(per, p)
  {
    q, r := p / per, p % per;
  }

  lemma LayerOfId(width: nat, per: nat, thread: nat, depth: nat, p: nat)
    requires per > 0 && thread * per + per <= width && Layer(per, p) < depth
    ensures p < |IdsOf(width, per, thread, depth)| && IdsOf(width, per, thread, depth)[p] / width == Layer(per, p)
  {
    var q, r := Split(p, per);
    IdsAt(width, per, thread, depth, q, r);
    QuotientIs(IdsOf(width, per, thread, depth)[p], q, thread * per + r, width);
  }
}
