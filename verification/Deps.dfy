/** The sequential client: declare tensors, then submit the task (esl_proxy/include/algorithm/tensormap.h). */
module Deps {
  import opened Words
  import opened Tensors
  import opened MapLogs
  import opened TensorMaps
  import opened Submits
  import opened Predecessors

  class TmDeps {
    const tmap: TensorMap
    const store: PredecessorStore
    var pend: seq<Pending>

    /** tm_deps_init, with a fresh predecessor ring beside it. */
    constructor (cfg: Config, ringSize: nat, capacity: nat, dedup: bool)
      requires ValidConfig(cfg) && ringSize >= 64 && ringSize % 64 == 0 && U32_RANGE % ringSize == 0
      ensures Valid() && fresh(tmap) && fresh(store) && tmap.cfg == cfg && pend == []
      ensures tmap.State() == MapState([], 0, 0)
    {
      tmap := new TensorMap(cfg);
      store := new PredecessorStore(ringSize, capacity, dedup);
      pend := [];
    }

    ghost predicate Valid()
      reads this, tmap, tmap.buckets, tmap.pool, tmap.freeList, tmap.taskHeads
      reads store, store.ancestors
    {
      && tmap.Valid() && store.Valid() && store.RowsValid()
      && tmap.Repr() !! store.Repr() && this !in tmap.Repr() && this !in store.Repr()
      && |pend| <= MAX_IO
    }

    /** tm_pending_push: a seventeenth tensor is dropped. */
    method Push(t: Tensor, access: Access)
      requires Valid()
      modifies this
      ensures Valid()
      ensures pend == if |old(pend)| < 16 then old(pend) + [Pending(t, access)] else old(pend)
    {
      if |pend| < MAX_IO {
        pend := pend + [Pending(t, access)];
      }
    }

    /** The lookup loop. */
    method CollectAll(tid: u32) returns (preds: seq<u32>)
      requires Valid()
      modifies tmap`freeNum, tmap`log, tmap.pool, tmap.buckets, tmap.freeList, tmap.taskHeads
      ensures Valid()
      ensures var (l, c) := LookAll(old(tmap.Contents()), tmap.lastAlive, pend, tid);
              tmap.Contents() == l && preds == c.preds
    {
      var ctx := CollectCtx(tid, [], false);
      assert pend[..0] == [];
      for i := 0 to |pend|
        invariant Valid()
        invariant (tmap.Contents(), ctx) == LookAll(old(tmap.Contents()), tmap.lastAlive, pend[..i], tid)
      {
        assert pend[..i + 1][..i] == pend[..i];
        if pend[i].Reads() {
          ctx := tmap.Lookup(pend[i].t, CollectOnMatch, ctx.(isInout := pend[i].access == InOut));
        }
      }
      assert pend[..|pend|] == pend;
      preds := ctx.preds;
    }

    /** The insertion loop. */
    method InsertOutputs(tid: u32)
      requires Valid()
      modifies tmap`freeNum, tmap`nextEntryIdx, tmap`log, tmap.pool, tmap.buckets, tmap.taskHeads
      ensures Valid()
      ensures tmap.Contents() == InsertAll(old(tmap.Contents()), tmap.cfg, pend, tid)
    {
      assert pend[..0] == [];
      for i := 0 to |pend|
        invariant Valid()
        invariant tmap.Contents() == InsertAll(old(tmap.Contents()), tmap.cfg, pend[..i], tid)
      {
        assert pend[..i + 1][..i] == pend[..i];
        if pend[i].Writes() {
          tmap.Insert(pend[i].t, tid);
        }
      }
      assert pend[..|pend|] == pend;
    }

    /** Step 0 and the lookups: the fresh watermark first, then the predecessors. */
    method FindPredecessors(tid: u32, alive: i32) returns (preds: seq<u32>)
      requires Valid()
      modifies tmap`freeNum, tmap`log, tmap`lastAlive, tmap`lastCleanup
      modifies tmap.pool, tmap.buckets, tmap.freeList, tmap.taskHeads
      ensures Valid()
      ensures var s := Synced(old(tmap.State()), tmap.cfg, alive, tid);
              var (l, c) := LookAll(s.log, alive, pend, tid);
              tmap.State() == s.(log := l) && preds == c.preds
    {
      tmap.SyncTensorMap(alive, tid);
      preds := CollectAll(tid);
    }

    /** The call of add_predecessors, made only when something was collected. */
    method Record(tid: u32, preds: seq<u32>, minTask: nat)
      requires store.Valid() && store.RowsValid() && store.tail + |preds| <= store.slots.Length
      requires store.dedup ==> tid < store.ringSize && forall i :: 0 <= i < |preds| ==> preds[i] < store.ringSize
      modifies store`tail, store.slots, store.cnt, store.exp, store.ancestors
      ensures store.Valid() && store.RowsValid()
      ensures Recording(old(store.View()), old(store.AncRows()), store.View(), store.AncRows(),
                        tid, preds, minTask, store.ringSize, store.dedup)
    {
      if |preds| > 0 {
        var n := store.AddPredecessors(tid, preds, 0, minTask);
      }
    }

    /** tm_submit_ptr. `alive` and `minTask` are the two reads of g_min_uncomplete_task, the first by the map
        synchronisation and the second by add_predecessors. */
    method Submit(tid: u32, alive: i32, minTask: nat) returns (preds: seq<u32>)
      requires Valid() && store.tail + MAX_PRED <= store.slots.Length
      requires store.dedup ==> tid < store.ringSize && ProducersBelow(tmap.Contents(), store.ringSize)
      modifies this, tmap, tmap.pool, tmap.buckets, tmap.freeList, tmap.taskHeads
      modifies store, store.slots, store.cnt, store.exp, store.ancestors
      ensures Valid() && pend == []
      ensures (tmap.State(), preds) == Submitted(old(tmap.State()), tmap.cfg, old(pend), tid, alive)
      ensures Recording(old(store.View()), old(store.AncRows()), store.View(), store.AncRows(),
                        tid, preds, minTask, store.ringSize, store.dedup)
    {
      ghost var n := if store.dedup then store.ringSize else U32_RANGE;
      SubmittedPreds(tmap.State(), tmap.cfg, pend, tid, alive, n);
      preds := FindPredecessors(tid, alive);
      Record(tid, preds, minTask);
      InsertOutputs(tid);
      pend := [];
    }
  }

  /** What submitting does to the predecessor lists and the ancestor rows. */
  ghost predicate Recording(v: Lists, rows: Rows, v': Lists, rows': Rows,
                            tid: u32, preds: seq<u32>, minTask: nat, ringSize: nat, dedup: bool)
  {
    if preds == [] then v' == v && rows' == rows
    else
      && 0 < ringSize == |v.cnt| == |v.exp|
      && (dedup ==> tid < |rows| && forall i :: 0 <= i < |preds| ==> preds[i] < |rows|)
      && v' == Added(v, tid % ringSize, 0, Kept(preds, minTask, dedup, rows))
      && rows' == if dedup then Recorded(rows, tid, preds) else rows
  }
}
