/** The producer-lookup map (esl_proxy/include/algorithm/tensormap_core.h): pool, buckets, task chains. */
module TensorMaps {
  import opened Words
  import opened Sequences
  import opened Tensors
  import opened Overlaps
  import OverlapLoops
  import opened MapLogs
  import opened Chains

  const UNUSED := TmEntry(Rec(SCALAR_VIEW, 0), -1, NO_LINK, NO_LINK)

  function BucketKey(cfg: Config): Rec -> nat
    requires ValidConfig(cfg)
  {
    (r: Rec) => Hash(cfg, r.view.base)
  }

  function TaskKey(cfg: Config): Rec -> nat
    requires ValidConfig(cfg)
  {
    (r: Rec) => Slot(cfg, r.producer)
  }

  class TensorMap {
    const cfg: Config
    const buckets: array<int>
    const pool: array<TmEntry>
    const freeList: array<int>
    const taskHeads: array<int>
    var nextEntryIdx: nat
    var freeNum: nat
    var lastAlive: i32
    var lastCleanup: i32
    /** Live pool indices, newest first. */
    ghost var log: seq<int>

    ghost function Repr(): set<object> {
      {this, buckets, pool, freeList, taskHeads}
    }

    ghost predicate LaidOut() {
      && ValidConfig(cfg)
      && buckets.Length == cfg.numBuckets && taskHeads.Length == cfg.window
      && pool.Length == freeList.Length == cfg.poolSize
      && buckets != freeList && buckets != taskHeads && freeList != taskHeads
    }

    ghost predicate PoolValid(live: seq<int>)
      reads this, freeList
    {
      freeNum <= freeList.Length && PoolOk(live, freeList[..freeNum], nextEntryIdx, cfg.poolSize)
    }

    ghost predicate ChainsValid()
      requires LaidOut()
      reads this, buckets, pool, taskHeads
    {
      && InPool(pool[..], log)
      && ChainsOk(pool[..], buckets[..], BucketKey(cfg), ByBucket, log)
      && ChainsOk(pool[..], taskHeads[..], TaskKey(cfg), ByTask, log)
      && BucketsKnown(pool[..], BucketKey(cfg), log)
    }

    ghost predicate Valid()
      reads this, buckets, pool, freeList, taskHeads
    {
      LaidOut() && PoolValid(log) && ChainsValid()
    }

    ghost function Contents(): Log
      requires InPool(pool[..], log)
      reads this, pool
    {
      Recs(pool[..], log)
    }

    ghost function State(): MapState
      requires InPool(pool[..], log)
      reads this, pool
    {
      MapState(Contents(), lastAlive, lastCleanup)
    }

    /** tm_init. */
    constructor (config: Config)
      requires ValidConfig(config)
      ensures Valid() && fresh(Repr()) && cfg == config
      ensures State() == MapState([], 0, 0)
    {
      cfg := config;
      buckets := new int[config.numBuckets];
      pool := new TmEntry[config.poolSize](_ => UNUSED);
      freeList := new int[config.poolSize];
      taskHeads := new int[config.window];
      nextEntryIdx, freeNum, lastAlive, lastCleanup, log := 0, 0, 0, 0, [];
      new;
      for i := 0 to cfg.numBuckets
        modifies buckets
        invariant forall j :: 0 <= j < i ==> buckets[j] == -1
      {
        buckets[i] := -1;
      }
      for i := 0 to cfg.window
        modifies taskHeads
        invariant forall j :: 0 <= j < i ==> taskHeads[j] == -1
      {
        taskHeads[i] := -1;
      }
    }

    /** tm_new_entry: an index off the free list, else the next unused one, else -1. */
    method NewEntry() returns (idx: int)
      requires LaidOut() && PoolValid(log)
      modifies this`freeNum, this`nextEntryIdx
      ensures idx == -1 <==> |log| == cfg.poolSize
      ensures idx == -1 ==> freeNum == old(freeNum) && nextEntryIdx == old(nextEntryIdx)
      ensures idx != -1 ==> 0 <= idx < cfg.poolSize && idx !in log && PoolValid([idx] + log)
    {
      if freeNum > 0 {
        TakeFree(log, freeList[..freeNum], nextEntryIdx, cfg.poolSize);
        freeNum := freeNum - 1;
        idx := freeList[freeNum];
        assert freeList[..freeNum + 1][..freeNum] == freeList[..freeNum];
        return;
      }
      if nextEntryIdx >= cfg.poolSize {
        return -1;
      }
      TakeFresh(log, freeList[..freeNum], nextEntryIdx, cfg.poolSize);
      idx := nextEntryIdx;
      nextEntryIdx := nextEntryIdx + 1;
    }

    method LinkBucket(idx: int, b: nat)
      requires 0 <= idx < pool.Length && b < buckets.Length && -1 <= buckets[b] < pool.Length && buckets[b] != idx
      modifies pool, buckets
      ensures pool[..] ==
              PushedPool(old(pool[..])[idx := old(pool[idx]).(bucketIndex := b)], old(buckets[..]), ByBucket, idx, b)
      ensures buckets[..] == old(buckets[..])[b := idx]
    {
      pool[idx] := pool[idx].(bucketIndex := b, bucket := Link(buckets[b], -1));
      if buckets[b] != -1 {
        pool[buckets[b]] := pool[buckets[b]].(bucket := pool[buckets[b]].bucket.(prev := idx));
      }
      buckets[b] := idx;
    }

    method LinkTask(idx: int, slot: nat)
      requires 0 <= idx < pool.Length && slot < taskHeads.Length
      requires -1 <= taskHeads[slot] < pool.Length && taskHeads[slot] != idx
      modifies pool, taskHeads
      ensures pool[..] == PushedPool(old(pool[..]), old(taskHeads[..]), ByTask, idx, slot)
      ensures taskHeads[..] == old(taskHeads[..])[slot := idx]
    {
      pool[idx] := pool[idx].(task := Link(taskHeads[slot], -1));
      if taskHeads[slot] != -1 {
        pool[taskHeads[slot]] := pool[taskHeads[slot]].(task := pool[taskHeads[slot]].task.(prev := idx));
      }
      taskHeads[slot] := idx;
    }

    /** tm_link_entry, for ring 0. */
    method LinkEntry(idx: int, addr: u64, producer: u32)
      requires LaidOut() && ChainsValid() && PoolValid([idx] + log)
      requires 0 <= idx < pool.Length && idx !in log && pool[idx].rec.view.base == addr
      modifies this`log, pool, buckets, taskHeads
      ensures Valid() && log == [idx] + old(log)
      ensures Contents() == [old(pool[idx].rec).(producer := producer)] + old(Contents())
    {
      ghost var l, b0, t0 := log, buckets[..], taskHeads[..];
      var b := Hash(cfg, addr);
      MarkKeepsChains(pool[..], b0, BucketKey(cfg), ByBucket, l, idx, producer, b);
      MarkKeepsChains(pool[..], t0, TaskKey(cfg), ByTask, l, idx, producer, b);
      pool[idx] := pool[idx].(rec := pool[idx].rec.(producer := producer));
      ghost var p0 := pool[..][idx := pool[idx].(bucketIndex := b)];
      assert p0 == old(pool[..])[idx := Marked(old(pool[idx]), producer, b)];
      LinkBucket(idx, b);
      ghost var p1 := pool[..];
      var slot := Slot(cfg, producer);
      LinkTask(idx, slot);
      TailDistinct(idx, l);
      LinkedChains(p0, p1, pool[..], b0, t0, BucketKey(cfg), TaskKey(cfg), l, idx, b, slot);
      LinkedRecords(old(pool[..]), p1, pool[..], b0, t0, BucketKey(cfg), l, idx, b, slot, producer);
      log := [idx] + log;
    }

    /** tm_remove_from_task. */
    method RemoveFromTask(idx: int)
      requires LaidOut() && LinksInPool(pool[..], ByTask, idx)
      modifies pool, taskHeads
      ensures var p := old(pool[..]);
              pool[..] == UnlinkedPool(p, ByTask, idx)[idx := UnlinkedPool(p, ByTask, idx)[idx].(task := NO_LINK)]
      ensures taskHeads[..] ==
              UnlinkedHeads(old(pool[..]), old(taskHeads[..]), ByTask, idx, Slot(cfg, old(pool[idx]).rec.producer))
    {
      var e := pool[idx];
      if e.task.prev == -1 {
        taskHeads[Slot(cfg, e.rec.producer)] := e.task.next;
      } else {
        pool[e.task.prev] := pool[e.task.prev].(task := pool[e.task.prev].task.(next := e.task.next));
      }
      if e.task.next != -1 {
        pool[e.task.next] := pool[e.task.next].(task := pool[e.task.next].task.(prev := e.task.prev));
      }
      pool[idx] := pool[idx].(task := NO_LINK);
    }

    /** tm_free_entry: off its bucket chain, onto the free list, links cleared. */
    method FreeEntry(idx: int)
      requires LaidOut() && LinksInPool(pool[..], ByBucket, idx) && freeNum < freeList.Length
      requires 0 <= pool[idx].bucketIndex < buckets.Length
      modifies this`freeNum, pool, buckets, freeList
      ensures var p := old(pool[..]);
              pool[..] == UnlinkedPool(p, ByBucket, idx)[idx := UNUSED.(rec := p[idx].rec)]
      ensures buckets[..] ==
              UnlinkedHeads(old(pool[..]), old(buckets[..]), ByBucket, idx, old(pool[idx]).bucketIndex)
      ensures freeNum == old(freeNum) + 1 && freeList[..freeNum] == old(freeList[..freeNum]) + [idx]
    {
      var e := pool[idx];
      if e.bucket.prev == -1 {
        buckets[e.bucketIndex] := e.bucket.next;
      } else {
        pool[e.bucket.prev] := pool[e.bucket.prev].(bucket := pool[e.bucket.prev].bucket.(next := e.bucket.next));
      }
      if e.bucket.next != -1 {
        pool[e.bucket.next] := pool[e.bucket.next].(bucket := pool[e.bucket.next].bucket.(prev := e.bucket.prev));
      }
      freeList[freeNum] := idx;
      freeNum := freeNum + 1;
      pool[idx] := pool[idx].(bucketIndex := -1, bucket := NO_LINK, task := NO_LINK);
    }

    /** Freeing a live entry keeps every bucket chain and the free list, whatever the task chains are. */
    method FreeLive(idx: int, ghost a: seq<int>, ghost b: seq<int>)
      requires LaidOut() && log == a + [idx] + b && PoolValid(log)
      requires InPool(pool[..], log) && BucketsKnown(pool[..], BucketKey(cfg), log)
      requires ChainsOk(pool[..], buckets[..], BucketKey(cfg), ByBucket, log)
      modifies this`freeNum, this`log, pool, buckets, freeList
      ensures log == a + b && PoolValid(log) && idx !in log
      ensures InPool(pool[..], log) && BucketsKnown(pool[..], BucketKey(cfg), log)
      ensures ChainsOk(pool[..], buckets[..], BucketKey(cfg), ByBucket, log)
      ensures forall x :: 0 <= x < pool.Length ==> pool[x].rec == old(pool[x].rec)
      ensures forall x :: 0 <= x < pool.Length && x != idx ==> pool[x].task == old(pool[x].task)
    {
      assert log[|a|] == idx;
      ghost var p0 := pool[..];
      UnlinkKeepsChains(p0, buckets[..], BucketKey(cfg), ByBucket, a, idx, b, pool[idx].bucketIndex);
      GiveBack(a, idx, b, freeList[..freeNum], nextEntryIdx, cfg.poolSize);
      FreeEntry(idx);
      log := a + b;
      ChainsFrame(UnlinkedPool(p0, ByBucket, idx), pool[..], buckets[..], BucketKey(cfg), ByBucket, log);
      forall i | 0 <= i < |log| ensures pool[log[i]].bucketIndex == p0[log[i]].bucketIndex && log[i] in a + [idx] + b {
      }
    }

    /** tm_remove: off both chains and onto the free list. */
    method Remove(idx: int, ghost a: seq<int>, ghost b: seq<int>)
      requires Valid() && log == a + [idx] + b
      modifies this`freeNum, this`log, pool, buckets, freeList, taskHeads
      ensures Valid() && log == a + b
      ensures forall x :: 0 <= x < pool.Length ==> pool[x].rec == old(pool[x].rec)
    {
      assert log[|a|] == idx;
      ghost var p0, t0 := pool[..], taskHeads[..];
      UnlinkKeepsChains(p0, t0, TaskKey(cfg), ByTask, a, idx, b, Slot(cfg, pool[idx].rec.producer));
      RemoveFromTask(idx);
      ghost var p1 := pool[..];
      ChainsFrame(p0, p1, buckets[..], BucketKey(cfg), ByBucket, log);
      FreeLive(idx, a, b);
      ChainsFrame(UnlinkedPool(p0, ByTask, idx), pool[..], taskHeads[..], TaskKey(cfg), ByTask, log);
    }

    /** The copy into a reserved entry, before it is linked. */
    method Fill(idx: int, view: View)
      requires LaidOut() && ChainsValid() && 0 <= idx < pool.Length && idx !in log
      modifies pool
      ensures ChainsValid() && pool[idx].rec.view == view && Contents() == old(Contents())
    {
      ghost var p0 := pool[..];
      pool[idx] := pool[idx].(rec := pool[idx].rec.(view := view));
      ChainsFrame(p0, pool[..], buckets[..], BucketKey(cfg), ByBucket, log);
      ChainsFrame(p0, pool[..], taskHeads[..], TaskKey(cfg), ByTask, log);
    }

    /** tm_insert_tensor. */
    method Insert(t: Tensor, tid: u32)
      requires Valid()
      modifies this`freeNum, this`nextEntryIdx, this`log, pool, buckets, taskHeads
      ensures Valid()
      ensures Contents() == Inserted(old(Contents()), cfg, Rec(EntryOf(t.view), tid))
    {
      var idx := NewEntry();
      if idx < 0 {
        return;
      }
      var e := CopyTensorToEntry(t.view);
      Fill(idx, e);
      LinkEntry(idx, t.view.base, tid);
    }

    /** detect_insert_prepared_entry: the copy was made earlier, by the describe stage. */
    method InsertPrepared(prepared: View, tid: u32)
      requires Valid()
      modifies this`freeNum, this`nextEntryIdx, this`log, pool, buckets, taskHeads
      ensures Valid()
      ensures Contents() == Inserted(old(Contents()), cfg, Rec(prepared, tid))
    {
      var idx := NewEntry();
      if idx < 0 {
        return;
      }
      Fill(idx, prepared);
      LinkEntry(idx, prepared.base, tid);
    }

    /** The loop body of tm_lookup_tensor for entry `cur`. */
    method Offer<C>(cur: int, t: Tensor, onMatch: (Rec, Overlap, C) -> Verdict<C>, ctx0: C, ghost a: seq<int>,
                    ghost b: seq<int>)
      returns (v: Verdict<C>)
      requires Valid() && log == a + [cur] + b && 0 <= cur < pool.Length
      modifies this`freeNum, this`log, pool, buckets, freeList, taskHeads
      ensures Valid() && log == if v.remove then a + b else old(log)
      ensures forall x :: 0 <= x < pool.Length ==> pool[x].rec == old(pool[x].rec)
      ensures var r := old(pool[cur].rec);
              v == if IsHit(r, t, lastAlive) then onMatch(r, CheckOverlap(t, r.view), ctx0)
                   else Verdict(ctx0, false, true)
    {
      var e := pool[cur];
      v := Verdict(ctx0, false, true);
      if AsI32(e.rec.producer) >= lastAlive && e.rec.view.base == t.view.base {
        var st := OverlapLoops.CheckOverlapC(t, e.rec.view);
        if st != Nothing {
          v := onMatch(e.rec, st, ctx0);
          if v.remove {
            Remove(cur, a, b);
          }
        }
      }
    }

    /** Mid-walk: `pre` has been offered, `cur` is the next entry of the bucket in `suf`. */
    ghost predicate Walking<C>(pre: seq<int>, suf: seq<int>, cur: int, want: (Log, C),
                               t: Tensor, onMatch: (Rec, Overlap, C) -> Verdict<C>, ctx: C)
      reads this, buckets, pool, freeList, taskHeads
    {
      && Valid() && log == pre + suf
      && InPool(pool[..], pre) && InPool(pool[..], suf)
      && cur == First(Select(pool[..], suf, BucketKey(cfg), Hash(cfg, t.view.base)))
      && want == Prepend(Recs(pool[..], pre), Visit(Recs(pool[..], suf), t, lastAlive, onMatch, ctx))
    }

    /** One iteration: `next` is read before the callback can remove `cur`. */
    method WalkStep<C>(cur: int, t: Tensor, onMatch: (Rec, Overlap, C) -> Verdict<C>, ctx: C,
                       ghost pre: seq<int>, ghost suf: seq<int>, ghost want: (Log, C))
      returns (v: Verdict<C>, next: int, ghost pre': seq<int>, ghost suf': seq<int>)
      requires Walking(pre, suf, cur, want, t, onMatch, ctx) && cur != -1
      modifies this`freeNum, this`log, pool, buckets, freeList, taskHeads
      ensures |suf'| < |suf|
      ensures v.goOn ==> Walking(pre', suf', next, want, t, onMatch, v.ctx)
      ensures !v.goOn ==> Valid() && want == (Contents(), v.ctx)
    {
      ghost var p0, key, b := pool[..], BucketKey(cfg), Hash(cfg, t.view.base);
      ghost var skip, rest := SplitFirst(p0, suf, key, b);
      NextOnBucket(p0, buckets[..], key, pre, suf, skip, cur, rest, b);
      VisitNext(p0, pre, skip, cur, rest, t, lastAlive, onMatch, ctx);
      next := pool[cur].bucket.next;
      v := Offer(cur, t, onMatch, ctx, pre + skip, rest);
      pre', suf' := if v.remove then pre + skip else pre + skip + [cur], rest;
      WalkFrame(p0, pool[..], pre', suf', key, b);
    }

    lemma WalkStart<C>(t: Tensor, onMatch: (Rec, Overlap, C) -> Verdict<C>, ctx: C)
      requires Valid()
      ensures Walking([], log, buckets[Hash(cfg, t.view.base)], Visit(Contents(), t, lastAlive, onMatch, ctx), t,
                      onMatch, ctx)
    {
      var b, want := Hash(cfg, t.view.base), Visit(Contents(), t, lastAlive, onMatch, ctx);
      assert ChainOk(pool[..], buckets[b], BucketKey(cfg), ByBucket, log, b);
      assert [] + log == log && Recs(pool[..], []) + want.0 == want.0;
    }

    /** tm_lookup_tensor with a callback that may remove the current entry. */
    method Lookup<C>(t: Tensor, onMatch: (Rec, Overlap, C) -> Verdict<C>, ctx0: C) returns (ctx: C)
      requires Valid()
      modifies this`freeNum, this`log, pool, buckets, freeList, taskHeads
      ensures Valid()
      ensures (Contents(), ctx) == Visit(old(Contents()), t, lastAlive, onMatch, ctx0)
    {
      ctx := ctx0;
      var b := Hash(cfg, t.view.base);
      var cur := buckets[b];
      ghost var pre, suf: seq<int> := [], log;
      ghost var want := Visit(Contents(), t, lastAlive, onMatch, ctx0);
      WalkStart(t, onMatch, ctx0);
      while cur != -1
        invariant Walking(pre, suf, cur, want, t, onMatch, ctx)
        decreases |suf|
      {
        var v, next;
        v, next, pre, suf := WalkStep(cur, t, onMatch, ctx, pre, suf, want);
        ctx := v.ctx;
        if !v.goOn {
          return;
        }
        cur := next;
      }
      WalkDone(pool[..], pre, suf, BucketKey(cfg), b, t, lastAlive, onMatch, ctx);
    }

    /** The inner loop of tm_cleanup_retired. */
    method FreeSlot(slot: nat)
      requires Valid() && slot < cfg.window
      modifies this`freeNum, this`log, pool, buckets, freeList, taskHeads
      ensures Valid() && Contents() == DropSlot(old(Contents()), cfg, slot)
    {
      var cur := taskHeads[slot];
      ghost var rest := Select(pool[..], log, TaskKey(cfg), slot);
      ghost var want := DropSlot(Contents(), cfg, slot);
      ClearStart(pool[..], taskHeads[..], TaskKey(cfg), log, slot);
      while cur != -1
        invariant ClearingSlot(slot, rest, cur, want)
        decreases |rest|
      {
        var next := pool[cur].task.next;
        rest := FreeStep(cur, slot, rest, want);
        cur := next;
      }
      ClearDone(pool[..], taskHeads[..], TaskKey(cfg), log, slot);
      taskHeads[slot] := -1;
      SlotEmpty(pool[..], cfg, log, slot);
    }

    ghost predicate ClearingSlot(slot: nat, rest: seq<int>, cur: int, want: Log)
      reads this, buckets, pool, freeList, taskHeads
    {
      && LaidOut() && slot < cfg.window && PoolValid(log) && InPool(pool[..], log) && InPool(pool[..], rest)
      && BucketsKnown(pool[..], BucketKey(cfg), log)
      && ChainsOk(pool[..], buckets[..], BucketKey(cfg), ByBucket, log)
      && Clearing(pool[..], taskHeads[..], TaskKey(cfg), log, slot, rest)
      && cur == First(rest)
      && DropSlot(Contents(), cfg, slot) == want
    }

    method FreeStep(cur: int, slot: nat, ghost rest: seq<int>, ghost want: Log) returns (ghost rest': seq<int>)
      requires ClearingSlot(slot, rest, cur, want) && cur != -1
      modifies this`freeNum, this`log, pool, buckets, freeList
      ensures ClearingSlot(slot, rest', old(pool[cur]).task.next, want) && |rest'| < |rest|
    {
      ghost var p0 := pool[..];
      ghost var a, b := SplitOnSlot(p0, cfg, log, slot, rest);
      FreeLive(cur, a, b);
      rest' := rest[1..];
      SlotShrinks(p0, pool[..], taskHeads[..], cfg, a, cur, b, slot, rest);
    }

    /** tm_cleanup_retired. */
    method CleanupRetired(oldAlive: i32, newAlive: i32)
      requires Valid()
      modifies this`freeNum, this`log, this`lastCleanup, pool, buckets, freeList, taskHeads
      ensures Valid() && lastCleanup == newAlive
      ensures Contents() == Purge(old(Contents()), cfg, oldAlive, newAlive)
    {
      var local: int := oldAlive;
      while local < newAlive
        invariant Valid() && oldAlive <= local && (local <= newAlive || local == oldAlive)
        invariant Contents() == Purge(old(Contents()), cfg, oldAlive, local)
      {
        FreeSlot(Slot(cfg, local));
        local := local + 1;
      }
      lastCleanup := newAlive;
    }

    /** tm_sync_tensormap. */
    method SyncTensorMap(alive: i32, current: u32)
      requires Valid()
      modifies this`freeNum, this`log, this`lastAlive, this`lastCleanup, pool, buckets, freeList, taskHeads
      ensures Valid() && State() == Synced(old(State()), cfg, alive, current)
    {
      lastAlive := alive;
      var from := lastCleanup;
      var slotOverlap := Slot(cfg, current) == Slot(cfg, from);
      if alive as int - from >= CLEANUP_INTERVAL || slotOverlap {
        CleanupRetired(from, alive);
      }
    }
  }

  lemma NextOnBucket(pool: Pool, buckets: seq<int>, key: Rec -> nat, pre: seq<int>, suf: seq<int>,
                     skip: seq<int>, cur: int, rest: seq<int>, b: nat)
    requires InPool(pool, pre) && InPool(pool, suf) && suf == skip + [cur] + rest && b < |buckets|
    requires InPool(pool, rest) && 0 <= cur < |pool| && key(pool[cur].rec) == b
    requires ChainsOk(pool, buckets, key, ByBucket, pre + suf)
    ensures pre + suf == (pre + skip) + [cur] + rest
    ensures pool[cur].bucket.next == First(Select(pool, rest, key, b))
  {
    assert pre + suf == (pre + skip) + [cur] + rest;
    assert ChainOk(pool, buckets[b], key, ByBucket, pre + suf, b);
    ChainAround(pool, buckets, key, ByBucket, pre + skip, cur, rest, b);
  }

  /** A removal changes no record and no selection of the entries that stay. */
  lemma WalkFrame(pool: Pool, pool': Pool, pre: seq<int>, suf: seq<int>, key: Rec -> nat, b: nat)
    requires InPool(pool, pre) && InPool(pool, suf) && |pool'| == |pool|
    requires forall x :: 0 <= x < |pool| ==> pool'[x].rec == pool[x].rec
    ensures InPool(pool', pre) && InPool(pool', suf) && InPool(pool', pre + suf)
    ensures Recs(pool', pre) == Recs(pool, pre) && Recs(pool', suf) == Recs(pool, suf)
    ensures Select(pool', suf, key, b) == Select(pool, suf, key, b)
    ensures Recs(pool', pre + suf) == Recs(pool', pre) + Recs(pool', suf)
  {
    RecsFrame(pool, pool', pre);
    RecsFrame(pool, pool', suf);
    SelectFrame(pool, pool', suf, key, b);
    RecsAppend(pool', pre, suf);
  }

  function Prepend<C>(pre: Log, r: (Log, C)): (Log, C) {
    (pre + r.0, r.1)
  }

  /** One step of the walk: the skipped entries are no hits, the current one is handled by the callback. */
  lemma VisitNext<C>(pool: Pool, pre: seq<int>, skip: seq<int>, cur: int, rest: seq<int>,
                     t: Tensor, lastAlive: i32, onMatch: (Rec, Overlap, C) -> Verdict<C>, ctx: C)
    requires InPool(pool, pre) && InPool(pool, skip) && InPool(pool, rest) && 0 <= cur < |pool|
    requires forall i :: 0 <= i < |skip| ==> pool[skip[i]].rec.view.base != t.view.base
    ensures InPool(pool, pre + skip + [cur]) && InPool(pool, skip + [cur] + rest)
    ensures var r := pool[cur].rec;
            var whole := Prepend(Recs(pool, pre), Visit(Recs(pool, skip + [cur] + rest), t, lastAlive, onMatch, ctx));
            if !IsHit(r, t, lastAlive) then
              whole == Prepend(Recs(pool, pre + skip + [cur]), Visit(Recs(pool, rest), t, lastAlive, onMatch, ctx))
            else
              var v := onMatch(r, CheckOverlap(t, r.view), ctx);
              var done := if v.remove then pre + skip else pre + skip + [cur];
              whole == Prepend(Recs(pool, done),
                               if v.goOn then Visit(Recs(pool, rest), t, lastAlive, onMatch, v.ctx)
                               else (Recs(pool, rest), v.ctx))
  {
    var p, a, r, d := Recs(pool, pre), Recs(pool, skip), [pool[cur].rec], Recs(pool, rest);
    assert Recs(pool, skip + [cur] + rest) == a + (r + d);
    VisitSkip(a, r + d, t, lastAlive, onMatch, ctx);
    assert (r + d)[1..] == d;
    assert Recs(pool, pre + skip) == p + a;
    assert Recs(pool, pre + skip + [cur]) == p + a + r;
    forall x: Log ensures p + (a + (r + x)) == p + a + r + x && p + (a + x) == p + a + x {
    }
  }

  lemma FirstIsNone(pool: Pool, suf: seq<int>, key: Rec -> nat, b: nat)
    requires InPool(pool, suf) && First(Select(pool, suf, key, b)) == -1
    ensures Select(pool, suf, key, b) == []
  {
    SelectMembers(pool, suf, key, b);
  }

  /** Entries outside the bucket are no hits, so an exhausted chain ends the visit. */
  lemma VisitNone<C>(pool: Pool, suf: seq<int>, key: Rec -> nat, b: nat, t: Tensor, lastAlive: i32,
                     onMatch: (Rec, Overlap, C) -> Verdict<C>, ctx: C)
    requires InPool(pool, suf) && Select(pool, suf, key, b) == []
    requires forall r: Rec :: r.view.base == t.view.base ==> key(r) == b
    ensures Visit(Recs(pool, suf), t, lastAlive, onMatch, ctx) == (Recs(pool, suf), ctx)
  {
    SelectMembers(pool, suf, key, b);
    var recs := Recs(pool, suf);
    forall i | 0 <= i < |recs| ensures !IsHit(recs[i], t, lastAlive) {
      assert suf[i] in suf;
    }
    VisitSkip(recs, [], t, lastAlive, onMatch, ctx);
    assert recs + [] == recs;
  }

  lemma WalkDone<C>(pool: Pool, pre: seq<int>, suf: seq<int>, key: Rec -> nat, b: nat, t: Tensor, lastAlive: i32,
                    onMatch: (Rec, Overlap, C) -> Verdict<C>, ctx: C)
    requires InPool(pool, pre) && InPool(pool, suf) && First(Select(pool, suf, key, b)) == -1
    requires forall r: Rec :: r.view.base == t.view.base ==> key(r) == b
    ensures InPool(pool, pre + suf)
    ensures Prepend(Recs(pool, pre), Visit(Recs(pool, suf), t, lastAlive, onMatch, ctx)) == (Recs(pool, pre + suf), ctx)
  {
    FirstIsNone(pool, suf, key, b);
    VisitNone(pool, suf, key, b, t, lastAlive, onMatch, ctx);
    RecsAppend(pool, pre, suf);
  }

  lemma SplitOnSlot(pool: Pool, cfg: Config, log: seq<int>, slot: nat, rest: seq<int>)
    returns (a: seq<int>, b: seq<int>)
    requires ValidConfig(cfg) && InPool(pool, log) && rest != [] && Select(pool, log, TaskKey(cfg), slot) == rest
    ensures log == a + [rest[0]] + b && 0 <= rest[0] < |pool| && TaskKey(cfg)(pool[rest[0]].rec) == slot
  {
    SelectMembers(pool, log, TaskKey(cfg), slot);
    assert rest[0] in log;
    var q :| 0 <= q < |log| && log[q] == rest[0];
    a, b := log[..q], log[q + 1..];
  }

  lemma SlotShrinks(pool: Pool, pool': Pool, heads: seq<int>, cfg: Config, a: seq<int>, cur: int, b: seq<int>,
                    slot: nat, rest: seq<int>)
    requires ValidConfig(cfg) && InPool(pool, a + [cur] + b) && InPool(pool, rest)
    requires InPool(pool', a + b) && |pool'| == |pool| && Distinct(a + [cur] + b)
    requires rest != [] && rest[0] == cur && TaskKey(cfg)(pool[cur].rec) == slot
    requires Clearing(pool, heads, TaskKey(cfg), a + [cur] + b, slot, rest)
    requires forall x :: 0 <= x < |pool| ==> pool'[x].rec == pool[x].rec
    requires forall x :: 0 <= x < |pool| && x != cur ==> pool'[x].task == pool[x].task
    ensures InPool(pool', rest[1..]) && Clearing(pool', heads, TaskKey(cfg), a + b, slot, rest[1..])
    ensures pool[cur].task.next == First(rest[1..])
    ensures DropSlot(Recs(pool', a + b), cfg, slot) == DropSlot(Recs(pool, a + [cur] + b), cfg, slot)
  {
    ClearStep(pool, pool', heads, TaskKey(cfg), a, cur, b, slot, rest);
    DropOne(pool, pool', cfg, a, cur, b, slot);
    assert pool[rest[0]].task.next == LinkAt(rest, 0).next;
  }

  lemma DropOne(pool: Pool, pool': Pool, cfg: Config, a: seq<int>, cur: int, b: seq<int>, slot: nat)
    requires ValidConfig(cfg) && InPool(pool, a + [cur] + b) && InPool(pool', a + b) && 0 <= cur < |pool|
    requires |pool'| == |pool| && forall x :: 0 <= x < |pool| ==> pool'[x].rec == pool[x].rec
    requires TaskKey(cfg)(pool[cur].rec) == slot
    ensures DropSlot(Recs(pool', a + b), cfg, slot) == DropSlot(Recs(pool, a + [cur] + b), cfg, slot)
  {
    assert pool[(a + [cur] + b)[|a|]].rec == pool[cur].rec;
    var ra, rb := Recs(pool', a + b)[..|a|], Recs(pool', a + b)[|a|..];
    assert Recs(pool', a + b) == ra + rb;
    assert Recs(pool, a + [cur] + b) == ra + [pool[cur].rec] + rb;
    FilterDropOne(ra, pool[cur].rec, rb, OffSlot(cfg, slot));
  }

  lemma SlotEmpty(pool: Pool, cfg: Config, log: seq<int>, slot: nat)
    requires ValidConfig(cfg) && InPool(pool, log) && Select(pool, log, TaskKey(cfg), slot) == []
    ensures DropSlot(Recs(pool, log), cfg, slot) == Recs(pool, log)
  {
    SelectMembers(pool, log, TaskKey(cfg), slot);
    var recs := Recs(pool, log);
    forall i | 0 <= i < |recs| ensures OffSlot(cfg, slot)(recs[i]) {
      assert log[i] in log;
    }
    FilterAll(recs, OffSlot(cfg, slot));
  }
}
