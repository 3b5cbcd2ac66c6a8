/** What a tensor map holds, seen from outside: its live records, newest first. */
module MapLogs {
  import opened Words
  import opened Tensors
  import opened Overlaps

  /** `num_buckets`, `task_window[0]` and `pool_size`. */
  datatype Config = Config(numBuckets: nat, window: nat, poolSize: nat)

  /** Bucket count and window are powers of two: the divisors of a power of two. */
  predicate ValidConfig(cfg: Config) {
    && 2 <= cfg.numBuckets <= U32_RANGE && U64_RANGE % cfg.numBuckets == 0
    && 1 <= cfg.window <= 0x8000_0000 && U32_RANGE % cfg.window == 0
    && cfg.poolSize < 0x8000_0000
  }

  const GOLDEN: u64 := 0x9E37_79B9_7F4A_7C15

  /** tm_hash: the top bits of a multiplicative hash. */
  function Hash(cfg: Config, key: u64): (b: nat)
    requires ValidConfig(cfg)
    ensures b < cfg.numBuckets
  {
    TopBits(Wrap64(Times(key, GOLDEN)), cfg.numBuckets);
    Wrap64(Times(key, GOLDEN)) / (U64_RANGE / cfg.numBuckets)
  }

  lemma TopBits(key: u64, n: nat)
    requires n > 0 && U64_RANGE % n == 0
    ensures U64_RANGE / n > 0 && key / (U64_RANGE / n) < n
  {
    var q := U64_RANGE / n;
    assert q * n == U64_RANGE;
    assert (key / q) * q <= key;
    CancelFactor(key / q, n, q);
  }

  // ---- The hash spreads the keys evenly ---------------------------------------------------------------

  /** The inverse of the golden multiplier modulo 2^64. */
  const GOLDEN_INVERSE: u64 := 0xF1DE_83E1_9937_733D

  function KeyFor(product: int): u64 {
    Wrap64(Times(product, GOLDEN_INVERSE))
  }

  lemma InverseCancels(x: int)
    ensures Times(Times(x, GOLDEN), GOLDEN_INVERSE) % U64_RANGE == x % U64_RANGE
    ensures Times(Times(x, GOLDEN_INVERSE), GOLDEN) % U64_RANGE == x % U64_RANGE
  {
    var k := 10771413168148108919;
    assert GOLDEN as int * GOLDEN_INVERSE == k * U64_RANGE + 1;
    assert Times(Times(x, GOLDEN), GOLDEN_INVERSE) == x * (GOLDEN as int * GOLDEN_INVERSE) == x + (x * k) * U64_RANGE;
    assert Times(Times(x, GOLDEN_INVERSE), GOLDEN) == x * (GOLDEN as int * GOLDEN_INVERSE);
    ModOfSum(x, x * k, U64_RANGE);
  }

  /** Multiplying by the golden constant loses nothing. */
  lemma ProductAndBack(x: u64)
    ensures Wrap64(Times(KeyFor(x), GOLDEN)) == x
    ensures KeyFor(Wrap64(Times(x, GOLDEN))) == x
  {
    InverseCancels(x);
    WrapFactor(Times(x, GOLDEN_INVERSE), GOLDEN, U64_RANGE);
    WrapFactor(Times(x, GOLDEN), GOLDEN_INVERSE, U64_RANGE);
  }

  /** The `i`-th key of bucket `b`. */
  function BucketMember(cfg: Config, b: nat, i: nat): u64
    requires ValidConfig(cfg)
  {
    KeyFor(b * (U64_RANGE / cfg.numBuckets) + i)
  }

  lemma InBlock(b: nat, i: nat, size: nat, n: nat)
    requires b < n && i < size && size * n == U64_RANGE
    ensures 0 <= b * size + i < U64_RANGE && (b * size + i) / size == b
  {
    QuotientIs(b * size + i, b, i, size);
    assert (b + 1) * size <= n * size;
  }

  /** Every bucket is hit by the same number of keys: its members are all different, hash to it, and are all the
      keys that do. */
  lemma HashBalanced(cfg: Config, b: nat, i: nat)
    requires ValidConfig(cfg) && b < cfg.numBuckets && i < U64_RANGE / cfg.numBuckets
    ensures Hash(cfg, BucketMember(cfg, b, i)) == b
    ensures forall c: nat, j: nat | c < cfg.numBuckets && j < U64_RANGE / cfg.numBuckets ::
              BucketMember(cfg, c, j) == BucketMember(cfg, b, i) ==> c == b && j == i
  {
    var size := U64_RANGE / cfg.numBuckets;
    InBlock(b, i, size, cfg.numBuckets);
    ProductAndBack(b * size + i);
    forall c: nat, j: nat | c < cfg.numBuckets && j < size && BucketMember(cfg, c, j) == BucketMember(cfg, b, i)
      ensures c == b && j == i
    {
      SameMember(cfg, b, i, c, j, size);
    }
  }

  lemma SameMember(cfg: Config, b: nat, i: nat, c: nat, j: nat, size: nat)
    requires ValidConfig(cfg) && b < cfg.numBuckets && c < cfg.numBuckets
    requires size == U64_RANGE / cfg.numBuckets && i < size && j < size
    requires BucketMember(cfg, c, j) == BucketMember(cfg, b, i)
    ensures c == b && j == i
  {
    InBlock(b, i, size, cfg.numBuckets);
    InBlock(c, j, size, cfg.numBuckets);
    ProductAndBack(b * size + i);
    ProductAndBack(c * size + j);
    assert b * size + i == c * size + j;
  }

  lemma HashCoversAll(cfg: Config, key: u64)
    requires ValidConfig(cfg)
    ensures exists i: nat :: i < U64_RANGE / cfg.numBuckets && key == BucketMember(cfg, Hash(cfg, key), i)
  {
    var size, product := U64_RANGE / cfg.numBuckets, Wrap64(Times(key, GOLDEN));
    TopBits(product, cfg.numBuckets);
    ProductAndBack(key);
    var i: nat := product % size;
    assert product == Hash(cfg, key) * size + i;
    assert key == BucketMember(cfg, Hash(cfg, key), i);
  }

  /** tm_task_slot for a power-of-two window: masking by `window - 1` is the remainder. */
  function Slot(cfg: Config, local: int): (s: nat)
    requires cfg.window > 0
    ensures s < cfg.window
  {
    local % cfg.window
  }

  datatype Rec = Rec(view: View, producer: u32)

  type Log = seq<Rec>

  // ---- Filtering ---------------------------------------------------------------------

  function Filter<T>(s: seq<T>, keep: T -> bool): seq<T> {
    if s == [] then []
    else if keep(s[0]) then [s[0]] + Filter(s[1..], keep)
    else Filter(s[1..], keep)
  }

  lemma {:induction false} FilterAppend<T>(a: seq<T>, b: seq<T>, keep: T -> bool)
    ensures Filter(a + b, keep) == Filter(a, keep) + Filter(b, keep)
  {
    if a == [] {
      assert a + b == b;
    } else {
      assert (a + b)[1..] == a[1..] + b;
      FilterAppend(a[1..], b, keep);
    }
  }

  lemma FilterDropOne<T>(a: seq<T>, x: T, b: seq<T>, keep: T -> bool)
    requires !keep(x)
    ensures Filter(a + [x] + b, keep) == Filter(a + b, keep)
  {
    FilterAppend(a, b, keep);
    FilterAppend(a + [x], b, keep);
    FilterAppend(a, [x], keep);
    assert [x][1..] == [];
  }

  lemma {:induction false} FilterMember<T>(s: seq<T>, keep: T -> bool, x: T)
    ensures x in Filter(s, keep) <==> x in s && keep(x)
  {
    if s != [] {
      FilterMember(s[1..], keep, x);
    }
  }

  lemma {:induction false} FilterSame<T>(s: seq<T>, keep: T -> bool, also: T -> bool)
    requires forall i :: 0 <= i < |s| ==> keep(s[i]) == also(s[i])
    ensures Filter(s, keep) == Filter(s, also)
  {
    if s != [] {
      FilterSame(s[1..], keep, also);
    }
  }

  lemma {:induction false} FilterAll<T>(s: seq<T>, keep: T -> bool)
    requires forall i :: 0 <= i < |s| ==> keep(s[i])
    ensures Filter(s, keep) == s
  {
    if s != [] {
      FilterAll(s[1..], keep);
    }
  }

  function Both<T>(p: T -> bool, q: T -> bool): T -> bool {
    x => p(x) && q(x)
  }

  lemma {:induction false} FilterFilter<T>(s: seq<T>, p: T -> bool, q: T -> bool)
    ensures Filter(Filter(s, p), q) == Filter(s, Both(p, q))
  {
    if s != [] {
      FilterFilter(s[1..], p, q);
      assert p(s[0]) ==> Filter(s, p)[1..] == Filter(s[1..], p);
    }
  }

  lemma {:induction false} FilterShorter<T>(s: seq<T>, keep: T -> bool)
    ensures |Filter(s, keep)| <= |s|
  {
    if s != [] {
      FilterShorter(s[1..], keep);
    }
  }

  // ---- Lookup ---------------------------------------------------------------------------

  /** tm_entry_valid, same base address, and an overlap. */
  predicate IsHit(r: Rec, t: Tensor, lastAlive: i32) {
    AsI32(r.producer) >= lastAlive && r.view.base == t.view.base && CheckOverlap(t, r.view) != Nothing
  }

  /** What a match callback does: update its context, maybe remove the entry, maybe stop. */
  datatype Verdict<C> = Verdict(ctx: C, remove: bool, goOn: bool)

  /** tm_lookup_tensor on the log: the callback sees every hit once, newest first. */
  function Visit<C>(log: Log, t: Tensor, lastAlive: i32, onMatch: (Rec, Overlap, C) -> Verdict<C>, ctx: C): (Log, C) {
    if log == [] then (log, ctx)
    else if !IsHit(log[0], t, lastAlive) then
      var (rest, c) := Visit(log[1..], t, lastAlive, onMatch, ctx);
      ([log[0]] + rest, c)
    else
      var v := onMatch(log[0], CheckOverlap(t, log[0].view), ctx);
      var (rest, c) := if v.goOn then Visit(log[1..], t, lastAlive, onMatch, v.ctx) else (log[1..], v.ctx);
      (if v.remove then rest else [log[0]] + rest, c)
  }

  /** Records that are no hits are passed over. */
  lemma {:induction false} VisitSkip<C>(a: Log, b: Log, t: Tensor, lastAlive: i32, onMatch: (Rec, Overlap,
                                        C) -> Verdict<C>, ctx: C)
    requires forall i :: 0 <= i < |a| ==> !IsHit(a[i], t, lastAlive)
    ensures Visit(a + b, t, lastAlive, onMatch, ctx)
         == (a + Visit(b, t, lastAlive, onMatch, ctx).0, Visit(b, t, lastAlive, onMatch, ctx).1)
  {
    if a == [] {
      assert a + b == b;
      assert a + Visit(b, t, lastAlive, onMatch, ctx).0 == Visit(b, t, lastAlive, onMatch, ctx).0;
    } else {
      assert (a + b)[1..] == a[1..] + b;
      VisitSkip(a[1..], b, t, lastAlive, onMatch, ctx);
      assert [a[0]] + (a[1..] + Visit(b, t, lastAlive, onMatch, ctx).0) == a + Visit(b, t, lastAlive, onMatch, ctx).0;
    }
  }

  /** A callback that stops ends the lookup: what comes after the hit is left alone. */
  lemma VisitStops<C>(a: Log, r: Rec, b: Log, t: Tensor, lastAlive: i32, onMatch: (Rec, Overlap, C) -> Verdict<C>,
                      ctx: C)
    requires (forall i :: 0 <= i < |a| ==> !IsHit(a[i], t, lastAlive)) && IsHit(r, t, lastAlive)
    requires !onMatch(r, CheckOverlap(t, r.view), ctx).goOn
    ensures var v := onMatch(r, CheckOverlap(t, r.view), ctx);
            Visit(a + ([r] + b), t, lastAlive, onMatch, ctx) == (a + (if v.remove then b else [r] + b), v.ctx)
  {
    VisitSkip(a, [r] + b, t, lastAlive, onMatch, ctx);
    assert ([r] + b)[1..] == b;
  }

  function Hits(t: Tensor, lastAlive: i32): Rec -> bool {
    (r: Rec) => IsHit(r, t, lastAlive)
  }

  /** The callback's context after it has been called on the given hits in turn. */
  function Fold<C>(hits: Log, t: Tensor, onMatch: (Rec, Overlap, C) -> Verdict<C>, ctx: C): C {
    if hits == [] then ctx
    else Fold(hits[1..], t, onMatch, onMatch(hits[0], CheckOverlap(t, hits[0].view), ctx).ctx)
  }

  function Spared(t: Tensor, lastAlive: i32, removes: Overlap -> bool): Rec -> bool {
    (r: Rec) => !(IsHit(r, t, lastAlive) && removes(CheckOverlap(t, r.view)))
  }

  /** A callback that always goes on is called on exactly the hits, newest first, each once, whatever it
      removes; and exactly the hits it asks to remove are gone afterwards. */
  lemma {:induction false} VisitIsFold<C(!new)>(log: Log, t: Tensor, lastAlive: i32, onMatch: (Rec, Overlap,
                                         C) -> Verdict<C>,
                                         ctx: C, inv: C -> bool, removes: Overlap -> bool)
    requires inv(ctx)
    requires forall r, ov, c :: inv(c) ==>
               var v := onMatch(r, ov, c); inv(v.ctx) && v.goOn && v.remove == removes(ov)
    ensures Visit(log, t, lastAlive, onMatch, ctx)
         == (Filter(log, Spared(t, lastAlive, removes)), Fold(Filter(log, Hits(t, lastAlive)), t, onMatch, ctx))
  {
    if log != [] {
      var v := onMatch(log[0], CheckOverlap(t, log[0].view), ctx);
      if IsHit(log[0], t, lastAlive) {
        VisitIsFold(log[1..], t, lastAlive, onMatch, v.ctx, inv, removes);
        assert ([log[0]] + Filter(log[1..], Hits(t, lastAlive)))[1..] == Filter(log[1..], Hits(t, lastAlive));
      } else {
        VisitIsFold(log[1..], t, lastAlive, onMatch, ctx, inv, removes);
      }
    }
  }

  // ---- Retirement -------------------------------------------------------------------------

  function OffSlot(cfg: Config, slot: int): Rec -> bool
    requires cfg.window > 0
  {
    (r: Rec) => r.producer % cfg.window != slot
  }

  function DropSlot(log: Log, cfg: Config, slot: int): Log
    requires cfg.window > 0
  {
    Filter(log, OffSlot(cfg, slot))
  }

  function Span(from: int, to: int): nat {
    if from < to then to - from else 0
  }

  /** tm_cleanup_retired: every record in the slots of `from .. to`. */
  function Purge(log: Log, cfg: Config, from: int, to: int): Log
    requires cfg.window > 0
    decreases Span(from, to)
  {
    if to <= from then log else DropSlot(Purge(log, cfg, from, to - 1), cfg, Slot(cfg, to - 1))
  }

  const CLEANUP_INTERVAL: int := 64

  datatype MapState = MapState(log: Log, lastAlive: i32, lastCleanup: i32)

  /** tm_sync_tensormap. */
  function Synced(m: MapState, cfg: Config, alive: i32, current: u32): MapState
    requires cfg.window > 0
  {
    if alive as int - m.lastCleanup >= CLEANUP_INTERVAL || Slot(cfg, current) == Slot(cfg, m.lastCleanup) then
      MapState(Purge(m.log, cfg, m.lastCleanup, alive), alive, alive)
    else
      m.(lastAlive := alive)
  }

  /** tm_insert_tensor: a full pool drops the record. */
  function Inserted(log: Log, cfg: Config, r: Rec): Log {
    if |log| < cfg.poolSize then [r] + log else log
  }

  predicate SlotIn(cfg: Config, from: int, to: int, slot: nat)
    requires cfg.window > 0
  {
    exists l :: from <= l < to && Slot(cfg, l) == slot
  }

  /** What a purge keeps, slot by slot. */
  function OffSlots(cfg: Config, from: int, to: int): Rec -> bool
    requires cfg.window > 0
  {
    (r: Rec) => cfg.window > 0 && !SlotIn(cfg, from, to, r.producer % cfg.window)
  }

  lemma {:induction false} PurgeIsFilter(log: Log, cfg: Config, from: int, to: int)
    requires cfg.window > 0
    ensures Purge(log, cfg, from, to) == Filter(log, OffSlots(cfg, from, to))
    decreases Span(from, to)
  {
    if to <= from {
      FilterAll(log, OffSlots(cfg, from, to));
    } else {
      PurgeIsFilter(log, cfg, from, to - 1);
      var inner, last := OffSlots(cfg, from, to - 1), OffSlot(cfg, Slot(cfg, to - 1));
      FilterFilter(log, inner, last);
      forall r: Rec ensures Both(inner, last)(r) == OffSlots(cfg, from, to)(r) {
        SlotInStep(cfg, from, to, r.producer % cfg.window);
      }
      FilterSame(log, Both(inner, last), OffSlots(cfg, from, to));
    }
  }

  lemma SlotInStep(cfg: Config, from: int, to: int, slot: nat)
    requires cfg.window > 0 && from < to
    ensures SlotIn(cfg, from, to, slot) <==> SlotIn(cfg, from, to - 1, slot) || Slot(cfg, to - 1) == slot
  {
    if SlotIn(cfg, from, to - 1, slot) {
      var l :| from <= l < to - 1 && Slot(cfg, l) == slot;
    }
  }

  /** Produced at `low` or later. */
  function From(low: int): Rec -> bool {
    (r: Rec) => r.producer >= low
  }

  /** All producers lie in one window from the last cleanup on. */
  ghost predicate InWindow(log: Log, cfg: Config, from: int) {
    forall i :: 0 <= i < |log| ==> from <= log[i].producer < from + cfg.window
  }

  /** Retirement is exact across slot wrap: cleaning `[from, to)` frees the records produced before `to`
      and no others, as long as the live producers span less than one window. */
  lemma PurgeExact(log: Log, cfg: Config, from: int, to: int)
    requires cfg.window > 0 && InWindow(log, cfg, from) && from <= to <= from + cfg.window
    ensures Purge(log, cfg, from, to) == Filter(log, From(to))
  {
    var keep, young := OffSlots(cfg, from, to), From(to);
    PurgeIsFilter(log, cfg, from, to);
    forall i | 0 <= i < |log| ensures keep(log[i]) == young(log[i]) {
      var p := log[i].producer;
      if p < to {
        assert Slot(cfg, p) == p % cfg.window;
      } else {
        forall l | from <= l < to ensures Slot(cfg, l) != Slot(cfg, p) {
          if Slot(cfg, l) == Slot(cfg, p) {
            SameResidue(l, p, cfg.window);
          }
        }
      }
    }
    FilterSame(log, keep, young);
  }
}
