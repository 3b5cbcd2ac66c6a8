/** The overlap classifier tm_check_overlap (esl_proxy/include/algorithm/tensormap_core.h). */
module Overlaps {
  import opened Words
  import opened Radix
  import opened Tensors

  datatype Overlap = Nothing | Covered | Other

  /** `tm_entry_extent_elem`, and the same expression on the consumer's side. */
  function Extent(v: View): u64 {
    if v.isContiguous then Numel(v) else v.extentCache
  }

  function RangeEnd(v: View): u64 {
    Wrap64(v.startOffset as int + Extent(v))
  }

  /** The first test: the two half-open element ranges do not intersect. */
  predicate RangeApart(v: View, w: View) {
    !(RangeEnd(v) > w.startOffset && RangeEnd(w) > v.startOffset)
  }

  function StorageElements(t: Tensor): u64 {
    if t.view.dtype != 0 then t.bufferSize / t.view.dtype else 0
  }

  /** Per-dimension extent of the storage, from strides and buffer size; dimension 0 is cut to 32 bits. */
  function RefShape(t: Tensor, s: seq<u32>, i: nat): u32
    requires i < |s| && AllPositive(s)
  {
    if i == 0 then Wrap32(StorageElements(t) / s[0]) else s[i - 1] / s[i]
  }

  /** Start offset decomposed into per-dimension offsets, each cut to 32 bits. */
  function Offsets(v: View, s: seq<u32>): (o: seq<u32>)
    requires AllPositive(s)
    ensures |o| == |s|
  {
    seq(|s|, i requires 0 <= i < |s| => Wrap32(Digits(v.startOffset, s)[i]))
  }

  predicate InsideStorage(t: Tensor, v: View, s: seq<u32>)
    requires AllPositive(s) && |s| == v.ndims
  {
    forall i :: 0 <= i < |s| ==> Offsets(v, s)[i] as int + Shape(v)[i] <= RefShape(t, s, i)
  }

  /** Everything that must hold before the per-dimension comparison is trusted. */
  predicate Comparable(t: Tensor, e: View) {
    var s := Steps(e);
    && t.view.dtype == e.dtype && t.view.ndims == e.ndims && t.view.ndims != 0
    && Steps(t.view) == s
    && RowMajor(s)
    && StorageElements(t) % s[0] == 0
    && InsideStorage(t, t.view, s) && InsideStorage(t, e, s)
  }

  predicate SpanApart(a: nat, n: nat, b: nat, m: nat) {
    !(a + n > b && b + m > a)
  }

  predicate SpanInside(a: nat, n: nat, b: nat, m: nat) {
    a <= b && b + m <= a + n
  }

  predicate SomeApart(o: seq<nat>, n: seq<nat>, p: seq<nat>, m: seq<nat>)
    requires |o| == |n| == |p| == |m|
  {
    exists i :: 0 <= i < |o| && SpanApart(o[i], n[i], p[i], m[i])
  }

  predicate AllInside(o: seq<nat>, n: seq<nat>, p: seq<nat>, m: seq<nat>)
    requires |o| == |n| == |p| == |m|
  {
    forall i :: 0 <= i < |o| ==> SpanInside(o[i], n[i], p[i], m[i])
  }

  function CompareBoxes(o: seq<nat>, n: seq<nat>, p: seq<nat>, m: seq<nat>): Overlap
    requires |o| == |n| == |p| == |m|
  {
    if SomeApart(o, n, p, m) then Nothing else if AllInside(o, n, p, m) then Covered else Other
  }

  function BoxVerdict(t: Tensor, e: View): Overlap
    requires Comparable(t, e)
  {
    CompareBoxes(Offsets(t.view, Steps(e)), Shape(t.view), Offsets(e, Steps(e)), Shape(e))
  }

  /** The path for any number of dimensions. */
  function OverlapNd(t: Tensor, e: View): Overlap {
    if RangeApart(t.view, e) then Nothing
    else if !Comparable(t, e) then Other
    else BoxVerdict(t, e)
  }

  /** The two-dimensional fast path, statement by statement. */
  function Overlap2d(t: Tensor, e: View): Overlap {
    var v := t.view;
    var extent := if v.isContiguous then Wrap64(Times(v.shapes[0], v.shapes[1])) else v.extentCache;
    var entExtent := if e.isContiguous then Wrap64(Times(e.shapes[0], e.shapes[1])) else e.extentCache;
    var inEnd, entEnd := Wrap64(v.startOffset as int + extent), Wrap64(e.startOffset as int + entExtent);
    if !(inEnd > e.startOffset && entEnd > v.startOffset) then Nothing
    else if v.dtype != e.dtype then Other
    else if v.strides[0] != e.strides[0] || v.strides[1] != e.strides[1] then Other
    else if e.strides[1] != 1 then Other
    else if e.strides[0] % e.strides[1] != 0 then Other
    else
      var s0, s1 := e.strides[0], e.strides[1];
      var numel := StorageElements(t);
      if s0 == 0 || numel % s0 != 0 then Other
      else
        var ref0, ref1 := Wrap32(numel / s0), s0 / s1;
        var inOff0, inOff1 := Wrap32(v.startOffset / s0), Wrap32((v.startOffset % s0) / s1);
        var entOff0, entOff1 := Wrap32(e.startOffset / s0), Wrap32((e.startOffset % s0) / s1);
        if (v.startOffset % s0) % s1 != 0 || (e.startOffset % s0) % s1 != 0 then Other
        else if inOff0 as int + v.shapes[0] > ref0 || entOff0 as int + e.shapes[0] > ref0 then Other
        else if inOff1 as int + v.shapes[1] > ref1 || entOff1 as int + e.shapes[1] > ref1 then Other
        else if SpanApart(inOff0, v.shapes[0], entOff0, e.shapes[0]) then Nothing
        else if SpanApart(inOff1, v.shapes[1], entOff1, e.shapes[1]) then Nothing
        else if SpanInside(inOff0, v.shapes[0], entOff0, e.shapes[0])
                && SpanInside(inOff1, v.shapes[1], entOff1, e.shapes[1]) then Covered
        else Other
  }

  /** tm_check_overlap. */
  function CheckOverlap(t: Tensor, e: View): Overlap {
    if t.view.version > e.version then Other
    else if t.view.ndims == 2 && e.ndims == 2 then Overlap2d(t, e)
    else OverlapNd(t, e)
  }

  // ---- The fast path agrees with the general one ------------------------------

  lemma Numel2d(v: View)
    requires v.ndims == 2
    ensures Numel(v) == Wrap64(Times(v.shapes[0], v.shapes[1]))
  {
    assert Shape(v) == [v.shapes[0], v.shapes[1]];
    Product2(v.shapes[0], v.shapes[1]);
  }

  lemma Offsets2d(v: View, s: seq<u32>)
    requires |s| == 2 && AllPositive(s)
    ensures Offsets(v, s) == [Wrap32(v.startOffset / s[0]), Wrap32((v.startOffset % s[0]) / s[1])]
  {
    var r := v.startOffset % s[0];
    assert Digits(r, s[1..])[0] == r / s[1..][0];
    assert Digits(v.startOffset, s)[1] == Digits(r, s[1..])[0];
  }

  lemma TwoSpans(o: seq<nat>, n: seq<nat>, p: seq<nat>, m: seq<nat>)
    requires |o| == |n| == |p| == |m| == 2
    ensures SpanApart(o[0], n[0], p[0], m[0]) || SpanApart(o[1], n[1], p[1], m[1]) <==> SomeApart(o, n, p, m)
    ensures SpanInside(o[0], n[0], p[0], m[0]) && SpanInside(o[1], n[1], p[1], m[1]) <==> AllInside(o, n, p, m)
  {
  }

  lemma FastPathIsGeneral(t: Tensor, e: View)
    requires t.view.ndims == 2 && e.ndims == 2
    ensures Overlap2d(t, e) == OverlapNd(t, e)
  {
    Numel2d(t.view);
    Numel2d(e);
    var s := Steps(e);
    assert s == [e.strides[0], e.strides[1]] && Steps(t.view) == [t.view.strides[0], t.view.strides[1]];
    if s[1] == 1 && s[0] != 0 {
      assert RowMajor(s);
      Offsets2d(t.view, s);
      Offsets2d(e, s);
      if Comparable(t, e) {
        var o, n, p, m := Offsets(t.view, s), Shape(t.view), Offsets(e, s), Shape(e);
        TwoSpans(o, n, p, m);
      }
    }
  }

  // ---- Boxes of digits ----------------------------------------------------------

  ghost predicate InBox(c: seq<nat>, o: seq<nat>, n: seq<nat>)
    requires |c| == |o| == |n|
  {
    forall i :: 0 <= i < |c| ==> o[i] <= c[i] < o[i] + n[i]
  }

  /** The view's digits do not run over the stride of the next outer dimension. */
  predicate FitsStrides(v: View) {
    var s := Steps(v);
    && RowMajor(s)
    && forall i :: 1 <= i < |s| ==> Digits(v.startOffset, s)[i] + Shape(v)[i] <= s[i - 1] / s[i]
  }

  lemma ShiftedCarries(v: View, c: seq<nat>)
    requires FitsStrides(v) && InShape(c, Shape(v))
    ensures Carries(Plus(Digits(v.startOffset, Steps(v)), c), Steps(v))
  {
  }

  lemma AddressedDigits(v: View, x: int)
    requires FitsStrides(v) && Addresses(v, x)
    ensures x >= 0 && InBox(Digits(x, Steps(v)), Digits(v.startOffset, Steps(v)), Shape(v))
  {
    var s := Steps(v);
    var o := Digits(v.startOffset, s);
    var c: seq<nat> :| InShape(c, Shape(v)) && x == v.startOffset + Dot(c, s);
    DotOfDigits(v.startOffset, s);
    DotPlus(o, c, s);
    ShiftedCarries(v, c);
    DigitsOfDot(Plus(o, c), s);
  }

  lemma BoxAddressed(v: View, x: nat)
    requires FitsStrides(v)
    requires InBox(Digits(x, Steps(v)), Digits(v.startOffset, Steps(v)), Shape(v))
    ensures Addresses(v, x)
  {
    var s := Steps(v);
    var o, d := Digits(v.startOffset, s), Digits(x, s);
    var c: seq<nat> := seq(|s|, i requires 0 <= i < |s| => d[i] - o[i]);
    DotOfDigits(v.startOffset, s);
    DotOfDigits(x, s);
    DotPlus(o, c, s);
    assert Plus(o, c) == d;
    assert InShape(c, Shape(v));
  }

  /** In a row-major view an element is addressed exactly when its digits lie in the view's box. */
  lemma AddressesIsBox(v: View, x: int)
    requires FitsStrides(v)
    ensures Addresses(v, x) <==>
            x >= 0 && InBox(Digits(x, Steps(v)), Digits(v.startOffset, Steps(v)), Shape(v))
  {
    if Addresses(v, x) {
      AddressedDigits(v, x);
    } else if x >= 0 && InBox(Digits(x, Steps(v)), Digits(v.startOffset, Steps(v)), Shape(v)) {
      BoxAddressed(v, x);
    }
  }

  /** The element with given digits. */
  lemma BoxMember(v: View, c: seq<nat>) returns (x: nat)
    requires FitsStrides(v) && |c| == v.ndims && InBox(c, Digits(v.startOffset, Steps(v)), Shape(v))
    ensures Digits(x, Steps(v)) == c && Addresses(v, x)
  {
    x := Dot(c, Steps(v));
    DigitsOfDot(c, Steps(v));
    AddressesIsBox(v, x);
  }

  lemma BoxesApart(v: View, w: View)
    requires FitsStrides(v) && FitsStrides(w) && Steps(v) == Steps(w)
    requires NonEmpty(v) && NonEmpty(w)
    ensures Disjoint(v, w) <==>
            SomeApart(Digits(v.startOffset, Steps(v)), Shape(v), Digits(w.startOffset, Steps(w)), Shape(w))
  {
    var s := Steps(v);
    var o, n, p, m := Digits(v.startOffset, s), Shape(v), Digits(w.startOffset, s), Shape(w);
    if SomeApart(o, n, p, m) {
      forall x ensures !(Addresses(v, x) && Addresses(w, x)) {
        AddressesIsBox(v, x);
        AddressesIsBox(w, x);
      }
    } else {
      var c: seq<nat> := seq(|s|, i requires 0 <= i < |s| => if o[i] < p[i] then p[i] else o[i]);
      assert forall i :: 0 <= i < |s| ==> !SpanApart(o[i], n[i], p[i], m[i]);
      var x := BoxMember(v, c);
      AddressesIsBox(w, x);
    }
  }

  lemma BoxesNested(v: View, w: View)
    requires FitsStrides(v) && FitsStrides(w) && Steps(v) == Steps(w)
    requires NonEmpty(v) && NonEmpty(w)
    ensures Contains(v, w) <==>
            AllInside(Digits(v.startOffset, Steps(v)), Shape(v), Digits(w.startOffset, Steps(w)), Shape(w))
  {
    var s := Steps(v);
    var o, n, p, m := Digits(v.startOffset, s), Shape(v), Digits(w.startOffset, s), Shape(w);
    if AllInside(o, n, p, m) {
      forall x | Addresses(w, x) ensures Addresses(v, x) {
        AddressesIsBox(v, x);
        AddressesIsBox(w, x);
        assert forall i :: 0 <= i < |s| ==> SpanInside(o[i], n[i], p[i], m[i]);
      }
    } else {
      var high: seq<nat> := seq(|s|, i requires 0 <= i < |s| => p[i] + m[i] - 1);
      var first := BoxMember(w, p);
      var last := BoxMember(w, high);
      AddressesIsBox(v, first);
      AddressesIsBox(v, last);
    }
  }

  // ---- The 32-bit offsets -------------------------------------------------------

  /** Both views start in the same block of 2^32 rows of the outermost dimension. */
  predicate SameRowBlock(v: View, w: View) {
    v.ndims > 0 && w.ndims > 0 && v.strides[0] > 0 && w.strides[0] > 0 ==>
      v.startOffset / v.strides[0] / U32_RANGE == w.startOffset / w.strides[0] / U32_RANGE
  }

  lemma QuotientAtMost(a: nat, b: nat)
    requires b > 0
    ensures a / b <= a
  {
    AtLeast(b, a / b);
    assert b * (a / b) <= a;
  }

  /** Only the outermost offset can lose bits to the cast. */
  lemma OnlyOuterCast(v: View, s: seq<u32>)
    requires RowMajor(s)
    ensures forall i :: 1 <= i < |s| ==> Offsets(v, s)[i] == Digits(v.startOffset, s)[i]
    ensures Offsets(v, s)[0] == (v.startOffset / s[0]) % U32_RANGE
  {
    DotOfDigits(v.startOffset, s);
    forall i | 1 <= i < |s| ensures Offsets(v, s)[i] == Digits(v.startOffset, s)[i] {
      QuotientAtMost(s[i - 1], s[i]);
    }
  }

  lemma ComparableFits(t: Tensor, e: View)
    requires Comparable(t, e)
    ensures FitsStrides(t.view) && FitsStrides(e)
  {
    OnlyOuterCast(t.view, Steps(e));
    OnlyOuterCast(e, Steps(e));
  }

  /** Row positions inside their blocks compare like the full positions within one block, and two row
      spans from different blocks never meet. */
  lemma RowSpans(q: nat, n: nat, r: nat, m: nat)
    requires n > 0 && m > 0 && q % U32_RANGE + n <= U32_RANGE && r % U32_RANGE + m <= U32_RANGE
    ensures q / U32_RANGE == r / U32_RANGE ==>
              && (SpanApart(q, n, r, m) <==> SpanApart(q % U32_RANGE, n, r % U32_RANGE, m))
              && (SpanInside(q, n, r, m) <==> SpanInside(q % U32_RANGE, n, r % U32_RANGE, m))
    ensures q / U32_RANGE != r / U32_RANGE ==> SpanApart(q, n, r, m)
  {
  }

  /** Casting the outermost digits changes no comparison inside one block. */
  lemma CastKeepsVerdict(o: seq<nat>, p: seq<nat>, n: seq<nat>, m: seq<nat>, o': seq<nat>, p': seq<nat>)
    requires |o| == |p| == |n| == |m| == |o'| == |p'| > 0 && AllPositive(n) && AllPositive(m)
    requires o'[1..] == o[1..] && p'[1..] == p[1..]
    requires o'[0] == o[0] % U32_RANGE && p'[0] == p[0] % U32_RANGE
    requires o'[0] + n[0] <= U32_RANGE && p'[0] + m[0] <= U32_RANGE
    ensures o[0] / U32_RANGE == p[0] / U32_RANGE ==> CompareBoxes(o', n, p', m) == CompareBoxes(o, n, p, m)
    ensures o[0] / U32_RANGE != p[0] / U32_RANGE ==> SomeApart(o, n, p, m)
  {
    RowSpans(o[0], n[0], p[0], m[0]);
    if o[0] / U32_RANGE == p[0] / U32_RANGE {
      forall i | 0 <= i < |o|
        ensures SpanApart(o[i], n[i], p[i], m[i]) == SpanApart(o'[i], n[i], p'[i], m[i])
        ensures SpanInside(o[i], n[i], p[i], m[i]) == SpanInside(o'[i], n[i], p'[i], m[i])
      {
        assert i > 0 ==> o[i] == o[1..][i - 1] && o'[i] == o'[1..][i - 1];
        assert i > 0 ==> p[i] == p[1..][i - 1] && p'[i] == p'[1..][i - 1];
      }
    }
  }

  lemma InsideMeansNotApart(o: seq<nat>, n: seq<nat>, p: seq<nat>, m: seq<nat>)
    requires |o| == |n| == |p| == |m| && AllPositive(m)
    ensures AllInside(o, n, p, m) ==> !SomeApart(o, n, p, m)
  {
  }

  /** Past all checks the answer is exact within one row block, and across blocks the views are disjoint. */
  lemma BoxVerdictExact(t: Tensor, e: View)
    requires Comparable(t, e) && NonEmpty(t.view) && NonEmpty(e)
    ensures SameRowBlock(t.view, e) ==>
              && (BoxVerdict(t, e) == Nothing <==> Disjoint(t.view, e))
              && (BoxVerdict(t, e) == Covered <==> Contains(t.view, e))
    ensures !SameRowBlock(t.view, e) ==> Disjoint(t.view, e) && !Contains(t.view, e)
  {
    var v, s := t.view, Steps(e);
    ComparableFits(t, e);
    BoxesApart(v, e);
    BoxesNested(v, e);
    ComparedDigits(t, e);
    InsideMeansNotApart(Digits(v.startOffset, s), Shape(v), Digits(e.startOffset, s), Shape(e));
    assert s[0] == v.strides[0] == e.strides[0];
  }

  /** The compared offsets stand for the full digits. */
  lemma ComparedDigits(t: Tensor, e: View)
    requires Comparable(t, e) && NonEmpty(t.view) && NonEmpty(e)
    ensures var s := Steps(e);
            var o, p := Digits(t.view.startOffset, s), Digits(e.startOffset, s);
            && o[0] == t.view.startOffset / s[0] && p[0] == e.startOffset / s[0]
            && (o[0] / U32_RANGE == p[0] / U32_RANGE ==>
                  BoxVerdict(t, e) == CompareBoxes(o, Shape(t.view), p, Shape(e)))
            && (o[0] / U32_RANGE != p[0] / U32_RANGE ==> SomeApart(o, Shape(t.view), p, Shape(e)))
  {
    var v, s := t.view, Steps(e);
    OnlyOuterCast(v, s);
    OnlyOuterCast(e, s);
    assert Offsets(v, s)[0] as int + Shape(v)[0] <= RefShape(t, s, 0) < U32_RANGE;
    assert Offsets(e, s)[0] as int + Shape(e)[0] <= RefShape(t, s, 0) < U32_RANGE;
    var o, p := Digits(v.startOffset, s), Digits(e.startOffset, s);
    CastKeepsVerdict(o, p, Shape(v), Shape(e), Offsets(v, s), Offsets(e, s));
  }

  // ---- The range test -------------------------------------------------------------

  /** The extent used by the range test is the hull, or (as view_at computes it) one less. */
  predicate ExtentNearHull(v: View) {
    NonEmpty(v) && Hull(v) - 1 <= Extent(v) <= Hull(v) && v.startOffset as int + Hull(v) < U64_RANGE
  }

  /** The extent does not overstate the hull. */
  predicate ExtentInHull(v: View) {
    NonEmpty(v) && Extent(v) <= Hull(v) && v.startOffset as int + Hull(v) < U64_RANGE
  }

  predicate ExtentIsHull(v: View) {
    ExtentNearHull(v) && Extent(v) == Hull(v)
  }

  /** A one-short range of `v` stops right where `w` begins. */
  predicate StopsAt(v: View, w: View)
    requires NonEmpty(v)
  {
    Extent(v) < Hull(v) && v.startOffset as int + Extent(v) == w.startOffset
  }

  /** The range test answers "nothing shared" wrongly exactly when a one-short range stops at the other
      view's first element; then that element is the only shared one. */
  lemma RangeApartExact(v: View, w: View)
    requires ExtentNearHull(v) && ExtentNearHull(w) && RangeApart(v, w)
    ensures !Disjoint(v, w) <==> StopsAt(v, w) || StopsAt(w, v)
    ensures forall x, y :: Addresses(v, x) && Addresses(w, x) && Addresses(v, y) && Addresses(w, y) ==> x == y
  {
    HullEndsAddressed(v);
    HullEndsAddressed(w);
    forall x | Addresses(v, x) && Addresses(w, x)
      ensures (StopsAt(v, w) && x == w.startOffset) || (StopsAt(w, v) && x == v.startOffset)
    {
      WithinHull(v, x);
      WithinHull(w, x);
    }
    if StopsAt(v, w) {
      assert Addresses(v, w.startOffset) && Addresses(w, w.startOffset);
    }
    if StopsAt(w, v) {
      assert Addresses(w, v.startOffset) && Addresses(v, v.startOffset);
    }
  }

  // ---- The whole classifier ---------------------------------------------------------

  lemma CheckOverlapCases(t: Tensor, e: View)
    ensures CheckOverlap(t, e) == if t.view.version > e.version then Other else OverlapNd(t, e)
  {
    if t.view.ndims == 2 && e.ndims == 2 {
      FastPathIsGeneral(t, e);
    }
  }

  /** "Nothing" is wrong exactly when the range test gave it and a one-short range stops at the other start. */
  lemma NothingExact(t: Tensor, e: View)
    requires ExtentNearHull(t.view) && ExtentNearHull(e) && CheckOverlap(t, e) == Nothing
    ensures Disjoint(t.view, e) <==> !(RangeApart(t.view, e) && (StopsAt(t.view, e) || StopsAt(e, t.view)))
  {
    CheckOverlapCases(t, e);
    if RangeApart(t.view, e) {
      RangeApartExact(t.view, e);
    } else {
      BoxVerdictExact(t, e);
    }
  }

  /** "Covered" is right exactly when the two views start in the same block of 2^32 rows. */
  lemma CoveredExact(t: Tensor, e: View)
    requires NonEmpty(t.view) && NonEmpty(e) && CheckOverlap(t, e) == Covered
    ensures Contains(t.view, e) <==> SameRowBlock(t.view, e)
  {
    CheckOverlapCases(t, e);
    BoxVerdictExact(t, e);
  }

  /** A comparable view lies in the rows from its first one on. */
  lemma HullInRows(v: View)
    requires FitsStrides(v) && NonEmpty(v)
    ensures var row := v.startOffset / v.strides[0];
            row * v.strides[0] <= v.startOffset && v.startOffset + Hull(v) <= (row + v.shapes[0]) * v.strides[0]
  {
    var s := Steps(v);
    HullEndsAddressed(v);
    var last := v.startOffset + Hull(v) - 1;
    AddressedDigits(v, last);
    assert s[0] == v.strides[0] && Shape(v)[0] == v.shapes[0];
    RowEnds(last, v.startOffset / s[0] + v.shapes[0], s[0]);
    RowStarts(v.startOffset, s[0]);
  }

  lemma RowEnds(x: nat, row: nat, s: nat)
    requires s > 0 && x / s < row
    ensures x + 1 <= row * s
  {
    AtLeastRow(x / s, row, s);
  }

  lemma RowStarts(x: nat, s: nat)
    requires s > 0
    ensures x / s * s <= x
  {
  }

  lemma AtLeastRow(q: nat, row: nat, s: nat)
    requires q < row
    ensures q * s + s <= row * s
  {
    assert (q + 1) * s <= row * s;
  }

  /** The bounds check keeps each view inside one block of 2^32 rows. */
  lemma RowsFit(t: Tensor, e: View)
    requires Comparable(t, e)
    ensures t.view.strides[0] == e.strides[0] > 0
    ensures t.view.startOffset / e.strides[0] % U32_RANGE + t.view.shapes[0] < U32_RANGE
    ensures e.startOffset / e.strides[0] % U32_RANGE + e.shapes[0] < U32_RANGE
  {
    var s := Steps(e);
    OnlyOuterCast(t.view, s);
    OnlyOuterCast(e, s);
    assert s[0] == t.view.strides[0] == e.strides[0];
    assert Shape(t.view)[0] == t.view.shapes[0] && Shape(e)[0] == e.shapes[0];
    assert Offsets(t.view, s)[0] as int + t.view.shapes[0] <= RefShape(t, s, 0);
    assert Offsets(e, s)[0] as int + e.shapes[0] <= RefShape(t, s, 0);
  }

  lemma EndsBefore(v: View, w: View)
    requires FitsStrides(v) && FitsStrides(w) && ExtentInHull(v) && NonEmpty(w) && v.strides[0] == w.strides[0] > 0
    requires v.startOffset / v.strides[0] + v.shapes[0] <= w.startOffset / w.strides[0]
    ensures RangeEnd(v) <= w.startOffset
  {
    assert v.startOffset + Hull(v) <= w.startOffset by {
      HullInRows(v);
      HullInRows(w);
      RowsApart(v.startOffset / v.strides[0] + v.shapes[0], w.startOffset / w.strides[0], v.strides[0]);
    }
  }

  lemma RowsApart(a: int, b: int, s: nat)
    requires a <= b
    ensures a * s <= b * s
  {
  }

  lemma BlockEnds(q: nat, n: nat, r: nat)
    requires q <= r && q / U32_RANGE != r / U32_RANGE && q % U32_RANGE + n < U32_RANGE
    ensures q + n <= r
  {
  }

  /** Rows of different blocks are told apart by the range test already. */
  lemma BlocksApart(t: Tensor, e: View)
    requires Comparable(t, e) && ExtentInHull(t.view) && ExtentInHull(e) && !SameRowBlock(t.view, e)
    ensures RangeApart(t.view, e)
  {
    ComparableFits(t, e);
    RowsFit(t, e);
    var q, r := t.view.startOffset / e.strides[0], e.startOffset / e.strides[0];
    if q < r {
      BlockEnds(q, t.view.shapes[0], r);
      EndsBefore(t.view, e);
    } else {
      BlockEnds(r, e.shapes[0], q);
      EndsBefore(e, t.view);
    }
  }

  /** Unless an extent overstates its hull "covered" is always right: it is never reached across row blocks. */
  lemma CoveredIsContained(t: Tensor, e: View)
    requires ExtentInHull(t.view) && ExtentInHull(e) && CheckOverlap(t, e) == Covered
    ensures Contains(t.view, e)
  {
    CheckOverlapCases(t, e);
    CoveredExact(t, e);
    if !SameRowBlock(t.view, e) {
      BlocksApart(t, e);
    }
  }

  /** A one-element view whose cached extent claims 2^32 + 1 elements, and the element 2^32 places on: the rows
      compare as equal after the cast, and the answer is "covered". */
  lemma CoveredAcrossBlocks()
    ensures var v := ViewFields(0, 0, 0, 1, 1, false, [1, 0, 0, 0, 0], 0x1_0000_0001, [1, 0, 0, 0, 0]);
            var t := Tensor(v, 0x1_0000_0001);
            var e := ViewFields(0, 0x1_0000_0000, 0, 1, 1, false, [1, 0, 0, 0, 0], 1, [1, 0, 0, 0, 0]);
            CheckOverlap(t, e) == Covered && !Contains(t.view, e)
  {
    var t := Tensor(ViewFields(0, 0, 0, 1, 1, false, [1, 0, 0, 0, 0], 0x1_0000_0001, [1, 0, 0, 0, 0]), 0x1_0000_0001);
    var e := ViewFields(0, 0x1_0000_0000, 0, 1, 1, false, [1, 0, 0, 0, 0], 1, [1, 0, 0, 0, 0]);
    var s := [1];
    assert Steps(t.view) == Steps(e) == s && Shape(t.view) == Shape(e) == [1];
    assert Digits(0, s) == [0] && Digits(0x1_0000_0000, s) == [0x1_0000_0000];
    assert Leftover(0, s) == 0 && Leftover(0x1_0000_0000, s) == 0;
    assert Offsets(t.view, s) == [0] && Offsets(e, s) == [0];
    assert Comparable(t, e);
    CoveredExact(t, e);
  }

  /** What the dependency engine needs of one classification. */
  ghost predicate Sound(t: Tensor, e: View) {
    && (CheckOverlap(t, e) == Nothing ==> Disjoint(t.view, e))
    && (CheckOverlap(t, e) == Covered ==> Contains(t.view, e))
  }

  lemma HullExtentsAreSound(t: Tensor, e: View)
    requires ExtentIsHull(t.view) && ExtentIsHull(e)
    ensures Sound(t, e)
  {
    if CheckOverlap(t, e) == Nothing {
      NothingExact(t, e);
    } else if CheckOverlap(t, e) == Covered {
      CoveredIsContained(t, e);
    }
  }
}
