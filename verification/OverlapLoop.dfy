/** The loops of the general path, and the views the library itself produces. */
module OverlapLoops {
  import opened Words
  import opened Radix
  import opened Tensors
  import opened Overlaps

  /** The checks between the range test and the offsets. A zero divisor in the divisibility loop is
      undefined in C; here it counts as "not divisible". */
  method LayoutsAgree(t: Tensor, e: View) returns (ok: bool)
    ensures ok <==>
            && t.view.dtype == e.dtype && t.view.ndims == e.ndims && t.view.ndims != 0
            && Steps(t.view) == Steps(e) && RowMajor(Steps(e)) && StorageElements(t) % e.strides[0] == 0
  {
    var v, n := t.view, t.view.ndims;
    if v.dtype != e.dtype || v.ndims != e.ndims || v.ndims == 0 {
      return false;
    }
    ghost var s := Steps(e);
    for i := 0 to n
      invariant v.strides[..i] == e.strides[..i]
    {
      if v.strides[i] != e.strides[i] {
        assert Steps(v)[i] != s[i];
        return false;
      }
    }
    if e.strides[n - 1] != 1 {
      assert s[n - 1] != 1;
      return false;
    }
    for i := 1 to n
      invariant forall j :: 1 <= j < i ==> s[j] > 0 && s[j - 1] % s[j] == 0
    {
      if e.strides[i] == 0 || e.strides[i - 1] % e.strides[i] != 0 {
        assert s[i] == 0 || s[i - 1] % s[i] != 0;
        return false;
      }
    }
    if e.strides[0] == 0 {
      assert s[0] == 0;
      return false;
    }
    ok := StorageElements(t) % e.strides[0] == 0;
  }

  lemma QuotientFits(a: u32, b: u32)
    requires b > 0
    ensures 0 <= (a as int) / (b as int) <= a
  {
  }

  method RefShapesLoop(t: Tensor, e: View) returns (refs: seq<u32>)
    requires e.ndims > 0 && AllPositive(Steps(e))
    ensures |refs| == e.ndims && forall i :: 0 <= i < e.ndims ==> refs[i] == RefShape(t, Steps(e), i)
  {
    ghost var s := Steps(e);
    refs := [Wrap32(StorageElements(t) / e.strides[0])];
    for i := 1 to e.ndims
      invariant |refs| == i
      invariant forall j :: 0 <= j < i ==> refs[j] == RefShape(t, s, j)
    {
      assert s[i] == e.strides[i] && s[i - 1] == e.strides[i - 1];
      QuotientFits(e.strides[i - 1], e.strides[i]);
      refs := refs + [e.strides[i - 1] / e.strides[i]];
    }
  }

  method ExtentOf(v: View) returns (n: u64)
    ensures n == Extent(v)
  {
    n := v.extentCache;
    if v.isContiguous {
      n := TensorNumel(v);
    }
  }

  /** tm_check_overlap past the version test, for any number of dimensions. */
  method OverlapNdLoop(t: Tensor, e: View) returns (r: Overlap)
    ensures r == OverlapNd(t, e)
  {
    var v := t.view;
    var extent := ExtentOf(v);
    var entExtent := ExtentOf(e);
    var inEnd, entEnd := Wrap64(v.startOffset as int + extent), Wrap64(e.startOffset as int + entExtent);
    if !(inEnd > e.startOffset && entEnd > v.startOffset) {
      return Nothing;
    }
    var ok := LayoutsAgree(t, e);
    if !ok {
      return Other;
    }
    var refs := RefShapesLoop(t, e);
    var inOffsets, inRemain := SplitOffset(v, e);
    var entOffsets, entRemain := SplitOffset(e, e);
    DotOfDigits(v.startOffset, Steps(e));
    DotOfDigits(e.startOffset, Steps(e));
    if inRemain != 0 || entRemain != 0 {
      return Other;
    }
    ok := BoundsLoop(t, e, refs, inOffsets, entOffsets);
    if !ok {
      return Other;
    }
    r := CompareLoop(t, e, inOffsets, entOffsets);
  }

  lemma RestOfDigits(x: nat, strides: seq<nat>, i: nat, r: nat)
    requires AllPositive(strides) && i < |strides|
    requires Digits(r, strides[i..]) == Digits(x, strides)[i..]
    requires Leftover(r, strides[i..]) == Leftover(x, strides)
    ensures Digits(x, strides)[i] == r / strides[i]
    ensures Digits(r % strides[i], strides[i + 1..]) == Digits(x, strides)[i + 1..]
    ensures Leftover(r % strides[i], strides[i + 1..]) == Leftover(x, strides)
  {
    assert strides[i..][1..] == strides[i + 1..];
    assert Digits(r, strides[i..])[1..] == Digits(x, strides)[i + 1..];
  }

  /** The offset loop, for one side. */
  method SplitOffset(v: View, e: View) returns (offsets: seq<u32>, remain: u64)
    requires v.ndims == e.ndims && AllPositive(Steps(e))
    ensures offsets == Offsets(v, Steps(e))
    ensures remain == Leftover(v.startOffset, Steps(e))
  {
    ghost var s := Steps(e);
    offsets, remain := [], v.startOffset;
    assert s[0..] == s && s[e.ndims..] == [];
    for i := 0 to e.ndims
      invariant |offsets| == i
      invariant forall j :: 0 <= j < i ==> offsets[j] == Offsets(v, s)[j]
      invariant Digits(remain, s[i..]) == Digits(v.startOffset, s)[i..]
      invariant Leftover(remain, s[i..]) == Leftover(v.startOffset, s)
    {
      RestOfDigits(v.startOffset, s, i, remain);
      offsets := offsets + [Wrap32(remain / e.strides[i])];
      remain := remain % e.strides[i];
    }
  }

  /** The bounds loop. */
  method BoundsLoop(t: Tensor, e: View, refs: seq<u32>, o: seq<u32>, p: seq<u32>) returns (ok: bool)
    requires t.view.dtype == e.dtype && t.view.ndims == e.ndims != 0 && Steps(t.view) == Steps(e)
    requires RowMajor(Steps(e)) && StorageElements(t) % e.strides[0] == 0
    requires o == Offsets(t.view, Steps(e)) && p == Offsets(e, Steps(e))
    requires Leftover(t.view.startOffset, Steps(e)) == Leftover(e.startOffset, Steps(e)) == 0
    requires |refs| == e.ndims && forall i :: 0 <= i < e.ndims ==> refs[i] == RefShape(t, Steps(e), i)
    ensures ok <==> Comparable(t, e)
  {
    ghost var s, n, m := Steps(e), Shape(t.view), Shape(e);
    for i := 0 to e.ndims
      invariant forall j :: 0 <= j < i ==> o[j] as int + n[j] <= refs[j] && p[j] as int + m[j] <= refs[j]
    {
      if o[i] as int + t.view.shapes[i] > refs[i] || p[i] as int + e.shapes[i] > refs[i] {
        assert !(o[i] as int + n[i] <= RefShape(t, s, i) && p[i] as int + m[i] <= RefShape(t, s, i));
        return false;
      }
    }
    ok := true;
  }

  /** The comparison loop. */
  method CompareLoop(t: Tensor, e: View, o: seq<u32>, p: seq<u32>) returns (r: Overlap)
    requires Comparable(t, e) && o == Offsets(t.view, Steps(e)) && p == Offsets(e, Steps(e))
    ensures r == BoxVerdict(t, e)
  {
    ghost var n, m := Shape(t.view), Shape(e);
    var contained := true;
    for i := 0 to e.ndims
      invariant forall j :: 0 <= j < i ==> !SpanApart(o[j], n[j], p[j], m[j])
      invariant contained <==> forall j :: 0 <= j < i ==> SpanInside(o[j], n[j], p[j], m[j])
    {
      var a0, b0 := o[i] as int, p[i] as int;
      var a1, b1 := a0 + t.view.shapes[i], b0 + e.shapes[i];
      if !(a1 > b0 && b1 > a0) {
        assert SpanApart(o[i], n[i], p[i], m[i]);
        return Nothing;
      }
      if !(a0 <= b0 && b1 <= a1) {
        contained := false;
      }
    }
    r := if contained then Covered else Other;
  }

  /** tm_check_overlap. */
  method CheckOverlapC(t: Tensor, e: View) returns (r: Overlap)
    ensures r == CheckOverlap(t, e)
  {
    if t.view.version > e.version {
      r := Other;
    } else if t.view.ndims == 2 && e.ndims == 2 {
      r := Overlap2d(t, e);
    } else {
      r := OverlapNdLoop(t, e);
    }
  }

  // ---- Element sizes --------------------------------------------------------------

  /** One row of a tensor of two one-element rows. */
  function Cell(row: u32, dtype: u8): Tensor {
    ViewAt(Tensor(ViewFields(0, 0, 0, 2, dtype, true, [2, 1, 0, 0, 0], 2, [1, 1, 0, 0, 0]), 2 * dtype), row, 0, 1, 1)
  }

  lemma CellAddresses(row: u32, dtype: u8)
    requires row < 2
    ensures var v := Cell(row, dtype).view;
            && v.dtype == dtype && v.startOffset == row && ExtentIsHull(v) && Extent(v) == 1
            && forall b: int :: row as int * dtype <= b < (row + 1) as int * dtype ==> Occupies(v, b)
  {
    var v := Cell(row, dtype).view;
    assert Shape(v) == [1, 1] && Steps(v) == [1, 1];
    Numel2d(v);
    assert LastIndex(v) == [0, 0];
    Dot2([0, 0], 1, 1);
    HullEndsAddressed(v);
  }

  /** The range test compares element offsets before it looks at the element sizes. Answering "nothing" is
      therefore right about bytes for every pair of well-formed views exactly when the sizes are equal. */
  lemma NothingNeedsEqualSizes(d: u8, d': u8)
    requires d > 0 && d' > 0
    ensures d == d' <==>
            forall t: Tensor, e: View, b: int ::
              && t.view.dtype == d && e.dtype == d' && ExtentIsHull(t.view) && ExtentIsHull(e)
              && CheckOverlap(t, e) == Nothing
              ==> !(Occupies(t.view, b) && Occupies(e, b))
  {
    if d == d' {
      forall t: Tensor, e: View, b: int |
        && t.view.dtype == d && e.dtype == d' && ExtentIsHull(t.view) && ExtentIsHull(e)
        && CheckOverlap(t, e) == Nothing && Occupies(t.view, b)
        ensures !Occupies(e, b)
      {
        HullExtentsAreSound(t, e);
        if Occupies(e, b) {
          var x: int :| Addresses(t.view, x) && x * d <= b < (x + 1) * d;
          var y: int :| Addresses(e, y) && y * d <= b < (y + 1) * d;
          SameCell(x, y, d, b);
        }
      }
    } else {
      var start, start' := if d < d' then 1 else 0, if d < d' then 0 else 1;
      var t, e := Cell(start, d), Cell(start', d').view;
      CellAddresses(start, d);
      CellAddresses(start', d');
      CheckOverlapCases(t, e);
      var b := if d < d' then d else d';
      assert Occupies(t.view, b) && Occupies(e, b);
    }
  }

  lemma SameCell(x: int, y: int, d: nat, b: int)
    requires x * d <= b < (x + 1) * d && y * d <= b < (y + 1) * d
    ensures x == y
  {
    CancelFactor(x, y + 1, d);
    CancelFactor(y, x + 1, d);
  }

  // ---- Views made by the library ----------------------------------------------------

  /** `is_contiguous` is set only on views whose strides are the dense ones. */
  predicate FlagHonest(v: View) {
    v.isContiguous ==> v.strides == DenseStrides(v)
  }

  /** view_at sets the flag exactly when the strides it copies are the dense ones of its shape. */
  lemma ViewAtFlagHonest(t: Tensor, off0: u32, off1: u32, n0: u32, n1: u32)
    ensures var v := ViewAt(t, off0, off1, n0, n1).view;
            FlagHonest(v) && (v.isContiguous <==> v.strides == DenseStrides(v))
  {
    var v := ViewAt(t, off0, off1, n0, n1).view;
    Dense2d(v);
    assert DenseStrides(v)[0] == n1 && DenseStrides(v)[1] == 1;
    assert v.isContiguous ==> v.strides == v.strides[0 := n1][1 := 1];
  }

  /** So does tensor_from_base_layout: its strides are the dense ones by construction. */
  lemma LayoutFlagHonest(v: View)
    requires forall i :: 0 <= i < v.ndims ==> v.strides[i] == LayoutStride(Shape(v), i)
    ensures FlagHonest(v)
  {
    assert v.strides == DenseStrides(v);
  }

  /** Copying an honest view into an entry leaves every later classification unchanged. */
  lemma EntryKeepsOverlap(t: Tensor, v: View)
    requires FlagHonest(v)
    ensures CheckOverlap(t, EntryOf(v)) == CheckOverlap(t, v)
  {
    var e := EntryOf(v);
    assert Steps(e) == Steps(v) && Shape(e) == Shape(v);
    CheckOverlapCases(t, e);
    CheckOverlapCases(t, v);
    if RowMajor(Steps(v)) {
      assert Offsets(e, Steps(v)) == Offsets(v, Steps(v));
    }
  }

  /** A view_at result that spans whole dense rows has an exact extent, every other one is one short. */
  lemma ViewAtExtent(t: Tensor, off0: u32, off1: u32, n0: u32, n1: u32)
    requires n0 > 0 && n1 > 0
    requires Times(n0 - 1, t.view.strides[0]) + Times(n1 - 1, t.view.strides[1]) < U32_RANGE
    ensures var v := ViewAt(t, off0, off1, n0, n1).view;
            && NonEmpty(v)
            && Extent(v) == (if t.view.strides[1] == 1 && t.view.strides[0] == n1 then Hull(v) else Hull(v) - 1)
            && Hull(v) == Times(n0 - 1, t.view.strides[0]) + Times(n1 - 1, t.view.strides[1]) + 1
  {
    var v := ViewAt(t, off0, off1, n0, n1).view;
    var s0, s1 := v.strides[0], v.strides[1];
    assert Shape(v) == [n0, n1] && Steps(v) == [s0, s1];
    assert LastIndex(v) == [n0 - 1, n1 - 1];
    Dot2(LastIndex(v), s0, s1);
    if v.isContiguous {
      Numel2d(v);
      NoWrap64(n0, n1);
      LessOne(n0, n1);
    }
  }

  /** The extent of a tensor_from_base_layout view is its hull, as long as nothing wraps. */
  lemma LayoutExtentIsHull(v: View)
    requires v.ndims > 0 && NonEmpty(v) && v.isContiguous && Product(Shape(v)[1..]) < U32_RANGE
    requires forall i :: 0 <= i < v.ndims ==> v.strides[i] == LayoutStride(Shape(v), i)
    requires v.startOffset as int + Product(Shape(v)) < U64_RANGE
    ensures Hull(v) == Product(Shape(v)) && ExtentIsHull(v)
  {
    var shape := Shape(v);
    forall i | 0 <= i < v.ndims ensures Steps(v)[i] == Product(shape[i + 1..]) {
      SuffixBounded(shape, i + 1);
    }
    DenseHull(shape, Steps(v), LastIndex(v));
  }

  /** Two 2x2 views of a 4x4 buffer, meeting in one corner: both address element 5, and the classifier
      answers that they share nothing. */
  lemma ViewAtCornerMissed()
    ensures var base := Tensor(ViewFields(0, 0, 0, 2, 4, true, [4, 4, 0, 0, 0], 16, [4, 1, 0, 0, 0]), 64);
            var a, b := ViewAt(base, 0, 0, 2, 2), ViewAt(base, 1, 1, 2, 2);
            && Addresses(a.view, 5) && Addresses(b.view, 5)
            && CheckOverlap(a, b.view) == Nothing && CheckOverlap(b, a.view) == Nothing
  {
    var base := Tensor(ViewFields(0, 0, 0, 2, 4, true, [4, 4, 0, 0, 0], 16, [4, 1, 0, 0, 0]), 64);
    var a, b := ViewAt(base, 0, 0, 2, 2).view, ViewAt(base, 1, 1, 2, 2).view;
    assert a.startOffset == 0 && a.extentCache == 5 && b.startOffset == 5 && b.extentCache == 5;
    assert Steps(a) == Steps(b) == [4, 1] && Shape(a) == Shape(b) == [2, 2];
    Dot2([1, 1], 4, 1);
    Dot2([0, 0], 4, 1);
    assert InShape([1, 1], Shape(a)) && InShape([0, 0], Shape(b));
  }
}
