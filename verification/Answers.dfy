/** When tm_check_overlap must answer what (esl_proxy/include/algorithm/tensormap_core.h:188-366), stated on the
    elements the views address and on the storage. */
module OverlapAnswers {
  import opened Words
  import opened Radix
  import opened Tensors
  import opened Overlaps

  /** All elements of the view lie in the first `n` elements of the buffer. */
  predicate Within(v: View, n: nat)
    requires NonEmpty(v)
  {
    v.startOffset as int + Hull(v) <= n
  }

  /** The storage is a positive number of whole rows that fits in 32 bits. */
  predicate WholeRows(elements: nat, row: nat) {
    row > 0 && elements % row == 0 && elements / row < U32_RANGE
  }

  /** Equal types and row-major strides, neither view runs over a stride, and both lie in the consumer's
      storage. */
  predicate Alike(t: Tensor, e: View)
    requires NonEmpty(t.view) && NonEmpty(e)
  {
    && t.view.dtype == e.dtype > 0 && Steps(t.view) == Steps(e)
    && FitsStrides(t.view) && FitsStrides(e)
    && WholeRows(t.bufferSize / e.dtype, e.strides[0])
    && Within(t.view, t.bufferSize / e.dtype) && Within(e, t.bufferSize / e.dtype)
  }

  /** The rows before the view fit in 32 bits. */
  predicate SmallStart(v: View)
    requires NonEmpty(v)
  {
    v.strides[0] > 0 ==> v.startOffset / v.strides[0] < U32_RANGE
  }

  /** Inside whole rows the outermost check is the storage bound. */
  lemma RowsWithin(v: View, elements: nat)
    requires NonEmpty(v) && FitsStrides(v) && v.strides[0] > 0 && elements % v.strides[0] == 0
    ensures Within(v, elements) <==> v.startOffset / v.strides[0] + v.shapes[0] <= elements / v.strides[0]
  {
    var s0, rows := v.strides[0], elements / v.strides[0];
    var row, last := v.startOffset / v.strides[0], v.startOffset + Hull(v) - 1;
    assert rows * s0 == elements;
    if Within(v, elements) {
      LastRow(v);
      CancelFactor(last / s0, rows, s0);
    } else if row + v.shapes[0] <= rows {
      HullInRows(v);
      RowsApart(row + v.shapes[0], rows, s0);
    }
  }

  /** The last element lies in the last row. */
  lemma LastRow(v: View)
    requires NonEmpty(v) && FitsStrides(v) && v.strides[0] > 0
    ensures (v.startOffset + Hull(v) - 1) / v.strides[0] == v.startOffset / v.strides[0] + v.shapes[0] - 1
  {
    var s, last := Steps(v), LastIndex(v);
    var o := Digits(v.startOffset, s);
    DotOfDigits(v.startOffset, s);
    DotPlus(o, last, s);
    ShiftedCarries(v, last);
    DigitsOfDot(Plus(o, last), s);
    assert Dot(Plus(o, last), s) == v.startOffset + Hull(v) - 1;
    assert Plus(o, last)[0] == o[0] + last[0];
  }

  lemma AlikeInside(t: Tensor, e: View, v: View)
    requires NonEmpty(t.view) && NonEmpty(e) && NonEmpty(v) && Alike(t, e) && Steps(v) == Steps(e)
    requires FitsStrides(v) && Within(v, t.bufferSize / e.dtype)
    ensures InsideStorage(t, v, Steps(e))
  {
    var s := Steps(e);
    assert s[0] == v.strides[0] == e.strides[0];
    RowsWithin(v, t.bufferSize / e.dtype);
    OnlyOuterCast(v, s);
    forall i | 0 <= i < |s| ensures Offsets(v, s)[i] as int + Shape(v)[i] <= RefShape(t, s, i) {
      if i == 0 {
        assert Shape(v)[0] == v.shapes[0];
      }
    }
  }

  lemma AlikeCompares(t: Tensor, e: View)
    requires NonEmpty(t.view) && NonEmpty(e) && Alike(t, e)
    ensures Comparable(t, e) && SameRowBlock(t.view, e)
  {
    AlikeInside(t, e, t.view);
    AlikeInside(t, e, e);
    assert Steps(e)[0] == e.strides[0] == Steps(t.view)[0] == t.view.strides[0];
    RowsWithin(t.view, t.bufferSize / e.dtype);
    RowsWithin(e, t.bufferSize / e.dtype);
  }

  lemma OuterOffset(v: View, s: seq<u32>, row: nat)
    requires NonEmpty(v) && RowMajor(s) && Steps(v) == s && row == v.startOffset / s[0] < U32_RANGE
    ensures Offsets(v, s)[0] == row && s[0] == v.strides[0] && Shape(v)[0] == v.shapes[0]
  {
    OnlyOuterCast(v, s);
    QuotientIs(row, 0, row, U32_RANGE);
  }

  lemma OuterBound(t: Tensor, s: seq<u32>, rows: nat)
    requires RowMajor(s) && rows == StorageElements(t) / s[0] < U32_RANGE
    ensures RefShape(t, s, 0) == rows
  {
    QuotientIs(rows, 0, rows, U32_RANGE);
  }

  lemma ComparesWithin(t: Tensor, v: View, s: seq<u32>, elements: nat, row: nat, rows: nat)
    requires NonEmpty(v) && FitsStrides(v) && Steps(v) == s && InsideStorage(t, v, s)
    requires elements == StorageElements(t) && elements % s[0] == 0
    requires row == v.startOffset / s[0] < U32_RANGE && rows == elements / s[0] < U32_RANGE
    ensures Within(v, elements)
  {
    OuterOffset(v, s, row);
    OuterBound(t, s, rows);
    assert Offsets(v, s)[0] as int + Shape(v)[0] <= RefShape(t, s, 0);
    RowsWithin(v, elements);
  }

  lemma ComparesAlike(t: Tensor, e: View)
    requires NonEmpty(t.view) && NonEmpty(e) && SmallStart(t.view) && SmallStart(e) && Comparable(t, e)
    requires e.dtype > 0 && t.bufferSize / e.dtype / Steps(e)[0] < U32_RANGE
    ensures Alike(t, e)
  {
    ComparableFits(t, e);
    var s, elements := Steps(e), t.bufferSize / e.dtype;
    assert s[0] == e.strides[0] == t.view.strides[0];
    ComparesWithin(t, t.view, s, elements, t.view.startOffset / s[0], elements / s[0]);
    ComparesWithin(t, e, s, elements, e.startOffset / s[0], elements / s[0]);
  }

  /** The whole answer, for starts and storage of fewer than 2^32 rows: a newer reader gets "other"; separate
      ranges get "nothing"; views that are not alike get "other"; and all others get the truth. */
  lemma AnswerExact(t: Tensor, e: View)
    requires NonEmpty(t.view) && NonEmpty(e) && SmallStart(t.view) && SmallStart(e) && e.dtype > 0
    requires e.strides[0] > 0 ==> t.bufferSize / e.dtype / e.strides[0] < U32_RANGE
    ensures CheckOverlap(t, e) ==
              if t.view.version > e.version then Other
              else if RangeApart(t.view, e) then Nothing
              else if !Alike(t, e) then Other
              else if Disjoint(t.view, e) then Nothing
              else if Contains(t.view, e) then Covered
              else Other
  {
    CheckOverlapCases(t, e);
    if Alike(t, e) {
      AlikeCompares(t, e);
      BoxVerdictExact(t, e);
    } else if Comparable(t, e) {
      ComparesAlike(t, e);
    }
  }

  // ---- Fresh layouts -----------------------------------------------------------------------------

  predicate Ratios(s: seq<nat>, shapes: seq<nat>)
    requires AllPositive(s)
  {
    |s| == |shapes| && forall i :: 1 <= i < |s| ==> s[i - 1] / s[i] == shapes[i]
  }

  predicate IsSuffix(s: seq<nat>, shapes: seq<nat>, i: nat) {
    i < |s| == |shapes| && s[i] == Product(shapes[i + 1..]) > 0
  }

  lemma OneRatio(shapes: seq<nat>, i: nat, a: nat, b: nat)
    requires i < |shapes| && a == Product(shapes[i..]) && b == Product(shapes[i + 1..]) > 0
    ensures a / b == shapes[i]
  {
    ProductSuffix(shapes, i);
    QuotientIs(a, shapes[i], 0, b);
  }

  lemma ProductRatios(s: seq<nat>, shapes: seq<nat>)
    requires |s| == |shapes| && AllPositive(s) && forall i :: 0 <= i < |s| ==> IsSuffix(s, shapes, i)
    ensures Ratios(s, shapes)
  {
    forall i | 1 <= i < |s| ensures s[i - 1] / s[i] == shapes[i] {
      assert IsSuffix(s, shapes, i - 1) && IsSuffix(s, shapes, i);
      OneRatio(shapes, i, s[i - 1], s[i]);
    }
  }

  /** The strides of a fresh layout: each is the inner shape times the next. */
  lemma LayoutSteps(t: Tensor, base: u64, shapes: seq<u32>, dtype: u8)
    requires IsLayout(t, base, shapes, dtype) && shapes != [] && AllPositive(shapes)
    requires Product(shapes[1..]) < U32_RANGE
    ensures var s := Steps(t.view);
            RowMajor(s) && s[0] == Product(shapes[1..]) && Ratios(s, shapes)
  {
    var s := Steps(t.view);
    LayoutStridesExact(shapes);
    assert s == seq(|shapes|, i requires 0 <= i < |shapes| => LayoutStride(shapes, i));
    forall i | 0 <= i < |s| ensures IsSuffix(s, shapes, i) {
      assert s[i] == LayoutStride(shapes, i);
    }
    ProductRatios(s, shapes);
  }

  /** All digits but the first are in range anyway. */
  lemma InLayoutBox(x: nat, s: seq<nat>, shapes: seq<nat>, o: seq<nat>)
    requires RowMajor(s) && Ratios(s, shapes) && |o| == |s|
    requires forall i :: 0 <= i < |o| ==> o[i] == 0
    ensures InBox(Digits(x, s), o, shapes) <==> x / s[0] < shapes[0]
  {
    DotOfDigits(x, s);
    var c := Digits(x, s);
    assert c[0] == x / s[0];
    forall i | 1 <= i < |c| ensures o[i] <= c[i] < o[i] + shapes[i] {
      assert c[i] < s[i - 1] / s[i] == shapes[i];
    }
  }

  /** A fresh layout addresses exactly its own elements, one after the other. */
  lemma LayoutAddresses(t: Tensor, base: u64, shapes: seq<u32>, dtype: u8, x: int)
    requires IsLayout(t, base, shapes, dtype) && shapes != [] && AllPositive(shapes)
    requires Product(shapes[1..]) < U32_RANGE
    ensures FitsStrides(t.view)
    ensures Addresses(t.view, x) <==> 0 <= x < Product(shapes)
  {
    var s := Steps(t.view);
    LayoutSteps(t, base, shapes, dtype);
    ZeroDigits(s);
    AddressesIsBox(t.view, x);
    if x >= 0 {
      ProductFrom(shapes);
      InFirst(x, shapes[0], s[0]);
      assert Product(shapes) == Times(shapes[0], s[0]);
      InLayoutBox(x, s, shapes, Digits(0, s));
    }
  }

  lemma InFirst(x: nat, n: nat, s: nat)
    requires s > 0
    ensures x / s < n <==> x < n * s
  {
    if x < n * s {
      CancelFactor(x / s, n, s);
    } else if x / s < n {
      RowEnds(x, n, s);
    }
  }

  lemma {:induction false} ZeroDigits(s: seq<nat>)
    requires AllPositive(s)
    ensures forall i :: 0 <= i < |s| ==> Digits(0, s)[i] == 0
  {
    if s != [] {
      ZeroDigits(s[1..]);
    }
  }

  // ---- With hull and near-hull extents ---------------------------------------------------------

  /** A one-short range of one view stops at the other view's first element. */
  predicate Misled(v: View, w: View)
    requires NonEmpty(v) && NonEmpty(w)
  {
    StopsAt(v, w) || StopsAt(w, v)
  }

  lemma MisledIsApart(v: View, w: View)
    requires ExtentNearHull(v) && ExtentNearHull(w) && Misled(v, w)
    ensures RangeApart(v, w) && !Disjoint(v, w)
  {
    RangeApartExact(v, w);
  }

  lemma ShareSomething(v: View, w: View)
    requires NonEmpty(w) && Contains(v, w)
    ensures !Disjoint(v, w)
  {
    HullEndsAddressed(w);
    assert Addresses(w, w.startOffset) && Addresses(v, w.startOffset);
  }

  /** Of alike views the classifier tells the truth both ways, except that it misses what a one-short extent
      hides: then it answers "nothing". */
  lemma AlikeAnswers(t: Tensor, e: View)
    requires ExtentNearHull(t.view) && ExtentNearHull(e) && Alike(t, e) && t.view.version <= e.version
    ensures CheckOverlap(t, e) == Nothing <==> Disjoint(t.view, e) || Misled(t.view, e)
    ensures CheckOverlap(t, e) == Covered <==> Contains(t.view, e) && !Misled(t.view, e)
  {
    AlikeCompares(t, e);
    CheckOverlapCases(t, e);
    BoxVerdictExact(t, e);
    if RangeApart(t.view, e) {
      RangeApartExact(t.view, e);
    }
    if Misled(t.view, e) {
      MisledIsApart(t.view, e);
    }
    if Contains(t.view, e) {
      ShareSomething(t.view, e);
    }
  }

  /** With hull extents: "nothing" exactly when disjoint, "covered" exactly when contained. */
  lemma HullAnswers(t: Tensor, e: View)
    requires ExtentIsHull(t.view) && ExtentIsHull(e) && Alike(t, e) && t.view.version <= e.version
    ensures CheckOverlap(t, e) == Nothing <==> Disjoint(t.view, e)
    ensures CheckOverlap(t, e) == Covered <==> Contains(t.view, e)
  {
    AlikeAnswers(t, e);
  }

  /** "Covered" is right about bytes too. */
  lemma CoveredBytes(t: Tensor, e: View, b: int)
    requires ExtentInHull(t.view) && ExtentInHull(e) && CheckOverlap(t, e) == Covered && Occupies(e, b)
    ensures Occupies(t.view, b)
  {
    CheckOverlapCases(t, e);
    CoveredIsContained(t, e);
    var x: int :| Addresses(e, x) && x * e.dtype <= b < (x + 1) * e.dtype;
    assert Addresses(t.view, x) && t.view.dtype == e.dtype;
  }
}
