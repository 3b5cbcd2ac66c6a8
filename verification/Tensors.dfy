/** Strided tensor views (esl_proxy/include/algorithm/tensor.h) and the element offsets they address. */
module Tensors {
  import opened Words
  import opened Radix

  const MAX_DIMS: nat := 5

  /** The fields `Tensor` and `TmEntry` share byte for byte, plus extent and strides. */
  datatype ViewFields = ViewFields(
    base: u64, startOffset: u64, version: i32, ndims: nat, dtype: u8, isContiguous: bool,
    shapes: seq<u32>, extentCache: u64, strides: seq<u32>)

  const SCALAR_VIEW := ViewFields(0, 0, 0, 0, 0, false, [0, 0, 0, 0, 0], 0, [0, 0, 0, 0, 0])

  type View = v: ViewFields | v.ndims <= MAX_DIMS && |v.shapes| == MAX_DIMS && |v.strides| == MAX_DIMS
    witness SCALAR_VIEW

  datatype Tensor = Tensor(view: View, bufferSize: u64)

  function Shape(v: View): (s: seq<u32>)
    ensures |s| == v.ndims
  {
    v.shapes[..v.ndims]
  }

  function Steps(v: View): (s: seq<u32>)
    ensures |s| == v.ndims
  {
    v.strides[..v.ndims]
  }

  // ---- Elements -----------------------------------------------------------

  ghost predicate InShape(c: seq<nat>, shape: seq<nat>) {
    |c| == |shape| && forall i :: 0 <= i < |c| ==> c[i] < shape[i]
  }

  /** The view reads or writes element `x` of its buffer. */
  ghost predicate Addresses(v: View, x: int) {
    exists c: seq<nat> :: InShape(c, Shape(v)) && x == v.startOffset + Dot(c, Steps(v))
  }

  ghost predicate Disjoint(v: View, w: View) {
    forall x :: !(Addresses(v, x) && Addresses(w, x))
  }

  /** Every element of `w` is an element of `v`. */
  ghost predicate Contains(v: View, w: View) {
    forall x :: Addresses(w, x) ==> Addresses(v, x)
  }

  /** The view occupies byte `b` of its buffer. */
  ghost predicate Occupies(v: View, b: int) {
    exists x: int :: Addresses(v, x) && x * v.dtype <= b < (x + 1) * v.dtype
  }

  predicate NonEmpty(v: View) {
    v.ndims > 0 && AllPositive(Shape(v))
  }

  function LastIndex(v: View): (c: seq<nat>)
    requires NonEmpty(v)
    ensures |c| == v.ndims
  {
    seq(v.ndims, i requires 0 <= i < v.ndims => Shape(v)[i] - 1)
  }

  /** Number of consecutive elements from the first to the last one addressed. */
  function Hull(v: View): (h: nat)
    requires NonEmpty(v)
    ensures h > 0
  {
    1 + Dot(LastIndex(v), Steps(v))
  }

  lemma WithinHull(v: View, x: int)
    requires NonEmpty(v) && Addresses(v, x)
    ensures v.startOffset <= x < v.startOffset + Hull(v)
  {
    var c: seq<nat> :| InShape(c, Shape(v)) && x == v.startOffset + Dot(c, Steps(v));
    DotMonotone(c, LastIndex(v), Steps(v));
  }

  lemma {:induction false} DotZero(n: nat, strides: seq<nat>)
    requires |strides| == n
    ensures Dot(seq(n, _ => 0), strides) == 0
  {
    if n > 0 {
      assert seq(n, _ => 0)[1..] == seq(n - 1, _ => 0);
      DotZero(n - 1, strides[1..]);
    }
  }

  lemma HullEndsAddressed(v: View)
    requires NonEmpty(v)
    ensures Addresses(v, v.startOffset)
    ensures Addresses(v, v.startOffset + Hull(v) - 1)
  {
    var zero: seq<nat> := seq(v.ndims, _ => 0);
    DotZero(v.ndims, Steps(v));
    assert InShape(zero, Shape(v));
    assert InShape(LastIndex(v), Shape(v));
  }

  // ---- tensor_from_base_layout ----------------------------------------------

  /** `stride` of dimension `i`: the product of the inner shapes, kept in 32 bits. */
  function LayoutStride(shape: seq<u32>, i: nat): u32
    requires i < |shape|
  {
    Wrap32(Product(shape[i + 1..]))
  }

  /** One step of the extent loop: the term is a 32-bit product, the sum a 64-bit one. */
  function ExtentTerm(extent: u64, n: u32, stride: u32): u64 {
    Wrap64(extent as int + Wrap32(Times(Wrap32(n as int - 1), stride)))
  }

  /** `extent` after the descending loop has handled dimensions `i` and up. */
  function LayoutExtent(shape: seq<u32>, i: nat): u64
    requires i <= |shape|
    decreases |shape| - i
  {
    if i == |shape| then 1
    else ExtentTerm(LayoutExtent(shape, i + 1), shape[i], LayoutStride(shape, i))
  }

  lemma ProductSuffix(shape: seq<nat>, i: nat)
    requires i < |shape|
    ensures Product(shape[i..]) == shape[i] * Product(shape[i + 1..])
  {
    ProductFrom(shape[i..]);
    assert shape[i..][1..] == shape[i + 1..];
  }

  lemma NumelStep(shape: seq<u32>, i: nat)
    requires i < |shape|
    ensures Wrap64(Times(Wrap64(Product(shape[..i])), shape[i])) == Wrap64(Product(shape[..i + 1]))
  {
    assert shape[..i + 1][..i] == shape[..i];
    WrapFactor(Product(shape[..i]), shape[i], U64_RANGE);
  }

  lemma SuffixStepMod(shape: seq<nat>, i: nat, m: nat)
    requires i < |shape| && m > 0
    ensures Times(Product(shape[i + 1..]) % m, shape[i]) % m == Product(shape[i..]) % m
  {
    ProductSuffix(shape, i);
    WrapStep(Product(shape[i + 1..]), shape[i], Product(shape[i..]), m);
  }

  lemma WrapStep(p: nat, n: nat, q: nat, m: nat)
    requires m > 0 && q == n * p
    ensures Times(p % m, n) % m == q % m
  {
    WrapFactor(p, n, m);
  }

  lemma SuffixStep(shape: seq<u32>, i: nat)
    requires i < |shape|
    ensures Wrap64(Times(Wrap64(Product(shape[i + 1..])), shape[i])) == Wrap64(Product(shape[i..]))
    ensures Wrap32(Times(Wrap32(Product(shape[i + 1..])), shape[i])) == Wrap32(Product(shape[i..]))
  {
    SuffixStepMod(shape, i, U64_RANGE);
    SuffixStepMod(shape, i, U32_RANGE);
  }

  /** The two counters of the descending loop agree at every dimension. */
  predicate StridesDense(shape: seq<u32>, i: nat)
    requires i <= |shape|
  {
    forall j :: i <= j < |shape| ==> LayoutStride(shape, j) == Wrap64(Product(shape[j + 1..]))
  }

  method LayoutLoop(shapes: seq<u32>) returns (strides: seq<u32>, contig: bool, extent: u64)
    requires |shapes| <= MAX_DIMS
    ensures |strides| == MAX_DIMS
    ensures forall i :: 0 <= i < |shapes| ==> strides[i] == LayoutStride(shapes, i)
    ensures contig <==> StridesDense(shapes, 0)
    ensures extent == LayoutExtent(shapes, 0)
  {
    strides :| |strides| == MAX_DIMS by { assert |SCALAR_VIEW.strides| == MAX_DIMS; }
    var stride: u32, expected: u64 := 1, 1;
    contig, extent := true, 1;
    assert shapes[|shapes|..] == [];
    for i := |shapes| downto 0
      invariant |strides| == MAX_DIMS
      invariant stride == Wrap32(Product(shapes[i..])) && expected == Wrap64(Product(shapes[i..]))
      invariant forall j :: i <= j < |shapes| ==> strides[j] == LayoutStride(shapes, j)
      invariant contig <==> StridesDense(shapes, i)
      invariant extent == LayoutExtent(shapes, i)
    {
      strides := strides[i := stride];
      contig := contig && strides[i] == expected;
      extent := ExtentTerm(extent, shapes[i], strides[i]);
      SuffixStep(shapes, i);
      expected := Wrap64(Times(expected, shapes[i]));
      stride := Wrap32(Times(stride, shapes[i]));
    }
  }

  /** A fresh layout. Cells past the given shapes may hold anything. */
  ghost predicate IsLayout(t: Tensor, base: u64, shapes: seq<u32>, dtype: u8) {
    && t.view.base == base && t.view.startOffset == 0 && t.view.version == 0
    && t.view.dtype == dtype && Shape(t.view) == shapes
    && t.bufferSize == Wrap64(Times(Product(shapes), dtype))
    && (forall i :: 0 <= i < |shapes| ==> t.view.strides[i] == LayoutStride(shapes, i))
    && (t.view.isContiguous <==> StridesDense(shapes, 0))
    && t.view.extentCache == LayoutExtent(shapes, 0)
  }

  method TensorFromBaseLayout(base: u64, shapes: seq<u32>, dtype: u8) returns (t: Tensor)
    requires |shapes| <= MAX_DIMS
    ensures IsLayout(t, base, shapes, dtype)
  {
    var n := |shapes|;
    var shape: seq<u32> :| |shape| == MAX_DIMS by { assert |SCALAR_VIEW.shapes| == MAX_DIMS; }
    var numel: u64 := 1;
    for i := 0 to n
      invariant |shape| == MAX_DIMS && shape[..i] == shapes[..i]
      invariant numel == Wrap64(Product(shapes[..i]))
    {
      shape := shape[i := shapes[i]];
      NumelStep(shapes, i);
      numel := Wrap64(Times(numel, shapes[i]));
    }
    assert shapes[..n] == shapes;
    WrapFactor(Product(shapes), dtype, U64_RANGE);
    var strides, contig, extent := LayoutLoop(shapes);
    t := Tensor(ViewFields(base, 0, 0, n, dtype, contig, shape, extent, strides), Wrap64(Times(numel, dtype)));
  }

  /** Strides that fit in 32 bits are the suffix products, and the layout is contiguous. */
  lemma LayoutStridesExact(shape: seq<u32>)
    requires shape != [] && AllPositive(shape)
    requires Product(shape[1..]) < U32_RANGE
    ensures forall i :: 0 <= i < |shape| ==> LayoutStride(shape, i) == Product(shape[i + 1..]) > 0
    ensures RowMajor(seq(|shape|, i requires 0 <= i < |shape| => LayoutStride(shape, i)))
  {
    forall i | 0 <= i < |shape|
      ensures LayoutStride(shape, i) == Product(shape[i + 1..]) > 0
    {
      SuffixBounded(shape, i + 1);
    }
    var s := seq(|shape|, i requires 0 <= i < |shape| => LayoutStride(shape, i));
    forall i | 1 <= i < |s| ensures s[i - 1] % s[i] == 0 {
      ProductSuffix(shape, i);
      QuotientIs(s[i - 1], shape[i], 0, s[i]);
    }
    assert shape[|shape|..] == [];
  }

  lemma {:induction false} SuffixBounded(shape: seq<nat>, i: nat)
    requires AllPositive(shape) && 1 <= i <= |shape|
    ensures 0 < Product(shape[i..]) <= Product(shape[1..])
    decreases i
  {
    ProductPositive(shape[i..]);
    if i > 1 {
      SuffixBounded(shape, i - 1);
      ProductSuffix(shape, i - 1);
      AtLeast(shape[i - 1], Product(shape[i..]));
    }
  }

  lemma AtLeast(k: nat, p: nat)
    requires k >= 1
    ensures k * p >= p
  {
  }

  lemma LessOne(k: nat, p: nat)
    requires k >= 1
    ensures Times(k - 1, p) + p == k * p
  {
  }

  lemma ExtentTermExact(n: u32, p: u32)
    requires n > 0
    ensures ExtentTerm(p, n, p) == n as int * p <==> Times(n - 1, p) < U32_RANGE
  {
    LessOne(n, p);
    var term := Times(n - 1, p);
    assert ExtentTerm(p, n, p) == Wrap64(p as int + Wrap32(term)) == p as int + Wrap32(term);
  }

  lemma ExtentTermFits(n: u32, p: u32, total: nat)
    requires n > 0 && total == n as int * p < U32_RANGE
    ensures ExtentTerm(p, n, p) == total
  {
    ExtentTermExact(n, p);
    LessOne(n, p);
  }

  lemma {:induction false} LayoutExtentInner(shape: seq<u32>, i: nat)
    requires shape != [] && AllPositive(shape) && Product(shape[1..]) < U32_RANGE
    requires 1 <= i <= |shape|
    ensures LayoutExtent(shape, i) == Product(shape[i..])
    decreases |shape| - i
  {
    SuffixBounded(shape, i);
    if i < |shape| {
      LayoutExtentInner(shape, i + 1);
      SuffixBounded(shape, i + 1);
      ProductSuffix(shape, i);
      ExtentTermFits(shape[i], Product(shape[i + 1..]), Product(shape[i..]));
    } else {
      assert shape[i..] == [];
    }
  }

  /** With 32-bit strides the cached extent is the element count exactly when the outermost term does not
      wrap; the term is computed in 32 bits although the extent has 64. */
  lemma LayoutExtentExact(shape: seq<u32>)
    requires shape != [] && AllPositive(shape)
    requires Product(shape[1..]) < U32_RANGE && Product(shape) < U64_RANGE
    ensures LayoutExtent(shape, 0) == Product(shape) <==> Times(shape[0] - 1, Product(shape[1..])) < U32_RANGE
  {
    LayoutExtentInner(shape, 1);
    ProductFrom(shape);
    assert LayoutStride(shape, 0) == Product(shape[1..]);
    ExtentTermExact(shape[0], Product(shape[1..]));
  }

  /** While nothing wraps in 64 bits, a layout is contiguous exactly when its inner element count fits 32 bits. */
  lemma LayoutFlagExact(shape: seq<u32>)
    requires shape != [] && AllPositive(shape) && Product(shape[1..]) < U64_RANGE
    ensures StridesDense(shape, 0) <==> Product(shape[1..]) < U32_RANGE
  {
    forall i | 0 <= i < |shape|
      ensures Product(shape[1..]) < U32_RANGE ==> LayoutStride(shape, i) == Wrap64(Product(shape[i + 1..]))
    {
      SuffixBounded(shape, i + 1);
    }
    assert StridesDense(shape, 0) ==> LayoutStride(shape, 0) == Wrap64(Product(shape[0 + 1..]));
  }

  /** A dense layout spans exactly its elements. */
  lemma {:induction false} DenseHull(shape: seq<nat>, strides: seq<nat>, last: seq<nat>)
    requires |shape| == |strides| == |last| && AllPositive(shape)
    requires forall i :: 0 <= i < |shape| ==> strides[i] == Product(shape[i + 1..]) && last[i] == shape[i] - 1
    ensures 1 + Dot(last, strides) == Product(shape)
  {
    if shape != [] {
      DenseTail(shape, strides, last);
      DenseHull(shape[1..], strides[1..], last[1..]);
      ProductFrom(shape);
      LessOne(shape[0], Product(shape[1..]));
    }
  }

  lemma DenseTail(shape: seq<nat>, strides: seq<nat>, last: seq<nat>)
    requires |shape| == |strides| == |last| > 0 && AllPositive(shape)
    requires forall i :: 0 <= i < |shape| ==> strides[i] == Product(shape[i + 1..]) && last[i] == shape[i] - 1
    ensures forall i :: 0 <= i < |shape| - 1 ==>
              strides[1..][i] == Product(shape[1..][i + 1..]) && last[1..][i] == shape[1..][i] - 1
  {
    forall i | 0 <= i < |shape| - 1
      ensures strides[1..][i] == Product(shape[1..][i + 1..]) && last[1..][i] == shape[1..][i] - 1
    {
      assert shape[1..][i + 1..] == shape[i + 2..];
    }
  }

  // ---- view_at ----------------------------------------------------------------

  /** 32-bit offset arithmetic of `view_at`. */
  function ViewShift(v: View, off0: u32, off1: u32): u32 {
    Wrap32(Times(off0, v.strides[0]) + Times(off1, v.strides[1]))
  }

  function ViewAt(t: Tensor, off0: u32, off1: u32, n0: u32, n1: u32): Tensor {
    Window(t, Wrap64(t.view.startOffset as int + ViewShift(t.view, off0, off1)), n0, n1)
  }

  /** The header `view_at` builds once the start offset is known. */
  function Window(t: Tensor, start: u64, n0: u32, n1: u32): Tensor {
    var v := t.view;
    t.(view := v.(
      ndims := 2,
      startOffset := start,
      shapes := v.shapes[0 := n0][1 := n1],
      isContiguous := v.strides[1] == 1 && v.strides[0] == n1,
      extentCache := Wrap32(Times(Wrap32(n0 - 1), v.strides[0]) + Times(Wrap32(n1 - 1), v.strides[1]))))
  }

  /** A view of a view is the view at the summed offsets exactly when the two 32-bit shifts add without
      a carry: the shifts are summed into a 64-bit start offset. */
  lemma ViewOfView(t: Tensor, a0: u32, a1: u32, n0: u32, n1: u32, b0: u32, b1: u32, m0: u32, m1: u32)
    requires a0 as int + b0 < U32_RANGE && a1 as int + b1 < U32_RANGE
    ensures ViewAt(ViewAt(t, a0, a1, n0, n1), b0, b1, m0, m1) == ViewAt(t, a0 + b0, a1 + b1, m0, m1)
       <==> ViewShift(t.view, a0, a1) as int + ViewShift(t.view, b0, b1) < U32_RANGE
  {
    var v := t.view;
    var x, y := Times(a0, v.strides[0]) + Times(a1, v.strides[1]), Times(b0, v.strides[0]) + Times(b1, v.strides[1]);
    TimesPlus(a0, b0, v.strides[0]);
    TimesPlus(a1, b1, v.strides[1]);
    ViewAtIs(t, a0 + b0, a1 + b1, m0, m1, x + y);
    ViewAtIs(t, a0, a1, n0, n1, x);
    ViewAtIs(ViewAt(t, a0, a1, n0, n1), b0, b1, m0, m1, y);
    WindowOfWindow(t, x, n0, n1, y, m0, m1);
  }

  lemma ViewAtIs(t: Tensor, off0: u32, off1: u32, n0: u32, n1: u32, shift: int)
    requires shift == Times(off0, t.view.strides[0]) + Times(off1, t.view.strides[1])
    ensures ViewAt(t, off0, off1, n0, n1) == Shifted(t, shift, n0, n1)
    ensures ViewShift(t.view, off0, off1) == Wrap32(shift)
  {
  }

  function Shifted(t: Tensor, shift: int, n0: u32, n1: u32): Tensor {
    Window(t, Wrap64(t.view.startOffset as int + Wrap32(shift)), n0, n1)
  }

  lemma WindowOfWindow(t: Tensor, x: int, n0: u32, n1: u32, y: int, m0: u32, m1: u32)
    ensures Shifted(Shifted(t, x, n0, n1), y, m0, m1) == Shifted(t, x + y, m0, m1)
       <==> Wrap32(x) as int + Wrap32(y) < U32_RANGE
  {
    var start := t.view.startOffset as int;
    var first := Wrap64(start + Wrap32(x));
    SameWindow(t, first, n0, n1, Wrap64(first as int + Wrap32(y)), Wrap64(start + Wrap32(x + y)), m0, m1);
    ShiftCarry(t.view.startOffset, x, y);
  }

  lemma SameWindow(t: Tensor, first: u64, n0: u32, n1: u32, second: u64, flat: u64, m0: u32, m1: u32)
    ensures Window(Window(t, first, n0, n1), second, m0, m1) == Window(t, flat, m0, m1) <==> second == flat
  {
    assert t.view.shapes[0 := n0][1 := n1][0 := m0][1 := m1] == t.view.shapes[0 := m0][1 := m1];
    assert Window(t, flat, m0, m1).view.startOffset == flat;
  }

  lemma TimesPlus(a: int, b: int, s: int)
    ensures Times(a + b, s) == Times(a, s) + Times(b, s)
  {
  }

  lemma ShiftCarry(start: u64, x: int, y: int)
    ensures Wrap64(Wrap64(start as int + Wrap32(x)) as int + Wrap32(y)) == Wrap64(start as int + Wrap32(x + y))
       <==> Wrap32(x) as int + Wrap32(y) < U32_RANGE
  {
    var a, b := Wrap32(x) as int, Wrap32(y) as int;
    var carry := if a + b < U32_RANGE then 0 else U32_RANGE;
    WrapSum(x, y);
    WrapNested(start as int + a, b);
    if Wrap64(start as int + a + b) == Wrap64(start as int + a + b - carry) {
      SameResidue(start as int + a + b, start as int + a + b - carry, U64_RANGE);
    }
  }

  lemma WrapSum(x: int, y: int)
    ensures var a, b := Wrap32(x) as int, Wrap32(y) as int;
            Wrap32(x + y) == if a + b < U32_RANGE then a + b else a + b - U32_RANGE
  {
    var a, b, q := Wrap32(x) as int, Wrap32(y) as int, x / U32_RANGE + y / U32_RANGE;
    if a + b < U32_RANGE {
      QuotientIs(x + y, q, a + b, U32_RANGE);
    } else {
      QuotientIs(x + y, q + 1, a + b - U32_RANGE, U32_RANGE);
    }
  }

  lemma WrapNested(a: int, b: int)
    ensures Wrap64(Wrap64(a) as int + b) == Wrap64(a + b)
  {
    ModOfSum(Wrap64(a) as int + b, a / U64_RANGE, U64_RANGE);
  }

  /** Without wrap the view addresses the elements of the parent's buffer shifted by the offsets, under the
      parent's version and element size. */
  lemma ViewAtAddresses(t: Tensor, off0: u32, off1: u32, n0: u32, n1: u32, x: int)
    requires Times(off0, t.view.strides[0]) + Times(off1, t.view.strides[1]) < U32_RANGE
    requires t.view.startOffset as int + Times(off0, t.view.strides[0]) + Times(off1, t.view.strides[1]) < U64_RANGE
    ensures var w, v := ViewAt(t, off0, off1, n0, n1), t.view;
            && w.view.base == v.base && w.view.version == v.version && w.view.dtype == v.dtype
            && w.bufferSize == t.bufferSize && w.view.strides == v.strides
    ensures Addresses(ViewAt(t, off0, off1, n0, n1).view, x)
       <==> exists c: seq<nat> ::
              InShape(c, [n0, n1]) && x == t.view.startOffset + Dot(Plus([off0, off1], c), t.view.strides[..2])
  {
    var w := ViewAt(t, off0, off1, n0, n1).view;
    assert Steps(w) == t.view.strides[..2] == [t.view.strides[0], t.view.strides[1]] && Shape(w) == [n0, n1];
    Dot2([off0, off1], t.view.strides[0], t.view.strides[1]);
    forall c: seq<nat> | InShape(c, [n0, n1])
      ensures t.view.startOffset + Dot(Plus([off0, off1], c), t.view.strides[..2]) == w.startOffset + Dot(c, Steps(w))
    {
      DotPlus([off0, off1], c, t.view.strides[..2]);
    }
  }

  lemma Dot2(c: seq<nat>, s0: nat, s1: nat)
    requires |c| == 2
    ensures Dot(c, [s0, s1]) == Times(c[0], s0) + Times(c[1], s1)
  {
    assert [s0, s1][1..] == [s1];
    assert Dot(c[1..], [s1]) == c[1] * s1 + Dot(c[1..][1..], [s1][1..]);
  }

  // ---- tm_copy_tensor_to_entry ------------------------------------------------

  function Numel(v: View): u64 {
    Wrap64(Product(Shape(v)))
  }

  method TensorNumel(v: View) returns (n: u64)
    ensures n == Numel(v)
  {
    n := 1;
    for i := 0 to v.ndims
      invariant n == Wrap64(Product(v.shapes[..i]))
    {
      NumelStep(v.shapes, i);
      n := Wrap64(Times(n, v.shapes[i]));
    }
  }

  /** Strides recomputed from the shape; cells past `ndims` are never read. */
  function DenseStrides(v: View): (s: seq<u32>)
    ensures |s| == MAX_DIMS
  {
    seq(MAX_DIMS, i requires 0 <= i < MAX_DIMS => if i < v.ndims then LayoutStride(Shape(v), i) else v.strides[i])
  }

  /** What the map stores for a tensor view. */
  function EntryOf(v: View): View {
    if v.isContiguous && v.startOffset == 0 then v.(extentCache := Numel(v), strides := DenseStrides(v)) else v
  }

  /** What is stored of a contiguous view at offset 0 is rebuilt from its shape: the stride and extent fields, which
      lie in the tensor's second cache line, are not looked at. */
  lemma EntryFromShape(v: View, strides: seq<u32>, extent: u64)
    requires v.isContiguous && v.startOffset == 0 && |strides| == MAX_DIMS
    ensures var e, f := EntryOf(v), EntryOf(v.(strides := strides, extentCache := extent));
            && Steps(e) == Steps(f) && e.extentCache == f.extentCache == Numel(v)
            && forall i :: 0 <= i < v.ndims ==> Steps(e)[i] == LayoutStride(Shape(v), i)
  {
    var e, f := EntryOf(v), EntryOf(v.(strides := strides, extentCache := extent));
    assert Shape(v.(strides := strides, extentCache := extent)) == Shape(v);
    assert forall i :: 0 <= i < v.ndims ==> Steps(e)[i] == Steps(f)[i];
  }

  method DenseStridesLoop(v: View) returns (strides: seq<u32>)
    ensures strides == DenseStrides(v)
  {
    var shape := Shape(v);
    strides := v.strides;
    var s: u32 := 1;
    assert shape[v.ndims..] == [];
    for i := v.ndims downto 0
      invariant |strides| == MAX_DIMS
      invariant s == Wrap32(Product(shape[i..]))
      invariant forall j :: i <= j < v.ndims ==> strides[j] == LayoutStride(shape, j)
      invariant forall j :: v.ndims <= j < MAX_DIMS ==> strides[j] == v.strides[j]
    {
      strides := strides[i := s];
      SuffixStep(shape, i);
      s := Wrap32(Times(s, v.shapes[i]));
    }
  }

  method CopyTensorToEntry(v: View) returns (e: View)
    ensures e == EntryOf(v)
    ensures !(v.isContiguous && v.startOffset == 0) ==> e == v
  {
    e := v;
    if v.isContiguous && v.startOffset == 0 {
      if v.ndims == 2 {
        Dense2d(v);
        e := e.(extentCache := Times(v.shapes[0], v.shapes[1]), strides := e.strides[0 := v.shapes[1]][1 := 1]);
      } else {
        var numel := TensorNumel(v);
        var strides := DenseStridesLoop(v);
        e := e.(extentCache := numel, strides := strides);
      }
    }
  }

  lemma Product2(a: nat, b: nat)
    ensures Product([a]) == a && Product([a, b]) == Times(a, b)
  {
    assert [a][..0] == [] && [a, b][..1] == [a];
  }

  /** For two dimensions the rebuilt strides and extent need no wrapping. */
  lemma Dense2d(v: View)
    requires v.ndims == 2
    ensures Numel(v) == Times(v.shapes[0], v.shapes[1]) < U64_RANGE
    ensures DenseStrides(v) == v.strides[0 := v.shapes[1]][1 := 1]
  {
    var shape := Shape(v);
    assert shape == [v.shapes[0], v.shapes[1]] && shape[1..] == [v.shapes[1]] && shape[2..] == [];
    Product2(v.shapes[0], v.shapes[1]);
    Product2(v.shapes[1], 0);
    NoWrap64(v.shapes[0], v.shapes[1]);
  }

  lemma NoWrap64(a: u32, b: u32)
    ensures 0 <= Times(a, b) < U64_RANGE
  {
    TimesMono(a, b, U32_RANGE);
  }

  lemma TimesMono(a: nat, b: nat, c: nat)
    requires b <= c
    ensures Times(a, b) <= Times(a, c)
  {
  }
}
