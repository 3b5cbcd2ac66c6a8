/** Tiles cut with view_at from matrices laid out with tensor_from_base_layout (esl_proxy/include/algorithm/tensor.h):
    what they address, how they are classified, and which sets of tiles keep read-after-write order. */
module Tiles {
  import opened Words
  import opened Radix
  import opened Tensors
  import opened Overlaps
  import opened OverlapLoops
  import opened OverlapAnswers
  import opened MapLogs
  import opened Submits
  import opened Graphs
  import opened Runs
  import opened RunTheorems
  import opened Meanings

  datatype Matrix = Matrix(addr: u64, rows: u32, cols: u32, dtype: u8)

  datatype Tile = Tile(matrix: Matrix, row: u32, col: u32, height: u32, width: u32)

  /** A non-empty rectangle inside a matrix of fewer than 2^32 elements. */
  predicate GoodTile(g: Tile) {
    var m := g.matrix;
    && m.dtype > 0 && Times(m.rows, m.cols) < U32_RANGE && g.height > 0 && g.width > 0
    && g.row as int + g.height <= m.rows && g.col as int + g.width <= m.cols
  }

  predicate Holds(g: Tile, i: int, j: int) {
    g.row <= i < g.row as int + g.height && g.col <= j < g.col as int + g.width
  }

  ghost predicate IsMatrix(t: Tensor, m: Matrix) {
    IsLayout(t, m.addr, [m.rows, m.cols], m.dtype)
  }

  ghost predicate IsTile(t: Tensor, g: Tile) {
    GoodTile(g) && exists parent :: IsMatrix(parent, g.matrix) && t == ViewAt(parent, g.row, g.col, g.height, g.width)
  }

  function First(g: Tile): int {
    Times(g.row, g.matrix.cols) + g.col
  }

  /** From the first to the last cell, counted along the rows. */
  function Reached(g: Tile): int {
    Times(g.height as int - 1, g.matrix.cols) + g.width
  }

  lemma TimesNat(a: nat, b: nat)
    ensures Times(a, b) >= 0
  {
  }

  lemma TimesMono(a: int, b: int, c: nat)
    requires a <= b
    ensures Times(a, c) <= Times(b, c)
  {
  }

  lemma TimesOne(a: int)
    ensures Times(a, 1) == a && Times(1, a) == a
  {
  }

  lemma TileBounds(g: Tile)
    requires GoodTile(g)
    ensures 0 <= First(g) < First(g) + Reached(g) <= Times(g.matrix.rows, g.matrix.cols) < U32_RANGE
    ensures Times(g.row, g.matrix.cols) >= 0 && Times(g.height as int - 1, g.matrix.cols) >= 0
  {
    var c, last: int := g.matrix.cols, g.row as int + g.height - 1;
    TimesNat(g.row, c);
    TimesNat(g.height - 1, c);
    TimesPlus(g.row, g.height as int - 1, c);
    TimesPlus(last, 1, c);
    TimesOne(c);
    TimesMono(last + 1, g.matrix.rows, c);
  }

  lemma MatrixFields(t: Tensor, m: Matrix)
    requires IsMatrix(t, m) && m.dtype > 0 && m.cols > 0 && 0 <= Times(m.rows, m.cols) < U32_RANGE
    ensures var v := t.view;
            && v.base == m.addr && v.startOffset == 0 && v.version == 0 && v.ndims == 2 && v.dtype == m.dtype
            && v.strides[0] == m.cols && v.strides[1] == 1
            && t.bufferSize == Times(Times(m.rows, m.cols), m.dtype)
  {
    var shapes := [m.rows, m.cols];
    Product2(m.rows, m.cols);
    assert shapes[0 + 1..] == [m.cols] && shapes[1 + 1..] == [];
    assert [m.cols][..0] == [];
    assert LayoutStride(shapes, 0) == m.cols && LayoutStride(shapes, 1) == 1;
    SmallProduct(Times(m.rows, m.cols), m.dtype);
  }

  lemma SmallProduct(a: int, d: u8)
    requires 0 <= a < U32_RANGE
    ensures 0 <= Times(a, d) < U64_RANGE
  {
    assert 0 <= a * d <= a * 255;
  }

  /** The header of a tile: its parent's buffer, version and element size, and the rectangle's first cell. */
  lemma TileHeader(t: Tensor, g: Tile)
    requires IsTile(t, g)
    ensures var v, m := t.view, g.matrix;
            && v.base == m.addr && v.version == 0 && v.dtype == m.dtype && v.ndims == 2
            && v.startOffset == First(g) && Shape(v) == [g.height, g.width] && Steps(v) == [m.cols, 1]
            && v.strides[0] == m.cols && v.shapes[0] == g.height
            && t.bufferSize == Times(Times(m.rows, m.cols), m.dtype)
    ensures FlagHonest(t.view)
  {
    var parent :| IsMatrix(parent, g.matrix) && t == ViewAt(parent, g.row, g.col, g.height, g.width);
    TileBounds(g);
    MatrixFields(parent, g.matrix);
    ViewAtFlagHonest(parent, g.row, g.col, g.height, g.width);
    TimesOne(g.col);
    assert ViewShift(parent.view, g.row, g.col) == First(g);
  }

  /** The extent of a tile: exact for tiles of whole rows, one short for all others. */
  lemma TileExtent(t: Tensor, g: Tile)
    requires IsTile(t, g)
    ensures NonEmpty(t.view) && Hull(t.view) == Reached(g)
    ensures Extent(t.view) == if g.width == g.matrix.cols then Reached(g) else Reached(g) - 1
    ensures ExtentNearHull(t.view)
  {
    var parent :| IsMatrix(parent, g.matrix) && t == ViewAt(parent, g.row, g.col, g.height, g.width);
    TileBounds(g);
    TileHeader(t, g);
    MatrixFields(parent, g.matrix);
    TimesOne(g.width as int - 1);
    ViewAtExtent(parent, g.row, g.col, g.height, g.width);
  }

  // ---- Cells -----------------------------------------------------------------------------------

  lemma CellDigits(i: nat, j: nat, c: nat, x: nat)
    requires j < c && x == Times(i, c) + j
    ensures Digits(x, [c, 1]) == [i, j]
  {
    QuotientIs(x, i, j, c);
    assert [c, 1][1..] == [1] && [1][1..] == [];
    assert Digits(j, [1]) == [j / 1] + Digits(j % 1, []);
  }

  lemma RowMajor2(c: nat)
    requires c > 0
    ensures RowMajor([c, 1]) && [c, 1][0] / [c, 1][1] == c
  {
    QuotientIs(c, c, 0, 1);
  }

  lemma TileBox(t: Tensor, g: Tile)
    requires IsTile(t, g)
    ensures FitsStrides(t.view) && Digits(t.view.startOffset, Steps(t.view)) == [g.row, g.col]
  {
    TileHeader(t, g);
    RowMajor2(g.matrix.cols);
    CellDigits(g.row, g.col, g.matrix.cols, t.view.startOffset);
  }

  /** A tile addresses exactly its cells. */
  lemma TileCells(t: Tensor, g: Tile, i: nat, j: nat, x: nat)
    requires IsTile(t, g) && j < g.matrix.cols && x == Times(i, g.matrix.cols) + j
    ensures Addresses(t.view, x) <==> Holds(g, i, j)
  {
    TileHeader(t, g);
    TileBox(t, g);
    CellDigits(i, j, g.matrix.cols, x);
    AddressesIsBox(t.view, x);
    Box2([i, j], [g.row, g.col], [g.height, g.width]);
  }

  lemma Box2(d: seq<nat>, o: seq<nat>, n: seq<nat>)
    requires |d| == |o| == |n| == 2
    ensures InBox(d, o, n) <==> o[0] <= d[0] < o[0] + n[0] && o[1] <= d[1] < o[1] + n[1]
  {
  }

  ghost predicate CellsApart(g: Tile, k: Tile) {
    forall i, j :: !(Holds(g, i, j) && Holds(k, i, j))
  }

  ghost predicate CellsInside(g: Tile, k: Tile) {
    forall i, j :: Holds(k, i, j) ==> Holds(g, i, j)
  }

  lemma ApartCells(g: Tile, k: Tile)
    requires GoodTile(g) && GoodTile(k)
    ensures CellsApart(g, k) <==>
              SpanApart(g.row, g.height, k.row, k.height) || SpanApart(g.col, g.width, k.col, k.width)
  {
    var i, j := if g.row < k.row then k.row else g.row, if g.col < k.col then k.col else g.col;
    assert !SpanApart(g.row, g.height, k.row, k.height) && !SpanApart(g.col, g.width, k.col, k.width) ==>
        Holds(g, i, j) && Holds(k, i, j);
  }

  lemma InsideCells(g: Tile, k: Tile)
    requires GoodTile(g) && GoodTile(k)
    ensures CellsInside(g, k) <==>
              SpanInside(g.row, g.height, k.row, k.height) && SpanInside(g.col, g.width, k.col, k.width)
  {
    assert Holds(k, k.row, k.col) && Holds(k, k.row as int + k.height - 1, k.col as int + k.width - 1);
  }

  /** The last cell of a tile that spans no whole rows is the first cell of the other. */
  predicate Corner(g: Tile, k: Tile) {
    && g.width != g.matrix.cols
    && k.row == g.row as int + g.height - 1 && k.col == g.col as int + g.width - 1
  }

  lemma LastIsFirst(g: Tile, k: Tile)
    requires GoodTile(g) && GoodTile(k) && g.matrix == k.matrix
    ensures First(g) + Reached(g) - 1 == First(k) <==>
              k.row == g.row as int + g.height - 1 && k.col == g.col as int + g.width - 1
  {
    var i, j := g.row as int + g.height - 1, g.col as int + g.width - 1;
    TimesPlus(g.row, g.height as int - 1, g.matrix.cols);
    SameCellIs(i, j, k.row, k.col, g.matrix.cols);
  }

  lemma CornerStops(t: Tensor, e: Tensor, g: Tile, k: Tile)
    requires IsTile(t, g) && IsTile(e, k) && g.matrix == k.matrix
    ensures NonEmpty(t.view) && (StopsAt(t.view, e.view) <==> Corner(g, k))
  {
    TileHeader(t, g);
    TileHeader(e, k);
    TileExtent(t, g);
    LastIsFirst(g, k);
  }

  lemma SameCellIs(i: nat, j: nat, p: nat, q: nat, c: nat)
    requires j < c && q < c
    ensures Times(i, c) + j == Times(p, c) + q <==> i == p && j == q
  {
    QuotientIs(Times(i, c) + j, i, j, c);
    QuotientIs(Times(p, c) + q, p, q, c);
  }

  lemma TilesAlike(t: Tensor, e: Tensor, g: Tile, k: Tile)
    requires IsTile(t, g) && IsTile(e, k) && g.matrix == k.matrix
    ensures NonEmpty(t.view) && NonEmpty(e.view) && Alike(t, e.view)
  {
    var m := g.matrix;
    TileHeader(t, g);
    TileHeader(e, k);
    TileExtent(t, g);
    TileExtent(e, k);
    TileBox(t, g);
    TileBox(e, k);
    TileBounds(g);
    TileBounds(k);
    QuotientIs(t.bufferSize, Times(m.rows, m.cols), 0, m.dtype);
    QuotientIs(Times(m.rows, m.cols), m.rows, 0, m.cols);
  }

  lemma TilesMeet(t: Tensor, e: Tensor, g: Tile, k: Tile)
    requires IsTile(t, g) && IsTile(e, k) && g.matrix == k.matrix
    ensures Disjoint(t.view, e.view) <==> CellsApart(g, k)
    ensures Contains(t.view, e.view) <==> CellsInside(g, k)
  {
    TileHeader(t, g);
    TileHeader(e, k);
    TileExtent(t, g);
    TileExtent(e, k);
    TileBox(t, g);
    TileBox(e, k);
    BoxesApart(t.view, e.view);
    BoxesNested(t.view, e.view);
    ApartCells(g, k);
    InsideCells(g, k);
    TwoSpans([g.row as nat, g.col as nat], [g.height as nat, g.width as nat], [k.row as nat, k.col as nat],
             [k.height as nat, k.width as nat]);
  }

  /** How two tiles of one matrix are classified, in terms of their cells: the truth, unless the corner of one
      that spans no whole rows is the first cell of the other. */
  lemma TileAnswers(t: Tensor, e: Tensor, g: Tile, k: Tile)
    requires IsTile(t, g) && IsTile(e, k) && g.matrix == k.matrix
    ensures CheckOverlap(t, e.view) == Nothing <==> CellsApart(g, k) || Corner(g, k) || Corner(k, g)
    ensures CheckOverlap(t, e.view) == Covered <==> CellsInside(g, k) && !Corner(g, k) && !Corner(k, g)
  {
    TileExtent(t, g);
    TileExtent(e, k);
    TileHeader(t, g);
    TileHeader(e, k);
    TilesAlike(t, e, g, k);
    AlikeAnswers(t, e.view);
    CornerStops(t, e, g, k);
    CornerStops(e, t, k, g);
    TilesMeet(t, e, g, k);
  }

  // ---- Runs on tiles -----------------------------------------------------------------------------

  ghost function TensorsOf(tiles: iset<Tile>): iset<Tensor> {
    iset t | IsSomeTile(t, tiles)
  }

  ghost predicate IsSomeTile(t: Tensor, tiles: iset<Tile>) {
    exists g :: g in tiles && IsTile(t, g)
  }

  /** Buffers at one address have one layout. */
  ghost predicate OneLayout(tiles: iset<Tile>) {
    && (forall g :: g in tiles ==> GoodTile(g))
    && forall g, k :: g in tiles && k in tiles && g.matrix.addr == k.matrix.addr ==> g.matrix == k.matrix
  }

  ghost predicate NoCorner(tiles: iset<Tile>) {
    forall g, k :: g in tiles && k in tiles && g.matrix == k.matrix ==> !Corner(g, k)
  }

  lemma MatrixExists(m: Matrix) returns (t: Tensor)
    requires m.cols > 0
    ensures IsMatrix(t, m)
  {
    var shapes := [m.rows, m.cols];
    var v := ViewFields(m.addr, 0, 0, 2, m.dtype, StridesDense(shapes, 0), [m.rows, m.cols, 0, 0, 0],
                        LayoutExtent(shapes, 0), [LayoutStride(shapes, 0), LayoutStride(shapes, 1), 0, 0, 0]);
    t := Tensor(v, Wrap64(Times(Product(shapes), m.dtype)));
    assert Shape(t.view) == shapes;
  }

  lemma TileExists(g: Tile) returns (t: Tensor)
    requires GoodTile(g)
    ensures IsTile(t, g)
  {
    var parent := MatrixExists(g.matrix);
    t := ViewAt(parent, g.row, g.col, g.height, g.width);
  }

  lemma PairSeen(t: Tensor, e: Tensor, g: Tile, k: Tile)
    requires IsTile(t, g) && IsTile(e, k) && g.matrix == k.matrix
    ensures GoodPair(t, e.view) <==> !Corner(g, k) && !Corner(k, g)
  {
    TileHeader(t, g);
    TileHeader(e, k);
    TileExtent(t, g);
    TileExtent(e, k);
    CornerStops(t, e, g, k);
    CornerStops(e, t, k, g);
    if Misled(t.view, e.view) {
      MisledIsApart(t.view, e.view);
    }
  }

  lemma CornerUnseen(tiles: iset<Tile>, g: Tile, k: Tile)
    requires OneLayout(tiles) && g in tiles && k in tiles && g.matrix == k.matrix && Corner(g, k)
    ensures !AllSeen(TensorsOf(tiles))
  {
    var b := TileExists(g);
    var a := TileExists(k);
    TileHeader(a, k);
    TileHeader(b, g);
    PairSeen(b, a, g, k);
    assert a in TensorsOf(tiles) && b in TensorsOf(tiles) && !GoodPair(b, a.view);
  }

  lemma TilesSeen(tiles: iset<Tile>, a: Tensor, b: Tensor)
    requires OneLayout(tiles) && NoCorner(tiles) && a in TensorsOf(tiles) && b in TensorsOf(tiles)
    requires a.view.base == b.view.base
    ensures GoodPair(b, a.view)
  {
    var k :| k in tiles && IsTile(a, k);
    var g :| g in tiles && IsTile(b, g);
    TileHeader(a, k);
    TileHeader(b, g);
    PairSeen(b, a, g, k);
  }

  /** Over any set of tiles, every run within the limits is ordered if and only if no tile that spans no whole rows
      has its last cell where another tile, or the same one, has its first. */
  lemma TilesOrderedExact(tiles: iset<Tile>, cfg: Config)
    requires ValidConfig(cfg) && cfg.window > 1 && cfg.poolSize > 0 && OneLayout(tiles)
    ensures AlwaysOrdered(TensorsOf(tiles), cfg) <==> NoCorner(tiles)
  {
    forall t | t in TensorsOf(tiles) ensures FlagHonest(t.view) && ExtentNearHull(t.view) {
      var g :| g in tiles && IsTile(t, g);
      TileHeader(t, g);
      TileExtent(t, g);
    }
    AlwaysOrderedExact(TensorsOf(tiles), cfg);
    if NoCorner(tiles) {
      forall a, b | a in TensorsOf(tiles) && b in TensorsOf(tiles) && a.view.base == b.view.base
        ensures GoodPair(b, a.view)
      {
        TilesSeen(tiles, a, b);
      }
    } else {
      var g, k :| g in tiles && k in tiles && g.matrix == k.matrix && Corner(g, k);
      CornerUnseen(tiles, g, k);
    }
  }

  /** Read-after-write, cell by cell: the task that reads a cell waits for every unretired task that wrote it. */
  lemma TileReadAfterWrite(tiles: iset<Tile>, run: Run, cfg: Config, ringSize: nat, p: nat, c: nat, w: Pending,
                           r: Pending, g: Tile, k: Tile, i: nat, j: nat)
    requires cfg.window > 1 && cfg.poolSize > 0 && OneLayout(tiles) && NoCorner(tiles)
    requires WellTimed(run, cfg, ringSize) && NoLimitHit(run, cfg) && Uses(run, TensorsOf(tiles))
    requires c < |run| && run[c].minTask <= p < c && WritesAt(run, p, w) && ReadsAt(run, c, r)
    requires IsTile(w.t, g) && IsTile(r.t, k) && g.matrix == k.matrix && Holds(g, i, j) && Holds(k, i, j)
    ensures Reach(Edges(run, cfg), p, c)
  {
    TimesNat(i, g.matrix.cols);
    var x: nat := Times(i, g.matrix.cols) + j;
    TilesOrderedExact(tiles, cfg);
    TileHeader(w.t, g);
    TileHeader(r.t, k);
    TileCells(w.t, g, i, j, x);
    TileCells(r.t, k, i, j, x);
    assert Ordered(run, cfg);
  }

  lemma TilesClear(tiles: iset<Tile>, t: Tensor, e: Tensor)
    requires OneLayout(tiles) && NoCorner(tiles) && t in TensorsOf(tiles) && e in TensorsOf(tiles)
    requires t.view.base == e.view.base
    ensures FlagHonest(e.view) && Clear(t, e.view)
  {
    var g :| g in tiles && IsTile(t, g);
    var k :| k in tiles && IsTile(e, k);
    TileHeader(t, g);
    TileHeader(e, k);
    TileExtent(t, g);
    TileExtent(e, k);
    TilesAlike(t, e, g, k);
    CornerStops(t, e, g, k);
    CornerStops(e, t, k, g);
  }

  /** No needless edge on tiles: a task waits only for an earlier, unretired task that wrote a cell it reads. */
  lemma TileEdges(tiles: iset<Tile>, run: Run, cfg: Config, c: nat, p: nat)
    requires cfg.window > 0 && c < |run| <= ID_LIMIT && p in Edges(run, cfg)[c]
    requires OneLayout(tiles) && NoCorner(tiles) && Uses(run, TensorsOf(tiles))
    ensures run[c].minTask <= p < c
    ensures exists r, w, g, k, i, j ::
              && ReadsAt(run, c, r) && WritesAt(run, p, w) && IsTile(r.t, g) && IsTile(w.t, k) && g.matrix == k.matrix
              && Holds(g, i, j) && Holds(k, i, j)
  {
    forall j: nat, w | WritesAt(run, j, w) ensures FlagHonest(w.t.view) {
      TilesClear(tiles, w.t, w.t);
    }
    forall j: nat, k: nat, w, r |
      j < k && WritesAt(run, j, w) && ReadsAt(run, k, r) && r.t.view.base == w.t.view.base
      ensures Clear(r.t, w.t.view)
    {
      TilesClear(tiles, r.t, w.t);
    }
    EdgesShareElements(run, cfg, c, p);
    var r, w, x :| ReadsAt(run, c, r) && WritesAt(run, p, w) && r.t.view.base == w.t.view.base
                   && Addresses(r.t.view, x) && Addresses(w.t.view, x);
    var g :| g in tiles && IsTile(r.t, g);
    var k :| k in tiles && IsTile(w.t, k);
    TileHeader(r.t, g);
    TileHeader(w.t, k);
    TilesMeet(r.t, w.t, g, k);
    var i, j :| Holds(g, i, j) && Holds(k, i, j);
  }
}
