/** The decorated grid of a MathML table (section 3.5.1 of MathML 2.0): grid
    rows and columns, each a content row or column or the spacing, frame or
    label track around one, and the cells stored row after row in one
    vector. */
module TableGrid {
  import opened Wrappers
  import opened Geometry

  /** The alignment tokens the layout tests. */
  datatype Token = Left | Right | Center | Top | Bottom | Axis | Baseline | OtherToken(code: nat)

  /** How a row's height or a column's width is given: automatic, fitted, a
      fixed length or a scale fraction of the table's extent. */
  datatype Spec = Auto | Fit | Fix(length: int) | Scale(fraction: real)

  datatype Column = Column(spec: Spec, content: bool, tempWidth: int, contentWidth: int, width: int, displacement: int)

  datatype Row = Row(spec: Spec, content: bool, tempHeight: int, tempDepth: int, height: int, depth: int, displacement: int)
  {
    function VerticalExtent(): int
    {
      height + depth
    }

    function TempExtent(): int
    {
      tempHeight + tempDepth
    }
  }

  /** A cell element as the layout sees it: its formatted box, the grid rows
      and columns it spans, and its alignments. */
  datatype CellElement = CellElement(element: nat, box: BoundingBox, rowSpan: nat, columnSpan: nat, rowAlign: Token, columnAlign: Token)

  /** A grid cell: its element (null for an empty slot) and its displacement. */
  datatype Cell = Cell(content: Option<CellElement>, dx: int, dy: int)

  // A default-constructed track or cell holds nothing.
  const DefaultColumn := Column(Auto, false, 0, 0, 0, 0)
  const DefaultRow := Row(Auto, false, 0, 0, 0, 0, 0)
  const NullCell := Cell(None, 0, 0)

  datatype Grid = Grid(rows: seq<Row>, columns: seq<Column>, cells: seq<Cell>)

  lemma MulMonotone(a: int, b: int, n: int)
    requires 0 <= a <= b && n >= 0
    ensures a * n <= b * n
  {
    assert b * n - a * n == (b - a) * n;
  }

  /** The row-major index of (i, j) lies inside the vector. */
  lemma FlatIndex(i: int, j: int, nr: int, nc: int)
    requires 0 <= i < nr && 0 <= j < nc
    ensures 0 <= i * nc + j < nr * nc
  {
    MulMonotone(0, i, nc);
    MulMonotone(i + 1, nr, nc);
    assert (i + 1) * nc == i * nc + nc;
  }

  lemma MulAtLeast(d: int, n: int)
    requires n >= 0
    ensures d >= 1 ==> d * n >= n
    ensures d <= -1 ==> d * n <= -n
  {
    if d >= 1 {
      MulMonotone(1, d, n);
    } else if d <= -1 {
      MulMonotone(1, -d, n);
    }
  }

  /** Distinct positions never share a slot of the vector. */
  lemma FlatIndexInjective(i: int, j: int, i2: int, j2: int, nc: int)
    requires 0 <= j < nc && 0 <= j2 < nc
    ensures i * nc + j == i2 * nc + j2 ==> i == i2 && j == j2
  {
    assert i2 * nc - i * nc == (i2 - i) * nc;
    MulAtLeast(i2 - i, nc);
  }

  predicate Shaped(g: Grid)
  {
    |g.cells| == |g.rows| * |g.columns|
  }

  /** `getCell(i, j)`, whose asserts demand a position inside the grid. */
  function CellAt(g: Grid, i: int, j: int): Cell
    requires Shaped(g) && 0 <= i < |g.rows| && 0 <= j < |g.columns|
  {
    FlatIndex(i, j, |g.rows|, |g.columns|);
    g.cells[i * |g.columns| + j]
  }

  /** The vector after writing one cell. */
  function SetCell(g: Grid, i: int, j: int, c: Cell): (r: Grid)
    requires Shaped(g) && 0 <= i < |g.rows| && 0 <= j < |g.columns|
    ensures Shaped(r) && r.rows == g.rows && r.columns == g.columns
  {
    FlatIndex(i, j, |g.rows|, |g.columns|);
    g.(cells := g.cells[i * |g.columns| + j := c])
  }

  /** Writing one cell changes that cell and no other. */
  lemma SetCellAt(g: Grid, i: int, j: int, c: Cell, i2: int, j2: int)
    requires Shaped(g) && 0 <= i < |g.rows| && 0 <= j < |g.columns|
    requires 0 <= i2 < |g.rows| && 0 <= j2 < |g.columns|
    ensures CellAt(SetCell(g, i, j, c), i2, j2) == if i == i2 && j == j2 then c else CellAt(g, i2, j2)
  {
    FlatIndex(i2, j2, |g.rows|, |g.columns|);
    FlatIndexInjective(i, j, i2, j2, |g.columns|);
  }

  /** Every element fits in the grid with the spans it reports. */
  predicate SpansFit(g: Grid)
    requires Shaped(g)
  {
    forall i, j :: 0 <= i < |g.rows| && 0 <= j < |g.columns| && CellAt(g, i, j).content.Some? ==>
      var e := CellAt(g, i, j).content.value;
      1 <= e.rowSpan && i + e.rowSpan <= |g.rows| && 1 <= e.columnSpan && j + e.columnSpan <= |g.columns|
  }

  predicate Valid(g: Grid)
  {
    Shaped(g) && SpansFit(g)
  }

  /** The element at (i, j), when there is one. */
  predicate HasElement(g: Grid, i: int, j: int)
    requires Shaped(g)
  {
    0 <= i < |g.rows| && 0 <= j < |g.columns| && CellAt(g, i, j).content.Some?
  }

  function ElementAt(g: Grid, i: int, j: int): CellElement
    requires Shaped(g) && HasElement(g, i, j)
  {
    CellAt(g, i, j).content.value
  }

  /** Two column vectors agree on everything but computed lengths. */
  predicate SameColumnKinds(a: seq<Column>, b: seq<Column>)
  {
    |a| == |b| && forall j :: 0 <= j < |a| ==> a[j].spec == b[j].spec && a[j].content == b[j].content
  }

  predicate SameRowKinds(a: seq<Row>, b: seq<Row>)
  {
    |a| == |b| && forall i :: 0 <= i < |a| ==> a[i].spec == b[i].spec && a[i].content == b[i].content
  }

  /** A grid whose tracks were recomputed keeps its cells and its validity. */
  lemma ValidWithTracks(g: Grid, rows: seq<Row>, columns: seq<Column>)
    requires Valid(g) && |rows| == |g.rows| && |columns| == |g.columns|
    ensures Valid(Grid(rows, columns, g.cells))
    ensures forall i, j :: 0 <= i < |rows| && 0 <= j < |columns| ==>
      CellAt(Grid(rows, columns, g.cells), i, j) == CellAt(g, i, j)
  {
    var h := Grid(rows, columns, g.cells);
    forall i, j | 0 <= i < |rows| && 0 <= j < |columns|
      ensures CellAt(h, i, j) == CellAt(g, i, j)
    {
    }
  }

  // Sums over a range of tracks

  function SumWidths(cols: seq<Column>, lo: nat, hi: nat): int
    requires hi <= |cols|
    decreases hi
  {
    if hi <= lo then 0 else SumWidths(cols, lo, hi - 1) + cols[hi - 1].width
  }

  function SumTempWidths(cols: seq<Column>, lo: nat, hi: nat): int
    requires hi <= |cols|
    decreases hi
  {
    if hi <= lo then 0 else SumTempWidths(cols, lo, hi - 1) + cols[hi - 1].tempWidth
  }

  function SumExtents(rows: seq<Row>, lo: nat, hi: nat): int
    requires hi <= |rows|
    decreases hi
  {
    if hi <= lo then 0 else SumExtents(rows, lo, hi - 1) + rows[hi - 1].VerticalExtent()
  }

  function SumTempExtents(rows: seq<Row>, lo: nat, hi: nat): int
    requires hi <= |rows|
    decreases hi
  {
    if hi <= lo then 0 else SumTempExtents(rows, lo, hi - 1) + rows[hi - 1].TempExtent()
  }

  /** A range sum splits at any point inside it. */
  lemma {:induction false} SumWidthsSplit(cols: seq<Column>, lo: nat, mid: nat, hi: nat)
    requires 0 <= lo <= mid <= hi <= |cols|
    ensures SumWidths(cols, lo, hi) == SumWidths(cols, lo, mid) + SumWidths(cols, mid, hi)
    decreases hi
  {
    if hi > mid {
      SumWidthsSplit(cols, lo, mid, hi - 1);
    }
  }

  lemma {:induction false} SumExtentsSplit(rows: seq<Row>, lo: nat, mid: nat, hi: nat)
    requires 0 <= lo <= mid <= hi <= |rows|
    ensures SumExtents(rows, lo, hi) == SumExtents(rows, lo, mid) + SumExtents(rows, mid, hi)
    decreases hi
  {
    if hi > mid {
      SumExtentsSplit(rows, lo, mid, hi - 1);
    }
  }
}
