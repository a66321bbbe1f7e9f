/** The vertical alignment of the table on its baseline, the displacements
    of the rows and columns, the box a cell spans and the position of each
    cell's element inside that box. */
module TablePositions {
  import opened Wrappers
  import opened Geometry
  import Scaled
  import opened TableGrid

  // Alignment of the table

  /** The tokens `alignTable` accepts; any other one fails its assertion. */
  predicate TableAlign(t: Token)
  {
    t.Top? || t.Bottom? || t.Axis? || t.Center? || t.Baseline?
  }

  /** The table's height above its baseline, given its extent thd. */
  function AlignedHeight(thd: int, axis: int, align: Token): int
    requires TableAlign(align)
  {
    match align
    case Top => 0
    case Bottom => thd
    case Axis => Scaled.TruncDiv(thd, 2) + axis
    case _ => Scaled.TruncDiv(thd, 2)
  }

  /** The table's top sits on the baseline for Top, its bottom for Bottom;
      Center and Baseline split a non-negative extent in halves, the lower
      one larger by the truncated unit at most; Axis raises the centred
      table by the axis. */
  lemma AlignedHeightMeaning(thd: int, axis: int, align: Token)
    requires TableAlign(align)
    ensures align.Top? ==> AlignedHeight(thd, axis, align) == 0
    ensures align.Bottom? ==> thd - AlignedHeight(thd, axis, align) == 0
    ensures (align.Center? || align.Baseline?) && thd >= 0 ==>
      var h := AlignedHeight(thd, axis, align);
      0 <= (thd - h) - h <= 1
    ensures align.Axis? ==> AlignedHeight(thd, axis, align) - axis == AlignedHeight(thd, axis, Center)
  {
  }

  /** The pivot rows `alignTable` can take without reading outside the
      rows: a row of the grid, or, for Top, which reads no row at the pivot,
      the index just past the last row. */
  predicate PivotInGrid(rows: seq<Row>, align: Token, r: nat)
  {
    r < |rows| || (align.Top? && r == |rows|)
  }

  /** `alignTable` with a pivot row r: the height that puts the pivot row's
      top (Top), bottom (Bottom), middle (Center) or baseline (Baseline) on
      the table's baseline, or its baseline the axis below it (Axis). */
  function PivotHeight(rows: seq<Row>, axis: int, align: Token, r: nat): int
    requires TableAlign(align) && PivotInGrid(rows, align, r)
  {
    var above := SumExtents(rows, 0, r);
    match align
    case Top => above
    case Bottom => above + rows[r].VerticalExtent()
    case Axis => above + rows[r].height - axis
    case Center => above + Scaled.TruncDiv(rows[r].VerticalExtent(), 2)
    case _ => above + rows[r].height
  }

  // Displacements

  /** Row i's baseline lies below the table's top by the extents of the rows
      above it and its own height. */
  predicate RowsPlaced(rows: seq<Row>, height: int)
  {
    forall i :: 0 <= i < |rows| ==> rows[i].displacement == height - SumExtents(rows, 0, i) - rows[i].height
  }

  /** Column j starts after the widths of the columns before it. */
  predicate ColumnsPlaced(cols: seq<Column>)
  {
    forall j :: 0 <= j < |cols| ==> cols[j].displacement == SumWidths(cols, 0, j)
  }

  lemma {:induction false} SameExtentsSum(a: seq<Row>, b: seq<Row>, lo: nat, hi: nat)
    requires |a| == |b| && hi <= |a|
    requires forall i :: 0 <= i < |a| ==> a[i].VerticalExtent() == b[i].VerticalExtent()
    ensures SumExtents(a, lo, hi) == SumExtents(b, lo, hi)
    decreases hi
  {
    if hi > lo {
      SameExtentsSum(a, b, lo, hi - 1);
    }
  }

  lemma {:induction false} SameWidthsSum(a: seq<Column>, b: seq<Column>, lo: nat, hi: nat)
    requires |a| == |b| && hi <= |a|
    requires forall j :: 0 <= j < |a| ==> a[j].width == b[j].width
    ensures SumWidths(a, lo, hi) == SumWidths(b, lo, hi)
    decreases hi
  {
    if hi > lo {
      SameWidthsSum(a, b, lo, hi - 1);
    }
  }

  /** The rows after `setDisplacements` on a table of the given height. */
  function PlacedRows(rows: seq<Row>, height: int): (r: seq<Row>)
    ensures |r| == |rows| && RowsPlaced(r, height)
    ensures forall i :: 0 <= i < |rows| ==> r[i] == rows[i].(displacement := r[i].displacement)
  {
    var r := seq(|rows|, i requires 0 <= i < |rows| =>
      rows[i].(displacement := height - SumExtents(rows, 0, i) - rows[i].height));
    forall i | 0 <= i < |rows|
      ensures SumExtents(r, 0, i) == SumExtents(rows, 0, i)
    {
      SameExtentsSum(r, rows, 0, i);
    }
    r
  }

  /** The columns after `setDisplacements`. */
  function PlacedColumns(cols: seq<Column>): (r: seq<Column>)
    ensures |r| == |cols| && ColumnsPlaced(r)
    ensures forall j :: 0 <= j < |cols| ==> r[j] == cols[j].(displacement := r[j].displacement)
  {
    var r := seq(|cols|, j requires 0 <= j < |cols| => cols[j].(displacement := SumWidths(cols, 0, j)));
    forall j | 0 <= j < |cols|
      ensures SumWidths(r, 0, j) == SumWidths(cols, 0, j)
    {
      SameWidthsSum(r, cols, 0, j);
    }
    r
  }

  /** Placed rows stack without gaps from the table's top down: the first
      row's top is the table's top, each row's top meets the bottom of the
      row above, and the bottom of the row i - 1 is the table's top less the
      extents down to i. */
  lemma RowsStack(rows: seq<Row>, height: int, i: int)
    requires RowsPlaced(rows, height) && 0 <= i < |rows|
    ensures i == 0 ==> rows[0].displacement + rows[0].height == height
    ensures i > 0 ==> rows[i].displacement + rows[i].height == rows[i - 1].displacement - rows[i - 1].depth
    ensures rows[i].displacement - rows[i].depth == height - SumExtents(rows, 0, i + 1)
  {
  }

  /** Placed columns abut from 0 rightwards. */
  lemma ColumnsAbut(cols: seq<Column>, j: int)
    requires ColumnsPlaced(cols) && 0 <= j < |cols|
    ensures j == 0 ==> cols[0].displacement == 0
    ensures cols[j].displacement + cols[j].width == SumWidths(cols, 0, j + 1)
    ensures j + 1 < |cols| ==> cols[j + 1].displacement == cols[j].displacement + cols[j].width
  {
  }

  /** When the rows fill the table's extent, the last row's bottom is the
      table's bottom. */
  lemma LastRowAtBottom(rows: seq<Row>, height: int, thd: int)
    requires RowsPlaced(rows, height) && |rows| > 0 && SumExtents(rows, 0, |rows|) == thd
    ensures rows[|rows| - 1].displacement - rows[|rows| - 1].depth == height - thd
  {
    RowsStack(rows, height, |rows| - 1);
  }

  /** With a pivot row, the chosen line of that row lands on the table's
      baseline once the rows are placed. */
  lemma PivotRowOnBaseline(rows: seq<Row>, axis: int, align: Token, r: nat)
    requires TableAlign(align) && r < |rows|
    ensures var p := PlacedRows(rows, PivotHeight(rows, axis, align, r))[r];
      (align.Top? ==> p.displacement + p.height == 0) &&
      (align.Bottom? ==> p.displacement - p.depth == 0) &&
      (align.Baseline? ==> p.displacement == 0) &&
      (align.Axis? ==> p.displacement == -axis) &&
      (align.Center? && p.VerticalExtent() >= 0 ==>
        0 <= -(p.displacement - p.depth) - (p.displacement + p.height) <= 1)
  {
  }

  /** Top with the pivot just past the last row sums the extents of every
      row, so the bottom of the grid lands on the table's baseline. */
  lemma PivotPastLastRow(rows: seq<Row>, axis: int)
    requires |rows| > 0
    ensures var p := PlacedRows(rows, PivotHeight(rows, axis, Top, |rows|))[|rows| - 1];
      p.displacement - p.depth == 0
  {
  }

  // The box of a cell

  /** `getCellBoundingBox(i, j, rowSpan, columnSpan)`: column j's width plus
      the widths of the other spanned columns, row i's height, and row i's
      depth plus the extents of the other spanned rows. */
  function CellBox(rows: seq<Row>, cols: seq<Column>, i: nat, j: nat, rs: nat, cs: nat): BoundingBox
    requires i < |rows| && j < |cols| && i + rs <= |rows| && j + cs <= |cols|
  {
    BoundingBox(cols[j].width + SumWidths(cols, j + 1, j + cs), rows[i].height,
                rows[i].depth + SumExtents(rows, i + 1, i + rs))
  }

  /** The box spans the columns j .. j + cs - 1 and the rows i .. i + rs - 1
      exactly, its baseline being row i's baseline. */
  lemma CellBoxCovers(rows: seq<Row>, cols: seq<Column>, i: nat, j: nat, rs: nat, cs: nat)
    requires i < |rows| && j < |cols| && 1 <= rs && 1 <= cs && i + rs <= |rows| && j + cs <= |cols|
    ensures CellBox(rows, cols, i, j, rs, cs).width == SumWidths(cols, j, j + cs)
    ensures CellBox(rows, cols, i, j, rs, cs).height == rows[i].height
    ensures CellBox(rows, cols, i, j, rs, cs).VerticalExtent() == SumExtents(rows, i, i + rs)
  {
    SumWidthsSplit(cols, j, j + 1, j + cs);
    SumExtentsSplit(rows, i, i + 1, i + rs);
  }

  // Positions of the cells

  predicate ColumnAlignment(t: Token)
  {
    t.Left? || t.Right? || t.Center?
  }

  predicate RowAlignment(t: Token)
  {
    t.Baseline? || t.Top? || t.Bottom? || t.Center? || t.Axis?
  }

  /** The horizontal offset of an element in its cell box. */
  function OffsetX(cellBox: BoundingBox, box: BoundingBox, align: Token): int
    requires ColumnAlignment(align)
  {
    match align
    case Left => 0
    case Right => cellBox.width - box.width
    case _ => Scaled.TruncDiv(cellBox.width - box.width, 2)
  }

  /** The vertical offset of an element's baseline from its cell box's. */
  function OffsetY(cellBox: BoundingBox, box: BoundingBox, align: Token, axis: int): int
    requires RowAlignment(align)
  {
    match align
    case Baseline => 0
    case Top => cellBox.height - box.height
    case Bottom => box.depth - cellBox.depth
    case Center => Scaled.TruncDiv(cellBox.height - cellBox.depth - box.height + box.depth, 2)
    case _ => Scaled.TruncDiv(cellBox.height - cellBox.depth - box.height + box.depth, 2) + axis
  }

  /** The assertions of `setCellPositions`: every element in a content row
      and a content column has alignments it handles. */
  predicate PositionAligns(g: Grid)
    requires Shaped(g)
  {
    forall i, j ::
      (0 <= i < |g.rows| && 0 <= j < |g.columns| && HasElement(g, i, j) && g.rows[i].content && g.columns[j].content) ==>
      ColumnAlignment(ElementAt(g, i, j).columnAlign) && RowAlignment(ElementAt(g, i, j).rowAlign)
  }

  /** The element of a content row and column is displaced to its column's
      and row's displacement plus its offset in its cell box; any other cell
      keeps its displacement. */
  function PositionCell(g: Grid, axis: int, i: int, j: int): Cell
    requires Valid(g) && PositionAligns(g) && 0 <= i < |g.rows| && 0 <= j < |g.columns|
  {
    var c := CellAt(g, i, j);
    if g.rows[i].content && g.columns[j].content && c.content.Some? then
      var e := c.content.value;
      var cb := CellBox(g.rows, g.columns, i, j, e.rowSpan, e.columnSpan);
      c.(dx := g.columns[j].displacement + OffsetX(cb, e.box, e.columnAlign),
         dy := g.rows[i].displacement + OffsetY(cb, e.box, e.rowAlign, axis))
    else c
  }

  /** The row and column of the k-th slot of the vector. */
  lemma FlatCoordinates(k: int, nr: nat, nc: nat)
    requires 0 <= k < nr * nc
    ensures nc > 0 && 0 <= k / nc < nr && 0 <= k % nc < nc
  {
    assert k == (k / nc) * nc + k % nc;
    if k / nc >= nr {
      MulMonotone(nr, k / nc, nc);
    }
  }

  lemma FlatIndexCoordinates(i: int, j: int, nr: nat, nc: nat)
    requires 0 <= i < nr && 0 <= j < nc
    ensures 0 <= i * nc + j < nr * nc && (i * nc + j) / nc == i && (i * nc + j) % nc == j
  {
    FlatIndex(i, j, nr, nc);
    Scaled.DivUnique(i * nc + j, nc, i);
  }

  /** The cell vector after `setCellPositions`. */
  function PositionedCells(g: Grid, axis: int): (cells: seq<Cell>)
    requires Valid(g) && PositionAligns(g)
    ensures |cells| == |g.cells|
  {
    seq(|g.cells|, k requires 0 <= k < |g.cells| =>
      FlatCoordinates(k, |g.rows|, |g.columns|);
      PositionCell(g, axis, k / |g.columns|, k % |g.columns|))
  }

  /** Each slot of the positioned vector is its own cell positioned. */
  lemma PositionedCellAt(g: Grid, axis: int, i: int, j: int)
    requires Valid(g) && PositionAligns(g) && 0 <= i < |g.rows| && 0 <= j < |g.columns|
    ensures CellAt(g.(cells := PositionedCells(g, axis)), i, j) == PositionCell(g, axis, i, j)
  {
    FlatIndexCoordinates(i, j, |g.rows|, |g.columns|);
  }

  /** Once the rows and columns are placed, a positioned element sits in the
      box of the cells it spans: Left puts its left edge on the first
      spanned column's, Right its right edge on the last spanned column's,
      Top its top on the row's top, Bottom its bottom on the last spanned
      row's bottom, and Baseline its baseline on the row's. */
  lemma PositionedElementInCell(g: Grid, axis: int, height: int, i: int, j: int)
    requires Valid(g) && PositionAligns(g) && RowsPlaced(g.rows, height) && ColumnsPlaced(g.columns)
    requires HasElement(g, i, j) && g.rows[i].content && g.columns[j].content
    ensures var e := ElementAt(g, i, j);
      var p := PositionCell(g, axis, i, j);
      var last := i + e.rowSpan - 1;
      var right := j + e.columnSpan - 1;
      (e.columnAlign.Left? ==> p.dx == g.columns[j].displacement) &&
      (e.columnAlign.Right? ==> p.dx + e.box.width == g.columns[right].displacement + g.columns[right].width) &&
      (e.rowAlign.Top? ==> p.dy + e.box.height == g.rows[i].displacement + g.rows[i].height) &&
      (e.rowAlign.Bottom? ==> p.dy - e.box.depth == g.rows[last].displacement - g.rows[last].depth) &&
      (e.rowAlign.Baseline? ==> p.dy == g.rows[i].displacement)
  {
    var e := ElementAt(g, i, j);
    CellBoxCovers(g.rows, g.columns, i, j, e.rowSpan, e.columnSpan);
    SumWidthsSplit(g.columns, 0, j, j + e.columnSpan);
    SumExtentsSplit(g.rows, 0, i, i + e.rowSpan);
    ColumnsAbut(g.columns, j + e.columnSpan - 1);
    RowsStack(g.rows, height, i + e.rowSpan - 1);
  }

  /** Element e is in cell (i, j) of f, and that cell's offsets put it in
      the box of the cells it spans, as its alignments ask. */
  predicate ElementPlaced(f: Grid, i: int, j: int, e: CellElement)
  {
    Shaped(f) && 0 <= i && 0 <= j && 1 <= e.rowSpan && 1 <= e.columnSpan &&
    i + e.rowSpan <= |f.rows| && j + e.columnSpan <= |f.columns| &&
    var c := CellAt(f, i, j);
    var last := i + e.rowSpan - 1;
    var right := j + e.columnSpan - 1;
    c.content == Some(e) &&
    (e.columnAlign.Left? ==> c.dx == f.columns[j].displacement) &&
    (e.columnAlign.Right? ==> c.dx + e.box.width == f.columns[right].displacement + f.columns[right].width) &&
    (e.rowAlign.Top? ==> c.dy + e.box.height == f.rows[i].displacement + f.rows[i].height) &&
    (e.rowAlign.Bottom? ==> c.dy - e.box.depth == f.rows[last].displacement - f.rows[last].depth) &&
    (e.rowAlign.Baseline? ==> c.dy == f.rows[i].displacement)
  }

  /** The same, read off the positioned grid itself. */
  lemma PositionedGridPlacesElement(g: Grid, axis: int, height: int, i: int, j: int)
    requires Valid(g) && PositionAligns(g) && RowsPlaced(g.rows, height) && ColumnsPlaced(g.columns)
    requires HasElement(g, i, j) && g.rows[i].content && g.columns[j].content
    ensures ElementPlaced(g.(cells := PositionedCells(g, axis)), i, j, ElementAt(g, i, j))
  {
    PositionedCellAt(g, axis, i, j);
    PositionedElementInCell(g, axis, height, i, j);
  }
}
