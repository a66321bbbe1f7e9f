/** The table formatter: the rows, columns and cells vectors it owns, the
    table's box, and the passes that fill them in, each proved to leave the
    state the corresponding pass function describes. */
module TableFormatters {
  import opened Wrappers
  import opened Geometry
  import Scaled
  import opened TableGrid
  import opened TableInit
  import opened TableWidths
  import opened TableHeights
  import opened TablePositions

  // The stages of `init`, on local vectors

  /** `std::find_if` over the labels for one that is not null. */
  method AnyLabel(labels: seq<Option<CellElement>>) returns (found: bool)
    ensures found == HasLabels(labels)
  {
    var k := 0;
    while k < |labels|
      invariant 0 <= k <= |labels|
      invariant forall m :: 0 <= m < k ==> labels[m].None?
    {
      if labels[k].Some? {
        return true;
      }
      k := k + 1;
    }
    return false;
  }

  /** The column vector before the column loop: the frame columns and,
      with labels, a Fit label column and its spacing column on each side. */
  method FrameAndLabelColumns(a: TableAttributes, nColumns: nat, labels: seq<Option<CellElement>>, hasLabels: bool)
    returns (cs: seq<Column>)
    requires hasLabels == HasLabels(labels)
    requires GridColumnCount(a, nColumns, labels) > 0
    requires (!a.equalColumns ==> |a.columnWidths| >= nColumns) && |a.columnSpacings| + 1 >= nColumns
    ensures |cs| == GridColumnCount(a, nColumns, labels)
    ensures forall z :: 0 <= z < |cs| ==> cs[z] == ColumnAfter(a, nColumns, labels, z, 0)
  {
    var hasFrame := a.frame == SolidFrame || a.frame == DashedFrame;
    var n := (if hasFrame then 2 else 0) + (if hasLabels then 4 else 0) + nColumns * 2 - 1;
    var leftLabelOffset := if hasFrame then 1 else 0;
    var rightLabelOffset := (if hasFrame then 1 else 0) + nColumns * 2 + 1;
    cs := seq(n, z => DefaultColumn);
    if hasFrame {
      cs := cs[0 := cs[0].(spec := Fix(a.hFrameSpacing))];
      cs := cs[n - 1 := cs[n - 1].(spec := Fix(a.hFrameSpacing))];
    }
    assert forall z :: 0 <= z < n ==>
      cs[z] == if HasFrame(a) && (z == 0 || z == n - 1) then DefaultColumn.(spec := Fix(a.hFrameSpacing)) else DefaultColumn;
    if hasLabels {
      cs := cs[leftLabelOffset := cs[leftLabelOffset].(spec := Fit)];
      cs := cs[rightLabelOffset := cs[rightLabelOffset].(spec := Fit)];
      var left := a.side == LeftSide || a.side == LeftOverlapSide;
      var right := a.side == RightSide || a.side == RightOverlapSide;
      match a.minLabelSpacing {
        case Percentage(p) =>
          cs := cs[leftLabelOffset + 1 := cs[leftLabelOffset + 1].(spec := Scale(if left then p else 0.0))];
          cs := cs[rightLabelOffset - 1 := cs[rightLabelOffset - 1].(spec := Scale(if right then p else 0.0))];
        case Absolute(v) =>
          cs := cs[leftLabelOffset + 1 := cs[leftLabelOffset + 1].(spec := Fix(if left then v else 0))];
          cs := cs[rightLabelOffset - 1 := cs[rightLabelOffset - 1].(spec := Fix(if right then v else 0))];
      }
    }
    forall z | 0 <= z < n
      ensures cs[z] == ColumnAfter(a, nColumns, labels, z, 0)
    {
    }
  }

  /** The column vector: the frame, the label columns, then the content
      columns and the spacing columns between them. */
  method InitColumns(a: TableAttributes, nColumns: nat, labels: seq<Option<CellElement>>, hasLabels: bool)
    returns (cs: seq<Column>)
    requires hasLabels == HasLabels(labels)
    requires GridColumnCount(a, nColumns, labels) > 0
    requires (!a.equalColumns ==> |a.columnWidths| >= nColumns) && |a.columnSpacings| + 1 >= nColumns
    ensures |cs| == GridColumnCount(a, nColumns, labels)
    ensures forall z :: 0 <= z < |cs| ==> cs[z] == InitColumn(a, nColumns, labels, z)
  {
    var hasFrame := a.frame == SolidFrame || a.frame == DashedFrame;
    var n := (if hasFrame then 2 else 0) + (if hasLabels then 4 else 0) + nColumns * 2 - 1;
    var cco := (if hasFrame then 1 else 0) + (if hasLabels then 2 else 0);
    cs := FrameAndLabelColumns(a, nColumns, labels, hasLabels);
    var j := 0;
    while j < nColumns
      invariant 0 <= j <= nColumns && |cs| == n
      invariant forall z :: 0 <= z < |cs| ==> cs[z] == ColumnAfter(a, nColumns, labels, z, j)
    {
      var jj := cco + j * 2;
      TrackIndexOf(j, cco);
      var spec: Spec;
      if a.equalColumns {
        spec := Auto;
      } else {
        match a.columnWidths[j] {
          case AutoWidth => spec := Auto;
          case FitWidth => spec := Fit;
          case GivenWidth(Percentage(p)) => spec := Scale(p / 100.0);
          case GivenWidth(Absolute(v)) => spec := Fix(v);
        }
      }
      assert spec == ContentSpec(a, nColumns, j);
      cs := cs[jj := cs[jj].(spec := spec, content := true)];
      if j + 1 < nColumns {
        cs := cs[jj + 1 := cs[jj + 1].(spec := SpacingSpec(a.columnSpacings[j]))];
      }
      forall z | 0 <= z < |cs|
        ensures cs[z] == ColumnAfter(a, nColumns, labels, z, j + 1)
      {
        ColumnLoopStep(a, nColumns, labels, j, z);
      }
      j := j + 1;
    }
  }

  /** One iteration of the column loop writes content column j and the
      spacing column after it. */
  lemma ColumnLoopStep(a: TableAttributes, nColumns: nat, labels: seq<Option<CellElement>>, j: nat, z: int)
    requires j < nColumns && (!a.equalColumns ==> |a.columnWidths| >= nColumns) && |a.columnSpacings| + 1 >= nColumns
    ensures var jj := ContentColumnOffset(a, labels) + 2 * j;
      ColumnAfter(a, nColumns, labels, z, j + 1) ==
        if z == jj then ColumnAfter(a, nColumns, labels, z, j).(spec := ContentSpec(a, nColumns, j), content := true)
        else if z == jj + 1 && j + 1 < nColumns then
          ColumnAfter(a, nColumns, labels, z, j).(spec := SpacingSpec(a.columnSpacings[j]))
        else ColumnAfter(a, nColumns, labels, z, j)
  {
    var cco := ContentColumnOffset(a, labels);
    TrackIndexOf(j, cco);
    TrackIndexInverse(z, cco);
  }

  /** One iteration of the row loop makes row i a content row and writes
      the spacing row after it. */
  lemma RowLoopStep(a: TableAttributes, nRows: nat, i: nat, z: int)
    requires i < nRows && |a.rowSpacings| + 1 >= nRows
    ensures var ii := ContentRowOffset(a) + 2 * i;
      RowAfter(a, nRows, z, i + 1) ==
        if z == ii then RowAfter(a, nRows, z, i).(spec := Auto, content := true)
        else if z == ii + 1 && i + 1 < nRows then RowAfter(a, nRows, z, i).(spec := SpacingSpec(a.rowSpacings[i]))
        else RowAfter(a, nRows, z, i)
  {
    var cro := ContentRowOffset(a);
    TrackIndexOf(i, cro);
    TrackIndexInverse(z, cro);
  }

  /** Writing the label of row i changes only the label cell of that row. */
  lemma LabelStep(a: TableAttributes, nRows: nat, nColumns: nat,
                  cell: seq<Option<CellElement>>, labels: seq<Option<CellElement>>, i: nat, ii: int, jj: int)
    requires InitArgs(a, nRows, nColumns, cell, labels) && i < nRows
    ensures CellAfter(a, nRows, nColumns, cell, labels, ii, jj, i, 0, true) ==
      if HasLabels(labels) && ii == ContentRowOffset(a) + 2 * i && jj == LabelOffset(a, nColumns) then labels[i]
      else CellAfter(a, nRows, nColumns, cell, labels, ii, jj, i, 0, false)
  {
    TrackIndexOf(i, ContentRowOffset(a));
    TrackIndexInverse(ii, ContentRowOffset(a));
    var cco := ContentColumnOffset(a, labels);
    TrackIndexInverse(jj, cco);
    if HasLabels(labels) && !IsLeft(a.side) && nColumns >= 1 {
      TrackIndexOf(nColumns - 1, cco);
    }
  }

  /** Writing content cell (i, j) changes only the cell in content row i and
      content column j. */
  lemma CellLoopStep(a: TableAttributes, nRows: nat, nColumns: nat,
                     cell: seq<Option<CellElement>>, labels: seq<Option<CellElement>>, i: nat, j: nat, ii: int, jj: int)
    requires InitArgs(a, nRows, nColumns, cell, labels) && i < nRows && j < nColumns
    ensures 0 <= i * nColumns + j < |cell|
    ensures CellAfter(a, nRows, nColumns, cell, labels, ii, jj, i, j + 1, true) ==
      if ii == ContentRowOffset(a) + 2 * i && jj == ContentColumnOffset(a, labels) + 2 * j then cell[i * nColumns + j]
      else CellAfter(a, nRows, nColumns, cell, labels, ii, jj, i, j, true)
  {
    FlatIndex(i, j, nRows, nColumns);
    TrackIndexOf(i, ContentRowOffset(a));
    TrackIndexOf(j, ContentColumnOffset(a, labels));
    TrackIndexInverse(ii, ContentRowOffset(a));
    TrackIndexInverse(jj, ContentColumnOffset(a, labels));
  }

  /** The grid of the table's shape holding the cell vector cl. */
  function CellGrid(a: TableAttributes, nRows: nat, nColumns: nat, labels: seq<Option<CellElement>>, cl: seq<Cell>): Grid
    requires GridRowCount(a, nRows) > 0 && GridColumnCount(a, nColumns, labels) > 0
  {
    Grid(seq(GridRowCount(a, nRows), z => DefaultRow), seq(GridColumnCount(a, nColumns, labels), z => DefaultColumn), cl)
  }

  /** The cell vector is what the loop has written so far, every cell with a
      zero position. */
  predicate CellsAfter(a: TableAttributes, nRows: nat, nColumns: nat,
                       cell: seq<Option<CellElement>>, labels: seq<Option<CellElement>>,
                       cl: seq<Cell>, rowsDone: nat, colsDone: nat, labelDone: bool)
    requires InitArgs(a, nRows, nColumns, cell, labels)
  {
    var g := CellGrid(a, nRows, nColumns, labels, cl);
    Shaped(g) &&
    forall ii, jj :: 0 <= ii < |g.rows| && 0 <= jj < |g.columns| ==>
      CellAt(g, ii, jj) == Cell(CellAfter(a, nRows, nColumns, cell, labels, ii, jj, rowsDone, colsDone, labelDone), 0, 0)
  }

  /** Before the loop every cell is null. */
  lemma NoCellsWritten(a: TableAttributes, nRows: nat, nColumns: nat,
                       cell: seq<Option<CellElement>>, labels: seq<Option<CellElement>>)
    requires InitArgs(a, nRows, nColumns, cell, labels)
    ensures CellsAfter(a, nRows, nColumns, cell, labels,
      seq(GridRowCount(a, nRows) * GridColumnCount(a, nColumns, labels), k => NullCell), 0, 0, false)
  {
    var g := CellGrid(a, nRows, nColumns, labels,
      seq(GridRowCount(a, nRows) * GridColumnCount(a, nColumns, labels), k => NullCell));
    forall ii, jj | 0 <= ii < |g.rows| && 0 <= jj < |g.columns|
      ensures CellAt(g, ii, jj) == Cell(CellAfter(a, nRows, nColumns, cell, labels, ii, jj, 0, 0, false), 0, 0)
    {
      FlatIndex(ii, jj, |g.rows|, |g.columns|);
    }
  }

  /** Finishing row i is starting row i + 1. */
  lemma RowDone(a: TableAttributes, nRows: nat, nColumns: nat,
                cell: seq<Option<CellElement>>, labels: seq<Option<CellElement>>, cl: seq<Cell>, i: nat)
    requires InitArgs(a, nRows, nColumns, cell, labels) && i < nRows
    requires CellsAfter(a, nRows, nColumns, cell, labels, cl, i, nColumns, true)
    ensures CellsAfter(a, nRows, nColumns, cell, labels, cl, i + 1, 0, false)
  {
    var g := CellGrid(a, nRows, nColumns, labels, cl);
    forall ii, jj | 0 <= ii < |g.rows| && 0 <= jj < |g.columns|
      ensures CellAfter(a, nRows, nColumns, cell, labels, ii, jj, i + 1, 0, false) ==
        CellAfter(a, nRows, nColumns, cell, labels, ii, jj, i, nColumns, true)
    {
    }
  }

  /** The label cell of content row i. */
  method WriteLabel(a: TableAttributes, nRows: nat, nColumns: nat,
                    cell: seq<Option<CellElement>>, labels: seq<Option<CellElement>>, hasLabels: bool,
                    i: nat, cl: seq<Cell>)
    returns (cl': seq<Cell>)
    requires InitArgs(a, nRows, nColumns, cell, labels) && hasLabels == HasLabels(labels) && i < nRows
    requires CellsAfter(a, nRows, nColumns, cell, labels, cl, i, 0, false)
    ensures CellsAfter(a, nRows, nColumns, cell, labels, cl', i, 0, true)
  {
    InitIndicesInBounds(a, nRows, nColumns, cell, labels);
    var g := CellGrid(a, nRows, nColumns, labels, cl);
    var m := GridRowCount(a, nRows);
    var n := GridColumnCount(a, nColumns, labels);
    cl' := cl;
    if hasLabels {
      var ii := ContentRowOffset(a) + i * 2;
      var lo := LabelOffset(a, nColumns);
      var c := CellAt(g, ii, lo).(content := labels[i]);
      FlatIndex(ii, lo, m, n);
      cl' := cl[ii * n + lo := c];
      assert CellGrid(a, nRows, nColumns, labels, cl') == SetCell(g, ii, lo, c);
      forall i2, j2 | 0 <= i2 < m && 0 <= j2 < n
        ensures CellAt(CellGrid(a, nRows, nColumns, labels, cl'), i2, j2) ==
          Cell(CellAfter(a, nRows, nColumns, cell, labels, i2, j2, i, 0, true), 0, 0)
      {
        SetCellAt(g, ii, lo, c, i2, j2);
        LabelStep(a, nRows, nColumns, cell, labels, i, i2, j2);
      }
    } else {
      forall i2, j2 | 0 <= i2 < m && 0 <= j2 < n
        ensures CellAt(CellGrid(a, nRows, nColumns, labels, cl'), i2, j2) ==
          Cell(CellAfter(a, nRows, nColumns, cell, labels, i2, j2, i, 0, true), 0, 0)
      {
        LabelStep(a, nRows, nColumns, cell, labels, i, i2, j2);
      }
    }
  }

  /** The content cells of content row i, from `cell` in row-major order. */
  method WriteContentCells(a: TableAttributes, nRows: nat, nColumns: nat,
                           cell: seq<Option<CellElement>>, labels: seq<Option<CellElement>>,
                           i: nat, cl: seq<Cell>)
    returns (cl': seq<Cell>)
    requires InitArgs(a, nRows, nColumns, cell, labels) && i < nRows
    requires CellsAfter(a, nRows, nColumns, cell, labels, cl, i, 0, true)
    ensures CellsAfter(a, nRows, nColumns, cell, labels, cl', i, nColumns, true)
  {
    InitIndicesInBounds(a, nRows, nColumns, cell, labels);
    var m := GridRowCount(a, nRows);
    var n := GridColumnCount(a, nColumns, labels);
    var ii := ContentRowOffset(a) + i * 2;
    cl' := cl;
    var j := 0;
    while j < nColumns
      invariant 0 <= j <= nColumns
      invariant CellsAfter(a, nRows, nColumns, cell, labels, cl', i, j, true)
    {
      var jj := ContentColumnOffset(a, labels) + j * 2;
      FlatIndex(i, j, nRows, nColumns);
      var h := CellGrid(a, nRows, nColumns, labels, cl');
      var c := CellAt(h, ii, jj).(content := cell[i * nColumns + j]);
      FlatIndex(ii, jj, m, n);
      cl' := cl'[ii * n + jj := c];
      assert CellGrid(a, nRows, nColumns, labels, cl') == SetCell(h, ii, jj, c);
      forall i2, j2 | 0 <= i2 < m && 0 <= j2 < n
        ensures CellAt(CellGrid(a, nRows, nColumns, labels, cl'), i2, j2) ==
          Cell(CellAfter(a, nRows, nColumns, cell, labels, i2, j2, i, j + 1, true), 0, 0)
      {
        SetCellAt(h, ii, jj, c, i2, j2);
        CellLoopStep(a, nRows, nColumns, cell, labels, i, j, i2, j2);
      }
      j := j + 1;
    }
  }

  /** The row of content row i, made a content row of automatic height,
      and the spacing row after it. */
  method WriteRow(a: TableAttributes, nRows: nat, i: nat, rs: seq<Row>) returns (rs': seq<Row>)
    requires i < nRows && |a.rowSpacings| + 1 >= nRows
    requires |rs| == GridRowCount(a, nRows)
    requires forall z :: 0 <= z < |rs| ==> rs[z] == RowAfter(a, nRows, z, i)
    ensures |rs'| == |rs|
    ensures forall z :: 0 <= z < |rs'| ==> rs'[z] == RowAfter(a, nRows, z, i + 1)
  {
    var cro := ContentRowOffset(a);
    var ii := cro + i * 2;
    TrackIndexOf(i, cro);
    rs' := rs[ii := rs[ii].(spec := Auto)];
    rs' := rs'[ii := rs'[ii].(content := true)];
    if i + 1 < nRows {
      rs' := rs'[ii + 1 := rs'[ii + 1].(spec := SpacingSpec(a.rowSpacings[i]))];
    }
    forall z | 0 <= z < |rs'|
      ensures rs'[z] == RowAfter(a, nRows, z, i + 1)
    {
      RowLoopStep(a, nRows, i, z);
    }
  }

  /** The row vector and the cell vector: the frame rows, then for each
      content row its label cell, its content cells and the spacing row
      after it. */
  method InitRowsAndCells(a: TableAttributes, nRows: nat, nColumns: nat,
                          cell: seq<Option<CellElement>>, labels: seq<Option<CellElement>>, hasLabels: bool)
    returns (rs: seq<Row>, cl: seq<Cell>)
    requires InitArgs(a, nRows, nColumns, cell, labels) && hasLabels == HasLabels(labels)
    ensures |rs| == GridRowCount(a, nRows)
    ensures forall z :: 0 <= z < |rs| ==> rs[z] == InitRow(a, nRows, z)
    ensures CellsAfter(a, nRows, nColumns, cell, labels, cl, nRows, 0, false)
  {
    var hasFrame := a.frame == SolidFrame || a.frame == DashedFrame;
    var m := (if hasFrame then 2 else 0) + nRows * 2 - 1;
    var n := (if hasFrame then 2 else 0) + (if hasLabels then 4 else 0) + nColumns * 2 - 1;
    var cro := if hasFrame then 1 else 0;
    InitIndicesInBounds(a, nRows, nColumns, cell, labels);
    rs := seq(m, z => DefaultRow);
    cl := seq(m * n, k => NullCell);
    NoCellsWritten(a, nRows, nColumns, cell, labels);
    if hasFrame {
      rs := rs[0 := rs[0].(spec := Fix(a.vFrameSpacing))];
      rs := rs[m - 1 := rs[m - 1].(spec := Fix(a.vFrameSpacing))];
    }
    var i := 0;
    while i < nRows
      invariant 0 <= i <= nRows && |rs| == m
      invariant forall z :: 0 <= z < m ==> rs[z] == RowAfter(a, nRows, z, i)
      invariant CellsAfter(a, nRows, nColumns, cell, labels, cl, i, 0, false)
    {
      cl := WriteLabel(a, nRows, nColumns, cell, labels, hasLabels, i, cl);
      cl := WriteContentCells(a, nRows, nColumns, cell, labels, i, cl);
      rs := WriteRow(a, nRows, i, rs);
      RowDone(a, nRows, nColumns, cell, labels, cl, i);
      i := i + 1;
    }
  }

  // The loops inside the width passes, on a local column vector

  /** The temporary widths of columns lo .. hi - 1 added up. */
  method SpannedTempWidth(cols: seq<Column>, lo: nat, hi: nat) returns (sum: int)
    requires lo <= hi <= |cols|
    ensures sum == SumTempWidths(cols, lo, hi)
  {
    sum := 0;
    var z := lo;
    while z < hi
      invariant lo <= z <= hi && sum == SumTempWidths(cols, lo, z)
    {
      sum := sum + cols[z].tempWidth;
      z := z + 1;
    }
  }

  /** The shortfall of a cell w wide spanning s columns from j, spread over
      the spanned content columns unless column j is of fixed width. */
  method SpreadWidth(cols: seq<Column>, j: nat, s: nat, w: int) returns (r: seq<Column>)
    requires 1 <= s && j + s <= |cols|
    ensures r == Distribute(cols, j, s, w)
  {
    var spanned := SpannedTempWidth(cols, j, j + s);
    r := cols;
    if w > spanned {
      var share := Scaled.TruncDiv(w - spanned, s);
      var z := j;
      while z < j + s
        invariant j <= z <= j + s && |r| == |cols| && r[j].spec == cols[j].spec
        invariant forall k :: 0 <= k < |r| ==>
          r[k] == if j <= k < z && cols[k].content && !cols[j].spec.Fix? then cols[k].(tempWidth := cols[k].tempWidth + share) else cols[k]
      {
        if r[z].content && !r[j].spec.Fix? {
          r := r[z := r[z].(tempWidth := r[z].tempWidth + share)];
        }
        z := z + 1;
      }
    }
  }

  /** The body of the spanning loop for the cell at (i, j). */
  method SpanCell(g: Grid, cols: seq<Column>, i: int, j: int) returns (r: seq<Column>)
    requires Valid(g) && |cols| == |g.columns| && 0 <= i < |g.rows| && 0 <= j < |g.columns|
    ensures r == SpanStep(g, cols, i, j)
  {
    r := cols;
    if g.rows[i].content && i < |cols| && cols[i].content {
      var c := CellAt(g, i, j);
      if c.content.Some? && c.content.value.columnSpan > 1 {
        r := SpreadWidth(cols, j, c.content.value.columnSpan, c.content.value.box.width);
      }
    }
  }

  /** The spanning loop of `initTempWidths` on column j, over every row. */
  method SpanColumnLoop(g: Grid, cols: seq<Column>, j: int) returns (r: seq<Column>)
    requires Valid(g) && |cols| == |g.columns| && 0 <= j < |g.columns|
    ensures r == SpanColumn(g, cols, j, |g.rows|)
  {
    r := cols;
    var i := 0;
    while i < |g.rows|
      invariant 0 <= i <= |g.rows| && r == SpanColumn(g, cols, j, i) && |r| == |cols|
    {
      r := SpanCell(g, r, i, j);
      i := i + 1;
    }
  }

  /** The spanning loop of `initTempWidths` over every column. */
  method SpanLoop(g: Grid, first: seq<Column>) returns (cols: seq<Column>)
    requires Valid(g) && |first| == |g.columns|
    ensures cols == SpanColumns(g, first, |g.columns|)
  {
    cols := first;
    var j := 0;
    while j < |g.columns|
      invariant 0 <= j <= |g.columns| && cols == SpanColumns(g, first, j) && |cols| == |first|
    {
      cols := SpanColumnLoop(g, cols, j);
      j := j + 1;
    }
  }

  // The loops inside `initTempHeights`, on a local row vector

  /** The largest height and depth of the baseline cells of row i. */
  method BaselineExtent(g: Grid, i: int) returns (maxH: int, maxD: int)
    requires Shaped(g) && 0 <= i < |g.rows|
    ensures maxH == MaxCellHeight(g, i, |g.columns|) && maxD == MaxCellDepth(g, i, |g.columns|)
  {
    maxH, maxD := 0, 0;
    var j := 0;
    while j < |g.columns|
      invariant 0 <= j <= |g.columns| && maxH == MaxCellHeight(g, i, j) && maxD == MaxCellDepth(g, i, j)
    {
      var c := CellAt(g, i, j);
      if c.content.Some? && c.content.value.rowSpan == 1 && c.content.value.rowAlign == Baseline {
        maxH := Scaled.Max(maxH, c.content.value.box.height);
        maxD := Scaled.Max(maxD, c.content.value.box.depth);
      }
      j := j + 1;
    }
  }

  /** The first loop of `initTempHeights`. */
  method FirstHeightLoop(g: Grid) returns (rs: seq<Row>)
    requires Shaped(g)
    ensures rs == FirstHeightPass(g)
  {
    rs := g.rows;
    var i := 0;
    while i < |rs|
      invariant 0 <= i <= |rs| && |rs| == |g.rows|
      invariant forall z :: 0 <= z < i ==> rs[z] == TempHeightRow(g, z)
      invariant forall z :: i <= z < |rs| ==> rs[z] == g.rows[z]
    {
      if rs[i].spec.Fix? {
        rs := rs[i := rs[i].(tempHeight := rs[i].spec.length, tempDepth := 0)];
      } else if rs[i].spec.Scale? {
        rs := rs[i := rs[i].(tempHeight := 0, tempDepth := 0)];
      } else if rs[i].content {
        var maxH, maxD := BaselineExtent(g, i);
        rs := rs[i := rs[i].(tempHeight := maxH, tempDepth := maxD)];
      }
      i := i + 1;
    }
  }

  /** The second loop on row r at index i: the elements not on the baseline
      deepen the row until it holds them. */
  method RaiseDepthLoop(g: Grid, r: Row, i: int) returns (r': Row)
    requires Shaped(g) && 0 <= i < |g.rows|
    ensures r' == RaiseDepth(g, r, i, |g.columns|)
  {
    r' := r;
    var j := 0;
    while j < |g.columns|
      invariant 0 <= j <= |g.columns| && r' == RaiseDepth(g, r, i, j)
    {
      var c := CellAt(g, i, j);
      if c.content.Some? && c.content.value.rowSpan == 1 && c.content.value.rowAlign != Baseline {
        var box := c.content.value.box;
        if r'.tempHeight + r'.tempDepth < box.VerticalExtent() {
          r' := r'.(tempDepth := box.VerticalExtent() - r'.tempHeight);
        }
      }
      j := j + 1;
    }
  }

  /** The second loop of `initTempHeights`. */
  method SecondHeightLoop(g: Grid, rows: seq<Row>) returns (rs: seq<Row>)
    requires Shaped(g) && |rows| == |g.rows|
    ensures rs == SecondHeightPass(g, rows)
  {
    rs := rows;
    var i := 0;
    while i < |rs|
      invariant 0 <= i <= |rs| && |rs| == |rows|
      invariant forall z :: 0 <= z < i ==> rs[z] == SecondHeightPass(g, rows)[z]
      invariant forall z :: i <= z < |rs| ==> rs[z] == rows[z]
    {
      if rs[i].content {
        var r := RaiseDepthLoop(g, rs[i], i);
        rs := rs[i := r];
      }
      i := i + 1;
    }
  }

  /** The temporary extents of rows lo .. hi - 1 added up. */
  method SpannedTempExtent(rows: seq<Row>, lo: nat, hi: nat) returns (sum: int)
    requires lo <= hi <= |rows|
    ensures sum == SumTempExtents(rows, lo, hi)
  {
    sum := 0;
    var z := lo;
    while z < hi
      invariant lo <= z <= hi && sum == SumTempExtents(rows, lo, z)
    {
      sum := sum + (rows[z].tempHeight + rows[z].tempDepth);
      z := z + 1;
    }
  }

  /** The shortfall of a cell of extent hd spanning s rows from i, spread
      as depth over the spanned content rows. */
  method SpreadDepth(rows: seq<Row>, i: nat, s: nat, hd: int) returns (r: seq<Row>)
    requires 1 <= s && i + s <= |rows|
    ensures r == DistributeDepth(rows, i, s, hd)
  {
    var spanned := SpannedTempExtent(rows, i, i + s);
    r := rows;
    if hd > spanned {
      var share := Scaled.TruncDiv(hd - spanned, s);
      var z := i;
      while z < i + s
        invariant i <= z <= i + s && |r| == |rows|
        invariant forall k :: 0 <= k < |r| ==>
          r[k] == if i <= k < z && rows[k].content then rows[k].(tempDepth := rows[k].tempDepth + share) else rows[k]
      {
        if r[z].content {
          r := r[z := r[z].(tempDepth := r[z].tempDepth + share)];
        }
        z := z + 1;
      }
    }
  }

  /** The body of the third loop for the cell at (i, j). */
  method RowSpanCell(g: Grid, rows: seq<Row>, i: int, j: int) returns (r: seq<Row>)
    requires Valid(g) && |rows| == |g.rows| && 0 <= i < |g.rows| && 0 <= j < |g.columns|
    ensures r == RowSpanStep(g, rows, i, j)
  {
    r := rows;
    if g.columns[j].content {
      var c := CellAt(g, i, j);
      if c.content.Some? && c.content.value.columnSpan > 1 {
        r := SpreadDepth(rows, i, c.content.value.rowSpan, c.content.value.box.VerticalExtent());
      }
    }
  }

  /** The third loop on row i, over every column. */
  method RowSpanRowLoop(g: Grid, rows: seq<Row>, i: int) returns (r: seq<Row>)
    requires Valid(g) && |rows| == |g.rows| && 0 <= i < |g.rows|
    ensures r == RowSpanRow(g, rows, i, |g.columns|)
  {
    r := rows;
    var j := 0;
    while j < |g.columns|
      invariant 0 <= j <= |g.columns| && r == RowSpanRow(g, rows, i, j) && |r| == |rows|
    {
      r := RowSpanCell(g, r, i, j);
      j := j + 1;
    }
  }

  /** The third loop of `initTempHeights`, over every row. */
  method RowSpanLoop(g: Grid, first: seq<Row>) returns (rs: seq<Row>)
    requires Valid(g) && |first| == |g.rows|
    ensures rs == RowSpanRows(g, first, |g.rows|)
  {
    rs := first;
    var i := 0;
    while i < |g.rows|
      invariant 0 <= i <= |g.rows| && rs == RowSpanRows(g, first, i) && |rs| == |first|
    {
      rs := RowSpanRowLoop(g, rs, i);
      i := i + 1;
    }
  }

  // Positioning the cells

  /** The cells before (i, j) in row-major order are positioned and the
      others are as in g. */
  predicate PositionedUpTo(g: Grid, axis: int, cl: seq<Cell>, i: int, j: int)
    requires Valid(g) && PositionAligns(g)
  {
    |cl| == |g.cells| &&
    forall i2, j2 :: 0 <= i2 < |g.rows| && 0 <= j2 < |g.columns| ==>
      CellAt(g.(cells := cl), i2, j2) ==
        if i2 < i || (i2 == i && j2 < j) then PositionCell(g, axis, i2, j2) else CellAt(g, i2, j2)
  }

  /** A row that is not a content row is the same positioned. */
  lemma SkipRow(g: Grid, axis: int, cl: seq<Cell>, i: int)
    requires Valid(g) && PositionAligns(g) && 0 <= i < |g.rows| && !g.rows[i].content
    requires PositionedUpTo(g, axis, cl, i, 0)
    ensures PositionedUpTo(g, axis, cl, i + 1, 0)
  {
  }

  /** A cell vector positioned slot by slot is the positioned vector. */
  lemma PositionedVector(g: Grid, axis: int, cl: seq<Cell>)
    requires Valid(g) && PositionAligns(g) && PositionedUpTo(g, axis, cl, |g.rows|, 0)
    ensures cl == PositionedCells(g, axis)
  {
    var n := |g.columns|;
    forall k | 0 <= k < |cl|
      ensures cl[k] == PositionedCells(g, axis)[k]
    {
      FlatCoordinates(k, |g.rows|, n);
      assert k == (k / n) * n + k % n;
      assert CellAt(g.(cells := cl), k / n, k % n) == PositionCell(g, axis, k / n, k % n);
    }
  }

  /** One entry of the list `format` hands to the boxed layout: the area of
      an element and its displacement. */
  datatype Placement = Placement(dx: int, dy: int, area: nat)

  /** The entries for the cells that hold an element, in vector order. */
  function Placements(cells: seq<Cell>): (r: seq<Placement>)
    ensures |r| <= |cells|
    ensures forall p :: p in r ==>
      exists k :: 0 <= k < |cells| && cells[k].content.Some? &&
        p == Placement(cells[k].dx, cells[k].dy, cells[k].content.value.element)
  {
    if |cells| == 0 then []
    else
      var c := cells[|cells| - 1];
      var before := Placements(cells[..|cells| - 1]);
      before + if c.content.Some? then [Placement(c.dx, c.dy, c.content.value.element)] else []
  }

  /** Every element is in the list. */
  lemma {:induction false} PlacementsComplete(cells: seq<Cell>, k: int)
    requires 0 <= k < |cells| && cells[k].content.Some?
    ensures Placement(cells[k].dx, cells[k].dy, cells[k].content.value.element) in Placements(cells)
  {
    if k < |cells| - 1 {
      PlacementsComplete(cells[..|cells| - 1], k);
    }
  }

  // The whole of `format`, as a function of the grid it starts from

  lemma TempWidthsKinds(g: Grid)
    requires Valid(g)
    ensures SameColumnKinds(TempWidths(g), g.columns)
  {
    forall j | 0 <= j < |g.columns|
      ensures TempWidths(g)[j].spec == g.columns[j].spec && TempWidths(g)[j].content == g.columns[j].content
    {
      TempWidthsBounds(g, j);
    }
  }

  /** The scale fractions leave the width passes a divisor. */
  predicate WidthsDefined(g: Grid, equalColumns: bool)
    requires Valid(g)
  {
    TempWidthsKinds(g);
    var t := TempWidths(g);
    if equalColumns then WidthDivisorT(t) else WidthDivisorsF(t)
  }

  /** The columns after `initTempWidths` and `initWidthsT` or `initWidthsF`. */
  function WidthPasses(g: Grid, equalColumns: bool): (r: Grid)
    requires Valid(g) && WidthsDefined(g, equalColumns)
    ensures Valid(r) && r.rows == g.rows && r.cells == g.cells
    ensures |r.columns| == |g.columns| && forall j :: 0 <= j < |g.columns| ==> r.columns[j].content == g.columns[j].content
  {
    TempWidthsKinds(g);
    var t := g.(columns := TempWidths(g));
    var cols := if equalColumns then WidthsT(t) else WidthsF(t);
    assert forall j :: 0 <= j < |g.columns| ==> cols[j].content == t.columns[j].content by {
      forall j | 0 <= j < |g.columns|
        ensures cols[j].content == t.columns[j].content
      {
        if equalColumns {
          assert cols[j] == WidthColumnT(t, j);
        } else {
          assert cols[j] == WidthColumnF(t, j);
        }
      }
    }
    ValidWithTracks(g, g.rows, cols);
    g.(columns := cols)
  }

  function TableWidth(g: Grid, equalColumns: bool): int
    requires Valid(g) && WidthsDefined(g, equalColumns)
  {
    TempWidthsKinds(g);
    var t := g.(columns := TempWidths(g));
    if equalColumns then TableWidthT(t) else TableWidthF(t)
  }

  predicate HeightsDefined(g: Grid, equalRows: bool)
    requires Valid(g)
  {
    var tr := TempHeights(g);
    if equalRows then HeightDivisor(tr) else HeightDivisorF(tr)
  }

  /** The rows after `initTempHeights` and `initHeightsT` or `initHeightsF`. */
  function HeightPasses(g: Grid, equalRows: bool): (r: Grid)
    requires Valid(g) && HeightsDefined(g, equalRows)
    ensures Valid(r) && r.columns == g.columns && r.cells == g.cells
    ensures |r.rows| == |g.rows| && forall i :: 0 <= i < |g.rows| ==> r.rows[i].content == g.rows[i].content
  {
    var tr := TempHeights(g);
    var rs := if equalRows then HeightsT(tr) else HeightsF(tr);
    assert forall i :: 0 <= i < |g.rows| ==> rs[i].content == g.rows[i].content by {
      forall i | 0 <= i < |g.rows|
        ensures rs[i].content == g.rows[i].content
      {
        TempHeightsBounds(g, i);
        if equalRows {
          assert rs[i] == HeightRowT(tr, i);
        } else {
          assert rs[i] == HeightRowF(tr, i);
        }
      }
    }
    ValidWithTracks(g, rs, g.columns);
    g.(rows := rs)
  }

  function TableHeightDepth(g: Grid, equalRows: bool): int
    requires Valid(g) && HeightsDefined(g, equalRows)
  {
    var tr := TempHeights(g);
    if equalRows then TableHeightDepthT(tr) else TableHeightDepthF(tr)
  }

  /** The number of values of a 32-bit `unsigned`. */
  const UnsignedRange := 0x1_0000_0000

  /** The grid row of content row `row` (counted from 1, or from the end
      when negative), computed as `format` does: `row` converts to the
      unsigned type of `nRows` and every step wraps modulo 2^32. */
  function PivotRow(rows: seq<Row>, nRows: nat, row: int): (r: nat)
    requires |rows| > 0
    ensures r < UnsignedRange
  {
    var fromOne := (if row < 0 then nRows + row else row - 1) % UnsignedRange;
    ((if rows[0].content then 0 else 1) + 2 * fromOne) % UnsignedRange
  }

  /** Without a wrap, content row `row` lies at the content row offset plus
      twice the rows before it. */
  lemma PivotRowUnwrapped(rows: seq<Row>, nRows: nat, row: int)
    requires |rows| > 0
    requires var k := if row < 0 then nRows + row else row - 1;
      0 <= k && (if rows[0].content then 0 else 1) + 2 * k < UnsignedRange
    ensures var k := if row < 0 then nRows + row else row - 1;
      PivotRow(rows, nRows, row) == (if rows[0].content then 0 else 1) + 2 * k
  {
  }

  /** On a framed grid of 2·nRows + 1 rows, row −2^31 wraps to the index
      just past the last row, which `alignTable` takes for Top. */
  lemma PivotRowWrapsPastLastRow(rows: seq<Row>, nRows: nat)
    requires |rows| == 2 * nRows + 1 && !rows[0].content && nRows < 0x8000_0000
    ensures PivotRow(rows, nRows, -0x8000_0000) == |rows|
  {
  }

  /** The alignment names a token `alignTable` handles and, when a row is
      given, a pivot row it reads inside the grid (for Top, possibly the
      index just past the last row). */
  predicate AlignDefined(rows: seq<Row>, nRows: nat, align: Token, alignRow: Option<int>)
  {
    TableAlign(align) &&
    (alignRow.Some? ==>
       |rows| > 0 && PivotInGrid(rows, align, PivotRow(rows, nRows, alignRow.value)))
  }

  /** The table's height once aligned, as either `alignTable` gives it. */
  function TableHeight(rows: seq<Row>, thd: int, nRows: nat, align: Token, alignRow: Option<int>, axis: int): int
    requires AlignDefined(rows, nRows, align, alignRow)
  {
    if alignRow.None? then AlignedHeight(thd, axis, align)
    else PivotHeight(rows, axis, align, PivotRow(rows, nRows, alignRow.value))
  }

  /** The table's depth once aligned: with a pivot row, from the depth it
      had before. */
  function TableDepth(thd: int, depth0: int, height: int, alignRow: Option<int>): int
  {
    if alignRow.None? then thd - height else thd - depth0
  }

  /** The positioning pass never meets an alignment it does not handle. */
  lemma AlignsWithTracks(g: Grid, rows: seq<Row>, columns: seq<Column>)
    requires Valid(g) && PositionAligns(g) && |rows| == |g.rows| && |columns| == |g.columns|
    requires forall i :: 0 <= i < |rows| ==> rows[i].content == g.rows[i].content
    requires forall j :: 0 <= j < |columns| ==> columns[j].content == g.columns[j].content
    ensures Valid(Grid(rows, columns, g.cells)) && PositionAligns(Grid(rows, columns, g.cells))
  {
    ValidWithTracks(g, rows, columns);
  }

  /** What `format` demands of the grid and of its arguments. */
  predicate FormatArgs(g: Grid, nRows: nat, align: Token, alignRow: Option<int>, equalRows: bool, equalColumns: bool)
  {
    Valid(g) && PositionAligns(g) && WidthsDefined(g, equalColumns) &&
    HeightsDefined(WidthPasses(g, equalColumns), equalRows) &&
    AlignDefined(HeightPasses(WidthPasses(g, equalColumns), equalRows).rows, nRows, align, alignRow)
  }

  /** The table's box and its grid once `format` is done. */
  datatype Layout = Layout(grid: Grid, width: int, height: int, depth: int)

  /** The grid after the widths, the heights and the alignment, with its
      rows and columns placed; depth0 is the table's depth before. */
  function PlacedLayout(g: Grid, depth0: int, nRows: nat, align: Token, alignRow: Option<int>,
                        equalRows: bool, equalColumns: bool, axis: int): (l: Layout)
    requires FormatArgs(g, nRows, align, alignRow, equalRows, equalColumns)
    ensures Valid(l.grid) && PositionAligns(l.grid) && l.grid.cells == g.cells
    ensures RowsPlaced(l.grid.rows, l.height) && ColumnsPlaced(l.grid.columns)
  {
    var g2 := WidthPasses(g, equalColumns);
    var g4 := HeightPasses(g2, equalRows);
    var thd := TableHeightDepth(g2, equalRows);
    var h := TableHeight(g4.rows, thd, nRows, align, alignRow, axis);
    var d := TableDepth(thd, depth0, h, alignRow);
    var rs := PlacedRows(g4.rows, h);
    var cs := PlacedColumns(g4.columns);
    AlignsWithTracks(g, rs, cs);
    Layout(Grid(rs, cs, g.cells), TableWidth(g, equalColumns), h, d)
  }

  /** `format`: the placed layout with its cells positioned. */
  function FormatLayout(g: Grid, depth0: int, nRows: nat, align: Token, alignRow: Option<int>,
                        equalRows: bool, equalColumns: bool, axis: int): Layout
    requires FormatArgs(g, nRows, align, alignRow, equalRows, equalColumns)
  {
    var l := PlacedLayout(g, depth0, nRows, align, alignRow, equalRows, equalColumns, axis);
    l.(grid := l.grid.(cells := PositionedCells(l.grid, axis)))
  }

  /** After `format` the rows stack down from the table's height and the
      columns abut from 0, and every element of a content row and a content
      column is still in its cell and sits in the box of the cells it spans. */
  lemma FormatPlacesElement(g: Grid, depth0: int, nRows: nat, align: Token, alignRow: Option<int>,
                            equalRows: bool, equalColumns: bool, axis: int, i: int, j: int)
    requires FormatArgs(g, nRows, align, alignRow, equalRows, equalColumns)
    requires HasElement(g, i, j) && g.rows[i].content && g.columns[j].content
    ensures var l := FormatLayout(g, depth0, nRows, align, alignRow, equalRows, equalColumns, axis);
      RowsPlaced(l.grid.rows, l.height) && ColumnsPlaced(l.grid.columns) &&
      ElementPlaced(l.grid, i, j, ElementAt(g, i, j))
  {
    var p := PlacedLayout(g, depth0, nRows, align, alignRow, equalRows, equalColumns, axis);
    FormatFromPlaced(g, depth0, nRows, align, alignRow, equalRows, equalColumns, axis);
    PlacedKeepsTracks(g, depth0, nRows, align, alignRow, equalRows, equalColumns, axis);
    SameElement(g, p.grid, i, j);
    PositionedGridPlacesElement(p.grid, axis, p.height, i, j);
  }

  /** A grid with the same shape and cells holds the same elements. */
  lemma SameElement(g: Grid, h: Grid, i: int, j: int)
    requires Shaped(g) && HasElement(g, i, j)
    requires h.cells == g.cells && |h.rows| == |g.rows| && |h.columns| == |g.columns|
    ensures Shaped(h) && HasElement(h, i, j) && ElementAt(h, i, j) == ElementAt(g, i, j)
  {
  }

  lemma FormatFromPlaced(g: Grid, depth0: int, nRows: nat, align: Token, alignRow: Option<int>,
                         equalRows: bool, equalColumns: bool, axis: int)
    requires FormatArgs(g, nRows, align, alignRow, equalRows, equalColumns)
    ensures var p := PlacedLayout(g, depth0, nRows, align, alignRow, equalRows, equalColumns, axis);
      FormatLayout(g, depth0, nRows, align, alignRow, equalRows, equalColumns, axis)
        == p.(grid := p.grid.(cells := PositionedCells(p.grid, axis)))
  {
  }

  /** The placed grid has the track count and the content flags of the grid
      `format` started from. */
  lemma PlacedKeepsTracks(g: Grid, depth0: int, nRows: nat, align: Token, alignRow: Option<int>,
                          equalRows: bool, equalColumns: bool, axis: int)
    requires FormatArgs(g, nRows, align, alignRow, equalRows, equalColumns)
    ensures var p := PlacedLayout(g, depth0, nRows, align, alignRow, equalRows, equalColumns, axis).grid;
      |p.rows| == |g.rows| && |p.columns| == |g.columns| &&
      (forall i :: 0 <= i < |g.rows| ==> p.rows[i].content == g.rows[i].content) &&
      (forall j :: 0 <= j < |g.columns| ==> p.columns[j].content == g.columns[j].content)
  {
    var g2 := WidthPasses(g, equalColumns);
    var g4 := HeightPasses(g2, equalRows);
    var p := PlacedLayout(g, depth0, nRows, align, alignRow, equalRows, equalColumns, axis).grid;
    assert p.rows == PlacedRows(g4.rows, PlacedLayout(g, depth0, nRows, align, alignRow, equalRows, equalColumns, axis).height);
    assert p.columns == PlacedColumns(g4.columns);
  }

  /** Without a pivot row the height and the depth `format` gives the table
      add up to the extent of its rows, with the split `alignTable` makes;
      with one, the pivot row's chosen line lands on the table's baseline. */
  lemma FormatAlignsTable(g: Grid, depth0: int, nRows: nat, align: Token, alignRow: Option<int>,
                          equalRows: bool, equalColumns: bool, axis: int)
    requires FormatArgs(g, nRows, align, alignRow, equalRows, equalColumns)
    ensures var l := FormatLayout(g, depth0, nRows, align, alignRow, equalRows, equalColumns, axis);
      var thd := TableHeightDepth(WidthPasses(g, equalColumns), equalRows);
      alignRow.None? ==> l.height == AlignedHeight(thd, axis, align) && l.height + l.depth == thd
    ensures var l := FormatLayout(g, depth0, nRows, align, alignRow, equalRows, equalColumns, axis);
      alignRow.Some? ==>
        |l.grid.rows| > 0 &&
        var r := PivotRow(l.grid.rows, nRows, alignRow.value);
        0 <= r <= |l.grid.rows| &&
        (r < |l.grid.rows| ==>
          var p := l.grid.rows[r];
          (align.Top? ==> p.displacement + p.height == 0) &&
          (align.Bottom? ==> p.displacement - p.depth == 0) &&
          (align.Baseline? ==> p.displacement == 0) &&
          (align.Axis? ==> p.displacement == -axis)) &&
        (r == |l.grid.rows| ==>
          var p := l.grid.rows[r - 1];
          align.Top? && p.displacement - p.depth == 0)
  {
    var g2 := WidthPasses(g, equalColumns);
    var g4 := HeightPasses(g2, equalRows);
    var thd := TableHeightDepth(g2, equalRows);
    var h := TableHeight(g4.rows, thd, nRows, align, alignRow, axis);
    var pl := PlacedLayout(g, depth0, nRows, align, alignRow, equalRows, equalColumns, axis);
    FormatFromPlaced(g, depth0, nRows, align, alignRow, equalRows, equalColumns, axis);
    assert pl.height == h && pl.depth == TableDepth(thd, depth0, h, alignRow);
    assert pl.grid.rows == PlacedRows(g4.rows, h);
    if alignRow.Some? {
      var r := PivotRow(g4.rows, nRows, alignRow.value);
      assert PivotRow(pl.grid.rows, nRows, alignRow.value) == r;
      if r < |g4.rows| {
        PivotRowOnBaseline(g4.rows, axis, align, r);
      } else {
        PivotPastLastRow(g4.rows, axis);
      }
    }
  }

  /** One column of the loop of `calcTableWidthT`. */
  lemma WidthTotalsStepT(g: Grid, j: int)
    requires Shaped(g) && 0 <= j < |g.columns|
    ensures var c := g.columns[j];
      CountContent(g.columns, j + 1) == CountContent(g.columns, j) + (if c.content then 1 else 0) &&
      MaxContentWidth(g, j + 1) ==
        (if c.content then Scaled.Max(MaxContentWidth(g, j), ColumnContentWidth(g, j)) else MaxContentWidth(g, j)) &&
      SumFixT(g.columns, j + 1) == SumFixT(g.columns, j) + (if !c.content && c.spec.Fix? then c.spec.length else 0) &&
      SumScaleT(g.columns, j + 1) == SumScaleT(g.columns, j) + (if !c.content && c.spec.Scale? then c.spec.fraction else 0.0)
  {
  }

  class TableFormatter {
    var rows: seq<Row>
    var columns: seq<Column>
    var cells: seq<Cell>
    // The table's box
    var width: int
    var height: int
    var depth: int

    /** The grid the formatter holds. */
    function State(): Grid
      reads this
    {
      Grid(rows, columns, cells)
    }

    constructor ()
      ensures State() == Grid([], [], []) && width == 0 && height == 0 && depth == 0
    {
      rows, columns, cells := [], [], [];
      width, height, depth := 0, 0, 0;
    }

    /** `init`: the decorated grid of an nRows × nColumns table. */
    method Init(a: TableAttributes, nRows: nat, nColumns: nat,
                cell: seq<Option<CellElement>>, labels: seq<Option<CellElement>>)
      requires InitArgs(a, nRows, nColumns, cell, labels)
      modifies this
      ensures |rows| == GridRowCount(a, nRows) && |columns| == GridColumnCount(a, nColumns, labels)
      ensures Shaped(State())
      ensures forall z :: 0 <= z < |rows| ==> rows[z] == InitRow(a, nRows, z)
      ensures forall z :: 0 <= z < |columns| ==> columns[z] == InitColumn(a, nColumns, labels, z)
      ensures forall ii, jj :: 0 <= ii < |rows| && 0 <= jj < |columns| ==>
        CellAt(State(), ii, jj) == Cell(InitCell(a, nRows, nColumns, cell, labels, ii, jj), 0, 0)
      ensures width == old(width) && height == old(height) && depth == old(depth)
    {
      var hasLabels := AnyLabel(labels);
      var rs, cl := InitRowsAndCells(a, nRows, nColumns, cell, labels, hasLabels);
      var cs := InitColumns(a, nColumns, labels, hasLabels);
      rows, columns, cells := rs, cs, cl;
      var shape := CellGrid(a, nRows, nColumns, labels, cl);
      forall ii, jj | 0 <= ii < |rows| && 0 <= jj < |columns|
        ensures CellAt(State(), ii, jj) == Cell(InitCell(a, nRows, nColumns, cell, labels, ii, jj), 0, 0)
      {
        assert CellAt(State(), ii, jj) == CellAt(shape, ii, jj);
      }
    }

    /** `getColumnContentWidth(j)`. */
    method GetColumnContentWidth(j: int) returns (w: int)
      requires Shaped(State()) && 0 <= j < |columns|
      ensures w == ColumnContentWidth(State(), j)
    {
      w := 0;
      var i := 0;
      while i < |rows|
        invariant 0 <= i <= |rows| && w == ContentWidthUpTo(State(), j, i)
      {
        if rows[i].content {
          var c := CellAt(State(), i, j);
          if c.content.Some? && c.content.value.columnSpan == 1 {
            w := Scaled.Max(w, c.content.value.box.width);
          }
        }
        i := i + 1;
      }
    }

    /** The first loop of `initTempWidths`, on a copy of the columns. */
    method FirstWidthLoop() returns (cols: seq<Column>)
      requires Shaped(State())
      ensures cols == FirstWidthPass(State())
    {
      cols := columns;
      var j := 0;
      while j < |cols|
        invariant 0 <= j <= |cols| && |cols| == |columns|
        invariant forall z :: 0 <= z < j ==> cols[z] == TempWidthColumn(State(), z)
        invariant forall z :: j <= z < |cols| ==> cols[z] == columns[z]
      {
        if cols[j].content && !cols[j].spec.Fix? {
          var w := GetColumnContentWidth(j);
          cols := cols[j := cols[j].(contentWidth := w, tempWidth := w)];
        } else if cols[j].spec.Fix? {
          cols := cols[j := cols[j].(tempWidth := cols[j].spec.length)];
        } else if cols[j].spec.Scale? && !cols[j].content {
          cols := cols[j := cols[j].(tempWidth := 0)];
        }
        j := j + 1;
      }
    }

    /** `initTempWidths`: the first loop over the columns, then the loop over
        the cells spanning several columns. */
    method InitTempWidths()
      requires Valid(State())
      modifies this
      ensures columns == TempWidths(old(State()))
      ensures rows == old(rows) && cells == old(cells)
      ensures width == old(width) && height == old(height) && depth == old(depth)
    {
      var first := FirstWidthLoop();
      var cols := SpanLoop(State(), first);
      columns := cols;
    }

    /** `calcTableWidthT` and what it reports through its out-parameters. */
    method CalcTableWidthT() returns (tableWidth: int, numCol: nat, sumFix: int, sumScale: real)
      requires Shaped(State()) && WidthDivisorT(columns)
      ensures tableWidth == TableWidthT(State())
      ensures numCol == CountContent(columns, |columns|)
      ensures sumFix == SumFixT(columns, |columns|) && sumScale == SumScaleT(columns, |columns|)
    {
      ghost var g := State();
      var cols := columns;
      numCol, sumFix, sumScale := 0, 0, 0.0;
      var max := 0;
      var j := 0;
      while j < |cols|
        invariant 0 <= j <= |cols| && cols == g.columns
        invariant numCol == CountContent(cols, j) && max == MaxContentWidth(g, j)
        invariant sumFix == SumFixT(cols, j) && sumScale == SumScaleT(cols, j)
      {
        WidthTotalsStepT(g, j);
        var c := cols[j];
        if c.content {
          numCol := numCol + 1;
          var w := GetColumnContentWidth(j);
          max := Scaled.Max(max, w);
          assert sumFix == SumFixT(cols, j + 1) && sumScale == SumScaleT(cols, j + 1);
        } else if c.spec.Fix? {
          sumFix := sumFix + c.spec.length;
          assert sumScale == SumScaleT(cols, j + 1);
        } else if c.spec.Scale? {
          sumScale := sumScale + c.spec.fraction;
          assert sumFix == SumFixT(cols, j + 1);
        }
        j := j + 1;
      }
      tableWidth := Scaled.DivFraction(numCol * max + sumFix, 1.0 - sumScale);
    }

    /** `initWidthsT`: equal content columns sharing what the fixed and the
        scaled columns leave of the table width. */
    method InitWidthsT()
      requires Shaped(State()) && WidthDivisorT(columns)
      modifies this
      ensures columns == WidthsT(old(State())) && width == TableWidthT(old(State()))
      ensures rows == old(rows) && cells == old(cells) && height == old(height) && depth == old(depth)
    {
      var g := State();
      var tableWidth, numCol, sumFix, sumScale := CalcTableWidthT();
      var assignedWidth := sumFix + Scaled.MulFraction(tableWidth, sumScale);
      var availWidth := tableWidth - assignedWidth;
      var cols := columns;
      var j := 0;
      while j < |cols|
        invariant 0 <= j <= |cols| && |cols| == |g.columns|
        invariant forall z :: 0 <= z < j ==> cols[z] == WidthColumnT(g, z)
        invariant forall z :: j <= z < |cols| ==> cols[z] == g.columns[z]
      {
        if cols[j].content {
          cols := cols[j := cols[j].(width := Scaled.TruncDiv(availWidth, numCol))];
        } else if cols[j].spec.Fix? {
          cols := cols[j := cols[j].(width := cols[j].spec.length)];
        } else if cols[j].spec.Scale? {
          cols := cols[j := cols[j].(width := Scaled.MulFraction(tableWidth, cols[j].spec.fraction))];
        }
        j := j + 1;
      }
      columns := cols;
      width := tableWidth;
    }

    /** `calcTableWidthF` and what it reports through its out-parameters. */
    method CalcTableWidthF() returns (tableWidth: int, numCol: nat, sumCont: int, sumFix: int, sumScale: real)
      requires Shaped(State()) && WidthDivisorsF(columns)
      ensures tableWidth == TableWidthF(State())
      ensures numCol == CountPlain(columns, |columns|) && sumCont == SumCont(columns, |columns|)
      ensures sumFix == SumFixF(columns, |columns|) && sumScale == SumScaleF(columns, |columns|)
    {
      numCol, sumCont, sumFix, sumScale := 0, 0, 0, 0.0;
      var max := 0;
      var j := 0;
      while j < |columns|
        invariant 0 <= j <= |columns| && max == MaxScaleShare(State(), j)
      {
        if columns[j].content && columns[j].spec.Scale? {
          var w := GetColumnContentWidth(j);
          max := Scaled.Max(max, Scaled.DivFraction(w, columns[j].spec.fraction));
        }
        j := j + 1;
      }
      j := 0;
      while j < |columns|
        invariant 0 <= j <= |columns|
        invariant numCol == CountPlain(columns, j) && sumCont == SumCont(columns, j)
        invariant sumFix == SumFixF(columns, j) && sumScale == SumScaleF(columns, j)
      {
        if columns[j].content && !columns[j].spec.Fix? && !columns[j].spec.Scale? {
          sumCont := sumCont + columns[j].tempWidth;
          numCol := numCol + 1;
        } else if columns[j].spec.Fix? {
          sumFix := sumFix + columns[j].spec.length;
        } else if columns[j].spec.Scale? {
          sumScale := sumScale + columns[j].spec.fraction;
        }
        j := j + 1;
      }
      tableWidth := Scaled.Max(max, Scaled.DivFraction(sumCont + sumFix, 1.0 - sumScale));
    }

    /** `initWidthsF`: each plain column at its content width plus a share of
        the width the fixed and scaled columns leave over. */
    method InitWidthsF()
      requires Shaped(State()) && WidthDivisorsF(columns)
      modifies this
      ensures columns == WidthsF(old(State())) && width == TableWidthF(old(State()))
      ensures rows == old(rows) && cells == old(cells) && height == old(height) && depth == old(depth)
    {
      var g := State();
      var tableWidth, numCol, sumCont, sumFix, sumScale := CalcTableWidthF();
      var assignedWidth := sumFix + Scaled.MulFraction(tableWidth, sumScale);
      var extraWidth := tableWidth - assignedWidth - sumCont;
      var cols := columns;
      var j := 0;
      while j < |cols|
        invariant 0 <= j <= |cols| && |cols| == |g.columns|
        invariant forall z :: 0 <= z < j ==> cols[z] == WidthColumnF(g, z)
        invariant forall z :: j <= z < |cols| ==> cols[z] == g.columns[z]
      {
        if cols[j].content && !cols[j].spec.Fix? && !cols[j].spec.Scale? {
          cols := cols[j := cols[j].(width := cols[j].contentWidth + Scaled.TruncDiv(extraWidth, numCol))];
        } else if cols[j].spec.Fix? {
          cols := cols[j := cols[j].(width := cols[j].spec.length)];
        } else if cols[j].spec.Scale? {
          cols := cols[j := cols[j].(width := Scaled.MulFraction(tableWidth, cols[j].spec.fraction))];
        }
        j := j + 1;
      }
      columns := cols;
      width := tableWidth;
    }
  
    /** `initTempHeights`: baseline cells, then the other single-row cells,
        then the cells spanning several columns. */
    method InitTempHeights()
      requires Valid(State())
      modifies this
      ensures rows == TempHeights(old(State()))
      ensures columns == old(columns) && cells == old(cells)
      ensures width == old(width) && height == old(height) && depth == old(depth)
    {
      var g := State();
      var first := FirstHeightLoop(g);
      var second := SecondHeightLoop(g, first);
      var rs := RowSpanLoop(g, second);
      rows := rs;
    }

    /** `calcTableHeightDepthT` and what it reports through its
        out-parameters. */
    method CalcTableHeightDepthT() returns (tableHeightDepth: int, numRows: nat, sumScale: real, sumContHD: int, sumFixHD: int)
      requires HeightDivisor(rows)
      ensures tableHeightDepth == TableHeightDepthT(rows)
      ensures numRows == CountContentRows(rows, |rows|) && sumScale == SumScaleH(rows, |rows|)
      ensures sumContHD == SumContHD(rows, |rows|) && sumFixHD == SumFixHD(rows, |rows|)
    {
      numRows, sumScale, sumContHD, sumFixHD := 0, 0.0, 0, 0;
      var max := 0;
      var i := 0;
      while i < |rows|
        invariant 0 <= i <= |rows|
        invariant numRows == CountContentRows(rows, i) && max == MaxTempExtent(rows, i)
        invariant sumScale == SumScaleH(rows, i) && sumContHD == SumContHD(rows, i) && sumFixHD == SumFixHD(rows, i)
      {
        if rows[i].content {
          numRows := numRows + 1;
          max := Scaled.Max(max, rows[i].tempHeight + rows[i].tempDepth);
          sumContHD := sumContHD + (rows[i].tempHeight + rows[i].tempDepth);
        } else if rows[i].spec.Fix? {
          sumFixHD := sumFixHD + rows[i].spec.length;
        } else if rows[i].spec.Scale? {
          sumScale := sumScale + rows[i].spec.fraction;
        }
        i := i + 1;
      }
      tableHeightDepth := Scaled.DivFraction(numRows * max + sumFixHD, 1.0 - sumScale);
    }

    /** `calcTableHeightDepthF`. */
    method CalcTableHeightDepthF() returns (tableHeightDepth: int)
      requires HeightDivisorF(rows)
      ensures tableHeightDepth == TableHeightDepthF(rows)
    {
      var sumContFix := 0;
      var sumScale := 0.0;
      var i := 0;
      while i < |rows|
        invariant 0 <= i <= |rows| && sumContFix == SumContFix(rows, i) && sumScale == SumScaleHF(rows, i)
      {
        if rows[i].content || rows[i].spec.Fix? {
          sumContFix := sumContFix + (rows[i].tempHeight + rows[i].tempDepth);
        } else if rows[i].spec.Scale? {
          sumScale := sumScale + rows[i].spec.fraction;
        }
        i := i + 1;
      }
      tableHeightDepth := Scaled.DivFraction(sumContFix, 1.0 - sumScale);
    }

    /** `initHeightsT`: the content rows keep their temporary heights and
        share as depth what the other rows and their own extents leave. */
    method InitHeightsT() returns (tableHeightDepth: int)
      requires HeightDivisor(rows)
      modifies this
      ensures rows == HeightsT(old(rows)) && tableHeightDepth == TableHeightDepthT(old(rows))
      ensures columns == old(columns) && cells == old(cells)
      ensures width == old(width) && height == old(height) && depth == old(depth)
    {
      var numRows, sumScale, sumContHD, sumFixHD;
      tableHeightDepth, numRows, sumScale, sumContHD, sumFixHD := CalcTableHeightDepthT();
      var assignedHeightDepth := sumFixHD + sumContHD + Scaled.MulFraction(tableHeightDepth, sumScale);
      var availHeightDepth := tableHeightDepth - assignedHeightDepth;
      var rs := rows;
      var i := 0;
      while i < |rs|
        invariant 0 <= i <= |rs| && |rs| == |rows|
        invariant forall z :: 0 <= z < i ==> rs[z] == HeightRowT(rows, z)
        invariant forall z :: i <= z < |rs| ==> rs[z] == rows[z]
      {
        if rs[i].content {
          rs := rs[i := rs[i].(height := rs[i].tempHeight, depth := Scaled.TruncDiv(availHeightDepth, numRows))];
        } else if rs[i].spec.Fix? {
          rs := rs[i := rs[i].(height := rs[i].spec.length, depth := 0)];
        } else if rs[i].spec.Scale? {
          rs := rs[i := rs[i].(height := Scaled.MulFraction(tableHeightDepth, rs[i].spec.fraction), depth := 0)];
        }
        i := i + 1;
      }
      rows := rs;
    }

    /** `initHeightsF`: the content rows take their temporary extents. */
    method InitHeightsF() returns (tableHeightDepth: int)
      requires HeightDivisorF(rows)
      modifies this
      ensures rows == HeightsF(old(rows)) && tableHeightDepth == TableHeightDepthF(old(rows))
      ensures columns == old(columns) && cells == old(cells)
      ensures width == old(width) && height == old(height) && depth == old(depth)
    {
      tableHeightDepth := CalcTableHeightDepthF();
      var rs := rows;
      var i := 0;
      while i < |rs|
        invariant 0 <= i <= |rs| && |rs| == |rows|
        invariant forall z :: 0 <= z < i ==> rs[z] == HeightRowF(rows, z)
        invariant forall z :: i <= z < |rs| ==> rs[z] == rows[z]
      {
        if rs[i].content {
          rs := rs[i := rs[i].(height := rs[i].tempHeight, depth := rs[i].tempDepth)];
        } else if rs[i].spec.Fix? {
          rs := rs[i := rs[i].(height := rs[i].spec.length, depth := 0)];
        } else if rs[i].spec.Scale? {
          rs := rs[i := rs[i].(height := Scaled.MulFraction(tableHeightDepth, rs[i].spec.fraction), depth := 0)];
        }
        i := i + 1;
      }
      rows := rs;
    }

    /** `alignTable` without a pivot row. */
    method AlignTable(tableHeightDepth: int, axis: int, align: Token)
      requires TableAlign(align)
      modifies this
      ensures height == AlignedHeight(tableHeightDepth, axis, align) && depth == tableHeightDepth - height
      ensures rows == old(rows) && columns == old(columns) && cells == old(cells) && width == old(width)
    {
      if align.Top? {
        height := 0;
      } else if align.Bottom? {
        height := tableHeightDepth;
      } else if align.Axis? {
        height := Scaled.TruncDiv(tableHeightDepth, 2) + axis;
      } else {
        height := Scaled.TruncDiv(tableHeightDepth, 2);
      }
      depth := tableHeightDepth - height;
    }

    /** `alignTable` with pivot row rowNum; the depth is computed from the
        depth the table had before, not from the new height. */
    method AlignTablePivot(tableHeightDepth: int, axis: int, align: Token, rowNum: nat)
      requires TableAlign(align) && PivotInGrid(rows, align, rowNum)
      modifies this
      ensures rows == old(rows) && columns == old(columns) && cells == old(cells) && width == old(width)
      ensures height == PivotHeight(rows, axis, align, rowNum) && depth == tableHeightDepth - old(depth)
    {
      var temp := 0;
      var i := 0;
      while i < rowNum
        invariant 0 <= i <= rowNum && temp == SumExtents(rows, 0, i)
      {
        temp := temp + rows[i].VerticalExtent();
        i := i + 1;
      }
      if align.Bottom? {
        temp := temp + rows[rowNum].VerticalExtent();
      } else if align.Axis? {
        temp := temp + rows[rowNum].height - axis;
      } else if align.Center? {
        temp := temp + Scaled.TruncDiv(rows[rowNum].VerticalExtent(), 2);
      } else if align.Baseline? {
        temp := temp + rows[rowNum].height;
      }
      height := temp;
      depth := tableHeightDepth - depth;
    }

    /** `getCellBoundingBox(i, j, rowSpan, columnSpan)`. */
    method GetCellBoundingBox(i: nat, j: nat, rowSpan: nat, columnSpan: nat) returns (box: BoundingBox)
      requires i < |rows| && j < |columns| && i + rowSpan <= |rows| && j + columnSpan <= |columns|
      ensures box == CellBox(rows, columns, i, j, rowSpan, columnSpan)
    {
      box := BoundingBox(columns[j].width, rows[i].height, rows[i].depth);
      var k := i + 1;
      while k < i + rowSpan
        invariant i + 1 <= k && (k <= i + rowSpan || k == i + 1)
        invariant box == BoundingBox(columns[j].width, rows[i].height, rows[i].depth + SumExtents(rows, i + 1, k))
      {
        box := box.(depth := box.depth + rows[k].VerticalExtent());
        k := k + 1;
      }
      k := j + 1;
      while k < j + columnSpan
        invariant j + 1 <= k && (k <= j + columnSpan || k == j + 1)
        invariant box == BoundingBox(columns[j].width + SumWidths(columns, j + 1, k), rows[i].height,
                                     rows[i].depth + SumExtents(rows, i + 1, i + rowSpan))
      {
        box := box.(width := box.width + columns[k].width);
        k := k + 1;
      }
    }

    /** `setDisplacements`: rows downwards from the table's height, columns
        rightwards from 0. */
    method SetDisplacements()
      modifies this
      ensures rows == PlacedRows(old(rows), old(height)) && columns == PlacedColumns(old(columns))
      ensures cells == old(cells) && width == old(width) && height == old(height) && depth == old(depth)
    {
      var rows0, columns0, top := rows, columns, height;
      var rs := rows0;
      var v := top;
      var i := 0;
      while i < |rs|
        invariant 0 <= i <= |rs| && |rs| == |rows0| && v == top - SumExtents(rows0, 0, i)
        invariant forall z :: 0 <= z < i ==> rs[z] == PlacedRows(rows0, top)[z]
        invariant forall z :: i <= z < |rs| ==> rs[z] == rows0[z]
        invariant unchanged(this)
      {
        rs := rs[i := rs[i].(displacement := v - rs[i].height)];
        v := v - rs[i].VerticalExtent();
        i := i + 1;
      }
      var cs := columns0;
      var h := 0;
      var j := 0;
      while j < |cs|
        invariant 0 <= j <= |cs| && |cs| == |columns0| && h == SumWidths(columns0, 0, j)
        invariant forall z :: 0 <= z < j ==> cs[z] == PlacedColumns(columns0)[z]
        invariant forall z :: j <= z < |cs| ==> cs[z] == columns0[z]
        invariant unchanged(this)
      {
        cs := cs[j := cs[j].(displacement := h)];
        h := h + cs[j].width;
        j := j + 1;
      }
      rows, columns := rs, cs;
    }
  
    /** The cells of content row i, positioned one by one. */
    method PositionRow(axis: int, cl: seq<Cell>, i: int) returns (cl': seq<Cell>)
      requires Valid(State()) && PositionAligns(State()) && 0 <= i < |rows| && rows[i].content
      requires PositionedUpTo(State(), axis, cl, i, 0)
      ensures PositionedUpTo(State(), axis, cl', i + 1, 0)
    {
      var g := State();
      var n := |columns|;
      cl' := cl;
      var j := 0;
      while j < n
        invariant 0 <= j <= n && PositionedUpTo(g, axis, cl', i, j)
      {
        if columns[j].content {
          var c := CellAt(g.(cells := cl'), i, j);
          if c.content.Some? {
            var e := c.content.value;
            var box := e.box;
            var cellBox := GetCellBoundingBox(i, j, e.rowSpan, e.columnSpan);
            var dx := 0;
            if e.columnAlign.Right? {
              dx := cellBox.width - box.width;
            } else if e.columnAlign.Center? {
              dx := Scaled.TruncDiv(cellBox.width - box.width, 2);
            }
            var dy := 0;
            if e.rowAlign.Top? {
              dy := cellBox.height - box.height;
            } else if e.rowAlign.Bottom? {
              dy := box.depth - cellBox.depth;
            } else if e.rowAlign.Center? {
              dy := Scaled.TruncDiv(cellBox.height - cellBox.depth - box.height + box.depth, 2);
            } else if e.rowAlign.Axis? {
              dy := Scaled.TruncDiv(cellBox.height - cellBox.depth - box.height + box.depth, 2) + axis;
            }
            var h := g.(cells := cl');
            var positioned := c.(dx := columns[j].displacement + dx, dy := rows[i].displacement + dy);
            assert positioned == PositionCell(g, axis, i, j) by {
              assert c == CellAt(g, i, j);
              assert dx == OffsetX(cellBox, box, e.columnAlign) && dy == OffsetY(cellBox, box, e.rowAlign, axis);
            }
            FlatIndex(i, j, |rows|, n);
            cl' := cl'[i * n + j := positioned];
            assert g.(cells := cl') == SetCell(h, i, j, positioned);
            forall i2, j2 | 0 <= i2 < |rows| && 0 <= j2 < n
              ensures CellAt(g.(cells := cl'), i2, j2) ==
                if i2 < i || (i2 == i && j2 < j + 1) then PositionCell(g, axis, i2, j2) else CellAt(g, i2, j2)
            {
              SetCellAt(h, i, j, positioned, i2, j2);
            }
          }
        }
        j := j + 1;
      }
    }

    /** `setCellPositions`: every element of a content row and a content
        column is moved to its place in the box of the cells it spans. */
    method SetCellPositions(axis: int)
      requires Valid(State()) && PositionAligns(State())
      modifies this
      ensures cells == PositionedCells(old(State()), axis)
      ensures rows == old(rows) && columns == old(columns)
      ensures width == old(width) && height == old(height) && depth == old(depth)
    {
      var g := State();
      var cl := cells;
      var i := 0;
      while i < |rows|
        invariant unchanged(this) && 0 <= i <= |rows| && PositionedUpTo(g, axis, cl, i, 0)
      {
        if rows[i].content {
          cl := PositionRow(axis, cl, i);
        } else {
          SkipRow(g, axis, cl, i);
        }
        i := i + 1;
      }
      PositionedVector(g, axis, cl);
      cells := cl;
    }
  
    /** The width passes of `format`. */
    method FormatWidths(equalColumns: bool)
      requires Valid(State()) && WidthsDefined(State(), equalColumns)
      modifies this
      ensures State() == WidthPasses(old(State()), equalColumns) && width == TableWidth(old(State()), equalColumns)
      ensures height == old(height) && depth == old(depth)
    {
      ghost var g := State();
      TempWidthsKinds(g);
      ValidWithTracks(g, g.rows, TempWidths(g));
      InitTempWidths();
      if equalColumns {
        InitWidthsT();
      } else {
        InitWidthsF();
      }
    }

    /** The height passes of `format`, giving the table's extent. */
    method FormatHeights(equalRows: bool) returns (tableHeightDepth: int)
      requires Valid(State()) && HeightsDefined(State(), equalRows)
      modifies this
      ensures State() == HeightPasses(old(State()), equalRows)
      ensures tableHeightDepth == TableHeightDepth(old(State()), equalRows)
      ensures width == old(width) && height == old(height) && depth == old(depth)
    {
      InitTempHeights();
      if equalRows {
        tableHeightDepth := InitHeightsT();
      } else {
        tableHeightDepth := InitHeightsF();
      }
    }

    /** The alignment step of `format`: the table's own alignment, or the
        one of the row given by its number. */
    method FormatAlign(tableHeightDepth: int, nRows: nat, align: Token, alignRow: Option<int>, axis: int)
      requires AlignDefined(rows, nRows, align, alignRow)
      modifies this
      ensures rows == old(rows) && columns == old(columns) && cells == old(cells) && width == old(width)
      ensures height == TableHeight(rows, tableHeightDepth, nRows, align, alignRow, axis)
      ensures depth == TableDepth(tableHeightDepth, old(depth), height, alignRow)
    {
      if alignRow.None? {
        AlignTable(tableHeightDepth, axis, align);
      } else {
        var contentRowOffset := if rows[0].content then 0 else 1;
        var row := alignRow.value;
        var fromOne := (if row < 0 then nRows + row else row - 1) % UnsignedRange;
        var gridRow := (contentRowOffset + 2 * fromOne) % UnsignedRange;
        AlignTablePivot(tableHeightDepth, axis, align, gridRow);
      }
    }

    /** The list of the placed elements `format` hands to the boxed layout. */
    method CollectPlacements() returns (content: seq<Placement>)
      ensures content == Placements(cells)
    {
      content := [];
      var k := 0;
      while k < |cells|
        invariant 0 <= k <= |cells| && content == Placements(cells[..k])
      {
        assert cells[..k + 1][..k] == cells[..k];
        if cells[k].content.Some? {
          content := content + [Placement(cells[k].dx, cells[k].dy, cells[k].content.value.element)];
        }
        k := k + 1;
      }
      assert cells[..k] == cells;
    }

    /** `format`: widths, heights, alignment, displacements and cell
        positions, then the list of the placed elements. */
    method Format(nRows: nat, align: Token, alignRow: Option<int>, equalRows: bool, equalColumns: bool, axis: int)
      returns (box: BoundingBox, content: seq<Placement>)
      requires FormatArgs(State(), nRows, align, alignRow, equalRows, equalColumns)
      modifies this
      ensures var l := FormatLayout(old(State()), old(depth), nRows, align, alignRow, equalRows, equalColumns, axis);
        State() == l.grid && width == l.width && height == l.height && depth == l.depth
      ensures box == BoundingBox(width, height, depth) && content == Placements(cells)
    {
      ghost var g := State();
      FormatWidths(equalColumns);
      var tableHeightDepth := FormatHeights(equalRows);
      FormatAlign(tableHeightDepth, nRows, align, alignRow, axis);
      SetDisplacements();
      assert State() == PlacedLayout(g, old(depth), nRows, align, alignRow, equalRows, equalColumns, axis).grid;
      SetCellPositions(axis);
      content := CollectPlacements();
      box := BoundingBox(width, height, depth);
    }
  }
}
