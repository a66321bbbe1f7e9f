/** The decorated grid `init` builds for a table of nRows × nColumns cells:
    content rows and columns at every other index from their offsets, the
    spacing tracks between them, an optional frame track on each side and,
    when any label is given, a label column and its spacing column on each
    side. Each track and cell is described in closed form after the first
    `done` iterations of the loop that writes it, the earlier stages
    (frame, labels) being what the later ones do not overwrite. */
module TableInit {
  import opened Wrappers
  import opened TableGrid

  datatype Frame = NoFrame | SolidFrame | DashedFrame

  datatype Side = LeftSide | LeftOverlapSide | RightSide | RightOverlapSide

  /** A resolved length: a percentage, or an absolute length the device has
      already evaluated. */
  datatype LengthValue = Percentage(percent: real) | Absolute(length: int)

  datatype ColumnWidth = AutoWidth | FitWidth | GivenWidth(given: LengthValue)

  /** The table's attributes, resolved; the per-index lists hold the value
      `GetComponent` yields for each index. */
  datatype TableAttributes = TableAttributes(
    frame: Frame, hFrameSpacing: int, vFrameSpacing: int,
    side: Side, minLabelSpacing: LengthValue, equalColumns: bool,
    columnWidths: seq<ColumnWidth>, columnSpacings: seq<LengthValue>, rowSpacings: seq<LengthValue>)

  predicate HasFrame(a: TableAttributes)
  {
    a.frame == SolidFrame || a.frame == DashedFrame
  }

  predicate HasLabels(labels: seq<Option<CellElement>>)
  {
    exists k :: 0 <= k < |labels| && labels[k].Some?
  }

  predicate IsLeft(s: Side)
  {
    s == LeftSide || s == LeftOverlapSide
  }

  predicate IsRight(s: Side)
  {
    s == RightSide || s == RightOverlapSide
  }

  function FrameTracks(a: TableAttributes): nat
  {
    if HasFrame(a) then 1 else 0
  }

  function LabelTracks(labels: seq<Option<CellElement>>): nat
  {
    if HasLabels(labels) then 1 else 0
  }

  function GridRowCount(a: TableAttributes, nRows: nat): int
  {
    2 * FrameTracks(a) + 2 * nRows - 1
  }

  function GridColumnCount(a: TableAttributes, nColumns: nat, labels: seq<Option<CellElement>>): int
  {
    2 * FrameTracks(a) + 4 * LabelTracks(labels) + 2 * nColumns - 1
  }

  function ContentRowOffset(a: TableAttributes): nat
  {
    FrameTracks(a)
  }

  function ContentColumnOffset(a: TableAttributes, labels: seq<Option<CellElement>>): nat
  {
    FrameTracks(a) + 2 * LabelTracks(labels)
  }

  function LeftLabelOffset(a: TableAttributes): nat
  {
    FrameTracks(a)
  }

  /** The index just after the last content column. */
  function RightLabelOffset(a: TableAttributes, nColumns: nat): nat
  {
    FrameTracks(a) + 2 * nColumns + 1
  }

  function LabelOffset(a: TableAttributes, nColumns: nat): nat
  {
    if IsLeft(a.side) then LeftLabelOffset(a) else RightLabelOffset(a, nColumns)
  }

  /** What `init` demands: a grid of at least one row and one column counted
      without unsigned wrap-around, and an entry for every index it reads. */
  predicate InitArgs(a: TableAttributes, nRows: nat, nColumns: nat,
                     cell: seq<Option<CellElement>>, labels: seq<Option<CellElement>>)
  {
    GridRowCount(a, nRows) > 0 && GridColumnCount(a, nColumns, labels) > 0 &&
    |cell| >= nRows * nColumns && (HasLabels(labels) ==> |labels| >= nRows) &&
    (!a.equalColumns ==> |a.columnWidths| >= nColumns) &&
    |a.columnSpacings| + 1 >= nColumns && |a.rowSpacings| + 1 >= nRows
  }

  /** A content column's width: a percentage becomes its fraction. */
  function ColumnWidthSpec(w: ColumnWidth): Spec
  {
    match w
    case AutoWidth => Auto
    case FitWidth => Fit
    case GivenWidth(Percentage(p)) => Scale(p / 100.0)
    case GivenWidth(Absolute(n)) => Fix(n)
  }

  /** A spacing track: a percentage is kept as it is, not divided by 100. */
  function SpacingSpec(l: LengthValue): Spec
  {
    match l
    case Percentage(p) => Scale(p)
    case Absolute(n) => Fix(n)
  }

  function LeftLabelSpacing(a: TableAttributes): Spec
  {
    match a.minLabelSpacing
    case Percentage(p) => Scale(if IsLeft(a.side) then p else 0.0)
    case Absolute(n) => Fix(if IsLeft(a.side) then n else 0)
  }

  function RightLabelSpacing(a: TableAttributes): Spec
  {
    match a.minLabelSpacing
    case Percentage(p) => Scale(if IsRight(a.side) then p else 0.0)
    case Absolute(n) => Fix(if IsRight(a.side) then n else 0)
  }

  function ContentSpec(a: TableAttributes, nColumns: nat, j: nat): Spec
    requires j < nColumns && (!a.equalColumns ==> |a.columnWidths| >= nColumns)
  {
    if a.equalColumns then Auto else ColumnWidthSpec(a.columnWidths[j])
  }

  /** The k such that z is offset + 2k, or -1. */
  function TrackIndex(z: int, offset: int): int
  {
    if offset <= z && (z - offset) % 2 == 0 then (z - offset) / 2 else -1
  }

  /** The k such that z is offset + 2k + 1, or -1. */
  function GapIndex(z: int, offset: int): int
  {
    if offset <= z && (z - offset) % 2 == 1 then (z - offset) / 2 else -1
  }

  lemma TrackIndexOf(k: int, offset: int)
    requires k >= 0
    ensures TrackIndex(offset + 2 * k, offset) == k && GapIndex(offset + 2 * k, offset) == -1
    ensures GapIndex(offset + 2 * k + 1, offset) == k && TrackIndex(offset + 2 * k + 1, offset) == -1
  {
  }

  lemma TrackIndexInverse(z: int, offset: int)
    ensures TrackIndex(z, offset) >= 0 ==> z == offset + 2 * TrackIndex(z, offset)
    ensures GapIndex(z, offset) >= 0 ==> z == offset + 2 * GapIndex(z, offset) + 1
  {
  }

  /** Column z after the frame, the labels and the first `done` iterations
      of the column loop; a later write of a column's spec replaces an
      earlier one. */
  function ColumnAfter(a: TableAttributes, nColumns: nat, labels: seq<Option<CellElement>>, z: int, done: nat): Column
    requires done <= nColumns && (!a.equalColumns ==> |a.columnWidths| >= nColumns)
    requires |a.columnSpacings| + 1 >= nColumns
  {
    var cco := ContentColumnOffset(a, labels);
    var j := TrackIndex(z, cco);
    var s := GapIndex(z, cco);
    var lab := HasLabels(labels);
    if 0 <= j < done then DefaultColumn.(spec := ContentSpec(a, nColumns, j), content := true)
    else if 0 <= s < done && s + 1 < nColumns then DefaultColumn.(spec := SpacingSpec(a.columnSpacings[s]))
    else if lab && z == RightLabelOffset(a, nColumns) - 1 then DefaultColumn.(spec := RightLabelSpacing(a))
    else if lab && z == LeftLabelOffset(a) + 1 then DefaultColumn.(spec := LeftLabelSpacing(a))
    else if lab && z == RightLabelOffset(a, nColumns) then DefaultColumn.(spec := Fit)
    else if lab && z == LeftLabelOffset(a) then DefaultColumn.(spec := Fit)
    else if HasFrame(a) && (z == 0 || z == GridColumnCount(a, nColumns, labels) - 1) then
      DefaultColumn.(spec := Fix(a.hFrameSpacing))
    else DefaultColumn
  }

  /** Row z after the frame and the first `done` iterations of the row loop. */
  function RowAfter(a: TableAttributes, nRows: nat, z: int, done: nat): Row
    requires done <= nRows && |a.rowSpacings| + 1 >= nRows
  {
    var cro := ContentRowOffset(a);
    var i := TrackIndex(z, cro);
    var s := GapIndex(z, cro);
    if 0 <= i < done then DefaultRow.(spec := Auto, content := true)
    else if 0 <= s < done && s + 1 < nRows then DefaultRow.(spec := SpacingSpec(a.rowSpacings[s]))
    else if HasFrame(a) && (z == 0 || z == GridRowCount(a, nRows) - 1) then DefaultRow.(spec := Fix(a.vFrameSpacing))
    else DefaultRow
  }

  /** The element of cell (ii, jj) once the rows before `rowsDone` are
      finished and, in row `rowsDone`, the label is set (when `labelDone`)
      and the content cells before `colsDone` are. */
  function CellAfter(a: TableAttributes, nRows: nat, nColumns: nat,
                     cell: seq<Option<CellElement>>, labels: seq<Option<CellElement>>,
                     ii: int, jj: int, rowsDone: nat, colsDone: nat, labelDone: bool): Option<CellElement>
    requires InitArgs(a, nRows, nColumns, cell, labels)
  {
    var i := TrackIndex(ii, ContentRowOffset(a));
    var j := TrackIndex(jj, ContentColumnOffset(a, labels));
    if 0 <= i < nRows && 0 <= j < nColumns && (i < rowsDone || (i == rowsDone && j < colsDone)) then
      FlatIndex(i, j, nRows, nColumns);
      cell[i * nColumns + j]
    else if 0 <= i < nRows && HasLabels(labels) && jj == LabelOffset(a, nColumns) &&
            (i < rowsDone || (i == rowsDone && labelDone)) then
      labels[i]
    else None
  }

  function InitColumn(a: TableAttributes, nColumns: nat, labels: seq<Option<CellElement>>, z: int): Column
    requires (!a.equalColumns ==> |a.columnWidths| >= nColumns) && |a.columnSpacings| + 1 >= nColumns
  {
    ColumnAfter(a, nColumns, labels, z, nColumns)
  }

  function InitRow(a: TableAttributes, nRows: nat, z: int): Row
    requires |a.rowSpacings| + 1 >= nRows
  {
    RowAfter(a, nRows, z, nRows)
  }

  function InitCell(a: TableAttributes, nRows: nat, nColumns: nat,
                    cell: seq<Option<CellElement>>, labels: seq<Option<CellElement>>, ii: int, jj: int): Option<CellElement>
    requires InitArgs(a, nRows, nColumns, cell, labels)
  {
    CellAfter(a, nRows, nColumns, cell, labels, ii, jj, nRows, 0, false)
  }

  // Properties of the grid

  /** The grid's dimensions grow by two for a frame and by four for labels,
      and every index `init` writes lies inside the grid. */
  lemma InitIndicesInBounds(a: TableAttributes, nRows: nat, nColumns: nat,
                            cell: seq<Option<CellElement>>, labels: seq<Option<CellElement>>)
    requires InitArgs(a, nRows, nColumns, cell, labels)
    ensures nRows >= 1 ==> ContentRowOffset(a) + 2 * (nRows - 1) < GridRowCount(a, nRows)
    ensures nColumns >= 1 ==> ContentColumnOffset(a, labels) + 2 * (nColumns - 1) < GridColumnCount(a, nColumns, labels)
    ensures HasLabels(labels) ==>
      LeftLabelOffset(a) + 1 < GridColumnCount(a, nColumns, labels) &&
      RightLabelOffset(a, nColumns) < GridColumnCount(a, nColumns, labels) &&
      RightLabelOffset(a, nColumns) >= 1
    ensures GridRowCount(a, nRows) == (if HasFrame(a) then 2 else 0) + 2 * nRows - 1
    ensures GridColumnCount(a, nColumns, labels) ==
      (if HasFrame(a) then 2 else 0) + (if HasLabels(labels) then 4 else 0) + 2 * nColumns - 1
  {
  }

  /** Exactly the rows at contentRowOffset + 2i (i < nRows) are content
      rows; the same holds for the columns from contentColumnOffset. */
  lemma InitContentTracks(a: TableAttributes, nRows: nat, nColumns: nat,
                          cell: seq<Option<CellElement>>, labels: seq<Option<CellElement>>, z: int)
    requires InitArgs(a, nRows, nColumns, cell, labels)
    ensures InitRow(a, nRows, z).content <==>
      exists i :: 0 <= i < nRows && z == ContentRowOffset(a) + 2 * i
    ensures InitColumn(a, nColumns, labels, z).content <==>
      exists j :: 0 <= j < nColumns && z == ContentColumnOffset(a, labels) + 2 * j
  {
    TrackIndexInverse(z, ContentRowOffset(a));
    TrackIndexInverse(z, ContentColumnOffset(a, labels));
    forall i | 0 <= i < nRows && z == ContentRowOffset(a) + 2 * i
      ensures InitRow(a, nRows, z).content
    {
      TrackIndexOf(i, ContentRowOffset(a));
    }
    forall j | 0 <= j < nColumns && z == ContentColumnOffset(a, labels) + 2 * j
      ensures InitColumn(a, nColumns, labels, z).content
    {
      TrackIndexOf(j, ContentColumnOffset(a, labels));
    }
  }

  /** Content row i and content column j hold cell i·nColumns + j. */
  lemma InitCellPlacement(a: TableAttributes, nRows: nat, nColumns: nat,
                          cell: seq<Option<CellElement>>, labels: seq<Option<CellElement>>, i: int, j: int)
    requires InitArgs(a, nRows, nColumns, cell, labels) && 0 <= i < nRows && 0 <= j < nColumns
    ensures 0 <= i * nColumns + j < |cell|
    ensures InitCell(a, nRows, nColumns, cell, labels, ContentRowOffset(a) + 2 * i, ContentColumnOffset(a, labels) + 2 * j) ==
      cell[i * nColumns + j]
  {
    FlatIndex(i, j, nRows, nColumns);
    TrackIndexOf(i, ContentRowOffset(a));
    TrackIndexOf(j, ContentColumnOffset(a, labels));
  }

  /** With labels, content row i holds label i in the label column. */
  lemma InitLabelPlacement(a: TableAttributes, nRows: nat, nColumns: nat,
                           cell: seq<Option<CellElement>>, labels: seq<Option<CellElement>>, i: int)
    requires InitArgs(a, nRows, nColumns, cell, labels) && 0 <= i < nRows && HasLabels(labels)
    ensures InitCell(a, nRows, nColumns, cell, labels, ContentRowOffset(a) + 2 * i, LabelOffset(a, nColumns)) == labels[i]
  {
    TrackIndexOf(i, ContentRowOffset(a));
    var cco := ContentColumnOffset(a, labels);
    if IsLeft(a.side) {
      assert LabelOffset(a, nColumns) < cco;
    } else {
      if nColumns >= 1 {
        TrackIndexOf(nColumns - 1, cco);
      }
    }
  }

  /** Every other cell is empty. */
  lemma InitOtherCellsEmpty(a: TableAttributes, nRows: nat, nColumns: nat,
                            cell: seq<Option<CellElement>>, labels: seq<Option<CellElement>>, ii: int, jj: int)
    requires InitArgs(a, nRows, nColumns, cell, labels)
    requires InitCell(a, nRows, nColumns, cell, labels, ii, jj).Some?
    ensures exists i :: 0 <= i < nRows && ii == ContentRowOffset(a) + 2 * i
    ensures (exists j :: 0 <= j < nColumns && jj == ContentColumnOffset(a, labels) + 2 * j) ||
      (HasLabels(labels) && jj == LabelOffset(a, nColumns))
  {
    TrackIndexInverse(ii, ContentRowOffset(a));
    TrackIndexInverse(jj, ContentColumnOffset(a, labels));
  }

  /** A content column takes its width from `columnwidth` (Auto when the
      columns are equal), a percentage becoming its fraction, while the
      spacing column after it keeps a percentage spacing undivided; spacing
      rows do the same. */
  lemma InitTrackSpecs(a: TableAttributes, nRows: nat, nColumns: nat,
                       cell: seq<Option<CellElement>>, labels: seq<Option<CellElement>>, j: int, i: int)
    requires InitArgs(a, nRows, nColumns, cell, labels)
    ensures 0 <= j < nColumns ==>
      InitColumn(a, nColumns, labels, ContentColumnOffset(a, labels) + 2 * j).spec ==
        (if a.equalColumns then Auto else ColumnWidthSpec(a.columnWidths[j]))
    ensures 0 <= j && j + 1 < nColumns ==>
      InitColumn(a, nColumns, labels, ContentColumnOffset(a, labels) + 2 * j + 1) ==
        DefaultColumn.(spec := SpacingSpec(a.columnSpacings[j]))
    ensures 0 <= i && i + 1 < nRows ==>
      InitRow(a, nRows, ContentRowOffset(a) + 2 * i + 1) == DefaultRow.(spec := SpacingSpec(a.rowSpacings[i]))
    ensures forall p :: SpacingSpec(Percentage(p)) == Scale(p) && ColumnWidthSpec(GivenWidth(Percentage(p))) == Scale(p / 100.0)
  {
    if j >= 0 {
      TrackIndexOf(j, ContentColumnOffset(a, labels));
    }
    if i >= 0 {
      TrackIndexOf(i, ContentRowOffset(a));
    }
  }

  /** The frame puts a fixed row of the vertical frame spacing at the top and
      the bottom, and a fixed column of the horizontal one at each side. */
  lemma InitFrameTracks(a: TableAttributes, nRows: nat, nColumns: nat,
                        cell: seq<Option<CellElement>>, labels: seq<Option<CellElement>>)
    requires InitArgs(a, nRows, nColumns, cell, labels) && HasFrame(a)
    ensures InitRow(a, nRows, 0) == DefaultRow.(spec := Fix(a.vFrameSpacing))
    ensures InitRow(a, nRows, GridRowCount(a, nRows) - 1) == DefaultRow.(spec := Fix(a.vFrameSpacing))
    ensures InitColumn(a, nColumns, labels, 0) == DefaultColumn.(spec := Fix(a.hFrameSpacing))
    ensures InitColumn(a, nColumns, labels, GridColumnCount(a, nColumns, labels) - 1) ==
      DefaultColumn.(spec := Fix(a.hFrameSpacing))
  {
  }

  /** With labels on the right, the label column is the one right after the
      last content column, the column after it is never written, and the
      spacing meant for the right label lands on the last content column,
      whose own spec then replaces it. */
  lemma InitRightLabelColumn(a: TableAttributes, nRows: nat, nColumns: nat,
                             cell: seq<Option<CellElement>>, labels: seq<Option<CellElement>>)
    requires InitArgs(a, nRows, nColumns, cell, labels) && HasLabels(labels) && !IsLeft(a.side) && nColumns >= 1
    ensures LabelOffset(a, nColumns) == ContentColumnOffset(a, labels) + 2 * (nColumns - 1) + 1
    ensures InitColumn(a, nColumns, labels, LabelOffset(a, nColumns)) == DefaultColumn.(spec := Fit)
    ensures LabelOffset(a, nColumns) + 1 < GridColumnCount(a, nColumns, labels)
    ensures InitColumn(a, nColumns, labels, LabelOffset(a, nColumns) + 1) == DefaultColumn
    ensures InitColumn(a, nColumns, labels, RightLabelOffset(a, nColumns) - 1) ==
      DefaultColumn.(spec := ContentSpec(a, nColumns, nColumns - 1), content := true)
  {
    var cco := ContentColumnOffset(a, labels);
    TrackIndexOf(nColumns - 1, cco);
    TrackIndexOf(nColumns, cco);
  }
}
