# GtkMathView table layout, verified in Dafny

This project models the core of GtkMathView's MathML table layout engine,
which lays out `mtable` (section 3.5.1 of MathML 2.0). It also models the
smaller components around that engine.

## The table formatter

The formatter is `TableFormatters.TableFormatter`, a class over three vectors: rows, columns, and cells in row-major order. It also holds the table's width, height and depth. Its passes follow `MathMLTableFormatter.cc` in order:

- `init` builds the decorated grid:
  - content tracks sit at every other index;
  - spacing tracks sit between them;
  - a frame track goes on each side, if there is a frame;
  - a label column and a label-spacing column go on each side, if any label is given.
- `initTempWidths` computes the temporary widths of the columns. Then `initWidthsT` (equal columns) or `initWidthsF` resolves the final widths.
- `initTempHeights` computes the temporary extents of the rows. Then `initHeightsT` (equal rows) or `initHeightsF` resolves the final heights and depths.
- `alignTable`, with or without a pivot row, aligns the table vertically.
- `setDisplacements` places the rows and columns by prefix sums.
- `setCellPositions` positions each element inside the box its spans cover.

Each pass is a method with the source's loops. Each method is proved to leave the state that a pass function of the same name describes. These functions live in modules that follow the stages: `TableGrid`, `TableInit`, `TableWidths`, `TableHeights` and `TablePositions`. Lemmas about these functions state the layout's promises:

- where `init` puts each cell and label;
- the bounds the temporary widths and extents respect;
- the equal widths and depths of the T modes;
- the widths and extents that add up to the table's size in both modes;
- the alignment equations;
- the stacking of the rows and the abutting of the columns;
- where each element lands in its cell box.

`format` is the composition of these passes, `TableFormatters.FormatLayout`. The lemmas `FormatPlacesElement` and `FormatAlignsTable` state what the whole of `format` guarantees.

## Numbers

A `scaled` length is an unbounded integer. `scaled` divided by an integer truncates toward zero, which `Scaled.TruncDiv` writes out. The Scale fractions and percentages of the source are `float`s. Here they are `real`s, and a `scaled` times or divided by such a fraction truncates the exact result toward zero.

## The other components

- `FixedPoint`, from `fixed.hh`:
  - the fixed-point type `fixed<int, 15>` as its mantissa;
  - its arithmetic and comparisons;
  - its sign-dependent `trunc`, `round`, `ceil` and `floor`;
  - the compound assignments, as a class over the mantissa.
- `Variants`, from `Variant.hh`: type-tagged values and the checked extraction `as<T>`.
- `ScopedMap` and `Formatting`, from `FormattingContext.hh`:
  - the property store of the formatting context, over a stack of scopes;
  - its typed accessor pairs, and `push`/`pop`.
- `VerticalLayouts`, from `VerticalLayout.cc`: rows broken at newline spaces, the row spacing, the row positions and the overall box.
- `OperatorDictionaries`, from `OperatorDictionary.cc`: the slot-filling rules of `Load` over a parsed document given as records, and `Search`.
- `DrawingAreas`, from `DrawingArea.cc`:
  - the graphics-context pool, shared by value;
  - the cursor;
  - the box-based rectangle and clear;
  - the exposure test;
  - the margins, the origin of the visible area, the default values and the selection colors, which only the constructor sets, as `const` fields.

## Quirks of the code the model keeps

The model follows the code as written. In particular:

- `initTempWidths` has three quirks:
  - For row i, its spanning loop tests the content flag of *column* i. An index past the last column counts as not a content column here.
  - It tests column j's spec against Fix, for every spanned column z.
  - Both quirks are in `TableWidths.SpansColumns` and `TableWidths.Distribute`.
- `initTempHeights` spreads a cell's extent over the rows it spans only when the cell spans several *columns*. See `TableHeights.RowSpansNeedColumnSpans`.
- `initWidthsF` gives a plain column its content width, not its temporary width. So the widths add up to the table width only when no spanning cell raised a temporary width. See `TableWidths.WidthsFAddUp` and the `SpanSlack` term of `TableWidths.WidthsFWithoutScale`.
- The pivot form of `alignTable` computes the depth from the depth the table had before, not from the new height. See `TableFormatters.TableFormatter.AlignTablePivot` and `TableFormatters.TableDepth`.
- `initHeightsT` gives each content row its temporary height and an equal share of what is left as depth, dropping its temporary depth, which `calcTableHeightDepthT` had counted. So without scaled rows the rows' extents fall short of the table extent by the sum of the content rows' temporary depths (`TableHeights.HeightsTDepthShortfall`; `TableHeights.HeightsTEqualExtents` is the case of equal extents).
- Percentage row and column spacings are stored without the division by 100 that percentage column widths get. See `TableInit.InitTrackSpecs`.
- The right label column has an off-by-one (`TableInit.InitRightLabelColumn`):
  - It is the column right after the last content column.
  - The right label spacing is written into that last content column.
  - The column loop then overwrites that spec.
- In `fixed.hh`, for x ≤ 0 `trunc`, `round` and `floor` set every fractional bit of their result instead of clearing them. So `trunc(0)` and `ceil(0)` are one() less 2⁻¹⁵, and `floor(0)` is −2⁻¹⁵, not 0 (`FixedPoint.RoundingAtZero`). `floor(x)` is still at most x everywhere (`FixedPoint.FloorCeilBracket`).
- `Load` checks for a duplicate always on the `prefix` slot. So once a name's prefix form is set, every later form of it is ignored, and a later infix or postfix entry overwrites an earlier one (`OperatorDictionaries.PrefixFreezesEntry`, `OperatorDictionaries.LaterFormOverwrites`).

## Model

| member | source | states |
|---|---|---|
| TableGrid.FlatIndex | src/engine/mathml/MathMLTableFormatter.cc:787-793 | the row-major index `getCell` computes for a position inside the grid lies inside the cell vector |
| TableGrid.FlatIndexInjective | src/engine/mathml/MathMLTableFormatter.cc:787-793 | two distinct grid positions never share a slot of the cell vector |
| TableGrid.SetCellAt | src/engine/mathml/MathMLTableFormatter.cc:159-165 | writing the content of one cell changes that cell and no other |
| TableInit.InitIndicesInBounds | src/engine/mathml/MathMLTableFormatter.cc:62-68 | the grid is 2·nRows−1 rows (+2 with a frame) by 2·nColumns−1 columns (+2 with a frame, +4 with labels); the last content row and column, both label columns and their spacing columns are inside it |
| TableInit.InitContentTracks | src/engine/mathml/MathMLTableFormatter.cc:119-167 | a row (column) is a content track exactly when it is contentRowOffset + 2i for some i < nRows (contentColumnOffset + 2j for some j < nColumns) |
| TableInit.InitCellPlacement | src/engine/mathml/MathMLTableFormatter.cc:162-166 | the cell at (contentRowOffset + 2i, contentColumnOffset + 2j) holds `cell[i·nColumns + j]`, whose index is in range |
| TableInit.InitLabelPlacement | src/engine/mathml/MathMLTableFormatter.cc:158-159 | with labels, content row i holds label i in the label column of the chosen side |
| TableInit.InitOtherCellsEmpty | src/engine/mathml/MathMLTableFormatter.cc:154-166 | a cell that holds an element lies in a content row, and in a content column or the label column |
| TableInit.InitTrackSpecs | src/engine/mathml/MathMLTableFormatter.cc:119-176 | content columns take their spec from `columnwidth` (Auto with equal columns; percentages divided by 100), spacing columns and rows from the spacing lists (percentages kept whole), content rows are Auto |
| TableInit.InitFrameTracks | src/engine/mathml/MathMLTableFormatter.cc:84-92 | with a frame the first and last rows hold the vertical frame spacing as a fixed height and the first and last columns the horizontal one |
| TableInit.InitRightLabelColumn | src/engine/mathml/MathMLTableFormatter.cc:67-116 | with labels on the right the label column is right after the last content column, a Fit column followed by a default one, and the last content column keeps its own spec, not the label spacing |
| TableWidths.ContentWidthIsMax | src/engine/mathml/MathMLTableFormatter.cc:319-332 | the content width is 0 or the width of some single-column element of a content row, and no such element is wider |
| TableWidths.FirstWidthPass | src/engine/mathml/MathMLTableFormatter.cc:337-349 | the first loop keeps the number of columns, their specs and their content flags |
| TableWidths.Distribute | src/engine/mathml/MathMLTableFormatter.cc:358-365 | spreading a spanning cell's shortfall only raises temporary widths and changes nothing else |
| TableWidths.SpanStep | src/engine/mathml/MathMLTableFormatter.cc:353-365 | one step of the spanning loop only raises temporary widths |
| TableWidths.SpanColumn | src/engine/mathml/MathMLTableFormatter.cc:352-365 | the spanning loop on one column only raises temporary widths |
| TableWidths.SpanColumns | src/engine/mathml/MathMLTableFormatter.cc:351-366 | the whole spanning loop only raises temporary widths |
| TableWidths.TempWidths | src/engine/mathml/MathMLTableFormatter.cc:334-367 | `initTempWidths` is the first loop followed by a spanning loop that only raises temporary widths |
| TableWidths.TempWidthsBounds | src/engine/mathml/MathMLTableFormatter.cc:334-367 | afterwards a content column not of fixed width records its content width and has a temporary width at least that large; a fixed column's temporary width is at least its fixed length; specs, content flags, widths and displacements are unchanged |
| TableWidths.NoSpanningTempIsContent | src/engine/mathml/MathMLTableFormatter.cc:334-367 | without cells spanning several columns the spanning loop changes nothing, so a content column not of fixed width has its content width as temporary width |
| TableWidths.CountContent | src/engine/mathml/MathMLTableFormatter.cc:379-381 | the number of content columns is bounded by the columns counted and positive when one of them is a content column |
| TableWidths.MaxContentWidthIsMax | src/engine/mathml/MathMLTableFormatter.cc:379-382 | the largest content width over the content columns: an upper bound that is 0 or attained |
| TableWidths.WidthColumnT | src/engine/mathml/MathMLTableFormatter.cc:405-411 | `initWidthsT` changes only a column's width: content columns get the available width over numCol, fixed ones their length, scaled ones their share of the table width |
| TableWidths.WidthsTWithoutScale | src/engine/mathml/MathMLTableFormatter.cc:369-414 | with equal columns and no scaled column, every content column gets the largest content width, fixed columns their length, and content plus fixed widths sum to the table width |
| TableWidths.MaxScaleShare | src/engine/mathml/MathMLTableFormatter.cc:426-428 | the largest table width a scaled content column asks for bounds every such request and is not negative |
| TableWidths.CountPlain | src/engine/mathml/MathMLTableFormatter.cc:430-437 | the count of plain content columns is positive when one exists |
| TableWidths.WidthColumnF | src/engine/mathml/MathMLTableFormatter.cc:463-471 | `initWidthsF` changes only a column's width, never its spec, content flag, temporary width or displacement |
| TableWidths.WidthsFWithoutScale | src/engine/mathml/MathMLTableFormatter.cc:416-474 | without scaled columns the extra width is 0, each plain column gets exactly its content width, fixed ones their length, and plain plus fixed widths plus what spanning added to the temporary widths sum to the table width |
| TableWidths.WidthsFAddUp | src/engine/mathml/MathMLTableFormatter.cc:334-474 | after `initTempWidths`, without spanning and without scaled columns, the plain and fixed widths sum exactly to the table width |
| TableHeights.MaxCellHeight | src/engine/mathml/MathMLTableFormatter.cc:493-502 | the largest height of the baseline-aligned single-row cells of a row: an upper bound that is 0 or attained |
| TableHeights.MaxCellDepth | src/engine/mathml/MathMLTableFormatter.cc:493-502 | the same for their depths |
| TableHeights.FirstHeightPass | src/engine/mathml/MathMLTableFormatter.cc:479-506 | the first loop keeps the number of rows, their specs and their content flags |
| TableHeights.RaiseDepth | src/engine/mathml/MathMLTableFormatter.cc:510-516 | the second loop on a row only raises its temporary depth, until the row's temporary extent covers every other single-row cell |
| TableHeights.SecondHeightPass | src/engine/mathml/MathMLTableFormatter.cc:508-516 | the second loop only raises temporary depths of content rows |
| TableHeights.DistributeDepth | src/engine/mathml/MathMLTableFormatter.cc:525-532 | spreading a spanning cell's shortfall only raises temporary depths of content rows |
| TableHeights.RowSpanStep | src/engine/mathml/MathMLTableFormatter.cc:521-532 | one step of the third loop only raises temporary depths |
| TableHeights.RowSpanRow | src/engine/mathml/MathMLTableFormatter.cc:520-533 | the third loop on a row only raises temporary depths |
| TableHeights.RowSpanRows | src/engine/mathml/MathMLTableFormatter.cc:519-533 | the whole third loop only raises temporary depths |
| TableHeights.TempHeights | src/engine/mathml/MathMLTableFormatter.cc:476-534 | after the first two loops, `initTempHeights` only deepens content rows |
| TableHeights.TempHeightsBounds | src/engine/mathml/MathMLTableFormatter.cc:476-534 | a content row neither fixed nor scaled is as high as its tallest baseline cell and at least as deep as its deepest one, and its temporary extent covers every other single-row cell; a fixed spacing row has its length as temporary height and depth 0, a scaled one 0 and 0 |
| TableHeights.RowSpansNeedColumnSpans | src/engine/mathml/MathMLTableFormatter.cc:519-533 | when no element spans several columns the third loop changes nothing, whatever the row spans |
| TableHeights.CountContentRows | src/engine/mathml/MathMLTableFormatter.cc:547-549 | the number of content rows is bounded and positive when one exists |
| TableHeights.MaxTempExtent | src/engine/mathml/MathMLTableFormatter.cc:547-551 | the largest temporary extent of the content rows: an upper bound that is 0 or attained |
| TableHeights.HeightRowT | src/engine/mathml/MathMLTableFormatter.cc:590-605 | `initHeightsT` changes only a row's height and depth: content rows keep their temporary height and get the available extent over numRows as depth |
| TableHeights.HeightsTEqualExtents | src/engine/mathml/MathMLTableFormatter.cc:577-608 | with content rows of equal temporary extent and no scaled row, the table extent is numRows times it plus the fixed rows, and the depth handed out is 0 |
| TableHeights.HeightsTDepthShortfall | src/engine/mathml/MathMLTableFormatter.cc:537-599 | without scaled rows, and when the content rows' temporary extents add up to a multiple of their count (so the share is exact), the content and fixed rows' extents plus the content rows' temporary depths equal the table extent |
| TableHeights.HeightsTShareDepth | src/engine/mathml/MathMLTableFormatter.cc:590-599 | every content row gets the same depth, and fixed rows get their length and depth 0 |
| TableHeights.HeightRowF | src/engine/mathml/MathMLTableFormatter.cc:616-631 | `initHeightsF` changes only height and depth: content rows take their temporary height and depth |
| TableHeights.HeightsFAddUp | src/engine/mathml/MathMLTableFormatter.cc:562-634 | without scaled rows the extents of the content and fixed rows add up to the returned table extent |
| TableHeights.TempThenHeightsFAddUp | src/engine/mathml/MathMLTableFormatter.cc:476-634 | the same for the rows `initTempHeights` produced, fixed rows having their length as temporary height |
| TablePositions.AlignedHeightMeaning | src/engine/mathml/MathMLTableFormatter.cc:636-659 | Top puts the table's top on the baseline, Bottom its bottom, Center and Baseline split the extent in half (within one unit), Axis raises Center by the axis |
| TablePositions.PlacedRows | src/engine/mathml/MathMLTableFormatter.cc:710-716 | `setDisplacements` changes only row displacements and leaves the rows placed down from the table height, as `RowsStack` spells out |
| TablePositions.PlacedColumns | src/engine/mathml/MathMLTableFormatter.cc:718-724 | it changes only column displacements and leaves the columns placed, as `ColumnsAbut` spells out |
| TablePositions.RowsStack | src/engine/mathml/MathMLTableFormatter.cc:710-716 | placed rows stack without gaps from the table's top: the first row's top is the height, each row's top is the previous row's bottom |
| TablePositions.ColumnsAbut | src/engine/mathml/MathMLTableFormatter.cc:718-724 | placed columns abut from 0 rightwards |
| TablePositions.LastRowAtBottom | src/engine/mathml/MathMLTableFormatter.cc:707-716 | when the rows fill the table's extent the last row's bottom is the table's bottom |
| TablePositions.PivotRowOnBaseline | src/engine/mathml/MathMLTableFormatter.cc:661-691 | with a pivot row, its top (Top), bottom (Bottom), baseline (Baseline) or axis (Axis) lands on the table's baseline, and Center centres it within one unit |
| TablePositions.PivotPastLastRow | src/engine/mathml/MathMLTableFormatter.cc:661-672 | with Top and the pivot index just past the last row, the height is the sum of every row's extent and the bottom of the last row lands on the table's baseline |
| TablePositions.CellBoxCovers | src/engine/mathml/MathMLTableFormatter.cc:693-705 | the cell box is as wide as the spanned columns, as high as the first row, and as tall as the spanned rows |
| TablePositions.PositionedCells | src/engine/mathml/MathMLTableFormatter.cc:727-785 | the positioned cell vector has the length of the original |
| TablePositions.PositionedCellAt | src/engine/mathml/MathMLTableFormatter.cc:727-785 | each slot of the positioned vector is its own cell positioned |
| TablePositions.PositionedElementInCell | src/engine/mathml/MathMLTableFormatter.cc:745-782 | Left puts the element's left edge on its column's, Right its right edge on the last spanned column's, Top its top on the row's top, Bottom its bottom on the last spanned row's bottom, Baseline its baseline on the row's |
| TablePositions.PositionedGridPlacesElement | src/engine/mathml/MathMLTableFormatter.cc:727-785 | the same, read off the positioned grid: the element is still in its cell |
| TableFormatters.AnyLabel | src/engine/mathml/MathMLTableFormatter.cc:60 | true exactly when some label is not null |
| TableFormatters.FrameAndLabelColumns | src/engine/mathml/MathMLTableFormatter.cc:80-116 | the column vector after the frame and label stages of `init` |
| TableFormatters.InitColumns | src/engine/mathml/MathMLTableFormatter.cc:119-151 | the column loop leaves every column as `InitColumn` describes it |
| TableFormatters.WriteLabel | src/engine/mathml/MathMLTableFormatter.cc:158-159 | writing the label of a row keeps the cells-so-far invariant |
| TableFormatters.WriteContentCells | src/engine/mathml/MathMLTableFormatter.cc:162-166 | the inner loop writes the content cells of one row |
| TableFormatters.WriteRow | src/engine/mathml/MathMLTableFormatter.cc:161-175 | one iteration makes row i a content row of automatic height and gives the row after it its spacing, keeping the rows-so-far invariant |
| TableFormatters.InitRowsAndCells | src/engine/mathml/MathMLTableFormatter.cc:154-177 | the row loop leaves every row as `InitRow` and every cell as `InitCell` describes it |
| TableFormatters.SpannedTempWidth | src/engine/mathml/MathMLTableFormatter.cc:359-361 | the loop sums the temporary widths of the spanned columns |
| TableFormatters.SpreadWidth | src/engine/mathml/MathMLTableFormatter.cc:358-365 | the spreading loop computes `Distribute` |
| TableFormatters.SpanCell | src/engine/mathml/MathMLTableFormatter.cc:353-365 | the body of the spanning loop computes `SpanStep` |
| TableFormatters.SpanColumnLoop | src/engine/mathml/MathMLTableFormatter.cc:352-365 | the loop over the rows for one column computes `SpanColumn` |
| TableFormatters.SpanLoop | src/engine/mathml/MathMLTableFormatter.cc:351-366 | the spanning loop computes `SpanColumns` |
| TableFormatters.BaselineExtent | src/engine/mathml/MathMLTableFormatter.cc:493-502 | the largest height and depth of a row's baseline cells |
| TableFormatters.FirstHeightLoop | src/engine/mathml/MathMLTableFormatter.cc:479-506 | the first loop of `initTempHeights` computes `FirstHeightPass` |
| TableFormatters.RaiseDepthLoop | src/engine/mathml/MathMLTableFormatter.cc:510-516 | the second loop on one row computes `RaiseDepth` |
| TableFormatters.SecondHeightLoop | src/engine/mathml/MathMLTableFormatter.cc:508-516 | the second loop computes `SecondHeightPass` |
| TableFormatters.SpannedTempExtent | src/engine/mathml/MathMLTableFormatter.cc:526-528 | the loop sums the temporary extents of the spanned rows |
| TableFormatters.SpreadDepth | src/engine/mathml/MathMLTableFormatter.cc:525-532 | the spreading loop computes `DistributeDepth` |
| TableFormatters.RowSpanCell | src/engine/mathml/MathMLTableFormatter.cc:521-532 | the body of the third loop computes `RowSpanStep` |
| TableFormatters.RowSpanRowLoop | src/engine/mathml/MathMLTableFormatter.cc:520-533 | the third loop on one row computes `RowSpanRow` |
| TableFormatters.RowSpanLoop | src/engine/mathml/MathMLTableFormatter.cc:519-533 | the third loop computes `RowSpanRows` |
| TableFormatters.Placements | src/engine/mathml/MathMLTableFormatter.cc:304-314 | the list has at most one entry per cell and each entry is the displacement and element of a cell that holds one |
| TableFormatters.PlacementsComplete | src/engine/mathml/MathMLTableFormatter.cc:304-314 | every cell that holds an element has its entry in the list |
| TableFormatters.WidthPasses | src/engine/mathml/MathMLTableFormatter.cc:277-279 | the width passes keep the grid valid, the rows and cells, and the content flags of the columns |
| TableFormatters.HeightPasses | src/engine/mathml/MathMLTableFormatter.cc:282-283 | the height passes keep the grid valid, the columns and cells, and the content flags of the rows |
| TableFormatters.PlacedLayout | src/engine/mathml/MathMLTableFormatter.cc:276-299 | after widths, heights, alignment and displacements the grid is still valid, its cells are untouched, its rows stack down from the table height and its columns abut |
| TableFormatters.FormatPlacesElement | src/engine/mathml/MathMLTableFormatter.cc:264-301 | after `format` the rows and columns are placed and every element of a content row and column is still in its cell, aligned within the box of the cells it spans |
| TableFormatters.PivotRowUnwrapped | src/engine/mathml/MathMLTableFormatter.cc:291-294 | when nothing wraps, content row `row` (from 1, or from the end when negative) is at the content row offset plus twice the content rows before it |
| TableFormatters.PivotRowWrapsPastLastRow | src/engine/mathml/MathMLTableFormatter.cc:291-294 | on a framed grid, row −2³¹ wraps in unsigned arithmetic to the index just past the last row |
| TableFormatters.FormatAlignsTable | src/engine/mathml/MathMLTableFormatter.cc:285-296 | without a pivot row the table's height and depth add up to its extent, split as the alignment says; with one, the pivot row is in range and its top (Top), bottom (Bottom), baseline (Baseline) or axis (Axis) lands on the table's baseline; a Top pivot just past the last row puts the last row's bottom on the baseline |
| TableFormatters.TableFormatter.constructor | src/engine/mathml/MathMLTableFormatter.cc:33-34 | a new formatter holds no tracks and no cells |
| TableFormatters.TableFormatter.Init | src/engine/mathml/MathMLTableFormatter.cc:42-178 | the vectors get the grid's sizes and every row, column and cell is as `InitRow`, `InitColumn` and `InitCell` describe; the box is unchanged |
| TableFormatters.TableFormatter.GetColumnContentWidth | src/engine/mathml/MathMLTableFormatter.cc:319-332 | the loop computes the column's content width |
| TableFormatters.TableFormatter.FirstWidthLoop | src/engine/mathml/MathMLTableFormatter.cc:337-349 | the first loop of `initTempWidths` computes `FirstWidthPass` |
| TableFormatters.TableFormatter.InitTempWidths | src/engine/mathml/MathMLTableFormatter.cc:334-367 | the columns become `TempWidths` of the grid and nothing else changes |
| TableFormatters.TableFormatter.CalcTableWidthT | src/engine/mathml/MathMLTableFormatter.cc:369-391 | the table width and the out-parameters numCol, sumFix and sumScale |
| TableFormatters.TableFormatter.InitWidthsT | src/engine/mathml/MathMLTableFormatter.cc:393-414 | the columns become `WidthsT` and the width the table width, nothing else changes |
| TableFormatters.TableFormatter.CalcTableWidthF | src/engine/mathml/MathMLTableFormatter.cc:416-444 | the table width and the out-parameters numCol, sumCont, sumFix and sumScale |
| TableFormatters.TableFormatter.InitWidthsF | src/engine/mathml/MathMLTableFormatter.cc:446-474 | the columns become `WidthsF` and the width the table width, nothing else changes |
| TableFormatters.TableFormatter.InitTempHeights | src/engine/mathml/MathMLTableFormatter.cc:476-534 | the rows become `TempHeights` of the grid and nothing else changes |
| TableFormatters.TableFormatter.CalcTableHeightDepthT | src/engine/mathml/MathMLTableFormatter.cc:536-560 | the table extent and the out-parameters numRows, sumScale, sumContHD and sumFixHD |
| TableFormatters.TableFormatter.CalcTableHeightDepthF | src/engine/mathml/MathMLTableFormatter.cc:562-575 | the table extent |
| TableFormatters.TableFormatter.InitHeightsT | src/engine/mathml/MathMLTableFormatter.cc:577-608 | the rows become `HeightsT` and the result is the table extent, nothing else changes |
| TableFormatters.TableFormatter.InitHeightsF | src/engine/mathml/MathMLTableFormatter.cc:611-634 | the rows become `HeightsF` and the result is the table extent, nothing else changes |
| TableFormatters.TableFormatter.AlignTable | src/engine/mathml/MathMLTableFormatter.cc:636-659 | the height is the aligned height and height + depth is the table extent |
| TableFormatters.TableFormatter.AlignTablePivot | src/engine/mathml/MathMLTableFormatter.cc:661-691 | the height puts the pivot row's line on the baseline (for Top at the index past the last row, the sum of every row's extent); the depth is the extent less the old depth |
| TableFormatters.TableFormatter.GetCellBoundingBox | src/engine/mathml/MathMLTableFormatter.cc:693-705 | the box of the cells spanned from (i, j) |
| TableFormatters.TableFormatter.SetDisplacements | src/engine/mathml/MathMLTableFormatter.cc:707-725 | rows become `PlacedRows` from the table height and columns `PlacedColumns`, nothing else changes |
| TableFormatters.TableFormatter.PositionRow | src/engine/mathml/MathMLTableFormatter.cc:732-784 | positioning the content columns of a content row extends the positioned prefix by that row |
| TableFormatters.TableFormatter.SetCellPositions | src/engine/mathml/MathMLTableFormatter.cc:727-785 | the cells become `PositionedCells` and nothing else changes |
| TableFormatters.TableFormatter.FormatWidths | src/engine/mathml/MathMLTableFormatter.cc:277-279 | the grid becomes `WidthPasses` and the width the table width |
| TableFormatters.TableFormatter.FormatHeights | src/engine/mathml/MathMLTableFormatter.cc:282-283 | the grid becomes `HeightPasses` and the result is the table extent |
| TableFormatters.TableFormatter.FormatAlign | src/engine/mathml/MathMLTableFormatter.cc:286-296 | the height and depth of the chosen form of `alignTable`, with the pivot row computed as `format` does, in unsigned 32-bit arithmetic |
| TableFormatters.TableFormatter.CollectPlacements | src/engine/mathml/MathMLTableFormatter.cc:304-314 | the list of the placed elements, in vector order |
| TableFormatters.TableFormatter.Format | src/engine/mathml/MathMLTableFormatter.cc:264-317 | the state becomes `FormatLayout` of the old state and the result is the table's box with the list of placed elements |
| FixedPoint.ToInt | src/formatter/basictypes/fixed.hh:80 | the integer part rounded toward minus infinity: n·one ≤ mantissa < (n+1)·one |
| FixedPoint.DivInt | src/formatter/basictypes/fixed.hh:183-188 | for either sign of the divisor the quotient truncates toward zero: the remainder has the dividend's sign and is smaller than the divisor in magnitude, which fixes the quotient |
| FixedPoint.Min | src/formatter/basictypes/fixed.hh:128-133 | at most both arguments and one of them |
| FixedPoint.Max | src/formatter/basictypes/fixed.hh:135-140 | at least both arguments and one of them |
| FixedPoint.Abs | src/formatter/basictypes/fixed.hh:89-94 | not negative, and the argument or its negation |
| FixedPoint.Trunc | src/formatter/basictypes/fixed.hh:96-102 | for x > 0 a multiple of one() less than one() below x; otherwise all fractional bits set, less than one() above x |
| FixedPoint.Round | src/formatter/basictypes/fixed.hh:104-110 | within half a unit of x; a multiple of one() for x > 0, all fractional bits set otherwise |
| FixedPoint.Ceil | src/formatter/basictypes/fixed.hh:112-118 | at least x; for x > 0 a multiple of one() strictly above x and at most one() above it; for x ≤ 0 less than one() above x |
| FixedPoint.Floor | src/formatter/basictypes/fixed.hh:120-126 | at most x; for x > 0 a multiple of one() less than one() below x; for x ≤ 0 strictly below x |
| FixedPoint.FixedVariable.constructor | src/formatter/basictypes/fixed.hh:32-33 | the variable holds the given mantissa |
| FixedPoint.FixedVariable.AddAssign | src/formatter/basictypes/fixed.hh:224-230 | the receiver becomes the sum |
| FixedPoint.FixedVariable.SubAssign | src/formatter/basictypes/fixed.hh:232-238 | the receiver becomes the difference |
| FixedPoint.FixedVariable.MulAssign | src/formatter/basictypes/fixed.hh:240-246 | the receiver becomes the product |
| FixedPoint.OfIntToInt | src/formatter/basictypes/fixed.hh:37 | `ofInt(v).toInt() == v` |
| FixedPoint.UnitConstants | src/formatter/basictypes/fixed.hh:37-40 | zero() has mantissa 0, one() is half() + half() and ofInt(1), and trunc(0) is not 0 |
| FixedPoint.AddSubInverse | src/formatter/basictypes/fixed.hh:142-161 | subtraction undoes addition, a − b = a + (−b), and negation is an involution |
| FixedPoint.AddCommutesAssociates | src/formatter/basictypes/fixed.hh:142-147 | addition is commutative and associative with zero() as unit |
| FixedPoint.MulIntIsRepeatedAdd | src/formatter/basictypes/fixed.hh:163-209 | f·v = v·f, f·(v+1) = f·v + f and f·0 = 0 |
| FixedPoint.DivIntUndoesMulInt | src/formatter/basictypes/fixed.hh:163-188 | (f·v)/v = f for v > 0 |
| FixedPoint.DivIntTowardZero | src/formatter/basictypes/fixed.hh:183-188 | \|(f/v)·v\| ≤ \|f\| |
| FixedPoint.DivIntOfNeg | src/formatter/basictypes/fixed.hh:183-188 | (−f)/v = −(f/v) |
| FixedPoint.OrderIsTotal | src/formatter/basictypes/fixed.hh:288-327 | the comparisons form a total order, the strict and the non-strict ones are complements, min ≤ max and both are symmetric |
| FixedPoint.RoundingAtZero | src/formatter/basictypes/fixed.hh:96-126 | at zero trunc and ceil give one() less one step and floor gives one step below zero |
| FixedPoint.FloorCeilBracket | src/formatter/basictypes/fixed.hh:112-126 | floor(x) ≤ x ≤ ceil(x) for every x |
| FixedPoint.TruncOfNonPositive | src/formatter/basictypes/fixed.hh:96-102 | for x ≤ 0, trunc(x) ≥ x and is never a multiple of one() |
| Variants.As | src/formatter/basictypes/Variant.hh:44-51 | Ok exactly when the value is non-null and of the requested type, and then it is the stored value |
| Variants.AsOfCreated | src/formatter/basictypes/Variant.hh:33-48 | `as<T>` of `create(v)` gives back v |
| Variants.AsOfOtherType | src/formatter/basictypes/Variant.hh:49-50 | `as<T>` of a value of another type throws TypeError |
| Variants.AsOfNull | src/formatter/basictypes/Variant.hh:44-51 | `as<T>` of null throws TypeError |
| ScopedMap.Lookup | src/backend/common/FormattingContext.hh:138-140 | a value is found exactly when some scope holds the id, and an id set in the innermost scope reads that scope's value |
| ScopedMap.Run | src/backend/common/FormattingContext.hh:134-147 | a run of sets, pushes and pops ends with as many scopes as its pushes and pops leave |
| ScopedMap.LookupAfterAssign | src/backend/common/FormattingContext.hh:134-136 | after a set the id reads back the value and every other id reads as before |
| ScopedMap.LookupAfterPush | src/backend/common/FormattingContext.hh:143-144 | a push changes no lookup |
| ScopedMap.RunKeepsLowerScopes | src/backend/common/FormattingContext.hh:143-147 | a run that never pops below a scope leaves the scopes under it unchanged |
| ScopedMap.PopRestores | src/backend/common/FormattingContext.hh:143-147 | the pop matching a push discards every set made since, restoring every lookup |
| Formatting.FormattingContext.constructor | src/backend/common/FormattingContext.hh:40 | a new context has one empty scope |
| Formatting.FormattingContext.Get | src/backend/common/FormattingContext.hh:138-140 | Ok exactly when the visible value of the id has the requested type, and then it is that value |
| Formatting.FormattingContext.Set | src/backend/common/FormattingContext.hh:134-136 | the id reads back the value with its own type, throws for any other type, and no other id changes |
| Formatting.FormattingContext.Push | src/backend/common/FormattingContext.hh:143-144 | a new innermost scope, with every lookup unchanged |
| Formatting.FormattingContext.Pop | src/backend/common/FormattingContext.hh:146-147 | the innermost scope is discarded |
| Formatting.FormattingContext.GetBool | src/backend/common/FormattingContext.hh:85 | Ok exactly when the id holds a bool, and then that bool |
| Formatting.FormattingContext.GetScaled | src/backend/common/FormattingContext.hh:87 | Ok exactly when the id holds a scaled length, and then that length |
| Formatting.FormattingContext.GetMathMode | src/backend/common/FormattingContext.hh:85 | Ok exactly when the math mode holds a bool, and then that bool |
| Formatting.FormattingContext.GetSize | src/backend/common/FormattingContext.hh:87 | Ok exactly when the size holds a scaled length, and then that length |
| Formatting.FormattingContext.GetActualSize | src/backend/common/FormattingContext.hh:89 | Ok exactly when the actual size holds a scaled length, and then that length |
| Formatting.FormattingContext.GetMinSize | src/backend/common/FormattingContext.hh:100 | Ok exactly when the minimum size holds a scaled length, and then that length |
| Formatting.FormattingContext.GetDisplayStyle | src/backend/common/FormattingContext.hh:102 | Ok exactly when the display style holds a bool, and then that bool |
| Formatting.FormattingContext.GetAvailableWidth | src/backend/common/FormattingContext.hh:108 | Ok exactly when the available width holds a scaled length, and then that length |
| Formatting.FormattingContext.GetStretchToWidth | src/backend/common/FormattingContext.hh:112 | Ok exactly when the stretch width holds a scaled length, and then that length |
| Formatting.FormattingContext.GetStretchToHeight | src/backend/common/FormattingContext.hh:114 | Ok exactly when the stretch height holds a scaled length, and then that length |
| Formatting.FormattingContext.GetStretchToDepth | src/backend/common/FormattingContext.hh:116 | Ok exactly when the stretch depth holds a scaled length, and then that length |
| Formatting.FormattingContext.GetStretchH | src/backend/common/FormattingContext.hh:118 | Ok exactly when the horizontal stretch holds a scaled length, and then that length |
| Formatting.FormattingContext.GetStretchV | src/backend/common/FormattingContext.hh:120 | Ok exactly when the vertical stretch holds a scaled length, and then that length |
| Formatting.FormattingContext.GetVariant | src/backend/common/FormattingContext.hh:91 | Ok exactly when the variant holds a math variant, and then that variant |
| Formatting.FormattingContext.GetColorOf | src/backend/common/FormattingContext.hh:93-95 | Ok exactly when the id holds a color, and then that color |
| Formatting.FormattingContext.GetColor | src/backend/common/FormattingContext.hh:93 | Ok exactly when the color holds a color, and then that color |
| Formatting.FormattingContext.GetBackground | src/backend/common/FormattingContext.hh:95 | Ok exactly when the background holds a color, and then that color |
| Formatting.FormattingContext.GetSizeMultiplier | src/backend/common/FormattingContext.hh:104 | Ok exactly when the size multiplier holds a double, and then that double |
| Formatting.FormattingContext.GetScriptLevel | src/backend/common/FormattingContext.hh:97 | Ok exactly when the script level holds an int, and then that int |
| Formatting.FormattingContext.GetMathSpace | src/backend/common/FormattingContext.hh:106 | Ok exactly when the slot holds a length, and then that length; the slot must be one of the map's |
| Formatting.FormattingContext.SetMathMode | src/backend/common/FormattingContext.hh:86 | the math mode reads back the value, no other property changes, and the write goes into the innermost scope (the scope stack is `Assign` of the old one) |
| Formatting.FormattingContext.SetSize | src/backend/common/FormattingContext.hh:88 | the size reads back the value, no other property changes, and the write goes into the innermost scope (the scope stack is `Assign` of the old one) |
| Formatting.FormattingContext.SetActualSize | src/backend/common/FormattingContext.hh:90 | the actual size reads back the value, no other property changes, and the write goes into the innermost scope (the scope stack is `Assign` of the old one) |
| Formatting.FormattingContext.SetVariant | src/backend/common/FormattingContext.hh:92 | the variant reads back the value, no other property changes, and the write goes into the innermost scope (the scope stack is `Assign` of the old one) |
| Formatting.FormattingContext.SetColor | src/backend/common/FormattingContext.hh:94 | the color reads back the value, no other property changes, and the write goes into the innermost scope (the scope stack is `Assign` of the old one) |
| Formatting.FormattingContext.SetBackground | src/backend/common/FormattingContext.hh:96 | the background reads back the value, no other property changes, and the write goes into the innermost scope (the scope stack is `Assign` of the old one) |
| Formatting.FormattingContext.SetMinSize | src/backend/common/FormattingContext.hh:101 | the minimum size reads back the value, no other property changes, and the write goes into the innermost scope (the scope stack is `Assign` of the old one) |
| Formatting.FormattingContext.SetDisplayStyle | src/backend/common/FormattingContext.hh:103 | the display style reads back the value, no other property changes, and the write goes into the innermost scope (the scope stack is `Assign` of the old one) |
| Formatting.FormattingContext.SetSizeMultiplier | src/backend/common/FormattingContext.hh:105 | the size multiplier reads back the value, no other property changes, and the write goes into the innermost scope (the scope stack is `Assign` of the old one) |
| Formatting.FormattingContext.SetMathSpace | src/backend/common/FormattingContext.hh:107 | the slot reads back the length, no other property changes, and the write goes into the innermost scope (the scope stack is `Assign` of the old one) |
| Formatting.FormattingContext.SetAvailableWidth | src/backend/common/FormattingContext.hh:109 | the available width reads back the value, no other property changes, and the write goes into the innermost scope (the scope stack is `Assign` of the old one) |
| Formatting.FormattingContext.SetStretchToWidth | src/backend/common/FormattingContext.hh:113 | the stretch width reads back the value, no other property changes, and the write goes into the innermost scope (the scope stack is `Assign` of the old one) |
| Formatting.FormattingContext.SetStretchToHeight | src/backend/common/FormattingContext.hh:115 | the stretch height reads back the value, no other property changes, and the write goes into the innermost scope (the scope stack is `Assign` of the old one) |
| Formatting.FormattingContext.SetStretchToDepth | src/backend/common/FormattingContext.hh:117 | the stretch depth reads back the value, no other property changes, and the write goes into the innermost scope (the scope stack is `Assign` of the old one) |
| Formatting.FormattingContext.SetStretchH | src/backend/common/FormattingContext.hh:119 | the horizontal stretch reads back the value, no other property changes, and the write goes into the innermost scope (the scope stack is `Assign` of the old one) |
| Formatting.FormattingContext.SetStretchV | src/backend/common/FormattingContext.hh:121 | the vertical stretch reads back the value, no other property changes, and the write goes into the innermost scope (the scope stack is `Assign` of the old one) |
| Formatting.FormattingContext.ScriptLevelDelta | src/backend/common/FormattingContext.hh:97-99 | the difference handed to `addScriptLevel` brings the current level to l, or the TypeError of reading it |
| Formatting.MismatchedGetThrows | src/backend/common/FormattingContext.hh:138-140 | reading a property as another type than the stored one throws TypeError |
| Formatting.UnsetGetThrows | src/backend/common/FormattingContext.hh:138-140 | reading a property nothing was set for throws TypeError |
| VerticalLayouts.Added | src/VerticalLayout.cc:35-50 | `Add` leaves one row more than before (one for an empty layout) when the element breaks the line, else as many |
| VerticalLayouts.Spacing | src/VerticalLayout.cc:58-71 | 0 past the last row; otherwise at least rowMinSpacing more than the last row's depth plus the next row's height, and rowSpacing when that already suffices |
| VerticalLayouts.MaxWidth | src/VerticalLayout.cc:98 | the widest row (or 0): an upper bound that is 0 or attained |
| VerticalLayouts.AddAppendsElement | src/VerticalLayout.cc:35-50 | all elements, row after row, are the old ones followed by the new one |
| VerticalLayouts.AddTouchesLastRow | src/VerticalLayout.cc:38-49 | `Add` appends to the last row (creating one first when there is none) and leaves every earlier row alone; only a newline space starts a new empty row |
| VerticalLayouts.AddKeepsWellBroken | src/VerticalLayout.cc:44-49 | rows built by `Add` end, all but the last, with their one line-breaking space |
| VerticalLayouts.NoRowsWellBroken | src/VerticalLayout.cc:52-56 | the empty layout and a single empty row are well broken |
| VerticalLayouts.RowsKeepMinimumGap | src/VerticalLayout.cc:62-70 | consecutive rows are at least rowSpacing apart, and leave at least rowMinSpacing between them |
| VerticalLayouts.ExitBaselineAboveBottom | src/VerticalLayout.cc:114-123 | the exit baseline plus the last row's depth is the depth of the layout's box |
| VerticalLayouts.EvenSpacing | src/VerticalLayout.cc:62-70 | when rowSpacing always suffices the rows are exactly rowSpacing apart |
| VerticalLayouts.VerticalLayout.SetSpacing | src/VerticalLayout.cc:28-33 | both spacings are stored and the rows are unchanged |
| VerticalLayouts.VerticalLayout.Add | src/VerticalLayout.cc:35-50 | the rows become `Added`, keeping the elements in order and the rows well broken |
| VerticalLayouts.VerticalLayout.RemoveAll | src/VerticalLayout.cc:52-56 | no rows are left |
| VerticalLayouts.VerticalLayout.SetPosition | src/VerticalLayout.cc:73-84 | row k is placed at x0 and at y0 plus the spacings of the rows above it |
| VerticalLayouts.VerticalLayout.GetBoundingBox | src/VerticalLayout.cc:86-101 | the first row's height, the widest row's width, the spacings plus the last row's depth |
| VerticalLayouts.VerticalLayout.GetExitBaseline | src/VerticalLayout.cc:114-123 | the sum of all spacings between rows |
| OperatorDictionaries.DefaultsOf | src/OperatorDictionary.cc:35-45 | the attribute list holds exactly the operator attributes the entry gives a non-empty value for |
| OperatorDictionaries.Lookup | src/OperatorDictionary.cc:154-160 | an unknown name has three null slots |
| OperatorDictionaries.NonEntryAddsNothing | src/OperatorDictionary.cc:80-84 | a child that is not an `operator` element with a name adds nothing |
| OperatorDictionaries.PrefixFreezesEntry | src/OperatorDictionary.cc:101-119 | once a name's prefix slot is set, loading more entries never changes that name |
| OperatorDictionaries.FirstPrefixWins | src/OperatorDictionary.cc:102-107 | the first prefix entry fills the slot and every later entry for the name is ignored |
| OperatorDictionaries.LaterFormOverwrites | src/OperatorDictionary.cc:108-119 | while the prefix slot is empty an infix or postfix entry overwrites its slot and nothing else |
| OperatorDictionaries.InvalidFormCreatesName | src/OperatorDictionary.cc:101-123 | an entry with an invalid form still creates the name, leaving its slots as they were |
| OperatorDictionaries.LoadedNames | src/OperatorDictionary.cc:79-131 | after loading, a name is known exactly when it was known before or some child is an `operator` entry with that name |
| OperatorDictionaries.OperatorDictionary.constructor | src/OperatorDictionary.cc:51-53 | a new dictionary is empty |
| OperatorDictionaries.OperatorDictionary.Load | src/OperatorDictionary.cc:62-137 | true exactly for a document with a root named `dictionary`, then the entries of its children are loaded in order; otherwise nothing changes |
| OperatorDictionaries.OperatorDictionary.Unload | src/OperatorDictionary.cc:141-144 | nothing changes |
| OperatorDictionaries.OperatorDictionary.Search | src/OperatorDictionary.cc:146-161 | three null slots for an unknown name, else exactly its stored slots |
| DrawingAreas.Merge | src/DrawingArea.cc:67-72 | each field comes from the given values when its mask bit is set and from the defaults otherwise |
| DrawingAreas.MergeExtremes | src/DrawingArea.cc:67-72 | the empty mask gives the defaults and the full mask the given values |
| DrawingAreas.BoxRectangle | src/DrawingArea.cc:114-119 | the rectangle of a box at (x, y) runs from its top, box.height above y, down to box.depth below y |
| DrawingAreas.OverlapsIsSymmetric | src/DrawingArea.cc:188-195 | the exposure test is symmetric in the two rectangles |
| DrawingAreas.OverlapsIffSharedPoint | src/DrawingArea.cc:188-195 | two rectangles of non-negative size overlap exactly when they share a point of their closed areas |
| DrawingAreas.DrawingArea.constructor | src/DrawingArea.cc:41-57 | size 0×0, cursor at the margins, origin (0, 0), the given defaults and selection colors, an empty pool |
| DrawingAreas.DrawingArea.GetGC | src/DrawingArea.cc:64-86 | a context with the merged values: the first pooled one with them, the pool unchanged, or else a new one appended; the pool keeps distinct values; size, cursor and event log unchanged |
| DrawingAreas.DrawingArea.ReleaseGCs | src/DrawingArea.cc:88-93 | the pool is empty; size, cursor and event log unchanged |
| DrawingAreas.DrawingArea.MoveTo | src/DrawingArea.cc:95-100 | the cursor moves to the point; size, pool and event log unchanged |
| DrawingAreas.DrawingArea.DrawLineTo | src/DrawingArea.cc:102-106 | a line from the cursor to the point is appended to the event log; size, cursor and pool unchanged |
| DrawingAreas.DrawingArea.DrawLineToDelta | src/DrawingArea.cc:108-112 | a line from the cursor by the offset is appended to the event log; size, cursor and pool unchanged |
| DrawingAreas.DrawingArea.DrawBox | src/DrawingArea.cc:114-119 | the box's rectangle is drawn, appended to the event log; size, cursor and pool unchanged |
| DrawingAreas.DrawingArea.ClearBox | src/DrawingArea.cc:151-156 | the box's rectangle is cleared, appended to the event log; size, cursor and pool unchanged |
| DrawingAreas.DrawingArea.SetSize | src/DrawingArea.cc:176-184 | with a non-zero width and height, both are stored; cursor, pool and event log unchanged |
| DrawingAreas.DrawingArea.Exposed | src/DrawingArea.cc:188-195 | true exactly when the rectangle overlaps the visible area on both axes, edges included |

## Left out

- Floating point: the Scale fractions and percentages are exact reals and their products are truncated exactly. Float rounding is not modelled.
- The float and double constructors, conversions and operators of `fixed.hh` are not modelled, nor `min()`/`max()` taken from `numeric_limits`. The `/=` operators are declared on a `const` reference, so these templates cannot be instantiated, and they are not modelled either.
- FixedPoint: the mantissa is unbounded, so the model has no 32-bit wrap-around and `ofInt(v).toInt() == v` holds for every v.
- The table's integer arithmetic overflows nowhere, because `scaled` is an unbounded integer here.
- TableInit.InitArgs: it requires the grid row and column counts, computed over the integers, to be positive. With a frame, zero rows give a legal one-row grid; with a frame or labels, zero columns still give a grid; the model covers both. Without a frame, zero rows make the unsigned `(hasFrame ? 2 : 0) + nRows * 2 - 1` wrap around to 2³² − 1 (and zero columns without a frame or labels do the same to the column count). These values pass `assert(nGridRows > 0)` and `assert(nGridColumns > 0)`, so the assertions never fire. What follows instead is the allocation of 2³² − 1 tracks and a wrapped cell count, which the model does not cover.
- TableGrid.Valid: besides the shape, it requires every element's row and column spans to be at least 1 and to fit inside the grid (`TableGrid.SpansFit`). `init` does not establish this and the code checks it nowhere: the spans come from the cell elements. InitTempWidths, InitTempHeights, SetCellPositions and Format (through `FormatArgs`) all require it. A span past the edge makes the code read `columns[j + n]` and `rows[i + n]` outside the vectors (MathMLTableFormatter.cc:358-365, 525-532, 698-702), and the model does not cover such grids.
- TableFormatters.TableFormatter.Format: it requires the `1 − sumScale` divisors and the scaled-column shares to be defined. With a pivot row, it and TableFormatters.TableFormatter.FormatAlign require the grid row that `format` computes to be a row of the grid, or, for Top alignment only, the index just past the last row (a framed table's row nRows + 1), which sums every row and reads none at the pivot. The grid row is computed modulo 2³², as the unsigned arithmetic of `format` does, so a row of −2³¹ on a framed table wraps to that index and is covered too. Every other pivot whose wrapped grid row falls outside the grid (row 0, for instance, wraps to 2³² − 2 or 2³² − 1) makes `alignTable` read `rows[rowNum]` outside the vector, and the model does not cover it. `PivotRow` takes the row and `nRows` as unbounded integers. For a 32-bit `row` and an unsigned `nRows`, it gives the unsigned value `format` computes.
- TableFormatters.TableFormatter.AlignTablePivot: it requires the same of `rowNum` (`TablePositions.PivotInGrid`), for the same reason.
- The `assert(false)` of the `switch` defaults of `alignTable` and `setCellPositions` is modelled as a requirement that the alignment is one they handle.
- The out-of-range read of `columns[i]` in `initTempWidths`, for a row index i past the last column, is modelled as a column that is not a content column.
- `formatLines`, the empty `formatCells` and the final `boxedLayout` call are not part of this model. `Format` returns the table's box and the list of (dx, dy, element) entries it would hand to `boxedLayout`.
- All `std::cerr` debug output is left out.
- Token and length resolution are taken as resolved inputs (`TableInit.TableAttributes`, and the `align`, pivot row and `axis` parameters of `Format`). This covers `ToTokenId`, `GetComponent`, `resolveLength`, `MGD()->evaluate` and `MGD()->axis`.
- Side is one of the four label sides. A label side token outside them is not modelled.
- The header `MathMLTableFormatter.hh` is not part of this model. Its defaults are taken as follows:
  - a new row or column is Auto, not a content track, with every length 0;
  - a new cell is null;
  - a new formatter holds empty vectors and a zero box.
- `Row::setHeight(scaled)` stands for two things here. In `init` it sets a fixed spec. In the height passes it sets the resolved height.
- Label cells sit in a Fit column that is not a content column, so `setCellPositions` never positions them. They keep displacement (0, 0), as in the code.
- TableWidths.WidthsTWithoutScale: it does not state that numCol equals nColumns for a grid `init` built. That follows from `TableInit.InitContentTracks`, but the count is not proved as a lemma.
- The `FastScopedHashMap` implementation is not part of this model. `ScopedMap` states the scope contract the formatting context relies on, and `Pop` requires a scope pushed earlier.
- The body of `addScriptLevel` is not part of this model, so `setScriptLevel` is modelled only up to the difference it hands on (`Formatting.FormattingContext.ScriptLevelDelta`).
- The element-valued accessors (`getStretchOperator`, the MathML element push, `MGD`) are left out, because their targets are not part of this model.
- DOM parsing, `MathMLParseFile`, DOM exceptions and logging of `OperatorDictionary.cc` are left out. A document is given as parsed records: a root that may be missing, its name, and its children with their node kind, name and attributes.
- The virtual drawing primitives of `DrawingArea` and the virtual `GetGC(v)` are modelled as events in a log, or as a new object.
- DrawingAreas.Merge: the mask bit values of the `GC_MASK_*` constants (1, 2, 4, 8) are assumed, because their header is not part of this model.
- `DrawBoundingBox`, `DrawString`, `Update`, the `Rectangle` overloads of `DrawRectangle` and `Clear`, and `GetLinearBoundingBox` are left out, because they only forward to primitives or to classes that are not part of this model.
- The `HorizontalLayout` rows of `VerticalLayout` are element lists. Their bounding boxes are given as a parameter, because `HorizontalLayout` is not part of this model.
- VerticalLayouts.Spacing: the first test of `GetRowSpacing` (`p0 + 1 == content.begin()`) can never hold, so only its end-of-rows test is modelled.
- The `VerticalLayout` constructor is not among the sources. The model starts with no rows and zero spacings.
