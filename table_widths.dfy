/** Column widths: the content width of a column, the temporary widths
    (single-column cells, then cells spanning several columns), and the final
    widths for equal columns (T) or for columns of their own width (F). Each
    pass is a function of the grid it starts from. */
module TableWidths {
  import opened Geometry
  import Scaled
  import opened TableGrid

  // Content width

  /** The element at (i, j) is in a content row and spans one column. */
  predicate CountsForWidth(g: Grid, i: int, j: int)
    requires Shaped(g)
  {
    HasElement(g, i, j) && g.rows[i].content && ElementAt(g, i, j).columnSpan == 1
  }

  /** `getColumnContentWidth(j)` over the first k rows. */
  function ContentWidthUpTo(g: Grid, j: int, k: nat): (w: int)
    requires Shaped(g) && 0 <= j < |g.columns| && k <= |g.rows|
    ensures w >= 0
  {
    if k == 0 then 0
    else
      var w := ContentWidthUpTo(g, j, k - 1);
      if CountsForWidth(g, k - 1, j) then Scaled.Max(w, ElementAt(g, k - 1, j).box.width) else w
  }

  /** The content width over the first k rows is 0 or the width of one of
      their single-column elements in a content row, and none is wider. */
  lemma {:induction false} ContentWidthIsMax(g: Grid, j: int, k: nat)
    requires Shaped(g) && 0 <= j < |g.columns| && k <= |g.rows|
    ensures forall i :: 0 <= i < k && CountsForWidth(g, i, j) ==> ElementAt(g, i, j).box.width <= ContentWidthUpTo(g, j, k)
    ensures var w := ContentWidthUpTo(g, j, k);
      w == 0 || exists i :: 0 <= i < k && CountsForWidth(g, i, j) && ElementAt(g, i, j).box.width == w
  {
    if k > 0 {
      ContentWidthIsMax(g, j, k - 1);
    }
  }

  /** The widest element of column j that lies in a content row and spans
      that column only, or 0 when there is none. */
  function ColumnContentWidth(g: Grid, j: int): int
    requires Shaped(g) && 0 <= j < |g.columns|
  {
    ContentWidthUpTo(g, j, |g.rows|)
  }

  lemma {:induction false} ContentWidthIgnoresColumns(g: Grid, cols: seq<Column>, j: int, k: nat)
    requires Shaped(g) && |cols| == |g.columns| && 0 <= j < |g.columns| && k <= |g.rows|
    ensures ContentWidthUpTo(g.(columns := cols), j, k) == ContentWidthUpTo(g, j, k)
  {
    if k > 0 {
      ContentWidthIgnoresColumns(g, cols, j, k - 1);
    }
  }

  // The temporary widths

  /** The first loop of `initTempWidths` on column j: a content column not of
      fixed width starts at its content width, a fixed column at its length,
      and a scaled non-content column at 0. */
  function TempWidthColumn(g: Grid, j: int): (c: Column)
    requires Shaped(g) && 0 <= j < |g.columns|
  {
    var c := g.columns[j];
    if c.content && !c.spec.Fix? then
      var w := ColumnContentWidth(g, j);
      c.(contentWidth := w, tempWidth := w)
    else if c.spec.Fix? then c.(tempWidth := c.spec.length)
    else if c.spec.Scale? && !c.content then c.(tempWidth := 0)
    else c
  }

  function FirstWidthPass(g: Grid): (cols: seq<Column>)
    requires Shaped(g)
    ensures SameColumnKinds(cols, g.columns)
  {
    seq(|g.columns|, j requires 0 <= j < |g.columns| => TempWidthColumn(g, j))
  }

  /** b is a with some temporary widths raised and nothing else changed. */
  predicate WidensTemp(a: seq<Column>, b: seq<Column>)
  {
    |a| == |b| &&
    forall z :: 0 <= z < |a| ==> b[z] == a[z].(tempWidth := b[z].tempWidth) && b[z].tempWidth >= a[z].tempWidth
  }

  lemma WidensTempTransitive(a: seq<Column>, b: seq<Column>, c: seq<Column>)
    requires WidensTemp(a, b) && WidensTemp(b, c)
    ensures WidensTemp(a, c)
  {
    forall z | 0 <= z < |a|
      ensures c[z] == a[z].(tempWidth := c[z].tempWidth) && c[z].tempWidth >= a[z].tempWidth
    {
      assert b[z] == a[z].(tempWidth := b[z].tempWidth);
    }
  }

  /** One spanning cell of width w over columns j .. j + s - 1: when the
      spanned temporary widths fall short of w, each spanned content column
      gets an even share of the shortfall, except that it is the spec of
      column j that is tested against fixed width. */
  function Distribute(cols: seq<Column>, j: nat, s: nat, w: int): (r: seq<Column>)
    requires 1 <= s && j + s <= |cols|
    ensures WidensTemp(cols, r)
  {
    var spanned := SumTempWidths(cols, j, j + s);
    if w > spanned then
      Scaled.TruncDivSign(w - spanned, s);
      var share := Scaled.TruncDiv(w - spanned, s);
      seq(|cols|, z requires 0 <= z < |cols| =>
        if j <= z < j + s && cols[z].content && !cols[j].spec.Fix?
        then cols[z].(tempWidth := cols[z].tempWidth + share)
        else cols[z])
    else cols
  }

  /** The test of the spanning loop for the cell at (i, j): it looks up the
      content flag of column i, the row index, and treats an index past the
      last column as not a content column. */
  predicate SpansColumns(g: Grid, cols: seq<Column>, i: int, j: int)
    requires Shaped(g)
  {
    HasElement(g, i, j) && g.rows[i].content && i < |cols| && cols[i].content &&
    ElementAt(g, i, j).columnSpan > 1
  }

  function SpanStep(g: Grid, cols: seq<Column>, i: int, j: int): (r: seq<Column>)
    requires Valid(g) && |cols| == |g.columns| && 0 <= i < |g.rows| && 0 <= j < |g.columns|
    ensures WidensTemp(cols, r)
  {
    if SpansColumns(g, cols, i, j) then
      var e := ElementAt(g, i, j);
      Distribute(cols, j, e.columnSpan, e.box.width)
    else cols
  }

  /** The spanning loop on column j, over the rows before i. */
  function SpanColumn(g: Grid, cols: seq<Column>, j: int, i: nat): (r: seq<Column>)
    requires Valid(g) && |cols| == |g.columns| && 0 <= j < |g.columns| && i <= |g.rows|
    ensures WidensTemp(cols, r)
  {
    if i == 0 then cols
    else
      var before := SpanColumn(g, cols, j, i - 1);
      var r := SpanStep(g, before, i - 1, j);
      WidensTempTransitive(cols, before, r);
      r
  }

  /** The spanning loop over the columns before j. */
  function SpanColumns(g: Grid, cols: seq<Column>, j: nat): (r: seq<Column>)
    requires Valid(g) && |cols| == |g.columns| && j <= |g.columns|
    ensures WidensTemp(cols, r)
  {
    if j == 0 then cols
    else
      var before := SpanColumns(g, cols, j - 1);
      var r := SpanColumn(g, before, j - 1, |g.rows|);
      WidensTempTransitive(cols, before, r);
      r
  }

  /** The columns after `initTempWidths`. */
  function TempWidths(g: Grid): (cols: seq<Column>)
    requires Valid(g)
    ensures WidensTemp(FirstWidthPass(g), cols)
  {
    SpanColumns(g, FirstWidthPass(g), |g.columns|)
  }

  /** After `initTempWidths` a content column not of fixed width records its
      content width, and its temporary width is at least that width; a fixed
      column's temporary width is at least its length; spans only ever
      raised temporary widths. */
  lemma TempWidthsBounds(g: Grid, j: int)
    requires Valid(g) && 0 <= j < |g.columns|
    ensures SameColumnKinds(TempWidths(g), g.columns)
    ensures var c := TempWidths(g)[j];
      c.width == g.columns[j].width && c.displacement == g.columns[j].displacement &&
      (g.columns[j].content && !g.columns[j].spec.Fix? ==>
        c.contentWidth == ColumnContentWidth(g, j) && c.tempWidth >= ColumnContentWidth(g, j)) &&
      (g.columns[j].spec.Fix? ==> c.tempWidth >= g.columns[j].spec.length)
  {
    assert FirstWidthPass(g)[j] == TempWidthColumn(g, j);
  }

  /** A spanning loop that meets no cell spanning several columns changes
      nothing. */
  lemma {:induction false} NoSpanColumn(g: Grid, cols: seq<Column>, j: int, i: nat)
    requires Valid(g) && |cols| == |g.columns| && 0 <= j < |g.columns| && i <= |g.rows|
    requires forall i, j :: HasElement(g, i, j) ==> ElementAt(g, i, j).columnSpan <= 1
    ensures SpanColumn(g, cols, j, i) == cols
  {
    if i > 0 {
      NoSpanColumn(g, cols, j, i - 1);
    }
  }

  lemma {:induction false} NoSpanColumns(g: Grid, cols: seq<Column>, j: nat)
    requires Valid(g) && |cols| == |g.columns| && j <= |g.columns|
    requires forall i, j :: HasElement(g, i, j) ==> ElementAt(g, i, j).columnSpan <= 1
    ensures SpanColumns(g, cols, j) == cols
  {
    if j > 0 {
      NoSpanColumns(g, cols, j - 1);
      NoSpanColumn(g, cols, j - 1, |g.rows|);
    }
  }

  /** Without cells spanning several columns, every content column not of
      fixed width leaves `initTempWidths` with its content width as
      temporary width. */
  lemma NoSpanningTempIsContent(g: Grid, j: int)
    requires Valid(g) && 0 <= j < |g.columns|
    requires forall i, j :: HasElement(g, i, j) ==> ElementAt(g, i, j).columnSpan <= 1
    ensures TempWidths(g) == FirstWidthPass(g)
    ensures g.columns[j].content && !g.columns[j].spec.Fix? ==>
      TempWidths(g)[j].tempWidth == TempWidths(g)[j].contentWidth == ColumnContentWidth(g, j)
  {
    NoSpanColumns(g, FirstWidthPass(g), |g.columns|);
    assert FirstWidthPass(g)[j] == TempWidthColumn(g, j);
  }

  // Equal columns (T)

  function CountContent(cols: seq<Column>, k: nat): (n: nat)
    requires k <= |cols|
    ensures n <= k
    ensures (exists j :: 0 <= j < k && cols[j].content) ==> n > 0
  {
    if k == 0 then 0 else CountContent(cols, k - 1) + (if cols[k - 1].content then 1 else 0)
  }

  /** The largest content width among the content columns before k. */
  function MaxContentWidth(g: Grid, k: nat): (m: int)
    requires Shaped(g) && k <= |g.columns|
    ensures m >= 0
  {
    if k == 0 then 0
    else if g.columns[k - 1].content then Scaled.Max(MaxContentWidth(g, k - 1), ColumnContentWidth(g, k - 1))
    else MaxContentWidth(g, k - 1)
  }

  /** The largest content width over the content columns before k bounds
      each of them and is 0 or attained by one. */
  lemma {:induction false} MaxContentWidthIsMax(g: Grid, k: nat)
    requires Shaped(g) && k <= |g.columns|
    ensures forall j :: 0 <= j < k && g.columns[j].content ==> ColumnContentWidth(g, j) <= MaxContentWidth(g, k)
    ensures var m := MaxContentWidth(g, k);
      m == 0 || exists j :: 0 <= j < k && g.columns[j].content && ColumnContentWidth(g, j) == m
  {
    if k > 0 {
      MaxContentWidthIsMax(g, k - 1);
    }
  }

  /** The lengths of the fixed columns that are not content columns. */
  function SumFixT(cols: seq<Column>, k: nat): int
    requires k <= |cols|
  {
    if k == 0 then 0
    else SumFixT(cols, k - 1) + (if !cols[k - 1].content && cols[k - 1].spec.Fix? then cols[k - 1].spec.length else 0)
  }

  /** The fractions of the scaled columns that are not content columns. */
  function SumScaleT(cols: seq<Column>, k: nat): real
    requires k <= |cols|
  {
    if k == 0 then 0.0
    else SumScaleT(cols, k - 1) + (if !cols[k - 1].content && cols[k - 1].spec.Scale? then cols[k - 1].spec.fraction else 0.0)
  }

  /** The scale fractions leave room for the rest: the divisor of the table
      width is not zero. */
  predicate WidthDivisorT(cols: seq<Column>)
  {
    SumScaleT(cols, |cols|) != 1.0
  }

  /** `calcTableWidthT`: every content column as wide as the widest, plus
      the fixed columns, stretched by the scaled columns' share. */
  function TableWidthT(g: Grid): int
    requires Shaped(g) && WidthDivisorT(g.columns)
  {
    var n := |g.columns|;
    Scaled.DivFraction(CountContent(g.columns, n) * MaxContentWidth(g, n) + SumFixT(g.columns, n),
                       1.0 - SumScaleT(g.columns, n))
  }

  /** The width left to the content columns in `initWidthsT`. */
  function AvailableWidthT(g: Grid): int
    requires Shaped(g) && WidthDivisorT(g.columns)
  {
    var tw := TableWidthT(g);
    tw - (SumFixT(g.columns, |g.columns|) + Scaled.MulFraction(tw, SumScaleT(g.columns, |g.columns|)))
  }

  function WidthColumnT(g: Grid, j: int): (c: Column)
    requires Shaped(g) && WidthDivisorT(g.columns) && 0 <= j < |g.columns|
    ensures c == g.columns[j].(width := c.width)
    ensures g.columns[j].content ==>
      c.width == Scaled.TruncDiv(AvailableWidthT(g), CountContent(g.columns, |g.columns|))
  {
    var c := g.columns[j];
    if c.content then
      c.(width := Scaled.TruncDiv(AvailableWidthT(g), CountContent(g.columns, |g.columns|)))
    else if c.spec.Fix? then c.(width := c.spec.length)
    else if c.spec.Scale? then c.(width := Scaled.MulFraction(TableWidthT(g), c.spec.fraction))
    else c
  }

  /** The columns after `initWidthsT`. */
  function WidthsT(g: Grid): seq<Column>
    requires Shaped(g) && WidthDivisorT(g.columns)
  {
    seq(|g.columns|, j requires 0 <= j < |g.columns| => WidthColumnT(g, j))
  }

  /** No column other than a content column is scaled. */
  predicate NoScaleT(cols: seq<Column>)
  {
    forall j :: 0 <= j < |cols| && !cols[j].content ==> !cols[j].spec.Scale?
  }

  lemma {:induction false} NoScaleSumT(cols: seq<Column>, k: nat)
    requires k <= |cols| && NoScaleT(cols)
    ensures SumScaleT(cols, k) == 0.0
  {
    if k > 0 {
      NoScaleSumT(cols, k - 1);
    }
  }

  /** The widths of the content and the fixed columns. */
  function SumContentFixWidths(cols: seq<Column>, k: nat): int
    requires k <= |cols|
  {
    if k == 0 then 0
    else SumContentFixWidths(cols, k - 1) + (if cols[k - 1].content || cols[k - 1].spec.Fix? then cols[k - 1].width else 0)
  }

  lemma {:induction false} SumContentFixT(ws: seq<Column>, cs: seq<Column>, k: nat, m: int)
    requires SameColumnKinds(ws, cs) && k <= |cs|
    requires forall j :: 0 <= j < |cs| && cs[j].content ==> ws[j].width == m
    requires forall j :: 0 <= j < |cs| && !cs[j].content && cs[j].spec.Fix? ==> ws[j].width == cs[j].spec.length
    ensures SumContentFixWidths(ws, k) == CountContent(cs, k) * m + SumFixT(cs, k)
  {
    if k > 0 {
      SumContentFixT(ws, cs, k - 1, m);
      var n := CountContent(cs, k - 1);
      assert (n + 1) * m == n * m + m;
    }
  }

  /** Without scaled columns besides the content columns, the table width
      and the width left to the content columns are the plain sums. */
  lemma TableWidthTNoScale(g: Grid)
    requires Shaped(g) && NoScaleT(g.columns)
    ensures WidthDivisorT(g.columns)
    ensures var n := |g.columns|;
      TableWidthT(g) == CountContent(g.columns, n) * MaxContentWidth(g, n) + SumFixT(g.columns, n) &&
      AvailableWidthT(g) == CountContent(g.columns, n) * MaxContentWidth(g, n)
  {
    var n := |g.columns|;
    NoScaleSumT(g.columns, n);
    var x := CountContent(g.columns, n) * MaxContentWidth(g, n) + SumFixT(g.columns, n);
    assert 1.0 - SumScaleT(g.columns, n) == 1.0;
    Scaled.DivByOne(x);
    Scaled.MulByZero(TableWidthT(g));
  }

  /** Without scaled columns besides the content columns, every content
      column is as wide as the widest content. */
  lemma ContentWidthTNoScale(g: Grid, j: int)
    requires Shaped(g) && NoScaleT(g.columns) && 0 <= j < |g.columns| && g.columns[j].content
    ensures WidthDivisorT(g.columns) && WidthsT(g)[j].width == MaxContentWidth(g, |g.columns|)
  {
    var n := |g.columns|;
    TableWidthTNoScale(g);
    var m := MaxContentWidth(g, n);
    var c := CountContent(g.columns, n);
    assert c > 0 by { assert 0 <= j < n && g.columns[j].content; }
    var w := WidthColumnT(g, j);
    assert w.width == Scaled.TruncDiv(c * m, c);
    ExactShare(m, c);
    assert WidthsT(g)[j] == w;
  }

  /** An exact product divided by its factor. */
  lemma ExactShare(m: int, c: int)
    requires c > 0
    ensures Scaled.TruncDiv(c * m, c) == m
  {
    assert c * m == m * c;
    Scaled.TruncDivExact(m, c);
  }

  /** With equal columns and no scaled column besides content columns, the
      table is as wide as its content columns, each as wide as the widest
      content, plus its fixed columns: the content and fixed widths add up to
      the table width. */
  lemma WidthsTWithoutScale(g: Grid)
    requires Shaped(g) && NoScaleT(g.columns)
    ensures WidthDivisorT(g.columns)
    ensures TableWidthT(g) ==
      CountContent(g.columns, |g.columns|) * MaxContentWidth(g, |g.columns|) + SumFixT(g.columns, |g.columns|)
    ensures forall j :: 0 <= j < |g.columns| && g.columns[j].content ==>
      WidthsT(g)[j].width == MaxContentWidth(g, |g.columns|)
    ensures forall j :: 0 <= j < |g.columns| && !g.columns[j].content && g.columns[j].spec.Fix? ==>
      WidthsT(g)[j].width == g.columns[j].spec.length
    ensures SumContentFixWidths(WidthsT(g), |g.columns|) == TableWidthT(g)
  {
    var n := |g.columns|;
    TableWidthTNoScale(g);
    var m := MaxContentWidth(g, n);
    forall j | 0 <= j < n && g.columns[j].content
      ensures WidthsT(g)[j].width == m
    {
      ContentWidthTNoScale(g, j);
    }
    forall j | 0 <= j < n && !g.columns[j].content && g.columns[j].spec.Fix?
      ensures WidthsT(g)[j].width == g.columns[j].spec.length
    {
      assert WidthsT(g)[j] == WidthColumnT(g, j);
    }
    assert SameColumnKinds(WidthsT(g), g.columns) by {
      forall j | 0 <= j < n
        ensures WidthsT(g)[j].spec == g.columns[j].spec && WidthsT(g)[j].content == g.columns[j].content
      {
        assert WidthsT(g)[j] == WidthColumnT(g, j);
      }
    }
    SumContentFixT(WidthsT(g), g.columns, n, m);
  }

  // Columns of their own width (F)

  /** A content column of neither fixed nor scaled width. */
  predicate Plain(c: Column)
  {
    c.content && !c.spec.Fix? && !c.spec.Scale?
  }

  /** The content width of a scaled content column is divided by its
      fraction, which therefore is not zero. */
  predicate ScaleSharesDefined(cols: seq<Column>)
  {
    forall j :: 0 <= j < |cols| && cols[j].content && cols[j].spec.Scale? ==> cols[j].spec.fraction != 0.0
  }

  /** The largest table width a scaled content column asks for. */
  function MaxScaleShare(g: Grid, k: nat): (m: int)
    requires Shaped(g) && k <= |g.columns| && ScaleSharesDefined(g.columns)
    ensures m >= 0
    ensures forall j :: 0 <= j < k && g.columns[j].content && g.columns[j].spec.Scale? ==>
      Scaled.DivFraction(ColumnContentWidth(g, j), g.columns[j].spec.fraction) <= m
  {
    if k == 0 then 0
    else
      var c := g.columns[k - 1];
      if c.content && c.spec.Scale?
      then Scaled.Max(MaxScaleShare(g, k - 1), Scaled.DivFraction(ColumnContentWidth(g, k - 1), c.spec.fraction))
      else MaxScaleShare(g, k - 1)
  }

  function SumCont(cols: seq<Column>, k: nat): int
    requires k <= |cols|
  {
    if k == 0 then 0 else SumCont(cols, k - 1) + (if Plain(cols[k - 1]) then cols[k - 1].tempWidth else 0)
  }

  function CountPlain(cols: seq<Column>, k: nat): (n: nat)
    requires k <= |cols|
    ensures (exists j :: 0 <= j < k && Plain(cols[j])) ==> n > 0
  {
    if k == 0 then 0 else CountPlain(cols, k - 1) + (if Plain(cols[k - 1]) then 1 else 0)
  }

  function SumFixF(cols: seq<Column>, k: nat): int
    requires k <= |cols|
  {
    if k == 0 then 0 else SumFixF(cols, k - 1) + (if cols[k - 1].spec.Fix? then cols[k - 1].spec.length else 0)
  }

  function SumScaleF(cols: seq<Column>, k: nat): real
    requires k <= |cols|
  {
    if k == 0 then 0.0 else SumScaleF(cols, k - 1) + (if cols[k - 1].spec.Scale? then cols[k - 1].spec.fraction else 0.0)
  }

  predicate WidthDivisorsF(cols: seq<Column>)
  {
    ScaleSharesDefined(cols) && SumScaleF(cols, |cols|) != 1.0
  }

  /** `calcTableWidthF`: the larger of what the scaled content columns ask
      for and the plain and fixed columns stretched by the scaled share. */
  function TableWidthF(g: Grid): int
    requires Shaped(g) && WidthDivisorsF(g.columns)
  {
    var n := |g.columns|;
    Scaled.Max(MaxScaleShare(g, n),
               Scaled.DivFraction(SumCont(g.columns, n) + SumFixF(g.columns, n), 1.0 - SumScaleF(g.columns, n)))
  }

  /** The width `initWidthsF` spreads over the plain columns. */
  function ExtraWidthF(g: Grid): int
    requires Shaped(g) && WidthDivisorsF(g.columns)
  {
    var tw := TableWidthF(g);
    var n := |g.columns|;
    tw - (SumFixF(g.columns, n) + Scaled.MulFraction(tw, SumScaleF(g.columns, n))) - SumCont(g.columns, n)
  }

  /** A plain column gets its content width (not its temporary width) plus
      an even share of the extra width. */
  function WidthColumnF(g: Grid, j: int): (c: Column)
    requires Shaped(g) && WidthDivisorsF(g.columns) && 0 <= j < |g.columns|
    ensures c == g.columns[j].(width := c.width)
  {
    var c := g.columns[j];
    if Plain(c) then
      c.(width := c.contentWidth + Scaled.TruncDiv(ExtraWidthF(g), CountPlain(g.columns, |g.columns|)))
    else if c.spec.Fix? then c.(width := c.spec.length)
    else if c.spec.Scale? then c.(width := Scaled.MulFraction(TableWidthF(g), c.spec.fraction))
    else c
  }

  /** The columns after `initWidthsF`. */
  function WidthsF(g: Grid): seq<Column>
    requires Shaped(g) && WidthDivisorsF(g.columns)
  {
    seq(|g.columns|, j requires 0 <= j < |g.columns| => WidthColumnF(g, j))
  }

  predicate NoScale(cols: seq<Column>)
  {
    forall j :: 0 <= j < |cols| ==> !cols[j].spec.Scale?
  }

  lemma {:induction false} NoScaleSumF(g: Grid, k: nat)
    requires Shaped(g) && k <= |g.columns| && NoScale(g.columns)
    ensures SumScaleF(g.columns, k) == 0.0 && MaxScaleShare(g, k) == 0
  {
    if k > 0 {
      NoScaleSumF(g, k - 1);
    }
  }

  /** The widths of the plain and the fixed columns. */
  function SumPlainFixWidths(cols: seq<Column>, k: nat): int
    requires k <= |cols|
  {
    if k == 0 then 0
    else SumPlainFixWidths(cols, k - 1) + (if Plain(cols[k - 1]) || cols[k - 1].spec.Fix? then cols[k - 1].width else 0)
  }

  /** What spanning cells added to the plain columns beyond their content
      widths. */
  function SpanSlack(cols: seq<Column>, k: nat): int
    requires k <= |cols|
  {
    if k == 0 then 0
    else SpanSlack(cols, k - 1) + (if Plain(cols[k - 1]) then cols[k - 1].tempWidth - cols[k - 1].contentWidth else 0)
  }

  lemma {:induction false} SumPlainFixF(g: Grid, k: nat)
    requires Shaped(g) && WidthDivisorsF(g.columns) && k <= |g.columns|
    requires forall j :: 0 <= j < |g.columns| && Plain(g.columns[j]) ==> WidthsF(g)[j].width == g.columns[j].contentWidth
    ensures SumPlainFixWidths(WidthsF(g), k) + SpanSlack(g.columns, k) == SumCont(g.columns, k) + SumFixF(g.columns, k)
  {
    if k > 0 {
      SumPlainFixF(g, k - 1);
      assert WidthsF(g)[k - 1] == WidthColumnF(g, k - 1);
    }
  }

  /** Without scaled columns (and with a table width that is not negative),
      the table is as wide as the temporary widths of the plain columns and
      the fixed lengths, there is no extra width, every plain column gets
      exactly its content width, and the column widths add up to the table
      width less whatever spanning cells added to temporary widths. */
  lemma WidthsFWithoutScale(g: Grid)
    requires Shaped(g) && NoScale(g.columns)
    requires SumCont(g.columns, |g.columns|) + SumFixF(g.columns, |g.columns|) >= 0
    ensures WidthDivisorsF(g.columns)
    ensures TableWidthF(g) == SumCont(g.columns, |g.columns|) + SumFixF(g.columns, |g.columns|)
    ensures ExtraWidthF(g) == 0
    ensures forall j :: 0 <= j < |g.columns| && Plain(g.columns[j]) ==>
      WidthsF(g)[j].width == g.columns[j].contentWidth
    ensures forall j :: 0 <= j < |g.columns| && g.columns[j].spec.Fix? ==>
      WidthsF(g)[j].width == g.columns[j].spec.length
    ensures SumPlainFixWidths(WidthsF(g), |g.columns|) + SpanSlack(g.columns, |g.columns|) == TableWidthF(g)
  {
    var n := |g.columns|;
    NoScaleSumF(g, n);
    var x := SumCont(g.columns, n) + SumFixF(g.columns, n);
    assert 1.0 - SumScaleF(g.columns, n) == 1.0;
    Scaled.DivByOne(x);
    Scaled.MulByZero(TableWidthF(g));
    forall j | 0 <= j < n && Plain(g.columns[j])
      ensures WidthsF(g)[j].width == g.columns[j].contentWidth
    {
      assert WidthsF(g)[j] == WidthColumnF(g, j);
      assert Scaled.TruncDiv(0, CountPlain(g.columns, n)) == 0;
    }
    forall j | 0 <= j < n && g.columns[j].spec.Fix?
      ensures WidthsF(g)[j].width == g.columns[j].spec.length
    {
      assert WidthsF(g)[j] == WidthColumnF(g, j);
    }
    SumPlainFixF(g, n);
  }

  lemma {:induction false} NoSlack(cols: seq<Column>, k: nat)
    requires k <= |cols|
    requires forall j :: 0 <= j < |cols| && Plain(cols[j]) ==> cols[j].tempWidth == cols[j].contentWidth
    ensures SpanSlack(cols, k) == 0
  {
    if k > 0 {
      NoSlack(cols, k - 1);
    }
  }

  /** Without spanning and without scaled columns, the widths that
      `initTempWidths` and then `initWidthsF` give add up to the table
      width. */
  lemma WidthsFAddUp(g: Grid)
    requires Valid(g) && NoScale(g.columns)
    requires forall i, j :: HasElement(g, i, j) ==> ElementAt(g, i, j).columnSpan <= 1
    requires forall j :: 0 <= j < |g.columns| && g.columns[j].spec.Fix? ==> g.columns[j].spec.length >= 0
    ensures var t := g.(columns := TempWidths(g));
      WidthDivisorsF(t.columns) && SumPlainFixWidths(WidthsF(t), |t.columns|) == TableWidthF(t)
  {
    var t := g.(columns := TempWidths(g));
    forall j | 0 <= j < |g.columns|
      ensures Plain(t.columns[j]) ==> t.columns[j].tempWidth == t.columns[j].contentWidth
      ensures t.columns[j].spec == g.columns[j].spec
    {
      NoSpanningTempIsContent(g, j);
      TempWidthsBounds(g, j);
    }
    NoSlack(t.columns, |t.columns|);
    SumsNonNegative(t.columns, |t.columns|);
    WidthsFWithoutScale(t);
  }

  lemma {:induction false} SumsNonNegative(cols: seq<Column>, k: nat)
    requires k <= |cols|
    requires forall j :: 0 <= j < |cols| && Plain(cols[j]) ==> cols[j].tempWidth >= 0
    requires forall j :: 0 <= j < |cols| && cols[j].spec.Fix? ==> cols[j].spec.length >= 0
    ensures SumCont(cols, k) >= 0 && SumFixF(cols, k) >= 0
  {
    if k > 0 {
      SumsNonNegative(cols, k - 1);
    }
  }
}
