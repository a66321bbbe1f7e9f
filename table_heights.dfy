/** Row heights and depths: the temporary extents (baseline-aligned cells,
    then the other single-row cells, then spanning cells), and the final
    heights and depths for equal rows (T) or for rows of their own extent
    (F). Each pass is a function of the rows it starts from and the cells. */
module TableHeights {
  import opened Wrappers
  import opened Geometry
  import Scaled
  import opened TableGrid

  // The temporary extents

  /** A baseline-aligned element spanning one row at (i, j). */
  predicate BaselineCell(g: Grid, i: int, j: int)
    requires Shaped(g)
  {
    HasElement(g, i, j) && ElementAt(g, i, j).rowSpan == 1 && ElementAt(g, i, j).rowAlign == Baseline
  }

  /** An element spanning one row at (i, j) not aligned on the baseline. */
  predicate OtherAlignedCell(g: Grid, i: int, j: int)
    requires Shaped(g)
  {
    HasElement(g, i, j) && ElementAt(g, i, j).rowSpan == 1 && ElementAt(g, i, j).rowAlign != Baseline
  }

  /** The largest height of a baseline cell among the first k of row i. */
  function MaxCellHeight(g: Grid, i: int, k: nat): (h: int)
    requires Shaped(g) && 0 <= i < |g.rows| && k <= |g.columns|
    ensures h >= 0
    ensures forall j :: 0 <= j < k && BaselineCell(g, i, j) ==> ElementAt(g, i, j).box.height <= h
    ensures h == 0 || exists j :: 0 <= j < k && BaselineCell(g, i, j) && ElementAt(g, i, j).box.height == h
  {
    if k == 0 then 0
    else if BaselineCell(g, i, k - 1) then Scaled.Max(MaxCellHeight(g, i, k - 1), ElementAt(g, i, k - 1).box.height)
    else MaxCellHeight(g, i, k - 1)
  }

  function MaxCellDepth(g: Grid, i: int, k: nat): (d: int)
    requires Shaped(g) && 0 <= i < |g.rows| && k <= |g.columns|
    ensures d >= 0
    ensures forall j :: 0 <= j < k && BaselineCell(g, i, j) ==> ElementAt(g, i, j).box.depth <= d
    ensures d == 0 || exists j :: 0 <= j < k && BaselineCell(g, i, j) && ElementAt(g, i, j).box.depth == d
  {
    if k == 0 then 0
    else if BaselineCell(g, i, k - 1) then Scaled.Max(MaxCellDepth(g, i, k - 1), ElementAt(g, i, k - 1).box.depth)
    else MaxCellDepth(g, i, k - 1)
  }

  /** The first loop of `initTempHeights` on row i: a fixed row starts at
      its length and no depth, a scaled row at nothing, and any other
      content row at the largest height and depth of its baseline cells. */
  function TempHeightRow(g: Grid, i: int): Row
    requires Shaped(g) && 0 <= i < |g.rows|
  {
    var r := g.rows[i];
    if r.spec.Fix? then r.(tempHeight := r.spec.length, tempDepth := 0)
    else if r.spec.Scale? then r.(tempHeight := 0, tempDepth := 0)
    else if r.content then r.(tempHeight := MaxCellHeight(g, i, |g.columns|), tempDepth := MaxCellDepth(g, i, |g.columns|))
    else r
  }

  function FirstHeightPass(g: Grid): (rows: seq<Row>)
    requires Shaped(g)
    ensures SameRowKinds(rows, g.rows)
  {
    seq(|g.rows|, i requires 0 <= i < |g.rows| => TempHeightRow(g, i))
  }

  /** b is a with the temporary depths of some content rows raised and
      nothing else changed. */
  predicate DeepensTemp(a: seq<Row>, b: seq<Row>)
  {
    |a| == |b| &&
    forall z :: 0 <= z < |a| ==>
      b[z] == a[z].(tempDepth := b[z].tempDepth) && b[z].tempDepth >= a[z].tempDepth &&
      (!a[z].content ==> b[z] == a[z])
  }

  lemma DeepensTempTransitive(a: seq<Row>, b: seq<Row>, c: seq<Row>)
    requires DeepensTemp(a, b) && DeepensTemp(b, c)
    ensures DeepensTemp(a, c)
  {
    forall z | 0 <= z < |a|
      ensures c[z] == a[z].(tempDepth := c[z].tempDepth) && c[z].tempDepth >= a[z].tempDepth
      ensures !a[z].content ==> c[z] == a[z]
    {
      assert b[z] == a[z].(tempDepth := b[z].tempDepth);
    }
  }

  /** The second loop on row r (at index i), over its first k cells: each
      element not on the baseline that is taller than the row deepens it. */
  function RaiseDepth(g: Grid, r: Row, i: int, k: nat): (r': Row)
    requires Shaped(g) && 0 <= i < |g.rows| && k <= |g.columns|
    ensures r' == r.(tempDepth := r'.tempDepth) && r'.tempDepth >= r.tempDepth
    ensures forall j :: 0 <= j < k && OtherAlignedCell(g, i, j) ==>
      ElementAt(g, i, j).box.VerticalExtent() <= r'.TempExtent()
  {
    if k == 0 then r
    else
      var before := RaiseDepth(g, r, i, k - 1);
      if OtherAlignedCell(g, i, k - 1) && before.TempExtent() < ElementAt(g, i, k - 1).box.VerticalExtent()
      then before.(tempDepth := ElementAt(g, i, k - 1).box.VerticalExtent() - before.tempHeight)
      else before
  }

  function SecondHeightPass(g: Grid, rows: seq<Row>): (r: seq<Row>)
    requires Shaped(g) && |rows| == |g.rows|
    ensures DeepensTemp(rows, r)
  {
    seq(|rows|, i requires 0 <= i < |rows| =>
      if rows[i].content then RaiseDepth(g, rows[i], i, |g.columns|) else rows[i])
  }

  /** One spanning cell of extent hd over rows i .. i + s - 1: when the
      spanned temporary extents fall short, each spanned content row gets an
      even share of the shortfall as extra depth. */
  function DistributeDepth(rows: seq<Row>, i: nat, s: nat, hd: int): (r: seq<Row>)
    requires 1 <= s && i + s <= |rows|
    ensures DeepensTemp(rows, r)
  {
    var spanned := SumTempExtents(rows, i, i + s);
    if hd > spanned then
      Scaled.TruncDivSign(hd - spanned, s);
      var share := Scaled.TruncDiv(hd - spanned, s);
      seq(|rows|, z requires 0 <= z < |rows| =>
        if i <= z < i + s && rows[z].content then rows[z].(tempDepth := rows[z].tempDepth + share) else rows[z])
    else rows
  }

  /** The test of the third loop for the cell at (i, j): a content column and
      an element that spans several columns, although the depth is spread
      over the rows it spans. */
  predicate SpansRows(g: Grid, i: int, j: int)
    requires Shaped(g)
  {
    HasElement(g, i, j) && g.columns[j].content && ElementAt(g, i, j).columnSpan > 1
  }

  function RowSpanStep(g: Grid, rows: seq<Row>, i: int, j: int): (r: seq<Row>)
    requires Valid(g) && |rows| == |g.rows| && 0 <= i < |g.rows| && 0 <= j < |g.columns|
    ensures DeepensTemp(rows, r)
  {
    if SpansRows(g, i, j) then
      var e := ElementAt(g, i, j);
      DistributeDepth(rows, i, e.rowSpan, e.box.VerticalExtent())
    else rows
  }

  /** The third loop on row i, over its first k cells. */
  function RowSpanRow(g: Grid, rows: seq<Row>, i: int, k: nat): (r: seq<Row>)
    requires Valid(g) && |rows| == |g.rows| && 0 <= i < |g.rows| && k <= |g.columns|
    ensures DeepensTemp(rows, r)
  {
    if k == 0 then rows
    else
      var before := RowSpanRow(g, rows, i, k - 1);
      var r := RowSpanStep(g, before, i, k - 1);
      DeepensTempTransitive(rows, before, r);
      r
  }

  /** The third loop over the first k rows. */
  function RowSpanRows(g: Grid, rows: seq<Row>, k: nat): (r: seq<Row>)
    requires Valid(g) && |rows| == |g.rows| && k <= |g.rows|
    ensures DeepensTemp(rows, r)
  {
    if k == 0 then rows
    else
      var before := RowSpanRows(g, rows, k - 1);
      var r := RowSpanRow(g, before, k - 1, |g.columns|);
      DeepensTempTransitive(rows, before, r);
      r
  }

  /** The rows after `initTempHeights`. */
  function TempHeights(g: Grid): (rows: seq<Row>)
    requires Valid(g)
    ensures DeepensTemp(SecondHeightPass(g, FirstHeightPass(g)), rows)
  {
    RowSpanRows(g, SecondHeightPass(g, FirstHeightPass(g)), |g.rows|)
  }

  /** After `initTempHeights` a content row that is neither fixed nor scaled
      is as high as its tallest baseline cell and at least as deep as its
      deepest one, and it is at least as tall overall as every other
      single-row element in it; a fixed row not holding content is its
      length high and has no depth, a scaled one has no extent; the first
      loop alone decides the temporary heights. */
  lemma TempHeightsBounds(g: Grid, i: int)
    requires Valid(g) && 0 <= i < |g.rows|
    ensures SameRowKinds(TempHeights(g), g.rows)
    ensures var r := TempHeights(g)[i];
      r.height == g.rows[i].height && r.depth == g.rows[i].depth && r.displacement == g.rows[i].displacement &&
      r.tempHeight == FirstHeightPass(g)[i].tempHeight &&
      (g.rows[i].content && !g.rows[i].spec.Fix? && !g.rows[i].spec.Scale? ==>
        r.tempHeight == MaxCellHeight(g, i, |g.columns|) && r.tempDepth >= MaxCellDepth(g, i, |g.columns|) &&
        forall j :: 0 <= j < |g.columns| && OtherAlignedCell(g, i, j) ==>
          ElementAt(g, i, j).box.VerticalExtent() <= r.TempExtent()) &&
      (g.rows[i].content ==> r.tempDepth >= FirstHeightPass(g)[i].tempDepth) &&
      (!g.rows[i].content && g.rows[i].spec.Fix? ==> r.tempHeight == g.rows[i].spec.length && r.tempDepth == 0) &&
      (!g.rows[i].content && g.rows[i].spec.Scale? ==> r.tempHeight == 0 && r.tempDepth == 0)
  {
    var first := FirstHeightPass(g);
    var second := SecondHeightPass(g, first);
    assert first[i] == TempHeightRow(g, i);
    assert TempHeights(g)[i] == second[i].(tempDepth := TempHeights(g)[i].tempDepth);
    if g.rows[i].content {
      assert second[i] == RaiseDepth(g, first[i], i, |g.columns|);
    }
  }

  /** The third loop never meets an element spanning one column, whatever
      its row span: without cells spanning several columns it changes
      nothing. */
  lemma {:induction false} NoColumnSpanRow(g: Grid, rows: seq<Row>, i: int, k: nat)
    requires Valid(g) && |rows| == |g.rows| && 0 <= i < |g.rows| && k <= |g.columns|
    requires forall i, j :: HasElement(g, i, j) ==> ElementAt(g, i, j).columnSpan <= 1
    ensures RowSpanRow(g, rows, i, k) == rows
  {
    if k > 0 {
      NoColumnSpanRow(g, rows, i, k - 1);
    }
  }

  lemma {:induction false} NoColumnSpanRows(g: Grid, rows: seq<Row>, k: nat)
    requires Valid(g) && |rows| == |g.rows| && k <= |g.rows|
    requires forall i, j :: HasElement(g, i, j) ==> ElementAt(g, i, j).columnSpan <= 1
    ensures RowSpanRows(g, rows, k) == rows
  {
    if k > 0 {
      NoColumnSpanRows(g, rows, k - 1);
      NoColumnSpanRow(g, rows, k - 1, |g.columns|);
    }
  }

  /** So an element spanning several rows but one column never deepens the
      rows it spans: only the first two loops decide the temporary extents. */
  lemma RowSpansNeedColumnSpans(g: Grid)
    requires Valid(g)
    requires forall i, j :: HasElement(g, i, j) ==> ElementAt(g, i, j).columnSpan <= 1
    ensures TempHeights(g) == SecondHeightPass(g, FirstHeightPass(g))
  {
    NoColumnSpanRows(g, SecondHeightPass(g, FirstHeightPass(g)), |g.rows|);
  }

  // Equal rows (T)

  function CountContentRows(rows: seq<Row>, k: nat): (n: nat)
    requires k <= |rows|
    ensures n <= k
    ensures (exists i :: 0 <= i < k && rows[i].content) ==> n > 0
  {
    if k == 0 then 0 else CountContentRows(rows, k - 1) + (if rows[k - 1].content then 1 else 0)
  }

  /** The largest temporary extent of a content row before k. */
  function MaxTempExtent(rows: seq<Row>, k: nat): (m: int)
    requires k <= |rows|
    ensures m >= 0
    ensures forall i :: 0 <= i < k && rows[i].content ==> rows[i].TempExtent() <= m
    ensures m == 0 || exists i :: 0 <= i < k && rows[i].content && rows[i].TempExtent() == m
  {
    if k == 0 then 0
    else if rows[k - 1].content then Scaled.Max(MaxTempExtent(rows, k - 1), rows[k - 1].TempExtent())
    else MaxTempExtent(rows, k - 1)
  }

  function SumContHD(rows: seq<Row>, k: nat): int
    requires k <= |rows|
  {
    if k == 0 then 0 else SumContHD(rows, k - 1) + (if rows[k - 1].content then rows[k - 1].TempExtent() else 0)
  }

  /** The lengths of the fixed rows that are not content rows. */
  function SumFixHD(rows: seq<Row>, k: nat): int
    requires k <= |rows|
  {
    if k == 0 then 0
    else SumFixHD(rows, k - 1) + (if !rows[k - 1].content && rows[k - 1].spec.Fix? then rows[k - 1].spec.length else 0)
  }

  /** The fractions of the scaled rows that are not content rows. */
  function SumScaleH(rows: seq<Row>, k: nat): real
    requires k <= |rows|
  {
    if k == 0 then 0.0
    else SumScaleH(rows, k - 1) + (if !rows[k - 1].content && rows[k - 1].spec.Scale? then rows[k - 1].spec.fraction else 0.0)
  }

  predicate HeightDivisor(rows: seq<Row>)
  {
    SumScaleH(rows, |rows|) != 1.0
  }

  /** `calcTableHeightDepthT`: every content row as tall as the tallest,
      plus the fixed rows, stretched by the scaled rows' share. */
  function TableHeightDepthT(rows: seq<Row>): int
    requires HeightDivisor(rows)
  {
    Scaled.DivFraction(CountContentRows(rows, |rows|) * MaxTempExtent(rows, |rows|) + SumFixHD(rows, |rows|),
                       1.0 - SumScaleH(rows, |rows|))
  }

  /** What `initHeightsT` spreads as depth over the content rows: the table
      extent less the fixed rows, the scaled rows and the temporary extents
      of the content rows. */
  function AvailableHeightDepthT(rows: seq<Row>): int
    requires HeightDivisor(rows)
  {
    var t := TableHeightDepthT(rows);
    t - (SumFixHD(rows, |rows|) + SumContHD(rows, |rows|) + Scaled.MulFraction(t, SumScaleH(rows, |rows|)))
  }

  function HeightRowT(rows: seq<Row>, i: int): (r: Row)
    requires HeightDivisor(rows) && 0 <= i < |rows|
    ensures r == rows[i].(height := r.height, depth := r.depth)
    ensures rows[i].content ==>
      r.height == rows[i].tempHeight && r.depth == Scaled.TruncDiv(AvailableHeightDepthT(rows), CountContentRows(rows, |rows|))
  {
    var r := rows[i];
    if r.content then
      r.(height := r.tempHeight, depth := Scaled.TruncDiv(AvailableHeightDepthT(rows), CountContentRows(rows, |rows|)))
    else if r.spec.Fix? then r.(height := r.spec.length, depth := 0)
    else if r.spec.Scale? then r.(height := Scaled.MulFraction(TableHeightDepthT(rows), r.spec.fraction), depth := 0)
    else r
  }

  /** The rows after `initHeightsT`. */
  function HeightsT(rows: seq<Row>): seq<Row>
    requires HeightDivisor(rows)
  {
    seq(|rows|, i requires 0 <= i < |rows| => HeightRowT(rows, i))
  }

  predicate NoScaleRowsT(rows: seq<Row>)
  {
    forall i :: 0 <= i < |rows| && !rows[i].content ==> !rows[i].spec.Scale?
  }

  lemma {:induction false} NoScaleSumH(rows: seq<Row>, k: nat)
    requires k <= |rows| && NoScaleRowsT(rows)
    ensures SumScaleH(rows, k) == 0.0
  {
    if k > 0 {
      NoScaleSumH(rows, k - 1);
    }
  }

  lemma {:induction false} EqualExtentsSum(rows: seq<Row>, k: nat, m: int)
    requires k <= |rows|
    requires forall i :: 0 <= i < |rows| && rows[i].content ==> rows[i].TempExtent() == m
    ensures SumContHD(rows, k) == CountContentRows(rows, k) * m
  {
    if k > 0 {
      EqualExtentsSum(rows, k - 1, m);
      var n := CountContentRows(rows, k - 1);
      assert (n + 1) * m == n * m + m;
    }
  }

  /** With equal rows, the depth given to the content rows does not include
      their own temporary depth: when no row besides content rows is scaled
      and all content rows already have the same temporary extent, nothing is
      left to spread, and every content row keeps its temporary height with
      no depth at all, while the table counts their whole extents. */
  lemma HeightsTEqualExtents(rows: seq<Row>, m: int)
    requires NoScaleRowsT(rows) && m >= 0
    requires forall i :: 0 <= i < |rows| && rows[i].content ==> rows[i].TempExtent() == m
    requires exists i :: 0 <= i < |rows| && rows[i].content
    ensures HeightDivisor(rows)
    ensures TableHeightDepthT(rows) == CountContentRows(rows, |rows|) * m + SumFixHD(rows, |rows|)
    ensures AvailableHeightDepthT(rows) == 0
    ensures forall i :: 0 <= i < |rows| && rows[i].content ==>
      HeightsT(rows)[i].height == rows[i].tempHeight && HeightsT(rows)[i].depth == 0
  {
    var n := |rows|;
    NoScaleSumH(rows, n);
    assert 1.0 - SumScaleH(rows, n) == 1.0;
    var c := CountContentRows(rows, n);
    if c > 0 {
      var i :| 0 <= i < n && rows[i].content;
      assert MaxTempExtent(rows, n) == m;
    }
    Scaled.DivByOne(c * MaxTempExtent(rows, n) + SumFixHD(rows, n));
    Scaled.MulByZero(TableHeightDepthT(rows));
    EqualExtentsSum(rows, n, m);
    forall i | 0 <= i < n && rows[i].content
      ensures HeightsT(rows)[i].height == rows[i].tempHeight && HeightsT(rows)[i].depth == 0
    {
      assert HeightsT(rows)[i] == HeightRowT(rows, i);
    }
  }

  /** Every content row of the equal-rows layout gets the same depth, and
      each fixed or scaled row that is not a content row has none. */
  lemma HeightsTShareDepth(rows: seq<Row>, i: int, i2: int)
    requires HeightDivisor(rows) && 0 <= i < |rows| && 0 <= i2 < |rows|
    ensures rows[i].content && rows[i2].content ==> HeightsT(rows)[i].depth == HeightsT(rows)[i2].depth
    ensures !rows[i].content && rows[i].spec.Fix? ==>
      HeightsT(rows)[i].height == rows[i].spec.length && HeightsT(rows)[i].depth == 0
  {
    assert HeightsT(rows)[i] == HeightRowT(rows, i);
    assert HeightsT(rows)[i2] == HeightRowT(rows, i2);
  }

  /** The temporary depths of the content rows. */
  function SumContTempDepths(rows: seq<Row>, k: nat): int
    requires k <= |rows|
  {
    if k == 0 then 0 else SumContTempDepths(rows, k - 1) + (if rows[k - 1].content then rows[k - 1].tempDepth else 0)
  }

  /** Without scaled rows, the table extent and what is left to spread. */
  lemma TableHeightTNoScale(rows: seq<Row>)
    requires NoScaleRowsT(rows)
    ensures HeightDivisor(rows)
    ensures var n := |rows|;
      var base := CountContentRows(rows, n) * MaxTempExtent(rows, n);
      TableHeightDepthT(rows) == base + SumFixHD(rows, n) &&
      AvailableHeightDepthT(rows) == base - SumContHD(rows, n)
  {
    var n := |rows|;
    NoScaleSumH(rows, n);
    assert 1.0 - SumScaleH(rows, n) == 1.0;
    Scaled.DivByOne(CountContentRows(rows, n) * MaxTempExtent(rows, n) + SumFixHD(rows, n));
    Scaled.MulByZero(TableHeightDepthT(rows));
  }

  lemma {:induction false} SumExtentsT(rows: seq<Row>, hs: seq<Row>, k: nat, d: int)
    requires |hs| == |rows| && k <= |rows|
    requires forall i :: 0 <= i < |rows| ==> hs[i].content == rows[i].content && hs[i].spec == rows[i].spec
    requires forall i :: 0 <= i < |rows| && rows[i].content ==>
      hs[i].height == rows[i].tempHeight && hs[i].depth == d
    requires forall i :: 0 <= i < |rows| && !rows[i].content && rows[i].spec.Fix? ==>
      hs[i].VerticalExtent() == rows[i].spec.length
    ensures SumContFixExtents(hs, k) + SumContTempDepths(rows, k) ==
      SumContHD(rows, k) + CountContentRows(rows, k) * d + SumFixHD(rows, k)
  {
    if k > 0 {
      SumExtentsT(rows, hs, k - 1, d);
      var n := CountContentRows(rows, k - 1);
      assert (n + 1) * d == n * d + d;
    }
  }

  /** With equal rows the content rows drop their temporary depths: without
      scaled rows, and when the depth to spread divides evenly among the
      content rows, the extents `initHeightsT` gives the content and fixed
      rows fall short of the table extent it returns by exactly the
      temporary depths of the content rows, which the table extent counted. */
  lemma HeightsTDepthShortfall(rows: seq<Row>)
    requires NoScaleRowsT(rows) && CountContentRows(rows, |rows|) > 0
    requires SumContHD(rows, |rows|) % CountContentRows(rows, |rows|) == 0
    ensures HeightDivisor(rows)
    ensures SumContFixExtents(HeightsT(rows), |rows|) + SumContTempDepths(rows, |rows|) == TableHeightDepthT(rows)
  {
    var n := |rows|;
    TableHeightTNoScale(rows);
    var c := CountContentRows(rows, n);
    var m := MaxTempExtent(rows, n);
    var s := SumContHD(rows, n) / c;
    var d := m - s;
    EvenShare(c, m, SumContHD(rows, n));
    var hs := HeightsT(rows);
    forall i | 0 <= i < n
      ensures hs[i].content == rows[i].content && hs[i].spec == rows[i].spec
      ensures rows[i].content ==> hs[i].height == rows[i].tempHeight && hs[i].depth == d
      ensures !rows[i].content && rows[i].spec.Fix? ==> hs[i].VerticalExtent() == rows[i].spec.length
    {
      assert hs[i] == HeightRowT(rows, i);
    }
    SumExtentsT(rows, hs, n, d);
  }

  /** A difference of multiples of c divided by c. */
  lemma EvenShare(c: int, m: int, t: int)
    requires c > 0 && t % c == 0
    ensures Scaled.TruncDiv(c * m - t, c) == m - t / c && c * (m - t / c) == c * m - t
  {
    var s := t / c;
    assert t == c * s;
    assert c * m - t == (m - s) * c;
    Scaled.TruncDivExact(m - s, c);
  }

  // Rows of their own extent (F)

  /** The temporary extents of the content and the fixed rows. */
  function SumContFix(rows: seq<Row>, k: nat): int
    requires k <= |rows|
  {
    if k == 0 then 0
    else SumContFix(rows, k - 1) + (if rows[k - 1].content || rows[k - 1].spec.Fix? then rows[k - 1].TempExtent() else 0)
  }

  /** The fractions of the scaled rows, content rows apart. */
  function SumScaleHF(rows: seq<Row>, k: nat): real
    requires k <= |rows|
  {
    if k == 0 then 0.0
    else SumScaleHF(rows, k - 1) + (if !rows[k - 1].content && rows[k - 1].spec.Scale? then rows[k - 1].spec.fraction else 0.0)
  }

  predicate HeightDivisorF(rows: seq<Row>)
  {
    SumScaleHF(rows, |rows|) != 1.0
  }

  /** `calcTableHeightDepthF`. */
  function TableHeightDepthF(rows: seq<Row>): int
    requires HeightDivisorF(rows)
  {
    Scaled.DivFraction(SumContFix(rows, |rows|), 1.0 - SumScaleHF(rows, |rows|))
  }

  function HeightRowF(rows: seq<Row>, i: int): (r: Row)
    requires HeightDivisorF(rows) && 0 <= i < |rows|
    ensures r == rows[i].(height := r.height, depth := r.depth)
    ensures rows[i].content ==> r.height == rows[i].tempHeight && r.depth == rows[i].tempDepth
  {
    var r := rows[i];
    if r.content then r.(height := r.tempHeight, depth := r.tempDepth)
    else if r.spec.Fix? then r.(height := r.spec.length, depth := 0)
    else if r.spec.Scale? then r.(height := Scaled.MulFraction(TableHeightDepthF(rows), r.spec.fraction), depth := 0)
    else r
  }

  /** The rows after `initHeightsF`. */
  function HeightsF(rows: seq<Row>): seq<Row>
    requires HeightDivisorF(rows)
  {
    seq(|rows|, i requires 0 <= i < |rows| => HeightRowF(rows, i))
  }

  /** The extents of the content and the fixed rows. */
  function SumContFixExtents(rows: seq<Row>, k: nat): int
    requires k <= |rows|
  {
    if k == 0 then 0
    else SumContFixExtents(rows, k - 1) + (if rows[k - 1].content || rows[k - 1].spec.Fix? then rows[k - 1].VerticalExtent() else 0)
  }

  predicate NoScaleRowsF(rows: seq<Row>)
  {
    forall i :: 0 <= i < |rows| && !rows[i].content ==> !rows[i].spec.Scale?
  }

  lemma {:induction false} NoScaleSumHF(rows: seq<Row>, k: nat)
    requires k <= |rows| && NoScaleRowsF(rows)
    ensures SumScaleHF(rows, k) == 0.0
  {
    if k > 0 {
      NoScaleSumHF(rows, k - 1);
    }
  }

  lemma {:induction false} SumExtentsF(rows: seq<Row>, hs: seq<Row>, k: nat)
    requires |hs| == |rows| && k <= |rows|
    requires forall i :: 0 <= i < |rows| ==> hs[i].content == rows[i].content && hs[i].spec == rows[i].spec
    requires forall i :: 0 <= i < |rows| && (rows[i].content || rows[i].spec.Fix?) ==>
      hs[i].VerticalExtent() == rows[i].TempExtent()
    ensures SumContFixExtents(hs, k) == SumContFix(rows, k)
  {
    if k > 0 {
      SumExtentsF(rows, hs, k - 1);
    }
  }

  /** Without scaled rows, and when each fixed row that is not a content
      row has its length as temporary height and no temporary depth, the
      extents of the content and fixed rows add up to the table's extent.
      The sum leaves out rows that are neither content nor Fix; it is exact
      for the grids `init` builds, where every other row is Fix or Scale. */
  lemma HeightsFAddUp(rows: seq<Row>)
    requires NoScaleRowsF(rows)
    requires forall i :: 0 <= i < |rows| && !rows[i].content && rows[i].spec.Fix? ==>
      rows[i].tempHeight == rows[i].spec.length && rows[i].tempDepth == 0
    ensures HeightDivisorF(rows)
    ensures TableHeightDepthF(rows) == SumContFix(rows, |rows|)
    ensures SumContFixExtents(HeightsF(rows), |rows|) == TableHeightDepthF(rows)
  {
    NoScaleSumHF(rows, |rows|);
    assert 1.0 - SumScaleHF(rows, |rows|) == 1.0;
    Scaled.DivByOne(SumContFix(rows, |rows|));
    var hs := HeightsF(rows);
    forall i | 0 <= i < |rows|
      ensures hs[i].content == rows[i].content && hs[i].spec == rows[i].spec
      ensures rows[i].content || rows[i].spec.Fix? ==> hs[i].VerticalExtent() == rows[i].TempExtent()
    {
      assert hs[i] == HeightRowF(rows, i);
    }
    SumExtentsF(rows, hs, |rows|);
  }

  /** Applied to the rows `initTempHeights` gives: without scaled rows, the
      extents `initHeightsF` gives the content and fixed rows add up to the
      table's extent it returns. */
  lemma TempThenHeightsFAddUp(g: Grid)
    requires Valid(g) && NoScaleRowsF(g.rows)
    ensures var t := TempHeights(g);
      HeightDivisorF(t) && SumContFixExtents(HeightsF(t), |t|) == TableHeightDepthF(t)
  {
    var t := TempHeights(g);
    forall i | 0 <= i < |t|
      ensures t[i].content == g.rows[i].content && t[i].spec == g.rows[i].spec
      ensures !t[i].content && t[i].spec.Fix? ==> t[i].tempHeight == t[i].spec.length && t[i].tempDepth == 0
    {
      TempHeightsBounds(g, i);
    }
    HeightsFAddUp(t);
  }
}
