/** The vertical layout of a broken line of math: elements are appended to
    the last row, a newline space starts a new row, and the rows are stacked
    with a preferred and a minimum spacing. A row is a horizontal layout,
    whose own box and positioning are not part of this model: the row boxes
    are a parameter of every operation that reads them. */
module VerticalLayouts {
  import opened Geometry
  import Scaled

  /** The breakability token of a space element. */
  datatype Breakability = NewLineBreak | IndentingNewLineBreak | OtherBreak(token: nat)

  datatype Element = SpaceElement(id: nat, breakability: Breakability) | OtherElement(id: nat)

  /** A space element that forces a line break. */
  predicate BreaksLine(e: Element)
  {
    e.SpaceElement? && (e.breakability == NewLineBreak || e.breakability == IndentingNewLineBreak)
  }

  /** A row: the elements added to it, and the origin it was last placed at
      (a new row starts at the origin). */
  datatype Line = Line(elements: seq<Element>, x: int, y: int)

  const EmptyLine := Line([], 0, 0)

  type Rows = seq<Line>

  // The row operations as functions of the rows

  /** The rows after `Add(e)`. */
  function Added(c: Rows, e: Element): (r: Rows)
    ensures |r| == (if |c| == 0 then 1 else |c|) + (if BreaksLine(e) then 1 else 0)
  {
    var base := if |c| == 0 then [EmptyLine] else c;
    var last := |base| - 1;
    var filled := base[last := base[last].(elements := base[last].elements + [e])];
    if BreaksLine(e) then filled + [EmptyLine] else filled
  }

  /** All elements, row after row. */
  function Flatten(c: Rows): seq<Element>
  {
    if |c| == 0 then [] else Flatten(c[..|c| - 1]) + c[|c| - 1].elements
  }

  /** Rows built by `Add` alone: every row but the last ends with the one
      line-breaking element it holds, and the last holds none. */
  predicate WellBroken(c: Rows)
  {
    (forall k :: 0 <= k < |c| - 1 ==>
       |c[k].elements| > 0 && BreaksLine(c[k].elements[|c[k].elements| - 1])) &&
    (forall k, m ::
       0 <= k < |c| && 0 <= m < |c[k].elements| && (k == |c| - 1 || m < |c[k].elements| - 1)
       ==> !BreaksLine(c[k].elements[m]))
  }

  /** `GetRowSpacing(p0, p1)` for the rows at indices k0 and k0 + 1: zero
      after the last row; otherwise the preferred spacing, raised when needed
      so that the gap left between the depth of one row and the height of the
      next is at least the minimum spacing. */
  function Spacing(rs: int, rms: int, boxes: seq<BoundingBox>, k0: int, k1: int): (s: int)
    requires 0 <= k0 && k1 == k0 + 1 && k1 <= |boxes|
    ensures k1 == |boxes| ==> s == 0
    ensures k1 < |boxes| ==> s - (boxes[k0].depth + boxes[k1].height) >= rms
    ensures k1 < |boxes| ==> s == Scaled.Max(rs, rms + boxes[k0].depth + boxes[k1].height)
  {
    // The first test compares the iterator before p0 with the first row, which
    // no caller's iterator meets.
    if k0 + 1 == 0 || k1 == |boxes| then 0
    else
      var s := rs;
      if s - (boxes[k0].depth + boxes[k1].height) < rms
      then rms + (boxes[k0].depth + boxes[k1].height)
      else s
  }

  /** The spacing below each of the first k rows, summed. */
  function SpacingSum(rs: int, rms: int, boxes: seq<BoundingBox>, k: nat): int
    requires k <= |boxes|
  {
    if k == 0 then 0 else SpacingSum(rs, rms, boxes, k - 1) + Spacing(rs, rms, boxes, k - 1, k)
  }

  /** The widest of the first k rows, starting from the width 0 of the box
      the layout resets on its first row. */
  function MaxWidth(boxes: seq<BoundingBox>, k: nat): (w: int)
    requires k <= |boxes|
    ensures w >= 0 && forall m :: 0 <= m < k ==> boxes[m].width <= w
    ensures w == 0 || exists m :: 0 <= m < k && boxes[m].width == w
  {
    if k == 0 then 0 else Scaled.Max(MaxWidth(boxes, k - 1), boxes[k - 1].width)
  }

  /** The layout's box: the height of the first row, the spacings and the
      depth of the last row below, and the widest row. */
  function LayoutBox(rs: int, rms: int, boxes: seq<BoundingBox>): BoundingBox
  {
    if |boxes| == 0 then EmptyBox
    else
      BoundingBox(MaxWidth(boxes, |boxes|), boxes[0].height,
                  SpacingSum(rs, rms, boxes, |boxes| - 1) + boxes[|boxes| - 1].depth)
  }

  // Properties of the row operations

  lemma FlattenAppend(c: Rows, l: Line)
    ensures Flatten(c + [l]) == Flatten(c) + l.elements
  {
    assert (c + [l])[..|c|] == c;
  }

  lemma FlattenReplaceLast(c: Rows, l: Line)
    requires |c| > 0
    ensures Flatten(c[|c| - 1 := l]) == Flatten(c[..|c| - 1]) + l.elements
  {
    assert c[|c| - 1 := l][..|c| - 1] == c[..|c| - 1];
  }

  /** Row p of `setPosition` placed at the spacings of the rows above it. */
  predicate PlacedUpTo(rs: int, rms: int, boxes: seq<BoundingBox>, rows: Rows, x0: int, y0: int, placed: Rows)
    requires |placed| <= |rows| == |boxes|
  {
    forall k :: 0 <= k < |placed| ==> placed[k] == Line(rows[k].elements, x0, y0 + SpacingSum(rs, rms, boxes, k))
  }

  lemma PlacedStep(rs: int, rms: int, boxes: seq<BoundingBox>, rows: Rows, x0: int, y0: int, placed: Rows)
    requires |placed| < |rows| == |boxes| && PlacedUpTo(rs, rms, boxes, rows, x0, y0, placed)
    ensures var p := |placed|;
      SpacingSum(rs, rms, boxes, p + 1) == SpacingSum(rs, rms, boxes, p) + Spacing(rs, rms, boxes, p, p + 1) &&
      PlacedUpTo(rs, rms, boxes, rows, x0, y0,
                 placed + [Line(rows[p].elements, x0, y0 + SpacingSum(rs, rms, boxes, p))])
  {
  }

  /** `Add` keeps every element in order and appends the new one. */
  lemma AddAppendsElement(c: Rows, e: Element)
    ensures Flatten(Added(c, e)) == Flatten(c) + [e]
  {
    var base := if |c| == 0 then [EmptyLine] else c;
    var last := |base| - 1;
    var filled := base[last := base[last].(elements := base[last].elements + [e])];
    FlattenReplaceLast(base, filled[last]);
    if |c| == 0 {
      assert Flatten(base[..last]) == [] == Flatten(c);
    } else {
      assert Flatten(c) == Flatten(c[..last]) + c[last].elements;
    }
    if BreaksLine(e) {
      FlattenAppend(filled, EmptyLine);
    }
  }

  /** `Add` appends to the last row and leaves all earlier rows alone; only a
      newline space opens a new row. */
  lemma AddTouchesLastRow(c: Rows, e: Element)
    ensures var r := Added(c, e);
      var last := if |c| == 0 then 0 else |c| - 1;
      last < |r| &&
      (forall k :: 0 <= k < last ==> r[k] == c[k]) &&
      r[last].elements == (if |c| == 0 then [] else c[last].elements) + [e] &&
      (BreaksLine(e) <==> |r| == last + 2) &&
      (BreaksLine(e) ==> r[last + 1] == EmptyLine)
  {
  }

  lemma AddKeepsWellBroken(c: Rows, e: Element)
    requires WellBroken(c)
    ensures WellBroken(Added(c, e))
  {
    var r := Added(c, e);
    var last := if |c| == 0 then 0 else |c| - 1;
    AddTouchesLastRow(c, e);
    forall k, m | 0 <= k < |r| && 0 <= m < |r[k].elements| && (k == |r| - 1 || m < |r[k].elements| - 1)
      ensures !BreaksLine(r[k].elements[m])
    {
      if k < last {
        assert r[k] == c[k];
      } else if k == last {
        if |c| > 0 {
          assert m < |c[last].elements| ==> r[k].elements[m] == c[last].elements[m];
        }
      }
    }
  }

  lemma NoRowsWellBroken()
    ensures WellBroken([]) && WellBroken([EmptyLine])
  {
  }

  /** Row k of a laid-out layout is placed lower than row k - 1 by at least
      the minimum spacing plus the depth and height that meet between them. */
  lemma RowsKeepMinimumGap(rs: int, rms: int, boxes: seq<BoundingBox>, k: nat)
    requires 0 < k < |boxes|
    ensures SpacingSum(rs, rms, boxes, k) - SpacingSum(rs, rms, boxes, k - 1)
            >= rms + boxes[k - 1].depth + boxes[k].height
    ensures SpacingSum(rs, rms, boxes, k) - SpacingSum(rs, rms, boxes, k - 1) >= rs
  {
  }

  /** The exit baseline lies the depth of the last row above the bottom of
      the layout's box. */
  lemma ExitBaselineAboveBottom(rs: int, rms: int, boxes: seq<BoundingBox>)
    requires |boxes| > 0
    ensures SpacingSum(rs, rms, boxes, |boxes|) + boxes[|boxes| - 1].depth
            == LayoutBox(rs, rms, boxes).depth
  {
  }

  /** With the preferred spacing always large enough, the rows are evenly
      spaced. */
  lemma {:induction false} EvenSpacing(rs: int, rms: int, boxes: seq<BoundingBox>, k: nat)
    requires k < |boxes|
    requires forall m :: 0 < m < |boxes| ==> rs - (boxes[m - 1].depth + boxes[m].height) >= rms
    ensures SpacingSum(rs, rms, boxes, k) == k * rs
  {
    if k > 0 {
      EvenSpacing(rs, rms, boxes, k - 1);
    }
  }

  class VerticalLayout {
    var content: Rows
    var rowSpacing: int
    var rowMinSpacing: int

    constructor ()
      ensures content == [] && rowSpacing == 0 && rowMinSpacing == 0
    {
      content := [];
      rowSpacing := 0;
      rowMinSpacing := 0;
    }

    method SetSpacing(rs: int, rms: int)
      modifies this
      ensures rowSpacing == rs && rowMinSpacing == rms && content == old(content)
    {
      rowSpacing := rs;
      rowMinSpacing := rms;
    }

    method Add(e: Element)
      modifies this
      ensures content == Added(old(content), e)
      ensures Flatten(content) == Flatten(old(content)) + [e]
      ensures WellBroken(old(content)) ==> WellBroken(content)
      ensures rowSpacing == old(rowSpacing) && rowMinSpacing == old(rowMinSpacing)
    {
      ghost var r := Added(content, e);
      AddAppendsElement(content, e);
      if WellBroken(content) {
        AddKeepsWellBroken(content, e);
      }
      var rows := content;
      if |rows| == 0 {
        rows := [EmptyLine];
      }
      var last := |rows| - 1;
      rows := rows[last := rows[last].(elements := rows[last].elements + [e])];
      if BreaksLine(e) {
        rows := rows + [EmptyLine];
      }
      assert rows == r;
      content := rows;
    }

    method RemoveAll()
      modifies this
      ensures content == [] && WellBroken(content)
      ensures rowSpacing == old(rowSpacing) && rowMinSpacing == old(rowMinSpacing)
    {
      content := [];
    }

    function GetRowSpacing(boxes: seq<BoundingBox>, k0: int, k1: int): int
      reads this
      requires |boxes| == |content| && 0 <= k0 && k1 == k0 + 1 && k1 <= |content|
    {
      Spacing(rowSpacing, rowMinSpacing, boxes, k0, k1)
    }

    /** Places row k at x0 and at y0 plus the spacings of the rows above it. */
    method SetPosition(x0: int, y0: int, boxes: seq<BoundingBox>)
      requires |boxes| == |content|
      modifies this
      ensures |content| == |old(content)|
      ensures forall k :: 0 <= k < |content| ==>
        content[k] == Line(old(content)[k].elements, x0, y0 + SpacingSum(rowSpacing, rowMinSpacing, boxes, k))
      ensures rowSpacing == old(rowSpacing) && rowMinSpacing == old(rowMinSpacing)
    {
      var rs, rms, rows := rowSpacing, rowMinSpacing, content;
      var placed: Rows := [];
      var y := y0;
      while |placed| < |rows|
        invariant |placed| <= |rows|
        invariant y == y0 + SpacingSum(rs, rms, boxes, |placed|)
        invariant PlacedUpTo(rs, rms, boxes, rows, x0, y0, placed) && unchanged(this)
      {
        var p := |placed|;
        PlacedStep(rs, rms, boxes, rows, x0, y0, placed);
        placed := placed + [Line(rows[p].elements, x0, y)];
        y := y + Spacing(rs, rms, boxes, p, p + 1);
      }
      content := placed;
    }

    method GetBoundingBox(boxes: seq<BoundingBox>) returns (box: BoundingBox)
      requires |boxes| == |content|
      ensures box == LayoutBox(rowSpacing, rowMinSpacing, boxes)
      ensures |boxes| > 0 ==> box.height == boxes[0].height
      ensures forall k :: 0 <= k < |boxes| ==> boxes[k].width <= box.width
    {
      box := EmptyBox;
      var p := 0;
      while p < |content|
        invariant 0 <= p <= |content|
        invariant p == 0 ==> box == EmptyBox
        invariant p > 0 ==> box.width == MaxWidth(boxes, p) && box.height == boxes[0].height
        invariant 0 < p < |content| ==> box.depth == SpacingSum(rowSpacing, rowMinSpacing, boxes, p - 1)
        invariant p == |content| > 0 ==>
          box.depth == SpacingSum(rowSpacing, rowMinSpacing, boxes, p - 1) + boxes[p - 1].depth
      {
        var pBox := boxes[p];
        if p == 0 {
          box := BoundingBox(0, pBox.height, 0);
        }
        if p + 1 == |content| {
          box := box.(depth := box.depth + pBox.depth);
        }
        if p != 0 {
          box := box.(depth := box.depth + GetRowSpacing(boxes, p - 1, p));
        }
        box := box.(width := Scaled.Max(box.width, pBox.width));
        p := p + 1;
      }
    }

    method GetExitBaseline(boxes: seq<BoundingBox>) returns (bl: int)
      requires |boxes| == |content|
      ensures bl == SpacingSum(rowSpacing, rowMinSpacing, boxes, |content|)
      ensures |boxes| > 0 ==> bl == SpacingSum(rowSpacing, rowMinSpacing, boxes, |content| - 1)
    {
      bl := 0;
      var p := 0;
      while p < |content|
        invariant 0 <= p <= |content|
        invariant bl == SpacingSum(rowSpacing, rowMinSpacing, boxes, p)
      {
        bl := bl + GetRowSpacing(boxes, p, p + 1);
        p := p + 1;
      }
    }
  }
}
