/** The device-independent part of a drawing area: a pool of graphics
    contexts shared by value, the drawing cursor, the box-to-rectangle
    conversions and the exposure test. The device's own primitives (drawing
    a line or a rectangle, clearing, creating a context) are virtual; here
    each call of one is an event appended to a log. */
module DrawingAreas {
  import opened Geometry
  import Variants

  /** The masks selecting the fields of a context's values. */
  const ForegroundMask: bv32 := 1
  const BackgroundMask: bv32 := 2
  const LineStyleMask: bv32 := 4
  const LineWidthMask: bv32 := 8

  datatype GraphicsContextValues = GraphicsContextValues(
    foreground: Variants.RGBColor, background: Variants.RGBColor, lineStyle: nat, lineWidth: int)

  /** An immutable graphics context created by the device for some values. */
  class GraphicsContext {
    const values: GraphicsContextValues

    constructor (v: GraphicsContextValues)
      ensures values == v
    {
      values := v;
    }
  }

  /** A call of a virtual drawing primitive. */
  datatype Event =
    | DrawLine(gc: GraphicsContext, x1: int, y1: int, x2: int, y2: int)
    | DrawRectangle(gc: GraphicsContext, rx: int, ry: int, rw: int, rh: int)
    | Clear(gc: GraphicsContext, cx: int, cy: int, cw: int, ch: int)

  datatype Rectangle = Rectangle(x: int, y: int, width: int, height: int)

  /** The values `GetGC(values, mask)` looks for: the defaults, with each
      field whose mask bit is set taken from `values`. */
  function Merge(defaults: GraphicsContextValues, values: GraphicsContextValues, mask: bv32): (v: GraphicsContextValues)
    ensures v.foreground == (if mask & ForegroundMask != 0 then values.foreground else defaults.foreground)
    ensures v.background == (if mask & BackgroundMask != 0 then values.background else defaults.background)
    ensures v.lineStyle == (if mask & LineStyleMask != 0 then values.lineStyle else defaults.lineStyle)
    ensures v.lineWidth == (if mask & LineWidthMask != 0 then values.lineWidth else defaults.lineWidth)
  {
    var v := defaults;
    var v := if mask & ForegroundMask != 0 then v.(foreground := values.foreground) else v;
    var v := if mask & BackgroundMask != 0 then v.(background := values.background) else v;
    var v := if mask & LineStyleMask != 0 then v.(lineStyle := values.lineStyle) else v;
    if mask & LineWidthMask != 0 then v.(lineWidth := values.lineWidth) else v
  }

  lemma MergeExtremes(defaults: GraphicsContextValues, values: GraphicsContextValues)
    ensures Merge(defaults, values, 0) == defaults
    ensures Merge(defaults, values, 15) == values
  {
  }

  /** The rectangle a box placed with its baseline origin at (x, y) covers:
      from height above the baseline down to depth below it. */
  function BoxRectangle(x: int, y: int, box: BoundingBox): (r: Rectangle)
    ensures r.x == x && r.width == box.width
    ensures r.y + box.height == y && r.y + r.height == y + box.depth
  {
    Rectangle(x, y - box.height, box.width, box.VerticalExtent())
  }

  /** The closed-interval overlap test, in both coordinates. */
  predicate Overlaps(a: Rectangle, b: Rectangle)
  {
    a.x + a.width >= b.x && b.x + b.width >= a.x && a.y + a.height >= b.y && b.y + b.height >= a.y
  }

  predicate Contains(r: Rectangle, px: int, py: int)
  {
    r.x <= px <= r.x + r.width && r.y <= py <= r.y + r.height
  }

  lemma OverlapsIsSymmetric(a: Rectangle, b: Rectangle)
    ensures Overlaps(a, b) <==> Overlaps(b, a)
  {
  }

  /** For rectangles with no negative side, the test holds exactly when the
      two closed rectangles share a point. */
  lemma OverlapsIffSharedPoint(a: Rectangle, b: Rectangle)
    requires a.width >= 0 && a.height >= 0 && b.width >= 0 && b.height >= 0
    ensures Overlaps(a, b) <==> exists px, py :: Contains(a, px, py) && Contains(b, px, py)
  {
    if Overlaps(a, b) {
      var px := if a.x >= b.x then a.x else b.x;
      var py := if a.y >= b.y then a.y else b.y;
      assert Contains(a, px, py) && Contains(b, px, py);
    }
  }

  /** The pool never holds two contexts with the same values. */
  ghost predicate DistinctValues(pool: seq<GraphicsContext>)
  {
    forall i, j :: 0 <= i < j < |pool| ==> pool[i].values != pool[j].values
  }

  class DrawingArea {
    var width: int
    var height: int
    const mx: int
    const my: int
    /** The cursor. */
    var x: int
    var y: int
    /** The origin of the visible area. */
    const x0: int
    const y0: int
    const defaultValues: GraphicsContextValues
    const selectionForeground: Variants.RGBColor
    const selectionBackground: Variants.RGBColor
    var poolGC: seq<GraphicsContext>
    /** The calls of the device's primitives, oldest first. */
    var events: seq<Event>

    constructor (v: GraphicsContextValues, xMargin: int, yMargin: int, f: Variants.RGBColor, b: Variants.RGBColor)
      ensures width == 0 && height == 0 && mx == xMargin && my == yMargin
      ensures x == xMargin && y == yMargin && x0 == 0 && y0 == 0
      ensures defaultValues == v && selectionForeground == f && selectionBackground == b
      ensures poolGC == [] && events == []
    {
      width, height := 0, 0;
      mx, my := xMargin, yMargin;
      x, y := xMargin, yMargin;
      x0, y0 := 0, 0;
      defaultValues := v;
      selectionForeground, selectionBackground := f, b;
      poolGC := [];
      events := [];
    }

    /** The first pooled context with the merged values, or a new one the
        device creates and the pool keeps. */
    method GetGC(values: GraphicsContextValues, mask: bv32) returns (gc: GraphicsContext)
      modifies this
      ensures gc.values == Merge(defaultValues, values, mask)
      ensures (exists k :: 0 <= k < |old(poolGC)| && old(poolGC)[k].values == gc.values) ==>
        poolGC == old(poolGC) &&
        exists k :: 0 <= k < |poolGC| && poolGC[k] == gc && forall m :: 0 <= m < k ==> poolGC[m].values != gc.values
      ensures (forall k :: 0 <= k < |old(poolGC)| ==> old(poolGC)[k].values != gc.values) ==>
        poolGC == old(poolGC) + [gc] && fresh(gc)
      ensures DistinctValues(old(poolGC)) ==> DistinctValues(poolGC)
      ensures width == old(width) && height == old(height) && x == old(x) && y == old(y)
      ensures events == old(events)
    {
      var v := Merge(defaultValues, values, mask);
      var i := 0;
      while i < |poolGC|
        invariant 0 <= i <= |poolGC|
        invariant forall k :: 0 <= k < i ==> poolGC[k].values != v
      {
        if poolGC[i].values == v {
          return poolGC[i];
        }
        i := i + 1;
      }
      gc := new GraphicsContext(v);
      poolGC := poolGC + [gc];
    }

    method ReleaseGCs()
      modifies this
      ensures poolGC == [] && DistinctValues(poolGC)
      ensures width == old(width) && height == old(height) && x == old(x) && y == old(y)
      ensures events == old(events)
    {
      poolGC := [];
    }

    method MoveTo(x1: int, y1: int)
      modifies this
      ensures x == x1 && y == y1
      ensures width == old(width) && height == old(height) && poolGC == old(poolGC) && events == old(events)
    {
      x, y := x1, y1;
    }

    /** A line from the cursor; the cursor stays where it is. */
    method DrawLineTo(gc: GraphicsContext, x1: int, y1: int)
      modifies this
      ensures events == old(events) + [DrawLine(gc, x, y, x1, y1)]
      ensures width == old(width) && height == old(height) && x == old(x) && y == old(y) && poolGC == old(poolGC)
    {
      events := events + [DrawLine(gc, x, y, x1, y1)];
    }

    method DrawLineToDelta(gc: GraphicsContext, dx: int, dy: int)
      modifies this
      ensures events == old(events) + [DrawLine(gc, x, y, x + dx, y + dy)]
      ensures width == old(width) && height == old(height) && x == old(x) && y == old(y) && poolGC == old(poolGC)
    {
      events := events + [DrawLine(gc, x, y, x + dx, y + dy)];
    }

    method DrawBox(gc: GraphicsContext, ox: int, oy: int, box: BoundingBox)
      modifies this
      ensures var r := BoxRectangle(ox, oy, box);
        events == old(events) + [DrawRectangle(gc, r.x, r.y, r.width, r.height)]
      ensures width == old(width) && height == old(height) && x == old(x) && y == old(y) && poolGC == old(poolGC)
    {
      events := events + [DrawRectangle(gc, ox, oy - box.height, box.width, box.VerticalExtent())];
    }

    method ClearBox(gc: GraphicsContext, ox: int, oy: int, box: BoundingBox)
      modifies this
      ensures var r := BoxRectangle(ox, oy, box);
        events == old(events) + [Clear(gc, r.x, r.y, r.width, r.height)]
      ensures width == old(width) && height == old(height) && x == old(x) && y == old(y) && poolGC == old(poolGC)
    {
      events := events + [Clear(gc, ox, oy - box.height, box.width, box.VerticalExtent())];
    }

    /** A zero width or height is refused. */
    method SetSize(w: int, h: int)
      requires w != 0 && h != 0
      modifies this
      ensures width == w && height == h
      ensures x == old(x) && y == old(y) && poolGC == old(poolGC) && events == old(events)
    {
      width, height := w, h;
    }

    /** Whether the rectangle (rx, ry, w, h) meets the visible area. */
    function Exposed(rx: int, ry: int, w: int, h: int): (r: bool)
      reads this
      ensures r <==> Overlaps(Rectangle(x0, y0, width, height), Rectangle(rx, ry, w, h))
    {
      rx + w >= x0 && x0 + width >= rx && ry + h >= y0 && y0 + height >= ry
    }
  }
}
