/** Plane geometry on exact reals: points, axis-aligned boxes, the
    screen/world transform `screen = world * zoom + pan`, squared distances
    standing in for `Math.hypot` threshold tests, and the control point of
    the quadratic curve drawn for arbitrary links. */
module Geometry {

  datatype Point = Point(x: real, y: real)

  const Origin := Point(0.0, 0.0)

  function Plus(p: Point, q: Point): Point {
    Point(p.x + q.x, p.y + q.y)
  }

  function Minus(p: Point, q: Point): Point {
    Point(p.x - q.x, p.y - q.y)
  }

  /** Axis-aligned box; `left <= right` is not required (the sources never build an inverted one). */
  datatype Box = Box(left: real, top: real, right: real, bottom: real)

  /** A square of side `side` whose top-left corner is `corner` (how every note's footprint is laid out). */
  function SquareAt(corner: Point, side: real): Box {
    Box(corner.x, corner.y, corner.x + side, corner.y + side)
  }

  /** Open-interval overlap: boxes that merely touch do not overlap. */
  predicate StrictOverlap(a: Box, b: Box) {
    a.left < b.right && a.right > b.left && a.top < b.bottom && a.bottom > b.top
  }

  predicate StrictlyInside(p: Point, b: Box) {
    p.x > b.left && p.x < b.right && p.y > b.top && p.y < b.bottom
  }

  predicate ClosedInside(p: Point, b: Box) {
    b.left <= p.x <= b.right && b.top <= p.y <= b.bottom
  }

  function WorldToScreen(w: Point, pan: Point, zoom: real): Point {
    Point(w.x * zoom + pan.x, w.y * zoom + pan.y)
  }

  /** `(screen - pan) / zoom`; it undoes `WorldToScreen`. */
  function ScreenToWorld(s: Point, pan: Point, zoom: real): (w: Point)
    requires zoom != 0.0
    ensures WorldToScreen(w, pan, zoom) == s
  {
    Point((s.x - pan.x) / zoom, (s.y - pan.y) / zoom)
  }

  lemma WorldScreenRoundTrip(w: Point, pan: Point, zoom: real)
    requires zoom != 0.0
    ensures ScreenToWorld(WorldToScreen(w, pan, zoom), pan, zoom) == w
  {
    assert (w.x * zoom + pan.x - pan.x) / zoom == w.x;
    assert (w.y * zoom + pan.y - pan.y) / zoom == w.y;
  }

  function Min(a: real, b: real): real {
    if a <= b then a else b
  }

  function Max(a: real, b: real): real {
    if a >= b then a else b
  }

  function Abs(a: real): real {
    if a >= 0.0 then a else -a
  }

  /** Multiplying by a positive factor and shifting keeps a strict order. */
  lemma ScaleLess(a: real, b: real, z: real, c: real)
    requires z > 0.0
    ensures a < b <==> a * z + c < b * z + c
  {
    if a < b {
      assert (b - a) * z > 0.0;
    } else {
      assert (a - b) * z >= 0.0;
    }
  }

  function Dist2(p: Point, q: Point): real {
    (p.x - q.x) * (p.x - q.x) + (p.y - q.y) * (p.y - q.y)
  }

  /** `Math.hypot(p - q) < radius`, restated without the square root: the
      Euclidean distance is non-negative, so it is below `radius` exactly
      when `radius` is positive and the squared distance is below `radius`
      squared. */
  predicate WithinRadius(p: Point, q: Point, radius: real) {
    radius > 0.0 && Dist2(p, q) < radius * radius
  }

  function Dot(u: Point, v: Point): real {
    u.x * v.x + u.y * v.y
  }

  function Midpoint(p: Point, q: Point): Point {
    Point((p.x + q.x) / 2.0, (p.y + q.y) / 2.0)
  }

  /** Control point of the quadratic curve between `p1` and `p2`: the
      midpoint pushed sideways along `(-dy, dx)` by a fifth of the segment.
      It sits on the perpendicular bisector of the segment, at a fifth of the
      segment's length from the midpoint, so the curve is a symmetric arc. */
  function CurveControl(p1: Point, p2: Point): (c: Point)
    ensures Dist2(c, p1) == Dist2(c, p2)
    ensures Dot(Minus(c, Midpoint(p1, p2)), Minus(p2, p1)) == 0.0
    ensures Dist2(c, Midpoint(p1, p2)) == Dist2(p1, p2) / 25.0
  {
    var dx := p2.x - p1.x;
    var dy := p2.y - p1.y;
    Point((p1.x + p2.x) / 2.0 - dy * 0.2, (p1.y + p2.y) / 2.0 + dx * 0.2)
  }
}
