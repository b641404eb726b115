/** Edge-triggered auto-panning. While a floating endpoint is being dragged,
    a pointer inside a 60px margin of a window edge produces a pan velocity
    that ramps linearly from 0 at the inner margin line to 15 at the edge,
    positive at the left/top edge and negative at the right/bottom edge.
    Each animation frame then subtracts the velocity from the pan. */
module EdgePan {
  import opened Basics
  import opened Geometry

  const EdgeMargin: real := 60.0
  const MaxPanSpeed: real := 15.0

  /** Velocity along one axis for pointer coordinate `c` in a window of size `extent`. */
  function AxisVelocity(c: real, extent: real): (v: real)
    ensures 0.0 <= c <= extent ==> -MaxPanSpeed <= v <= MaxPanSpeed
    ensures v > 0.0 <==> c < EdgeMargin
    ensures v < 0.0 <==> EdgeMargin <= c && c > extent - EdgeMargin
    ensures c == 0.0 ==> v == MaxPanSpeed
    ensures EdgeMargin <= extent && c == extent ==> v == -MaxPanSpeed
  {
    if c < EdgeMargin then
      (EdgeMargin - c) / EdgeMargin * MaxPanSpeed
    else if c > extent - EdgeMargin then
      -(c - (extent - EdgeMargin)) / EdgeMargin * MaxPanSpeed
    else
      0.0
  }

  /** The ramp is linear inside each margin: a step of `h` pixels towards an
      edge raises the speed by `h / 4`. */
  lemma AxisVelocityLinear(c: real, h: real, extent: real)
    requires 0.0 <= h
    requires c < EdgeMargin
    ensures AxisVelocity(c - h, extent) == AxisVelocity(c, extent) + h / 4.0
  {
  }

  /** Moving the pointer right (or down) never increases the velocity. */
  lemma AxisVelocityMonotone(c1: real, c2: real, extent: real)
    requires c1 <= c2
    ensures AxisVelocity(c1, extent) >= AxisVelocity(c2, extent)
  {
  }

  /** The ramp applied to a coordinate that may be `undefined` (`None`):
      `undefined` compares false against every number, so neither margin
      test fires and the velocity is zero. */
  function AxisVelocityOf(c: Option<real>, extent: real): (v: real)
    ensures c.None? ==> v == 0.0
    ensures c.Some? ==> v == AxisVelocity(c.value, extent)
  {
    match c
    case None => 0.0
    case Some(x) => AxisVelocity(x, extent)
  }

  function Velocity(pointer: Point, width: real, height: real): (v: Point)
    ensures (0.0 <= pointer.x <= width && 0.0 <= pointer.y <= height) ==>
      -MaxPanSpeed <= v.x <= MaxPanSpeed && -MaxPanSpeed <= v.y <= MaxPanSpeed
    ensures (EdgeMargin <= pointer.x <= width - EdgeMargin &&
             EdgeMargin <= pointer.y <= height - EdgeMargin) ==> v == Origin
  {
    Point(AxisVelocity(pointer.x, width), AxisVelocity(pointer.y, height))
  }

  /** One frame of the pan loop: the pan moves against the velocity. The loop
      is only scheduled while the velocity is non-zero. */
  function PanStep(pan: Point, velocity: Point): (p: Point)
    ensures Plus(p, velocity) == pan
    ensures velocity == Origin ==> p == pan
  {
    Minus(pan, velocity)
  }
}
