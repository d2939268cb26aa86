/** The geometry shared by the keyboard, the touchpad and the haptics: how the millimetre frame
    of the user lies on the sensor for each rotation, and how rounding behaves. Doubles are
    modelled as reals, and a conversion to int truncates toward zero. */
module Geometry {

  datatype HardwareConfig = HardwareConfig(rotation: int, resX: int, resY: int, width: real, height: real,
                                           left: real, top: real)

  datatype Point = Point(x: real, y: real)

  // A rectangle by its bounds on each axis.
  datatype Rect = Rect(xmin: real, xmax: real, ymin: real, ymax: real)

  predicate IsSupportedRotation(rotation: int) {
    rotation == 0 || rotation == 90 || rotation == 180 || rotation == 270
  }

  predicate ValidSizes(c: HardwareConfig) {
    c.resX > 0 && c.resY > 0 && c.width > 0.0 && c.height > 0.0 && c.left >= 0.0 && c.top >= 0.0
  }

  // What the configuration loader accepts.
  predicate ValidConfig(c: HardwareConfig) {
    ValidSizes(c) && IsSupportedRotation(c.rotation)
  }

  // Sensor units per millimetre along each sensor axis.
  function PitchX(c: HardwareConfig): (p: real)
    requires ValidSizes(c)
    ensures p > 0.0 && p * c.width == c.resX as real
  {
    c.resX as real / c.width
  }

  function PitchY(c: HardwareConfig): (p: real)
    requires ValidSizes(c)
    ensures p > 0.0 && p * c.height == c.resY as real
  {
    c.resY as real / c.height
  }

  predicate IsQuarterTurn(c: HardwareConfig) {
    c.rotation == 90 || c.rotation == 270
  }

  // The pitches of the user's own horizontal and vertical axes.
  function UserPitchX(c: HardwareConfig): real
    requires ValidConfig(c)
  {
    if IsQuarterTurn(c) then PitchY(c) else PitchX(c)
  }

  function UserPitchY(c: HardwareConfig): real
    requires ValidConfig(c)
  {
    if IsQuarterTurn(c) then PitchX(c) else PitchY(c)
  }

  // ---- rounding ----

  function Trunc(r: real): int {
    if r >= 0.0 then r.Floor else -((-r).Floor)
  }

  lemma TruncMonotone(a: real, b: real)
    requires a <= b
    ensures Trunc(a) <= Trunc(b)
  {
  }

  // A whole number cut toward zero from the exact one: off by less than one.
  predicate CutFrom(whole: int, exact: real) {
    && -1.0 < whole as real - exact < 1.0
    && (exact >= 0.0 ==> 0.0 <= whole as real <= exact)
    && (exact <= 0.0 ==> exact <= whole as real <= 0.0)
  }

  lemma TruncCut(e: real)
    ensures CutFrom(Trunc(e), e)
  {
  }

  lemma MulMonotone(a: real, b: real, p: real)
    requires a <= b && p > 0.0
    ensures a * p <= b * p
  {
    assert (b - a) * p >= 0.0;
  }

  // ---- the user's frame on the sensor ----

  // The user's point (u, v), in millimetres from the corner the layout counts from, as
  // millimetres along the sensor axes.
  function OnSensor(c: HardwareConfig, u: real, v: real): Point
    requires IsSupportedRotation(c.rotation)
  {
    match c.rotation
    case 0 => Point(c.left + u, c.top + v)
    case 90 => Point(c.top + v, c.height - (c.left + u))
    case 180 => Point(c.width - (c.left + u), c.height - (c.top + v))
    case _ => Point(c.width - (c.top + v), c.left + u)
  }

  function Scaled(p: Point, px: real, py: real): Point {
    Point(p.x * px, p.y * py)
  }

  // The same point in sensor units.
  function ToSensor(c: HardwareConfig, u: real, v: real): Point
    requires ValidConfig(c)
  {
    Scaled(OnSensor(c, u, v), PitchX(c), PitchY(c))
  }

  // The sensor rectangle spanned by the images a and b of two user points, where a is the one
  // further left and further up.
  function Between(rotation: int, a: Point, b: Point): Rect {
    match rotation
    case 0 => Rect(a.x, b.x, a.y, b.y)
    case 90 => Rect(a.x, b.x, b.y, a.y)
    case 180 => Rect(b.x, a.x, b.y, a.y)
    case _ => Rect(b.x, a.x, a.y, b.y)
  }

  function Span(c: HardwareConfig, u1: real, v1: real, u2: real, v2: real): Rect
    requires ValidConfig(c)
  {
    Between(c.rotation, ToSensor(c, u1, v1), ToSensor(c, u2, v2))
  }

  // ---- back to the user's frame, as the touchpad does it ----

  // Shifts a sensor point to the corner of the region and undoes the rotation.
  function FromSensor(rotation: int, r: Rect, p: Point): Point {
    var x, y := p.x - r.xmin, p.y - r.ymin;
    match rotation
    case 0 => Point(x, y)
    case 90 => Point((r.ymax - r.ymin) - y, x)
    case 180 => Point((r.xmax - r.xmin) - x, (r.ymax - r.ymin) - y)
    case 270 => Point(y, (r.xmax - r.xmin) - x)
    case _ => Point(x, y)
  }

  // How far a sensor point is from the corner a, along the user's axes.
  function Offset(rotation: int, a: Point, p: Point): Point {
    match rotation
    case 0 => Point(p.x - a.x, p.y - a.y)
    case 90 => Point(a.y - p.y, p.x - a.x)
    case 180 => Point(a.x - p.x, a.y - p.y)
    case _ => Point(p.y - a.y, a.x - p.x)
  }

  lemma FromSensorIsOffset(rotation: int, a: Point, b: Point, p: Point)
    requires IsSupportedRotation(rotation)
    ensures FromSensor(rotation, Between(rotation, a, b), p) == Offset(rotation, a, p)
  {
  }

  lemma Scale(p: real, a: real, d: real, pitch: real)
    requires p - a == d
    ensures p * pitch - a * pitch == d * pitch
  {
    assert (p - a) * pitch == p * pitch - a * pitch;
  }

  // Offsets taken after scaling are scaled offsets; a quarter turn swaps the pitches.
  lemma OffsetIsScaled(rotation: int, a: Point, p: Point, px: real, py: real, d: Point, ux: real, uy: real)
    requires Offset(rotation, a, p) == d
    requires if rotation == 0 || rotation == 180 then ux == px && uy == py else ux == py && uy == px
    ensures Offset(rotation, Scaled(a, px, py), Scaled(p, px, py)) == Scaled(d, ux, uy)
  {
    match rotation {
      case 0 => ScaleBoth(a, p, px, py);
      case 180 => ScaleBoth(p, a, px, py);
      case 90 => ScaleMixed(a, p, px, py);
      case _ => ScaleMixed(p, a, px, py);
    }
  }

  lemma ScaleBoth(a: Point, p: Point, px: real, py: real)
    ensures Point(Scaled(p, px, py).x - Scaled(a, px, py).x, Scaled(p, px, py).y - Scaled(a, px, py).y) ==
            Scaled(Point(p.x - a.x, p.y - a.y), px, py)
  {
    Scale(p.x, a.x, p.x - a.x, px);
    Scale(p.y, a.y, p.y - a.y, py);
  }

  lemma ScaleMixed(a: Point, p: Point, px: real, py: real)
    ensures Point(Scaled(a, px, py).y - Scaled(p, px, py).y, Scaled(p, px, py).x - Scaled(a, px, py).x) ==
            Scaled(Point(a.y - p.y, p.x - a.x), py, px)
  {
    Scale(a.y, p.y, a.y - p.y, py);
    Scale(p.x, a.x, p.x - a.x, px);
  }

  lemma OnSensorOffset(c: HardwareConfig, x1: real, y1: real, u: real, v: real)
    requires IsSupportedRotation(c.rotation)
    ensures Offset(c.rotation, OnSensor(c, x1, y1), OnSensor(c, u, v)) == Point(u - x1, v - y1)
  {
  }

  /** The two rotations undo each other: for every rotation, a user point carried to the sensor
      comes back as its offset from the touchpad's corner, scaled by the pitches of the user's
      axes. */
  lemma RotationRoundTrip(c: HardwareConfig, x1: real, y1: real, x2: real, y2: real, u: real, v: real)
    requires ValidConfig(c)
    ensures FromSensor(c.rotation, Span(c, x1, y1, x2, y2), ToSensor(c, u, v)) ==
            Scaled(Point(u - x1, v - y1), UserPitchX(c), UserPitchY(c))
  {
    FromSensorIsOffset(c.rotation, ToSensor(c, x1, y1), ToSensor(c, x2, y2), ToSensor(c, u, v));
    OnSensorOffset(c, x1, y1, u, v);
    OffsetIsScaled(c.rotation, OnSensor(c, x1, y1), OnSensor(c, u, v), PitchX(c), PitchY(c),
                   Point(u - x1, v - y1), UserPitchX(c), UserPitchY(c));
  }

  lemma UndoScale(t: Point, px: real, py: real, du: real, dv: real)
    requires px > 0.0 && py > 0.0 && du == t.x / px && dv == t.y / py
    ensures Scaled(Point(du, dv), px, py) == t
  {
  }

  lemma OffsetInjective(rotation: int, a: Point, p: Point, q: Point)
    requires Offset(rotation, a, p) == Offset(rotation, a, q)
    ensures p == q
  {
  }

  /** And the other way round: every sensor point is where the user point read off the touchpad
      lies. */
  lemma SensorRoundTrip(c: HardwareConfig, x1: real, y1: real, x2: real, y2: real, p: Point)
    requires ValidConfig(c)
    ensures UserPitchX(c) > 0.0 && UserPitchY(c) > 0.0
    ensures var t := FromSensor(c.rotation, Span(c, x1, y1, x2, y2), p);
            ToSensor(c, x1 + t.x / UserPitchX(c), y1 + t.y / UserPitchY(c)) == p
  {
    var a, b := ToSensor(c, x1, y1), ToSensor(c, x2, y2);
    var t := FromSensor(c.rotation, Between(c.rotation, a, b), p);
    var du, dv := t.x / UserPitchX(c), t.y / UserPitchY(c);
    UndoScale(t, UserPitchX(c), UserPitchY(c), du, dv);
    var q := ToSensor(c, x1 + du, y1 + dv);
    RotationRoundTrip(c, x1, y1, x2, y2, x1 + du, y1 + dv);
    assert Point(x1 + du - x1, y1 + dv - y1) == Point(du, dv);
    FromSensorIsOffset(c.rotation, a, b, p);
    FromSensorIsOffset(c.rotation, a, b, q);
    OffsetInjective(c.rotation, a, p, q);
  }

  // ---- haptics ----

  // touch_max_x_: the sensor's extent along the user's horizontal axis. The manager throws for
  // any other rotation.
  function TouchMaxX(rotation: int, maxX: int, maxY: int): int
    requires IsSupportedRotation(rotation)
  {
    if rotation == 0 || rotation == 180 then maxX else maxY
  }

  // The position along the user's horizontal axis that decides which motor runs.
  function HapticPosition(rotation: int, touchMaxX: int, x: int, y: int): int {
    match rotation
    case 90 => touchMaxX - y
    case 180 => touchMaxX - x
    case 270 => y
    case _ => x
  }

  // The left motor runs for positions in the left half; the division truncates.
  predicate LeftMotor(rotation: int, touchMaxX: int, x: int, y: int)
    requires touchMaxX > 0
  {
    HapticPosition(rotation, touchMaxX, x, y) < touchMaxX / 2
  }

  /** For a contact exactly at a user point, the position is the user's own distance from the
      left edge, and the left motor runs only in the left half of the surface. The right motor
      runs in the right half, and at most half a sensor unit to the left of it. */
  lemma HapticsFollowUser(c: HardwareConfig, u: real, v: real, x: int, y: int)
    requires ValidConfig(c) && ToSensor(c, u, v) == Point(x as real, y as real)
    ensures var touchMax := TouchMaxX(c.rotation, c.resX, c.resY);
            var userWidth := if IsQuarterTurn(c) then c.height else c.width;
            && touchMax > 0
            && HapticPosition(c.rotation, touchMax, x, y) as real == (c.left + u) * UserPitchX(c)
            && (LeftMotor(c.rotation, touchMax, x, y) ==> c.left + u < userWidth / 2.0)
            && (!LeftMotor(c.rotation, touchMax, x, y) ==>
                  userWidth / 2.0 * UserPitchX(c) - 0.5 <= (c.left + u) * UserPitchX(c))
  {
    var touchMax := TouchMaxX(c.rotation, c.resX, c.resY);
    var userWidth := if IsQuarterTurn(c) then c.height else c.width;
    HapticPositionIsOffset(c, u, v, x, y);
    UserWidthInUnits(c);
    HalfWidth(touchMax, HapticPosition(c.rotation, touchMax, x, y), userWidth, c.left + u, UserPitchX(c));
  }

  lemma UserWidthInUnits(c: HardwareConfig)
    requires ValidConfig(c)
    ensures var userWidth := if IsQuarterTurn(c) then c.height else c.width;
            && UserPitchX(c) > 0.0 && TouchMaxX(c.rotation, c.resX, c.resY) > 0
            && userWidth * UserPitchX(c) == TouchMaxX(c.rotation, c.resX, c.resY) as real
  {
  }

  lemma HapticPositionIsOffset(c: HardwareConfig, u: real, v: real, x: int, y: int)
    requires ValidConfig(c) && ToSensor(c, u, v) == Point(x as real, y as real)
    ensures var touchMax := TouchMaxX(c.rotation, c.resX, c.resY);
            HapticPosition(c.rotation, touchMax, x, y) as real == (c.left + u) * UserPitchX(c)
  {
    match c.rotation {
      case 0 =>
      case 90 => Scale(c.height, c.height - (c.left + u), c.left + u, PitchY(c));
      case 180 => Scale(c.width, c.width - (c.left + u), c.left + u, PitchX(c));
      case _ =>
    }
  }

  lemma HalfWidth(touchMax: int, pos: int, userWidth: real, d: real, pitch: real)
    requires touchMax > 0 && pitch > 0.0 && userWidth * pitch == touchMax as real && pos as real == d * pitch
    ensures pos < touchMax / 2 ==> d < userWidth / 2.0
    ensures pos >= touchMax / 2 ==> userWidth / 2.0 * pitch - 0.5 <= d * pitch
  {
    var half := userWidth / 2.0;
    assert half * pitch + half * pitch == touchMax as real;
    if half <= d {
      MulMonotone(half, d, pitch);
    }
    assert 2 * (touchMax / 2) >= touchMax - 1;
  }
}
