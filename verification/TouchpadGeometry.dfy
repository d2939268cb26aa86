/** The touchpad's geometry: emitted positions stay in the declared ranges, the integer transform
    is the rotation that undoes the layout's, and rounding moves a bound by less than a
    millimetre and a unit. */
module TouchpadGeometry {
  import opened Wrappers
  import opened InputEvents
  import opened StateMachine
  import opened Geometry
  import opened TouchpadModel

  // What loading leaves behind: the region, and the exact size in millimetres.
  datatype Layout = Layout(region: Region, width: real, height: real)

  /** The region in its two stages: first whole millimetres, then sensor units. */
  method LoadLayout(c: HardwareConfig, a: Area) returns (r: Result<Layout, LoadError>)
    requires ValidSizes(c)
    ensures r.Ok? <==> a.x1 < a.x2 && a.y1 < a.y2 &&
                       (c.rotation == 0 || c.rotation == 90 || c.rotation == 180 || c.rotation == 270)
    ensures r.Err? ==> r.error == if a.x1 < a.x2 && a.y1 < a.y2 then UnsupportedRotation else InvalidGeometry
    ensures r.Ok? ==> r.value == Layout(RegionOf(c, a), a.x2 - a.x1, a.y2 - a.y1)
  {
    var px, py := PitchX(c), PitchY(c);
    if a.x1 >= a.x2 || a.y1 >= a.y2 {
      return Err(InvalidGeometry);
    }
    var width, height := a.x2 - a.x1, a.y2 - a.y1;
    var xmin, xmax, ymin, ymax := 0, 0, 0, 0;
    match c.rotation {
      case 0 =>
        xmin, xmax := Trunc(a.x1 + c.left), Trunc(a.x2 + c.left);
        ymin, ymax := Trunc(a.y1 + c.top), Trunc(a.y2 + c.top);
      case 90 =>
        xmin, xmax := Trunc(c.top + a.y1), Trunc(c.top + a.y2);
        ymin, ymax := Trunc(c.height - (c.left + a.x2)), Trunc(c.height - (c.left + a.x1));
      case 180 =>
        xmin, xmax := Trunc(c.width - (a.x2 + c.left)), Trunc(c.width - (a.x1 + c.left));
        ymin, ymax := Trunc(c.height - (a.y2 + c.top)), Trunc(c.height - (a.y1 + c.top));
      case 270 =>
        xmin, xmax := Trunc(c.width - (a.y2 + c.top)), Trunc(c.width - (a.y1 + c.top));
        ymin, ymax := Trunc(c.left + a.x1), Trunc(c.left + a.x2);
      case _ =>
        return Err(UnsupportedRotation);
    }
    xmin, xmax := ScaleMm(xmin, px), ScaleMm(xmax, px);
    ymin, ymax := ScaleMm(ymin, py), ScaleMm(ymax, py);
    return Ok(Layout(Region(c.rotation, xmin, xmax, ymin, ymax), width, height));
  }

  // ---- rounding ----

  /** A stored bound is at most the exact bound, and less than one millimetre of pitch plus one
      unit below it. */
  lemma StoredBound(mm: real, pitch: real)
    requires mm >= 0.0 && pitch > 0.0
    ensures 0 <= Stored(mm, pitch)
    ensures Stored(mm, pitch) as real <= mm * pitch < Stored(mm, pitch) as real + pitch + 1.0
  {
    var t := Trunc(mm);
    TruncBounds(mm);
    ScaleMmBounds(t, pitch);
    WithinOne(t as real, mm, pitch);
  }

  // The exact position in sensor units.
  function Exact(mm: real, pitch: real): real {
    mm * pitch
  }

  lemma ScaleMmBounds(t: int, pitch: real)
    requires t >= 0 && pitch > 0.0
    ensures 0 <= ScaleMm(t, pitch)
    ensures ScaleMm(t, pitch) as real <= Exact(t as real, pitch) < ScaleMm(t, pitch) as real + 1.0
  {
    NonNegative(t as real, pitch);
    TruncBounds(t as real * pitch);
  }

  lemma NonNegative(t: real, pitch: real)
    requires t >= 0.0 && pitch > 0.0
    ensures t * pitch >= 0.0
  {
  }

  lemma WithinOne(t: real, mm: real, pitch: real)
    requires t <= mm < t + 1.0 && pitch > 0.0
    ensures Exact(t, pitch) <= Exact(mm, pitch) < Exact(t, pitch) + pitch
  {
    ExactGrows(t, mm, pitch);
    ExactGrows(mm, t + 1.0, pitch);
    ExactNext(t, pitch);
  }

  lemma ExactGrows(a: real, b: real, pitch: real)
    requires a <= b && pitch > 0.0
    ensures Exact(a, pitch) <= Exact(b, pitch) && (a < b ==> Exact(a, pitch) < Exact(b, pitch))
  {
    assert Exact(b, pitch) - Exact(a, pitch) == (b - a) * pitch;
  }

  lemma ExactNext(t: real, pitch: real)
    ensures Exact(t + 1.0, pitch) == Exact(t, pitch) + pitch
  {
  }

  lemma TruncBounds(e: real)
    requires e >= 0.0
    ensures 0 <= Trunc(e) && Trunc(e) as real <= e < Trunc(e) as real + 1.0
  {
  }

  lemma StoredMonotone(a: real, b: real, pitch: real)
    requires a <= b && pitch > 0.0
    ensures Stored(a, pitch) <= Stored(b, pitch)
  {
    TruncMonotone(a, b);
    ScaleMmMonotone(Trunc(a), Trunc(b), pitch);
  }

  lemma ScaleMmMonotone(a: int, b: int, pitch: real)
    requires a <= b && pitch > 0.0
    ensures ScaleMm(a, pitch) <= ScaleMm(b, pitch)
  {
    var p, q := a as real * pitch, b as real * pitch;
    assert p <= q by { MulMonotone(a as real, b as real, pitch); }
    TruncMonotone(p, q);
  }

  // A bound that was cut twice: to whole millimetres, and then to whole units.
  ghost predicate CutTwice(units: int, mm: real, pitch: real) {
    exists t: int :: CutFrom(t, mm) && CutFrom(units, Exact(t as real, pitch))
  }

  lemma StoredCutTwice(mm: real, pitch: real)
    ensures CutTwice(Stored(mm, pitch), mm, pitch)
  {
    TruncCut(mm);
    ScaleMmCut(Trunc(mm), pitch);
  }

  lemma ScaleMmCut(t: int, pitch: real)
    ensures CutFrom(ScaleMm(t, pitch), Exact(t as real, pitch))
  {
    TruncCut(t as real * pitch);
  }

  /** The region's corners are the user's corners on the sensor, each coordinate cut toward zero to
      whole millimetres and then to whole units; no other region is. */
  lemma CornersCutTwice(c: HardwareConfig, a: Area)
    requires ValidConfig(c) && ValidArea(a)
    ensures var g, ul, lr := RegionOf(c, a), OnSensor(c, a.x1, a.y1), OnSensor(c, a.x2, a.y2);
            && CutTwice(UpperLeft(g).0, ul.x, PitchX(c)) && CutTwice(UpperLeft(g).1, ul.y, PitchY(c))
            && CutTwice(LowerRight(g).0, lr.x, PitchX(c)) && CutTwice(LowerRight(g).1, lr.y, PitchY(c))
  {
    var ul, lr := OnSensor(c, a.x1, a.y1), OnSensor(c, a.x2, a.y2);
    CornersAreUsers(c, a);
    StoredCutTwice(ul.x, PitchX(c));
    StoredCutTwice(ul.y, PitchY(c));
    StoredCutTwice(lr.x, PitchX(c));
    StoredCutTwice(lr.y, PitchY(c));
  }

  lemma CutOnce(a: int, b: int, exact: real)
    requires CutFrom(a, exact) && CutFrom(b, exact)
    ensures a == b
  {
  }

  /** Being cut twice leaves no choice. */
  lemma CutTwiceOnce(a: int, b: int, mm: real, pitch: real)
    requires CutTwice(a, mm, pitch) && CutTwice(b, mm, pitch)
    ensures a == b
  {
    var t: int :| CutFrom(t, mm) && CutFrom(a, Exact(t as real, pitch));
    var u: int :| CutFrom(u, mm) && CutFrom(b, Exact(u as real, pitch));
    CutOnce(t, u, mm);
    CutOnce(a, b, Exact(t as real, pitch));
  }

  /** The region of a valid area is never inside out, though one thinner than a millimetre may
      collapse to a line; so the declared ranges are never negative. */
  lemma RegionIsOrdered(c: HardwareConfig, a: Area)
    requires ValidConfig(c) && ValidArea(a)
    ensures var g := RegionOf(c, a);
            && g.xmin <= g.xmax && g.ymin <= g.ymax
            && 0 <= DeclaredWidth(g) && 0 <= DeclaredHeight(g)
  {
    var mm := MmRegion(c, a);
    StoredMonotone(mm.xmin, mm.xmax, PitchX(c));
    StoredMonotone(mm.ymin, mm.ymax, PitchY(c));
  }

  // Within one millimetre of pitch and one unit of the exact size.
  predicate Close(units: int, size: real, pitch: real) {
    size * pitch - pitch - 1.0 < units as real < size * pitch + pitch + 1.0
  }

  /** The declared width differs from the exact width of the area by less than one millimetre of
      pitch and one unit, when the area lies on the sensor; likewise the height. */
  lemma DeclaredSizeIsClose(c: HardwareConfig, a: Area)
    requires ValidConfig(c) && ValidArea(a)
    requires var mm := MmRegion(c, a); mm.xmin >= 0.0 && mm.ymin >= 0.0
    ensures var g := RegionOf(c, a);
            && Close(DeclaredWidth(g), a.x2 - a.x1, UserPitchX(c))
            && Close(DeclaredHeight(g), a.y2 - a.y1, UserPitchY(c))
  {
    var mm := MmRegion(c, a);
    var quarter := IsQuarterTurn(c);
    MmRegionSize(c, a);
    SizeIsClose(mm.xmin, mm.xmax, if quarter then a.y2 - a.y1 else a.x2 - a.x1, PitchX(c));
    SizeIsClose(mm.ymin, mm.ymax, if quarter then a.x2 - a.x1 else a.y2 - a.y1, PitchY(c));
  }

  lemma MmRegionSize(c: HardwareConfig, a: Area)
    requires IsSupportedRotation(c.rotation) && ValidArea(a)
    ensures var mm := MmRegion(c, a);
            var w, h := mm.xmax - mm.xmin, mm.ymax - mm.ymin;
            && (if IsQuarterTurn(c) then w == a.y2 - a.y1 && h == a.x2 - a.x1 else w == a.x2 - a.x1 && h == a.y2 - a.y1)
            && mm.xmin <= mm.xmax && mm.ymin <= mm.ymax
  {
  }

  lemma SizeIsClose(lo: real, hi: real, size: real, pitch: real)
    requires 0.0 <= lo <= hi && pitch > 0.0 && size == hi - lo
    ensures Close(Stored(hi, pitch) - Stored(lo, pitch), size, pitch)
  {
    StoredBound(lo, pitch);
    StoredBound(hi, pitch);
    Scale(hi, lo, size, pitch);
  }

  // ---- positions ----

  /** Every position passed on for a contact inside the region lies in the range declared for
      its axis. */
  lemma PositionsInRange(g: Region, slot: Slot, k: EventKey)
    requires Contains(g, slot) && k in slot && (k.IsX() || k.IsY())
    ensures var o, v := OutKey(g.rotation, k), OutValue(g, k, slot[k]);
            && (o.IsX() ==> 0 <= v <= DeclaredWidth(g))
            && (o.IsY() ==> 0 <= v <= DeclaredHeight(g))
            && (o.IsX() || o.IsY())
  {
  }

  // A position that is written lies in the range declared for its axis.
  predicate InDeclaredRange(g: Region, ev: InputEvent) {
    && (ev.Key().IsX() ==> 0 <= ev.value <= DeclaredWidth(g))
    && (ev.Key().IsY() ==> 0 <= ev.value <= DeclaredHeight(g))
  }

  lemma {:induction false} PassInRange(g: Region, slot: Slot, order: seq<EventKey>)
    requires Contains(g, slot) && forall k | k in order :: k in slot
    ensures forall ev | ev in Pass(g, slot, order) :: InDeclaredRange(g, ev)
  {
    if order != [] {
      var k := order[|order| - 1];
      PassInRange(g, slot, order[..|order| - 1]);
      if k.IsX() || k.IsY() {
        PositionsInRange(g, slot, k);
      }
    }
  }

  lemma {:induction false} FrameInRange(g: Region, slots: seq<Slot>, members: seq<bool>, orders: seq<seq<EventKey>>)
    requires Walks(slots, orders) && |members| == |slots|
    ensures forall ev | ev in Frame(g, slots, members, orders) :: InDeclaredRange(g, ev)
  {
    if orders != [] {
      var i := |orders| - 1;
      FrameInRange(g, slots, members, orders[..i]);
      if Contains(g, slots[i]) {
        PassInRange(g, slots[i], orders[i]);
      }
    }
  }

  /** Every position the touchpad ever writes lies in the range declared for its axis, turned or
      not, whatever the source's slots hold. */
  lemma WrittenInRange(g: Region, slots: seq<Slot>, members: seq<bool>, orders: seq<seq<EventKey>>)
    requires |slots| == NUM_SLOTS == |members| && Orders(slots, orders)
    ensures forall ev | ev in Written(g, slots, members, orders) :: InDeclaredRange(g, ev)
  {
    FrameInRange(g, slots, members, orders);
  }

  function AsRect(g: Region): Rect {
    Rect(g.xmin as real, g.xmax as real, g.ymin as real, g.ymax as real)
  }

  function AsPoint(p: (int, int)): Point {
    Point(p.0 as real, p.1 as real)
  }

  // Within less than one millimetre of pitch and one unit of the exact value.
  predicate Near(value: real, exact: real, pitch: real) {
    -pitch - 1.0 < value - exact < pitch + 1.0
  }

  /** A contact at a user point is reported at that point's own offset from the touchpad's
      corner, scaled, but for the rounding of the region's corner: each coordinate is off by less
      than one millimetre of pitch and one unit, for every rotation. Nothing is lost when the
      corner lies on whole units. */
  lemma TransformUndoesLayout(c: HardwareConfig, a: Area, u: real, v: real, x: int, y: int)
    requires ValidConfig(c) && ValidArea(a)
    requires ToSensor(c, u, v) == Point(x as real, y as real)
    ensures var out, corner := AsPoint(OutPosition(RegionOf(c, a), x, y)), AsPoint(UpperLeft(RegionOf(c, a)));
            var exact := Scaled(Point(u - a.x1, v - a.y1), UserPitchX(c), UserPitchY(c));
            && Near(out.x, exact.x, UserPitchX(c)) && Near(out.y, exact.y, UserPitchY(c))
            && (corner == ToSensor(c, a.x1, a.y1) ==> out == exact)
  {
    var g := RegionOf(c, a);
    TransformIsOffset(g, x, y);
    ExactOffset(c, a, u, v);
    CornerIsNear(c, a);
    CornerMoves(c.rotation, AsPoint(UpperLeft(g)), ToSensor(c, a.x1, a.y1), ToSensor(c, u, v), PitchX(c), PitchY(c));
  }

  lemma CornerIsNear(c: HardwareConfig, a: Area)
    requires ValidConfig(c) && ValidArea(a)
    ensures var corner, exact := AsPoint(UpperLeft(RegionOf(c, a))), ToSensor(c, a.x1, a.y1);
            Near(corner.x, exact.x, PitchX(c)) && Near(corner.y, exact.y, PitchY(c))
  {
    CornersAreUsers(c, a);
    StoredPointNear(OnSensor(c, a.x1, a.y1), PitchX(c), PitchY(c));
  }

  lemma StoredPointNear(p: Point, px: real, py: real)
    requires px > 0.0 && py > 0.0
    ensures Near(Stored(p.x, px) as real, Scaled(p, px, py).x, px)
    ensures Near(Stored(p.y, py) as real, Scaled(p, px, py).y, py)
  {
    ScaledIsExact(p, px, py);
    StoredNearExact(p.x, px);
    StoredNearExact(p.y, py);
  }

  lemma ScaledIsExact(p: Point, px: real, py: real)
    ensures Scaled(p, px, py) == Point(Exact(p.x, px), Exact(p.y, py))
  {
  }

  lemma StoredNearExact(mm: real, pitch: real)
    requires pitch > 0.0
    ensures Near(Stored(mm, pitch) as real, Exact(mm, pitch), pitch)
  {
    StoredNear(mm, pitch);
  }

  // The exact offset of a user point, from the exact corner.
  lemma ExactOffset(c: HardwareConfig, a: Area, u: real, v: real)
    requires ValidConfig(c)
    ensures Offset(c.rotation, ToSensor(c, a.x1, a.y1), ToSensor(c, u, v)) ==
            Scaled(Point(u - a.x1, v - a.y1), UserPitchX(c), UserPitchY(c))
  {
    OnSensorOffset(c, a.x1, a.y1, u, v);
    OffsetIsScaled(c.rotation, OnSensor(c, a.x1, a.y1), OnSensor(c, u, v), PitchX(c), PitchY(c),
                   Point(u - a.x1, v - a.y1), UserPitchX(c), UserPitchY(c));
  }

  // The integer transform counts from the corner that is the user's upper left.
  lemma TransformIsOffset(g: Region, x: int, y: int)
    requires IsSupportedRotation(g.rotation)
    ensures AsPoint(OutPosition(g, x, y)) ==
            Offset(g.rotation, AsPoint(UpperLeft(g)), Point(x as real, y as real))
  {
  }

  // Moving the corner a little moves the offset as much.
  lemma CornerMoves(rotation: int, corner: Point, exact: Point, p: Point, px: real, py: real)
    requires Near(corner.x, exact.x, px) && Near(corner.y, exact.y, py)
    ensures var o, e := Offset(rotation, corner, p), Offset(rotation, exact, p);
            if rotation == 0 || rotation == 180 then Near(o.x, e.x, px) && Near(o.y, e.y, py)
            else Near(o.x, e.x, py) && Near(o.y, e.y, px)
  {
  }

  /** A stored bound, of either sign, is within one millimetre of pitch and one unit. */
  lemma StoredNear(mm: real, pitch: real)
    requires pitch > 0.0
    ensures Near(Stored(mm, pitch) as real, mm * pitch, pitch)
  {
    if mm >= 0.0 {
      StoredBound(mm, pitch);
    } else {
      StoredBound(-mm, pitch);
      StoredMirrored(mm, pitch);
      assert (-mm) * pitch == -(mm * pitch);
    }
  }

  // Truncation toward zero treats both signs alike.
  lemma StoredMirrored(mm: real, pitch: real)
    ensures Stored(-mm, pitch) == -Stored(mm, pitch)
  {
    var t := Trunc(mm);
    assert Trunc(-mm) == -t;
    assert (-t) as real * pitch == -(t as real * pitch);
  }

  /** The integer transform is the real one with the region's own bounds. */
  lemma TransformIsRotation(g: Region, x: int, y: int)
    requires IsSupportedRotation(g.rotation)
    ensures var (ox, oy) := OutPosition(g, x, y);
            Point(ox as real, oy as real) == FromSensor(g.rotation, AsRect(g), Point(x as real, y as real))
  {
  }

  // The region's corners that are the user's upper left and lower right.
  function UpperLeft(g: Region): (int, int) {
    match g.rotation
    case 90 => (g.xmin, g.ymax)
    case 180 => (g.xmax, g.ymax)
    case 270 => (g.xmax, g.ymin)
    case _ => (g.xmin, g.ymin)
  }

  function LowerRight(g: Region): (int, int) {
    match g.rotation
    case 90 => (g.xmax, g.ymin)
    case 180 => (g.xmin, g.ymin)
    case 270 => (g.xmin, g.ymax)
    case _ => (g.xmax, g.ymax)
  }

  /** The integer rectangle's own corners go exactly to (0, 0) and to the declared extent, and the
      transform is a bijection: no two positions of the region share an image. */
  lemma CornersAreExact(g: Region, x: int, y: int, x': int, y': int)
    requires IsSupportedRotation(g.rotation)
    ensures var (ulx, uly) := UpperLeft(g); OutPosition(g, ulx, uly) == (0, 0)
    ensures var (lrx, lry) := LowerRight(g); OutPosition(g, lrx, lry) == (DeclaredWidth(g), DeclaredHeight(g))
    ensures OutPosition(g, x, y) == OutPosition(g, x', y') ==> x == x' && y == y'
  {
  }

  /** The corners are the user's corners: they are the stored images of the area's corners. */
  lemma CornersAreUsers(c: HardwareConfig, a: Area)
    requires ValidConfig(c) && ValidArea(a)
    ensures var g, ul, lr := RegionOf(c, a), OnSensor(c, a.x1, a.y1), OnSensor(c, a.x2, a.y2);
            && UpperLeft(g) == (Stored(ul.x, PitchX(c)), Stored(ul.y, PitchY(c)))
            && LowerRight(g) == (Stored(lr.x, PitchX(c)), Stored(lr.y, PitchY(c)))
  {
    assert MmRegion(c, a) == Between(c.rotation, OnSensor(c, a.x1, a.y1), OnSensor(c, a.x2, a.y2));
  }
}
