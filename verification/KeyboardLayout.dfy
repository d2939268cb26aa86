/** Loading the keyboard layout: millimetre rectangles become half-open rectangles of sensor
    units, and rounding never makes two keys overlap. */
module KeyboardLayout {
  import opened Wrappers
  import opened InputEvents
  import opened Geometry
  import opened KeyboardModel
  import opened KeyboardInvariant

  datatype Row = Row(x: real, y: real, w: real, h: real, code: int, codeFn: int)

  datatype LoadError = InvalidKey | UnsupportedRotation | InvalidBounds | NoKeys

  predicate ValidRow(row: Row) {
    row.w > 0.0 && row.h > 0.0 && 0 < row.code <= KEY_MAX && 0 <= row.codeFn <= KEY_MAX
  }

  // The key's bounds along the sensor axes, in millimetres.
  function MmBounds(c: HardwareConfig, row: Row): Rect {
    match c.rotation
    case 0 => Rect(c.left + row.x, c.left + row.x + row.w, c.top + row.y, c.top + row.y + row.h)
    case 90 => Rect(c.top + row.y, c.top + row.y + row.h,
                    c.height - (c.left + row.x + row.w), c.height - (c.left + row.x))
    case 180 => Rect(c.width - (c.left + row.x + row.w), c.width - (c.left + row.x),
                     c.height - (c.top + row.y + row.h), c.height - (c.top + row.y))
    case _ => Rect(c.width - (row.y + row.h + c.top), c.width - (row.y + c.top),
                   c.left + row.x, c.left + row.x + row.w)
  }

  // Millimetres in whole sensor units.
  function Units(mm: real, pitch: real): int {
    Trunc(mm * pitch)
  }

  function KeyFor(c: HardwareConfig, row: Row): Key
    requires ValidSizes(c)
  {
    var mm := MmBounds(c, row);
    Key(row.code, row.codeFn,
        Units(mm.xmin, PitchX(c)), Units(mm.xmax, PitchX(c)),
        Units(mm.ymin, PitchY(c)), Units(mm.ymax, PitchY(c)))
  }

  predicate NotEmpty(key: Key) {
    key.xmin < key.xmax && key.ymin < key.ymax
  }

  predicate Loads(c: HardwareConfig, row: Row)
    requires ValidSizes(c)
  {
    ValidRow(row) && IsSupportedRotation(c.rotation) && NotEmpty(KeyFor(c, row))
  }

  function RowError(c: HardwareConfig, row: Row): LoadError {
    if !ValidRow(row) then InvalidKey
    else if !IsSupportedRotation(c.rotation) then UnsupportedRotation
    else InvalidBounds
  }

  /** Every row becomes its key, in order, unless some row is invalid or too small to cover a
      sensor unit; then the first such row decides the error. A layout without rows is an error
      too. */
  method LoadLayout(c: HardwareConfig, rows: seq<Row>) returns (r: Result<seq<Key>, LoadError>)
    requires ValidSizes(c)
    ensures r.Ok? <==> rows != [] && forall i | 0 <= i < |rows| :: Loads(c, rows[i])
    ensures r.Ok? ==> |r.value| == |rows| && forall i | 0 <= i < |rows| :: r.value[i] == KeyFor(c, rows[i])
    ensures r.Ok? ==> LayoutOk(r.value)
    ensures r.Ok? ==> ValidConfig(c) && forall i | 0 <= i < |rows| :: LiesOn(c, rows[i], r.value[i])
    ensures r.Err? ==>
              || (rows == [] && r.error == NoKeys)
              || exists i :: 0 <= i < |rows| && !Loads(c, rows[i]) && (forall j | 0 <= j < i :: Loads(c, rows[j])) &&
                   r.error == if !(rows[i].w > 0.0 && rows[i].h > 0.0)
                                 || !(1 <= rows[i].code <= 767 && 0 <= rows[i].codeFn <= 767) then InvalidKey
                              else if !(c.rotation == 0 || c.rotation == 90 || c.rotation == 180 || c.rotation == 270)
                              then UnsupportedRotation else InvalidBounds
  {
    var layout := [];
    for i := 0 to |rows|
      invariant |layout| == i
      invariant forall j | 0 <= j < i :: Loads(c, rows[j]) && layout[j] == KeyFor(c, rows[j])
    {
      var key := LoadRow(c, rows[i]);
      if key.Err? {
        return Err(key.error);
      }
      layout := layout + [key.value];
    }
    if layout == [] {
      return Err(NoKeys);
    }
    assert Loads(c, rows[0]);
    forall i | 0 <= i < |rows| ensures LiesOn(c, rows[i], layout[i]) {
      KeyLiesOnItsRow(c, rows[i]);
    }
    return Ok(layout);
  }

  // The loop's body: one row.
  method LoadRow(c: HardwareConfig, row: Row) returns (r: Result<Key, LoadError>)
    requires ValidSizes(c)
    ensures r.Ok? <==> Loads(c, row)
    ensures r == if Loads(c, row) then Ok(KeyFor(c, row)) else Err(RowError(c, row))
  {
    if row.w <= 0.0 || row.h <= 0.0 || row.code <= 0 || row.code > KEY_MAX || row.codeFn < 0 || row.codeFn > KEY_MAX {
      return Err(InvalidKey);
    }
    var px, py := PitchX(c), PitchY(c);
    var x1, x2, y1, y2 := 0, 0, 0, 0;
    match c.rotation {
      case 0 =>
        x1, x2 := Units(c.left + row.x, px), Units(c.left + row.x + row.w, px);
        y1, y2 := Units(c.top + row.y, py), Units(c.top + row.y + row.h, py);
      case 90 =>
        x1, x2 := Units(c.top + row.y, px), Units(c.top + row.y + row.h, px);
        y1, y2 := Units(c.height - (c.left + row.x + row.w), py), Units(c.height - (c.left + row.x), py);
      case 180 =>
        x1, x2 := Units(c.width - (c.left + row.x + row.w), px), Units(c.width - (c.left + row.x), px);
        y1, y2 := Units(c.height - (c.top + row.y + row.h), py), Units(c.height - (c.top + row.y), py);
      case 270 =>
        x1, x2 := Units(c.width - (row.y + row.h + c.top), px), Units(c.width - (row.y + c.top), px);
        y1, y2 := Units(c.left + row.x, py), Units(c.left + row.x + row.w, py);
      case _ =>
        return Err(UnsupportedRotation);
    }
    if x1 >= x2 || y1 >= y2 {
      return Err(InvalidBounds);
    }
    return Ok(Key(row.code, row.codeFn, x1, x2, y1, y2));
  }

  // ---- rounding keeps keys apart ----

  // Two rows whose rectangles do not overlap; they may touch.
  predicate Apart(a: Row, b: Row) {
    a.x + a.w <= b.x || b.x + b.w <= a.x || a.y + a.h <= b.y || b.y + b.h <= a.y
  }

  predicate Disjoint(a: Key, b: Key) {
    a.xmax <= b.xmin || b.xmax <= a.xmin || a.ymax <= b.ymin || b.ymax <= a.ymin
  }

  lemma UnitsMonotone(a: real, b: real, pitch: real)
    requires pitch > 0.0 && a <= b
    ensures Units(a, pitch) <= Units(b, pitch)
  {
    MulMonotone(a, b, pitch);
    TruncMonotone(a * pitch, b * pitch);
  }

  /** Rows that do not overlap become keys that do not overlap, for every rotation and however
      the bounds are rounded. */
  lemma ApartStaysApart(c: HardwareConfig, a: Row, b: Row)
    requires ValidConfig(c) && Apart(a, b)
    ensures Disjoint(KeyFor(c, a), KeyFor(c, b))
  {
    var ma, mb := MmBounds(c, a), MmBounds(c, b);
    ApartOnSensor(c, a, b);
    if ma.xmax <= mb.xmin {
      UnitsMonotone(ma.xmax, mb.xmin, PitchX(c));
    } else if mb.xmax <= ma.xmin {
      UnitsMonotone(mb.xmax, ma.xmin, PitchX(c));
    } else if ma.ymax <= mb.ymin {
      UnitsMonotone(ma.ymax, mb.ymin, PitchY(c));
    } else {
      UnitsMonotone(mb.ymax, ma.ymin, PitchY(c));
    }
  }

  lemma ApartOnSensor(c: HardwareConfig, a: Row, b: Row)
    requires Apart(a, b)
    ensures var ma, mb := MmBounds(c, a), MmBounds(c, b);
            ma.xmax <= mb.xmin || mb.xmax <= ma.xmin || ma.ymax <= mb.ymin || mb.ymax <= ma.ymin
  {
  }

  ghost predicate AllApart(rows: seq<Row>) {
    forall i, j | 0 <= i < j < |rows| :: Apart(rows[i], rows[j])
  }

  ghost predicate IsLayoutOf(c: HardwareConfig, rows: seq<Row>, layout: seq<Key>)
    requires ValidConfig(c)
  {
    |layout| == |rows| && forall i | 0 <= i < |rows| :: layout[i] == KeyFor(c, rows[i])
  }

  /** At most one key of a layout without overlaps contains any point, and the first-match scan
      finds it. */
  lemma KeyIsUnique(c: HardwareConfig, rows: seq<Row>, layout: seq<Key>, x: int, y: int, i: nat)
    requires ValidConfig(c) && AllApart(rows) && IsLayoutOf(c, rows, layout)
    requires i < |layout| && layout[i].Contains(x, y)
    ensures FindKey(layout, x, y) == i
  {
    var k := FindKey(layout, x, y);
    if k < i {
      ApartStaysApart(c, rows[k], rows[i]);
    }
  }

  /** So the order of the rows in the layout file is irrelevant: a layout that lists the same
      rows differently resolves every touch to the same code. */
  lemma RowOrderIrrelevant(c: HardwareConfig, rows: seq<Row>, layout: seq<Key>, rows': seq<Row>, layout': seq<Key>,
                           fn: bool, x: int, y: int)
    requires ValidConfig(c) && AllApart(rows)
    requires IsLayoutOf(c, rows, layout) && IsLayoutOf(c, rows', layout')
    requires multiset(rows) == multiset(rows')
    ensures CodeAt(layout, fn, x, y) == CodeAt(layout', fn, x, y)
  {
    var k, k' := FindKey(layout, x, y), FindKey(layout', x, y);
    if k' != NO_KEY {
      var i := IndexOf(rows', rows, k');
      KeyIsUnique(c, rows, layout, x, y, i);
    } else if k != NO_KEY {
      var i := IndexOf(rows, rows', k);
    }
  }

  lemma IndexOf(a: seq<Row>, b: seq<Row>, i: nat) returns (j: nat)
    requires multiset(a) == multiset(b) && i < |a|
    ensures j < |b| && b[j] == a[i]
  {
    assert a[i] in multiset(a);
    assert a[i] in multiset(b);
    j :| 0 <= j < |b| && b[j] == a[i];
  }

  /** Before rounding, a key's bounds are those of the image of its rectangle under the rotation
      that the touchpad undoes. */
  lemma KeySpansItsImage(c: HardwareConfig, row: Row)
    requires IsSupportedRotation(c.rotation)
    ensures MmBounds(c, row) ==
            Between(c.rotation, OnSensor(c, row.x, row.y), OnSensor(c, row.x + row.w, row.y + row.h))
  {
  }

  /** Which rows load: those with a size, a code from 1 to 767 and an Fn code from 0 to 767, for one
      of the four rotations, whose key contains at least one position. */
  lemma LoadsIff(c: HardwareConfig, row: Row)
    requires ValidSizes(c)
    ensures Loads(c, row) <==>
            && row.w > 0.0 && row.h > 0.0 && 1 <= row.code <= 767 && 0 <= row.codeFn <= 767
            && (c.rotation == 0 || c.rotation == 90 || c.rotation == 180 || c.rotation == 270)
            && exists x, y :: KeyFor(c, row).Contains(x, y)
  {
    var key := KeyFor(c, row);
    if Loads(c, row) {
      assert key.Contains(key.xmin, key.ymin);
    }
  }

  // ---- where a key lies ----

  // The image of a row's rectangle on the sensor, in units.
  function RowSpan(c: HardwareConfig, row: Row): Rect
    requires ValidConfig(c)
  {
    Span(c, row.x, row.y, row.x + row.w, row.y + row.h)
  }

  // The key has the codes of the row and lies, but for rounding, on the image of its rectangle.
  predicate LiesOn(c: HardwareConfig, row: Row, key: Key)
    requires ValidConfig(c)
  {
    var r := RowSpan(c, row);
    && key.code == row.code && key.codeFn == row.codeFn
    && CutFrom(key.xmin, r.xmin) && CutFrom(key.xmax, r.xmax)
    && CutFrom(key.ymin, r.ymin) && CutFrom(key.ymax, r.ymax)
  }

  function InUnits(mm: real, pitch: real): real {
    mm * pitch
  }

  function RectInUnits(r: Rect, px: real, py: real): Rect {
    Rect(InUnits(r.xmin, px), InUnits(r.xmax, px), InUnits(r.ymin, py), InUnits(r.ymax, py))
  }

  lemma UnitsCut(mm: real, pitch: real)
    ensures CutFrom(Units(mm, pitch), InUnits(mm, pitch))
  {
    TruncCut(mm * pitch);
  }

  lemma BetweenScaled(rotation: int, a: Point, b: Point, px: real, py: real)
    ensures Between(rotation, Scaled(a, px, py), Scaled(b, px, py)) == RectInUnits(Between(rotation, a, b), px, py)
  {
  }

  lemma BoundsCut(mm: Rect, px: real, py: real)
    ensures var r := RectInUnits(mm, px, py);
            && CutFrom(Units(mm.xmin, px), r.xmin) && CutFrom(Units(mm.xmax, px), r.xmax)
            && CutFrom(Units(mm.ymin, py), r.ymin) && CutFrom(Units(mm.ymax, py), r.ymax)
  {
    UnitsCut(mm.xmin, px);
    UnitsCut(mm.xmax, px);
    UnitsCut(mm.ymin, py);
    UnitsCut(mm.ymax, py);
  }

  lemma SpanIsScaled(c: HardwareConfig, row: Row)
    requires ValidConfig(c)
    ensures RowSpan(c, row) == RectInUnits(MmBounds(c, row), PitchX(c), PitchY(c))
  {
    KeySpansItsImage(c, row);
    BetweenScaled(c.rotation, OnSensor(c, row.x, row.y), OnSensor(c, row.x + row.w, row.y + row.h),
                  PitchX(c), PitchY(c));
  }

  /** A key lies where its row says: for every rotation each of its bounds, in sensor units, is the
      matching bound of the image of the row's rectangle, cut toward zero by less than a unit. */
  lemma KeyLiesOnItsRow(c: HardwareConfig, row: Row)
    requires ValidConfig(c)
    ensures LiesOn(c, row, KeyFor(c, row))
  {
    SpanIsScaled(c, row);
    BoundsCut(MmBounds(c, row), PitchX(c), PitchY(c));
  }

  // Inside a rectangle, at least one unit from its edges, and outside it by at least one.
  predicate WellInside(r: Rect, p: Point) {
    r.xmin + 1.0 <= p.x <= r.xmax - 1.0 && r.ymin + 1.0 <= p.y <= r.ymax - 1.0
  }

  predicate WellOutside(r: Rect, p: Point) {
    p.x <= r.xmin - 1.0 || r.xmax + 1.0 <= p.x || p.y <= r.ymin - 1.0 || r.ymax + 1.0 <= p.y
  }

  /** Where the user touches is what is typed: a contact on the image of a user point that is well
      inside one row's rectangle, where no row before it overlaps that row or comes near the point,
      gets that row's code, or its Fn code if Fn is on and it has one. */
  lemma TouchTypesRow(c: HardwareConfig, rows: seq<Row>, layout: seq<Key>, i: nat, u: real, v: real,
                      x: int, y: int, fn: bool)
    requires ValidConfig(c) && IsLayoutOf(c, rows, layout) && i < |rows|
    requires ToSensor(c, u, v) == Point(x as real, y as real)
    requires WellInside(RowSpan(c, rows[i]), ToSensor(c, u, v))
    requires forall j | 0 <= j < i :: Apart(rows[j], rows[i]) || WellOutside(RowSpan(c, rows[j]), ToSensor(c, u, v))
    ensures FindKey(layout, x, y) == i
    ensures CodeAt(layout, fn, x, y) == if fn && rows[i].codeFn != 0 then rows[i].codeFn else rows[i].code
  {
    KeyLiesOnItsRow(c, rows[i]);
    var k := FindKey(layout, x, y);
    assert layout[i].Contains(x, y);
    if k < i {
      KeyLiesOnItsRow(c, rows[k]);
      if Apart(rows[k], rows[i]) {
        ApartStaysApart(c, rows[k], rows[i]);
      }
    }
  }
}
