/** The fake touchpad: the region it occupies, and what it writes for each frame of the source.
    Functions give the meaning; the class applies them in place. */
module TouchpadModel {
  import opened HashTables
  import opened InputEvents
  import opened StateMachine
  import opened Geometry

  // ---- geometry ----

  datatype Region = Region(rotation: int, xmin: int, xmax: int, ymin: int, ymax: int)

  // The touchpad's rectangle in the user's millimetres.
  datatype Area = Area(x1: real, y1: real, x2: real, y2: real)

  datatype LoadError = InvalidGeometry | UnsupportedRotation

  predicate ValidArea(a: Area) {
    a.x1 < a.x2 && a.y1 < a.y2
  }

  // The region's bounds along the sensor axes, in millimetres.
  function MmRegion(c: HardwareConfig, a: Area): Rect {
    match c.rotation
    case 0 => Rect(a.x1 + c.left, a.x2 + c.left, a.y1 + c.top, a.y2 + c.top)
    case 90 => Rect(c.top + a.y1, c.top + a.y2, c.height - (c.left + a.x2), c.height - (c.left + a.x1))
    case 180 => Rect(c.width - (a.x2 + c.left), c.width - (a.x1 + c.left),
                     c.height - (a.y2 + c.top), c.height - (a.y1 + c.top))
    case _ => Rect(c.width - (a.y2 + c.top), c.width - (a.y1 + c.top), c.left + a.x1, c.left + a.x2)
  }

  // Each bound is an int field: it loses its fraction of a millimetre when it is first
  // assigned, and the fraction of a sensor unit when it is scaled.
  function ScaleMm(mm: int, pitch: real): int {
    Trunc(mm as real * pitch)
  }

  function Stored(mm: real, pitch: real): int {
    ScaleMm(Trunc(mm), pitch)
  }

  function RegionOf(c: HardwareConfig, a: Area): Region
    requires ValidSizes(c)
  {
    var mm := MmRegion(c, a);
    Region(c.rotation, Stored(mm.xmin, PitchX(c)), Stored(mm.xmax, PitchX(c)),
           Stored(mm.ymin, PitchY(c)), Stored(mm.ymax, PitchY(c)))
  }

  // The axis ranges declared for the new device.
  function DeclaredWidth(g: Region): int {
    if g.rotation == 90 || g.rotation == 270 then g.ymax - g.ymin else g.xmax - g.xmin
  }

  function DeclaredHeight(g: Region): int {
    if g.rotation == 90 || g.rotation == 270 then g.xmax - g.xmin else g.ymax - g.ymin
  }

  // ---- one slot of a frame ----

  predicate Contains(g: Region, slot: Slot) {
    var x, y := FindValue(slot, POSITION_X), FindValue(slot, POSITION_Y);
    g.xmin <= x <= g.xmax && g.ymin <= y <= g.ymax
  }

  // The code under which a supported value is passed on.
  function OutKey(rotation: int, k: EventKey): EventKey {
    if (rotation == 90 || rotation == 270) && k.IsX() then POSITION_Y
    else if (rotation == 90 || rotation == 270) && k.IsY() then POSITION_X
    else k
  }

  // The value it is passed on with: positions are counted from the region's corner and turned
  // with the rotation.
  function OutValue(g: Region, k: EventKey, value: int): int {
    if k.IsX() then
      if g.rotation == 180 || g.rotation == 270 then (g.xmax - g.xmin) - (value - g.xmin)
      else value - g.xmin
    else if k.IsY() then
      if g.rotation == 90 || g.rotation == 180 then (g.ymax - g.ymin) - (value - g.ymin)
      else value - g.ymin
    else value
  }

  // Where the touchpad puts a contact of the source.
  function OutPosition(g: Region, x: int, y: int): (int, int) {
    var ox, oy := OutValue(g, POSITION_X, x), OutValue(g, POSITION_Y, y);
    if OutKey(g.rotation, POSITION_X).IsX() then (ox, oy) else (oy, ox)
  }

  function OutEvent(g: Region, k: EventKey, value: int): InputEvent {
    InputEvent(k.typ, OutKey(g.rotation, k).code, OutValue(g, k, value))
  }

  // The values of a slot, passed on in the order of a walk of its hash table.
  function Pass(g: Region, slot: Slot, order: seq<EventKey>): seq<InputEvent>
    requires forall k | k in order :: k in slot
  {
    if order == [] then []
    else
      var n := |order| - 1;
      var k := order[n];
      Pass(g, slot, order[..n]) + if k.IsSupportedForTouchpads() then [OutEvent(g, k, slot[k])] else []
  }

  function SlotEvent(i: int): InputEvent { InputEvent(EV_ABS, ABS_MT_SLOT, i) }

  function TidEvent(tid: int): InputEvent { InputEvent(EV_ABS, ABS_MT_TRACKING_ID, tid) }

  function SlotFrame(g: Region, i: int, slot: Slot, member: bool, order: seq<EventKey>): seq<InputEvent>
    requires forall k | k in order :: k in slot
  {
    [SlotEvent(i)] +
    if Contains(g, slot) then
      (if member then [] else [TidEvent(TidOf(slot))]) + Pass(g, slot, order)
    else if member then [TidEvent(-1)] else []
  }

  // PassEventsThrough's answer: the slot has a tracking id other than -1.
  predicate HasContact(slot: Slot) {
    TRACKING_ID in slot && slot[TRACKING_ID] != -1
  }

  // ---- a whole frame ----

  // Walks of the hash tables of the first slots.
  ghost predicate Walks(slots: seq<Slot>, orders: seq<seq<EventKey>>) {
    |orders| <= |slots| && forall i | 0 <= i < |orders| :: Lists(orders[i], slots[i].Keys)
  }

  ghost predicate Orders(slots: seq<Slot>, orders: seq<seq<EventKey>>) {
    |orders| == |slots| && Walks(slots, orders)
  }

  // What is written for the slots walked.
  ghost function Frame(g: Region, slots: seq<Slot>, members: seq<bool>, orders: seq<seq<EventKey>>): seq<InputEvent>
    requires Walks(slots, orders) && |members| == |slots|
  {
    if orders == [] then []
    else
      var i := |orders| - 1;
      Frame(g, slots, members, orders[..i]) + SlotFrame(g, i, slots[i], members[i], orders[i])
  }

  function MembersAfter(g: Region, slots: seq<Slot>): (r: seq<bool>)
    ensures |r| == |slots| && forall i | 0 <= i < |slots| :: r[i] == Contains(g, slots[i])
  {
    if slots == [] then [] else [Contains(g, slots[0])] + MembersAfter(g, slots[1..])
  }

  function TouchCount(g: Region, slots: seq<Slot>, n: nat): nat
    requires n <= |slots|
  {
    if n == 0 then 0
    else TouchCount(g, slots, n - 1) + if Contains(g, slots[n - 1]) && HasContact(slots[n - 1]) then 1 else 0
  }

  function ButtonEvents(touches: int): seq<InputEvent> {
    [InputEvent(EV_KEY, BTN_TOUCH, if touches > 0 then 1 else 0),
     InputEvent(EV_KEY, BTN_TOOL_FINGER, if touches == 1 then 1 else 0),
     InputEvent(EV_KEY, BTN_TOOL_DOUBLETAP, if touches == 2 then 1 else 0),
     InputEvent(EV_KEY, BTN_TOOL_TRIPLETAP, if touches == 3 then 1 else 0),
     InputEvent(EV_KEY, BTN_TOOL_QUADTAP, if touches == 4 then 1 else 0)]
  }

  // The events of a frame as the device writes them: the slots, the buttons and the report.
  ghost function Written(g: Region, slots: seq<Slot>, members: seq<bool>, orders: seq<seq<EventKey>>): seq<InputEvent>
    requires |slots| == NUM_SLOTS == |members| && Orders(slots, orders)
  {
    Frame(g, slots, members, orders) + ButtonEvents(TouchCount(g, slots, NUM_SLOTS)) +
    [InputEvent(EV_SYN, SYN_REPORT, 0)]
  }
}
