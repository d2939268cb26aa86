/** From where the user touches to what is typed: the layout file, the sensor, the frames and the
    key scheduler together. */
module KeyboardTyping {
  import opened Geometry
  import opened KeyboardModel
  import opened KeyboardInvariant
  import opened KeyboardRuns
  import opened KeyboardConfluence
  import opened KeyboardTiming
  import opened KeyboardFates
  import opened KeyboardReadings
  import opened KeyboardLayout

  // The point is well inside a row's rectangle, and no row before it overlaps that row or comes
  // near the point.
  ghost predicate PointsAt(c: HardwareConfig, rows: seq<Row>, r: nat, p: Point)
    requires ValidConfig(c)
  {
    && r < |rows| && WellInside(RowSpan(c, rows[r]), p)
    && forall j | 0 <= j < r :: Apart(rows[j], rows[r]) || WellOutside(RowSpan(c, rows[j]), p)
  }

  /** Over any run with a layout file: a contact whose first reading is the image of a user point in
      a row's rectangle is held, and its key is that row's code, or its Fn code if it has one and
      the Fn flag was on when the walk of the frame came to the contact. */
  lemma TypesItsRow(c: HardwareConfig, rows: seq<Row>, states: seq<System>, turns: seq<Turn>, i: nat, k: Contact,
                    r: nat, u: real, v: real)
    requires ValidConfig(c) && IsRun(states, turns) && Good(states[0]) && i < |turns|
    requires IsLayoutOf(c, rows, states[i].keyboard.layout)
    requires ArrivesIn(states, i, k) && Reports(states, turns, i, k.tid)
    requires var f := Reading(states, turns, i, k.tid);
             ToSensor(c, u, v) == Point(f.x as real, f.y as real) && PointsAt(c, rows, r, ToSensor(c, u, v))
    ensures Holds(states[i + 1].keyboard, k)
    ensures var s, input := states[i].keyboard, InputOf(states[i].decoder, turns[i]);
            var code := KeyHeld(states[i + 1].keyboard, k);
            exists p :: KeyAt(s, input, p, k.tid, rows[r], code)
  {
    var s, input := states[i].keyboard, InputOf(states[i].decoder, turns[i]);
    var f := Reading(states, turns, i, k.tid);
    TouchTypesRow(c, rows, s.layout, r, u, v, f.x, f.y, false);
    LandingTells(states, turns, i, k);
    RunsKeepInvariant(states, turns, i, i + 1);
    assert s.layout[r] in s.layout && On(s.layout[r], f);
    CodeIsSettledOnArrival(states, turns, i, k);
    var p :| CodeSettledAt(s, input.snapshot, input.touches, p, k.tid, KeyHeld(states[i + 1].keyboard, k));
    assert KeyAt(s, input, p, k.tid, rows[r], KeyHeld(states[i + 1].keyboard, k));
  }

  // The contact is at place p of the frame's walk, and its code is the row's, by the flag it finds.
  ghost predicate KeyAt(s: State, input: Input, p: nat, tid: int, row: Row, code: int) {
    && input.Frame? && p < |input.touches| && input.touches[p] == tid
    && code == if FlagAfter(s, input.snapshot, input.touches[..p]) && row.codeFn != 0 then row.codeFn else row.code
  }
}
