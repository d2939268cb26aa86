/** What the touchpad's buttons tell: how many contacts are on it, up to four. */
module TouchpadButtons {
  import opened InputEvents
  import opened StateMachine
  import opened DecoderLog
  import opened TouchpadModel
  import opened TouchpadMirror
  import opened TouchpadRuns

  // Whether a button is down after a log of events: the last event of its code decides.
  predicate Down(log: seq<InputEvent>, code: int) {
    if log == [] then false
    else
      var ev := log[|log| - 1];
      if ev.typ == EV_KEY && ev.code == code then ev.value != 0 else Down(log[..|log| - 1], code)
  }

  const TOOLS := {BTN_TOOL_FINGER, BTN_TOOL_DOUBLETAP, BTN_TOOL_TRIPLETAP, BTN_TOOL_QUADTAP}

  predicate SomeToolDown(log: seq<InputEvent>) {
    exists tool :: tool in TOOLS && Down(log, tool)
  }

  // The buttons tell a number of contacts: touch for any, and a tool for each of one to four.
  predicate Tells(log: seq<InputEvent>, touches: int) {
    && (Down(log, BTN_TOUCH) <==> touches > 0)
    && (Down(log, BTN_TOOL_FINGER) <==> touches == 1)
    && (Down(log, BTN_TOOL_DOUBLETAP) <==> touches == 2)
    && (Down(log, BTN_TOOL_TRIPLETAP) <==> touches == 3)
    && (Down(log, BTN_TOOL_QUADTAP) <==> touches == 4)
  }

  lemma DownSnoc(log: seq<InputEvent>, ev: InputEvent, code: int)
    ensures Down(log + [ev], code) == if ev.typ == EV_KEY && ev.code == code then ev.value != 0 else Down(log, code)
  {
    assert (log + [ev])[..|log|] == log;
  }

  /** Whatever the buttons were before, the five events leave them telling the new number. */
  lemma ButtonsTell(before: seq<InputEvent>, touches: int)
    ensures Tells(before + ButtonEvents(touches), touches)
  {
    var evs := ButtonEvents(touches);
    var l1 := before + [evs[0]];
    var l2 := l1 + [evs[1]];
    var l3 := l2 + [evs[2]];
    var l4 := l3 + [evs[3]];
    assert before + evs == l4 + [evs[4]];
    forall code | code == BTN_TOUCH || code in TOOLS
      ensures Down(before + evs, code) <==> exists i :: 0 <= i < 5 && evs[i].code == code && evs[i].value == 1 {
      DownSnoc(before, evs[0], code);
      DownSnoc(l1, evs[1], code);
      DownSnoc(l2, evs[2], code);
      DownSnoc(l3, evs[3], code);
      DownSnoc(l4, evs[4], code);
    }
  }

  // What a frame adds to the output: values of slots (type 3), the five buttons (type 1), and one
  // report (type 0, code 0), in this order.
  ghost predicate FrameAdded(before: seq<InputEvent>, after: seq<InputEvent>) {
    var b, n := |before|, |after| - 6;
    && b <= n && before <= after
    && (forall i | b <= i < n :: after[i].typ == 3)
    && (forall i | n <= i < n + 5 :: after[i].typ == 1)
    && after[n].code == 0x14a && after[n + 1].code == 0x145
    && after[n + 2].code == 0x14d && after[n + 3].code == 0x14e && after[n + 4].code == 0x14f
    && after[n + 5] == InputEvent(0, 0, 0)
  }

  // An output ends with a report, if it is not empty.
  predicate EndsWithReport(log: seq<InputEvent>) {
    log != [] ==> log[|log| - 1] == InputEvent(0, 0, 0)
  }

  lemma {:induction false} PassIsAbs(g: Region, slot: Slot, order: seq<EventKey>)
    requires forall k | k in order :: k in slot
    ensures forall ev | ev in Pass(g, slot, order) :: ev.typ == 3
  {
    if order != [] {
      PassIsAbs(g, slot, order[..|order| - 1]);
    }
  }

  lemma {:induction false} FrameIsAbs(g: Region, slots: seq<Slot>, members: seq<bool>, orders: seq<seq<EventKey>>)
    requires Walks(slots, orders) && |members| == |slots|
    ensures forall ev | ev in Frame(g, slots, members, orders) :: ev.typ == 3
  {
    if orders != [] {
      var i := |orders| - 1;
      FrameIsAbs(g, slots, members, orders[..i]);
      PassIsAbs(g, slots[i], orders[i]);
    }
  }

  /** Each frame is closed by exactly one report, after its buttons. */
  lemma FrameCloses(before: seq<InputEvent>, g: Region, slots: seq<Slot>, members: seq<bool>,
                    orders: seq<seq<EventKey>>)
    requires |slots| == NUM_SLOTS == |members| && Orders(slots, orders)
    ensures var after := before + Written(g, slots, members, orders); FrameAdded(before, after) && EndsWithReport(after)
  {
    FrameIsAbs(g, slots, members, orders);
    var frame, after := Frame(g, slots, members, orders), before + Written(g, slots, members, orders);
    assert forall i | |before| <= i < |after| - 6 :: after[i] == frame[i - |before|];
  }

  // The slots that show a contact in the region.
  function ShownSlots(g: Region, slots: seq<Slot>, n: nat): set<int>
    requires n <= |slots|
  {
    set i | 0 <= i < n && Shown(g, slots[i]) != -1
  }

  lemma {:induction false} CountIsSize(g: Region, slots: seq<Slot>, n: nat)
    requires n <= |slots|
    ensures TouchCount(g, slots, n) == |ShownSlots(g, slots, n)|
  {
    if n > 0 {
      CountIsSize(g, slots, n - 1);
      var rest := ShownSlots(g, slots, n - 1);
      assert ShownSlots(g, slots, n) == if Shown(g, slots[n - 1]) != -1 then rest + {n - 1} else rest;
    } else {
      assert ShownSlots(g, slots, n) == {};
    }
  }

  /** After a frame, whatever was written before it: touch is down exactly if some contact is in
      the region; at most one tool is down, and one is exactly if there are one to four contacts.
      So touch and tools agree if and only if there are fewer than five: from five on, touch is
      down and no tool is. */
  lemma FrameButtons(before: seq<InputEvent>, g: Region, slots: seq<Slot>, members: seq<bool>,
                     orders: seq<seq<EventKey>>)
    requires |slots| == NUM_SLOTS == |members| && Orders(slots, orders)
    ensures var log := before + Written(g, slots, members, orders);
            var shown := ShownSlots(g, slots, NUM_SLOTS);
            && (Down(log, BTN_TOUCH) <==> shown != {})
            && (forall t1, t2 | t1 in TOOLS && t2 in TOOLS && Down(log, t1) && Down(log, t2) :: t1 == t2)
            && (SomeToolDown(log) <==> 1 <= |shown| <= 4)
            && ((Down(log, BTN_TOUCH) <==> SomeToolDown(log)) <==> |shown| < 5)
  {
    var touches := TouchCount(g, slots, NUM_SLOTS);
    var frame, report := Frame(g, slots, members, orders), InputEvent(EV_SYN, SYN_REPORT, 0);
    var log := before + Written(g, slots, members, orders);
    assert log == (before + frame + ButtonEvents(touches)) + [report];
    ButtonsTell(before + frame, touches);
    TellsSnoc(before + frame + ButtonEvents(touches), report, touches);
    CountIsSize(g, slots, NUM_SLOTS);
    ToolsTell(log, touches);
  }

  lemma TellsSnoc(log: seq<InputEvent>, ev: InputEvent, touches: int)
    requires Tells(log, touches) && ev.typ != EV_KEY
    ensures Tells(log + [ev], touches)
  {
    assert (log + [ev])[..|log|] == log;
  }

  lemma ToolsTell(log: seq<InputEvent>, touches: int)
    requires Tells(log, touches)
    ensures forall t1, t2 | t1 in TOOLS && t2 in TOOLS && Down(log, t1) && Down(log, t2) :: t1 == t2
    ensures SomeToolDown(log) <==> 1 <= touches <= 4
  {
    if 1 <= touches <= 4 {
      var tool := if touches == 1 then BTN_TOOL_FINGER else if touches == 2 then BTN_TOOL_DOUBLETAP
                  else if touches == 3 then BTN_TOOL_TRIPLETAP else BTN_TOOL_QUADTAP;
      assert tool in TOOLS && Down(log, tool);
    }
  }

  // ---- the whole output of a run ----

  // What the touchpad has written after the first n events of a run.
  ghost function Output(g: Region, pads: seq<Pad>, log: seq<InputEvent>, orders: seq<seq<seq<EventKey>>>,
                        n: nat): seq<InputEvent>
    requires IsPadRun(g, pads, log, orders) && n <= |log|
  {
    if n == 0 then []
    else
      assert Linked(g, pads, log, orders, n - 1);
      var p := pads[n - 1];
      Output(g, pads, log, orders, n - 1) +
      if Completes(p.source, log[n - 1]) then Written(g, p.source.slots, p.members, orders[n - 1]) else []
  }

  /** The receiver of a run is a decoder that was fed its whole output. */
  lemma {:induction false} OutputFeedsReceiver(g: Region, pads: seq<Pad>, log: seq<InputEvent>,
                                               orders: seq<seq<seq<EventKey>>>, n: nat)
    requires RunsFromStart(g, pads, log, orders) && n <= |log|
    ensures Run(INITIAL, Output(g, pads, log, orders, n)) == pads[n].receiver
  {
    if n > 0 {
      OutputFeedsReceiver(g, pads, log, orders, n - 1);
      assert Linked(g, pads, log, orders, n - 1);
      var p, before := pads[n - 1], Output(g, pads, log, orders, n - 1);
      if Completes(p.source, log[n - 1]) {
        RunConcat(INITIAL, before, Written(g, p.source.slots, p.members, orders[n - 1]));
      } else {
        assert before + [] == before;
      }
    }
  }

  /** The buttons after any frame of any run, lost events or not. */
  lemma RunButtons(g: Region, pads: seq<Pad>, log: seq<InputEvent>, orders: seq<seq<seq<EventKey>>>, n: nat)
    requires IsPadRun(g, pads, log, orders) && n < |log|
    requires PadOk(pads[n]) && Completes(pads[n].source, log[n])
    ensures var out, shown := Output(g, pads, log, orders, n + 1), ShownSlots(g, pads[n].source.slots, NUM_SLOTS);
            && (Down(out, BTN_TOUCH) <==> shown != {})
            && (SomeToolDown(out) <==> 1 <= |shown| <= 4)
            && ((Down(out, BTN_TOUCH) <==> SomeToolDown(out)) <==> |shown| < 5)
  {
    assert Linked(g, pads, log, orders, n);
    FrameButtons(Output(g, pads, log, orders, n), g, pads[n].source.slots, pads[n].members, orders[n]);
  }

  // ---- runs with any number of contacts ----

  // A contact lands in a slot, at a point.
  function Lands(i: int, x: int, y: int): seq<InputEvent> {
    [SlotEvent(i), TidEvent(i), Abs(ABS_MT_POSITION_X, x), Abs(ABS_MT_POSITION_Y, y)]
  }

  // Contacts land in the first n slots.
  function AllLand(n: nat, x: int, y: int): (r: seq<InputEvent>)
    ensures forall ev | ev in r :: ev.typ == EV_ABS
  {
    if n == 0 then [] else AllLand(n - 1, x, y) + Lands(n - 1, x, y)
  }

  function Placed(i: int, x: int, y: int): Slot {
    map[TRACKING_ID := i, POSITION_X := x, POSITION_Y := y]
  }

  lemma LandsDecoded(d: Decoder, i: nat, x: int, y: int)
    requires d.Valid() && !d.dropping && i < NUM_SLOTS && d.slots[i] == map[]
    ensures Run(d, Lands(i, x, y)) == d.(current := i, slots := d.slots[i := Placed(i, x, y)])
  {
    var l := Lands(i, x, y);
    assert l[..1][..0] == [] && l[..2][..1] == l[..1] && l[..3][..2] == l[..2] && l[..4][..3] == l[..3] && l[..4] == l;
    assert Run(d, l[..1]) == d.(current := i);
    assert Run(d, l[..2]) == d.(current := i, slots := d.slots[i := map[TRACKING_ID := i]]);
    assert Run(d, l[..3]) == d.(current := i, slots := d.slots[i := map[TRACKING_ID := i, POSITION_X := x]]);
  }

  lemma {:induction false} AllLandDecoded(n: nat, x: int, y: int)
    requires n <= NUM_SLOTS
    ensures var d := Run(INITIAL, AllLand(n, x, y));
            && !d.dropping
            && forall i | 0 <= i < NUM_SLOTS :: d.slots[i] == if i < n then Placed(i, x, y) else map[]
  {
    if n == 0 {
      Beginning();
    } else {
      var d := Run(INITIAL, AllLand(n - 1, x, y));
      AllLandDecoded(n - 1, x, y);
      RunConcat(INITIAL, AllLand(n - 1, x, y), Lands(n - 1, x, y));
      LandsNext(d, n, x, y);
    }
  }

  lemma LandsNext(d: Decoder, n: nat, x: int, y: int)
    requires 0 < n <= NUM_SLOTS && d.Valid() && !d.dropping
    requires forall i | 0 <= i < NUM_SLOTS :: d.slots[i] == if i < n - 1 then Placed(i, x, y) else map[]
    ensures var r := Run(d, Lands(n - 1, x, y));
            && !r.dropping
            && forall i | 0 <= i < NUM_SLOTS :: r.slots[i] == if i < n then Placed(i, x, y) else map[]
  {
    LandsDecoded(d, n - 1, x, y);
  }

  // Until a report, a run only decodes.
  lemma {:induction false} NothingYet(g: Region, pads: seq<Pad>, log: seq<InputEvent>, orders: seq<seq<seq<EventKey>>>,
                                      n: nat)
    requires RunsFromStart(g, pads, log, orders) && n <= |log|
    requires forall i | 0 <= i < n :: log[i].typ == EV_ABS
    ensures pads[n] == PAD_START.(source := Run(INITIAL, log[..n]))
  {
    if n > 0 {
      NothingYet(g, pads, log, orders, n - 1);
      assert Linked(g, pads, log, orders, n - 1);
      assert log[..n][..n - 1] == log[..n - 1];
    }
  }

  lemma {:induction false} FirstN(g: Region, slots: seq<Slot>, n: nat, x: int, y: int, m: nat)
    requires n <= NUM_SLOTS == |slots| && m <= NUM_SLOTS
    requires g.xmin <= x <= g.xmax && g.ymin <= y <= g.ymax
    requires forall i | 0 <= i < NUM_SLOTS :: slots[i] == if i < n then Placed(i, x, y) else map[]
    ensures TouchCount(g, slots, m) == if m < n then m else n
  {
    if m > 0 {
      FirstN(g, slots, n, x, y, m - 1);
    }
  }

  /** From the start, any number of contacts up to ten can land in the region, and then touch is
      down for any and a tool only for one to four: with five or more the two disagree. */
  lemma ManyContacts(g: Region, pads: seq<Pad>, orders: seq<seq<seq<EventKey>>>, n: nat, x: int, y: int)
    requires n <= NUM_SLOTS && RunsFromStart(g, pads, AllLand(n, x, y) + [Report()], orders)
    requires g.xmin <= x <= g.xmax && g.ymin <= y <= g.ymax
    ensures var log := AllLand(n, x, y) + [Report()];
            var out := Output(g, pads, log, orders, |log|);
            && |ShownSlots(g, Run(INITIAL, log).slots, NUM_SLOTS)| == n
            && (Down(out, BTN_TOUCH) <==> n > 0)
            && (SomeToolDown(out) <==> 1 <= n <= 4)
  {
    var lands := AllLand(n, x, y);
    var log, k := lands + [Report()], |lands|;
    assert log[..k] == lands && log[..|log|] == log && log[..k + 1][..k] == lands;
    forall i | 0 <= i < k ensures log[i].typ == EV_ABS {
      assert log[i] == lands[i] && lands[i] in lands;
    }
    NothingYet(g, pads, log, orders, k);
    AllLandDecoded(n, x, y);
    assert Linked(g, pads, log, orders, k);
    var slots := pads[k].source.slots;
    FirstN(g, slots, n, x, y, NUM_SLOTS);
    CountIsSize(g, slots, NUM_SLOTS);
    assert Run(INITIAL, log) == Run(INITIAL, lands);
    RunButtons(g, pads, log, orders, k);
  }
}
