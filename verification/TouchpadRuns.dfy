/** Whole runs of the touchpad: a source decoder, the memberships, and a receiver that decodes
    what the touchpad writes. */
module TouchpadRuns {
  import opened HashTables
  import opened InputEvents
  import opened StateMachine
  import opened TouchpadModel
  import opened TouchpadMirror

  datatype Pad = Pad(source: Decoder, members: seq<bool>, receiver: Decoder)

  ghost predicate PadOk(p: Pad) {
    p.source.Valid() && Closed(p.members, p.receiver)
  }

  const NO_MEMBERS: seq<bool> := [false, false, false, false, false, false, false, false, false, false]

  const PAD_START := Pad(INITIAL, NO_MEMBERS, INITIAL)

  ghost predicate AdmissibleOrders(p: Pad, ev: InputEvent, orders: seq<seq<EventKey>>) {
    p.source.Valid() && (Completes(p.source, ev) ==> Orders(p.source.slots, orders))
  }

  // One event of the source: the end of a frame brings the receiver up to date.
  ghost function PadStep(g: Region, p: Pad, ev: InputEvent, orders: seq<seq<EventKey>>): Pad
    requires PadOk(p) && AdmissibleOrders(p, ev, orders)
  {
    if Completes(p.source, ev) then
      Pad(Step(p.source, ev), MembersAfter(g, p.source.slots),
          Sync(p.receiver, g, p.source.slots, p.members, orders))
    else p.(source := Step(p.source, ev))
  }

  ghost predicate MirrorsAll(g: Region, p: Pad)
    requires PadOk(p)
  {
    && (forall i | 0 <= i < NUM_SLOTS :: Mirrors(g, p.source.slots[i], p.receiver.slots[i]))
    && TouchCount(g, p.source.slots, NUM_SLOTS) == Active(p.receiver.slots, NUM_SLOTS)
  }

  ghost predicate Linked(g: Region, pads: seq<Pad>, log: seq<InputEvent>, orders: seq<seq<seq<EventKey>>>, i: nat)
    requires |pads| == |log| + 1 && |orders| == |log| && i < |log|
  {
    PadOk(pads[i]) && AdmissibleOrders(pads[i], log[i], orders[i])
    && pads[i + 1] == PadStep(g, pads[i], log[i], orders[i])
  }

  // The states of a run are linked by steps.
  ghost predicate IsPadRun(g: Region, pads: seq<Pad>, log: seq<InputEvent>, orders: seq<seq<seq<EventKey>>>) {
    && |pads| == |log| + 1 && |orders| == |log|
    && forall i | 0 <= i < |log| :: Linked(g, pads, log, orders, i)
  }

  // A member slot without a tracking id shows no contact.
  ghost predicate NothingStale(p: Pad)
    requires PadOk(p)
  {
    forall i | 0 <= i < NUM_SLOTS && p.members[i] && TRACKING_ID !in p.source.slots[i] ::
      TidOf(p.receiver.slots[i]) == -1
  }

  // The receiver has no value that the source does not have.
  ghost predicate NothingLeftover(g: Region, p: Pad)
    requires PadOk(p)
  {
    forall i | 0 <= i < NUM_SLOTS ::
      forall o | o in p.receiver.slots[i] && o != TRACKING_ID :: o in Turned(g, p.source.slots[i])
  }

  lemma StartOk()
    ensures PadOk(PAD_START)
  {
    forall i | 0 <= i < NUM_SLOTS ensures TidOf(INITIAL.slots[i]) == -1 {
      assert INITIAL.slots[i] == map[];
    }
  }

  lemma StartIsFresh(g: Region)
    ensures PadOk(PAD_START) && NothingStale(PAD_START) && NothingLeftover(g, PAD_START)
  {
    forall i | 0 <= i < NUM_SLOTS ensures INITIAL.slots[i] == map[] {
    }
  }

  // Before a frame: some slot keeps the receiver from mirroring the source.
  ghost predicate SomeStale(g: Region, p: Pad)
    requires PadOk(p)
  {
    exists i :: 0 <= i < NUM_SLOTS && Stale(g, p.source.slots[i], p.members[i], p.receiver.slots[i])
  }

  ghost predicate SomeLeftover(g: Region, p: Pad)
    requires PadOk(p)
  {
    exists i :: 0 <= i < NUM_SLOTS && Leftover(g, p.source.slots[i], p.receiver.slots[i])
  }

  /** Every step, resynchronisations included, keeps slots outside the region closed at the
      receiver. A frame is mirrored if and only if no slot is stale and none has a leftover value. */
  lemma StepKeepsOk(g: Region, p: Pad, ev: InputEvent, orders: seq<seq<EventKey>>)
    requires PadOk(p) && AdmissibleOrders(p, ev, orders)
    ensures PadOk(PadStep(g, p, ev, orders))
    ensures Completes(p.source, ev) ==>
              (MirrorsAll(g, PadStep(g, p, ev, orders)) <==> !SomeStale(g, p) && !SomeLeftover(g, p))
  {
    if Completes(p.source, ev) {
      FrameMirrorsIff(p.receiver, g, p.source.slots, p.members, orders);
    }
  }

  // Without a resynchronisation a slot never forgets a value.
  lemma SlotsGrow(d: Decoder, ev: InputEvent, i: nat)
    requires d.Valid() && !ev.IsDropped() && i < NUM_SLOTS
    ensures d.slots[i].Keys <= Step(d, ev).slots[i].Keys
  {
  }

  lemma TurnedGrows(g: Region, a: Slot, b: Slot)
    requires a.Keys <= b.Keys
    ensures Turned(g, a).Keys <= Turned(g, b).Keys
  {
    forall o | o in Turned(g, a) ensures o in Turned(g, b) {
      TurnedAt(g, a, o);
      TurnedAt(g, b, o);
    }
  }

  // A frame gives the receiver no key but those of the source.
  lemma StepKeepsExact(g: Region, p: Pad, ev: InputEvent, orders: seq<seq<EventKey>>)
    requires PadOk(p) && AdmissibleOrders(p, ev, orders) && NothingLeftover(g, p) && !ev.IsDropped()
    requires PadOk(PadStep(g, p, ev, orders))
    ensures NothingLeftover(g, PadStep(g, p, ev, orders))
  {
    var p' := PadStep(g, p, ev, orders);
    if Completes(p.source, ev) {
      SyncSlots(p.receiver, g, p.source.slots, p.members, orders);
    }
    forall i, o | 0 <= i < NUM_SLOTS && o in p'.receiver.slots[i] && o != TRACKING_ID
      ensures o in Turned(g, p'.source.slots[i]) {
      var slot, base := p.source.slots[i], p.receiver.slots[i];
      SlotsGrow(p.source, ev, i);
      TurnedGrows(g, slot, p'.source.slots[i]);
      if Completes(p.source, ev) {
        ReceivedValues(g, base, slot, p.members[i], orders[i]);
        assert o in p'.receiver.slots[i] - {TRACKING_ID};
      }
      assert o in base ==> o in Turned(g, slot);
    }
  }

  lemma StepKeepsFresh(g: Region, p: Pad, ev: InputEvent, orders: seq<seq<EventKey>>)
    requires PadOk(p) && AdmissibleOrders(p, ev, orders) && NothingStale(p) && NothingLeftover(g, p)
    requires !ev.IsDropped()
    ensures var p' := PadStep(g, p, ev, orders);
            && PadOk(p') && NothingStale(p') && NothingLeftover(g, p')
            && (Completes(p.source, ev) ==> MirrorsAll(g, p'))
  {
    StepKeepsOk(g, p, ev, orders);
    var p' := PadStep(g, p, ev, orders);
    StepKeepsExact(g, p, ev, orders);
    forall i | 0 <= i < NUM_SLOTS && p'.members[i] && TRACKING_ID !in p'.source.slots[i]
      ensures TidOf(p'.receiver.slots[i]) == -1 {
      SlotsGrow(p.source, ev, i);
      if Completes(p.source, ev) {
        assert Mirrors(g, p'.source.slots[i], p'.receiver.slots[i]);
      }
    }
  }

  /** The mirror theorem for runs: from the start, as long as the source never loses events,
      every completed frame leaves the receiver showing exactly the contacts in the region, with
      exactly their turned values and no others, whatever the order of the hash tables. */
  lemma {:induction false} RunsMirror(g: Region, pads: seq<Pad>, log: seq<InputEvent>,
                                      orders: seq<seq<seq<EventKey>>>, n: nat)
    requires IsPadRun(g, pads, log, orders) && pads[0] == PAD_START && n <= |log|
    requires forall i | 0 <= i < n :: !log[i].IsDropped()
    ensures PadOk(pads[n]) && NothingStale(pads[n]) && NothingLeftover(g, pads[n])
    ensures n > 0 && Completes(pads[n - 1].source, log[n - 1]) ==> MirrorsAll(g, pads[n])
  {
    if n == 0 {
      StartIsFresh(g);
    } else {
      RunsMirror(g, pads, log, orders, n - 1);
      assert Linked(g, pads, log, orders, n - 1);
      StepKeepsFresh(g, pads[n - 1], log[n - 1], orders[n - 1]);
    }
  }

  // ---- after lost events ----

  function Report(): InputEvent { InputEvent(EV_SYN, SYN_REPORT, 0) }

  // Events are lost and recovered, and then one slot reports only that it moved.
  function MoveAfterDrop(i: int, x: int, y: int): seq<InputEvent> {
    [InputEvent(EV_SYN, SYN_DROPPED, 0), Report(), SlotEvent(i),
     InputEvent(EV_ABS, ABS_MT_POSITION_X, x), InputEvent(EV_ABS, ABS_MT_POSITION_Y, y)]
  }

  lemma SourceAfterDrop(d: Decoder, i: nat, x: int, y: int)
    requires d.Valid() && i < NUM_SLOTS
    ensures Run(d, MoveAfterDrop(i, x, y)) ==
            Decoder(i, false, NO_SLOTS[i := map[POSITION_X := x, POSITION_Y := y]])
    ensures forall n | 0 <= n < 5 :: !Completes(Run(d, MoveAfterDrop(i, x, y)[..n]), MoveAfterDrop(i, x, y)[n])
  {
    var l := MoveAfterDrop(i, x, y);
    assert l[..0] == [] && l[..1][..0] == l[..0] && l[..2][..1] == l[..1];
    assert l[..3][..2] == l[..2] && l[..4][..3] == l[..3] && l[..5] == l;
    assert Run(d, l[..0]) == d;
    assert Run(d, l[..1]) == Decoder(0, true, NO_SLOTS);
    assert Run(d, l[..2]) == INITIAL;
    assert Run(d, l[..3]) == Decoder(i, false, NO_SLOTS);
    EmptySlotMoves(i, x, y);
  }

  // An empty slot gets a position.
  lemma EmptySlotMoves(i: nat, x: int, y: int)
    requires i < NUM_SLOTS
    ensures var d := Decoder(i, false, NO_SLOTS);
            Step(Step(d, InputEvent(EV_ABS, ABS_MT_POSITION_X, x)), InputEvent(EV_ABS, ABS_MT_POSITION_Y, y)) ==
            Decoder(i, false, NO_SLOTS[i := map[POSITION_X := x, POSITION_Y := y]])
  {
    assert NO_SLOTS[i] == map[];
  }

  /** With lost events the mirror can fail, and this is how. A contact that was shown in the
      region stays down while events are lost, and afterwards its slot reports motion inside the
      region but, since the kernel sends only changes, no tracking id. The next frame then
      leaves the receiver showing a contact that neither the source nor the tool buttons count. */
  lemma MirrorFailsAfterDrop(g: Region, p: Pad, i: nat, x: int, y: int, orders: seq<seq<EventKey>>)
    requires PadOk(p) && i < NUM_SLOTS && p.members[i] && TidOf(p.receiver.slots[i]) != -1
    requires g.xmin <= x <= g.xmax && g.ymin <= y <= g.ymax
    requires Orders(NO_SLOTS[i := map[POSITION_X := x, POSITION_Y := y]], orders)
    ensures var q := p.(source := Run(p.source, MoveAfterDrop(i, x, y)));
            && PadOk(q) && AdmissibleOrders(q, Report(), orders) && Completes(q.source, Report())
            && var r := PadStep(g, q, Report(), orders);
               && PadOk(r) && !MirrorsAll(g, r)
               && TidOf(r.source.slots[i]) == -1 && TidOf(r.receiver.slots[i]) == TidOf(p.receiver.slots[i])
  {
    SourceAfterDrop(p.source, i, x, y);
    var q := p.(source := Run(p.source, MoveAfterDrop(i, x, y)));
    var slot := q.source.slots[i];
    assert Stale(g, slot, q.members[i], q.receiver.slots[i]);
    StepKeepsOk(g, q, Report(), orders);
    SyncSlots(q.receiver, g, q.source.slots, q.members, orders);
    ReceivedTid(g, q.receiver.slots[i], slot, q.members[i], orders[i]);
  }

  // ---- runs that fail to mirror, from the start ----

  lemma {:induction false} AnyWalks(slots: seq<Slot>, n: nat)
    requires n <= |slots|
    ensures exists orders :: |orders| == n && Walks(slots, orders)
  {
    if n == 0 {
      assert Walks(slots, []);
    } else {
      AnyWalks(slots, n - 1);
      var orders :| |orders| == n - 1 && Walks(slots, orders);
      SomeWalk(slots[n - 1].Keys);
      var order :| Lists(order, slots[n - 1].Keys);
      assert Walks(slots, orders + [order]);
    }
  }

  ghost predicate RunsFromStart(g: Region, pads: seq<Pad>, log: seq<InputEvent>, orders: seq<seq<seq<EventKey>>>) {
    IsPadRun(g, pads, log, orders) && pads[0] == PAD_START
  }

  /** Every log of events has a run from the start. */
  lemma {:induction false} EveryLogRuns(g: Region, log: seq<InputEvent>)
    ensures exists pads, orders :: RunsFromStart(g, pads, log, orders) && PadOk(pads[|log|])
  {
    if log == [] {
      StartOk();
      assert RunsFromStart(g, [PAD_START], log, []);
    } else {
      var n := |log| - 1;
      EveryLogRuns(g, log[..n]);
      var pads: seq<Pad>, orders: seq<seq<seq<EventKey>>> :| RunsFromStart(g, pads, log[..n], orders) && PadOk(pads[n]);
      AnyWalks(pads[n].source.slots, NUM_SLOTS);
      var walks :| |walks| == NUM_SLOTS && Walks(pads[n].source.slots, walks);
      RunLonger(g, pads, log, orders, walks);
    }
  }

  lemma RunLonger(g: Region, pads: seq<Pad>, log: seq<InputEvent>, orders: seq<seq<seq<EventKey>>>,
                  walks: seq<seq<EventKey>>)
    requires log != [] && RunsFromStart(g, pads, log[..|log| - 1], orders) && PadOk(pads[|log| - 1])
    requires |walks| == NUM_SLOTS && Walks(pads[|log| - 1].source.slots, walks)
    ensures exists pads', orders' :: RunsFromStart(g, pads', log, orders') && PadOk(pads'[|log|])
  {
    var n := |log| - 1;
    var p, ev := pads[n], log[n];
    assert AdmissibleOrders(p, ev, walks);
    StepKeepsOk(g, p, ev, walks);
    var pads', orders' := pads + [PadStep(g, p, ev, walks)], orders + [walks];
    forall i | 0 <= i < |log| ensures Linked(g, pads', log, orders', i) {
      if i < n {
        assert Linked(g, pads, log[..n], orders, i);
      }
    }
    assert RunsFromStart(g, pads', log, orders');
  }

  function Abs(code: int, value: int): InputEvent { InputEvent(EV_ABS, code, value) }

  // A contact lands, events are lost, and the contact has only moved since.
  function LostContact(x: int, y: int): seq<InputEvent> {
    [TidEvent(7), Abs(ABS_MT_POSITION_X, x), Abs(ABS_MT_POSITION_Y, y), Report(),
     InputEvent(EV_SYN, SYN_DROPPED, 0), Report(),
     Abs(ABS_MT_POSITION_X, x), Abs(ABS_MT_POSITION_Y, y), Report()]
  }

  // A contact lands and presses, events are lost, and a new contact has taken its place that
  // presses just as hard.
  function LostPressure(x: int, y: int): seq<InputEvent> {
    [TidEvent(7), Abs(ABS_MT_POSITION_X, x), Abs(ABS_MT_POSITION_Y, y), Abs(ABS_MT_PRESSURE, 80), Report(),
     InputEvent(EV_SYN, SYN_DROPPED, 0), Report(),
     TidEvent(9), Abs(ABS_MT_POSITION_X, x), Abs(ABS_MT_POSITION_Y, y), Report()]
  }

  // Slot 0 is selected and is the only one with values.
  ghost predicate Alone(d: Decoder, slot: Slot) {
    && d.current == 0 && !d.dropping && |d.slots| == NUM_SLOTS && d.slots[0] == slot
    && forall i | 1 <= i < NUM_SLOTS :: d.slots[i] == map[]
  }

  // Nothing has been written yet.
  ghost predicate Blank(p: Pad) {
    PadOk(p) && forall i | 0 <= i < NUM_SLOTS :: !p.members[i] && p.receiver.slots[i] == map[]
  }

  // The receiver shows at most slot 0, which holds these values.
  ghost predicate Showing(p: Pad, slot: Slot) {
    && PadOk(p) && p.members[0] && p.receiver.slots[0] == slot
    && forall i | 1 <= i < NUM_SLOTS :: TidOf(p.receiver.slots[i]) == -1
  }

  ghost predicate NothingWritten(p: Pad, q: Pad) {
    q.members == p.members && q.receiver == p.receiver
  }

  lemma Beginning()
    ensures Alone(INITIAL, map[]) && Blank(PAD_START)
  {
    forall i | 0 <= i < NUM_SLOTS ensures NO_SLOTS[i] == map[] && !NO_MEMBERS[i] {
    }
  }

  lemma ValueArrives(g: Region, pads: seq<Pad>, log: seq<InputEvent>, orders: seq<seq<seq<EventKey>>>, i: nat,
                     slot: Slot, code: int, value: int)
    requires IsPadRun(g, pads, log, orders) && i < |log| && log[i] == Abs(code, value) && code != ABS_MT_SLOT
    requires Alone(pads[i].source, slot)
    ensures NothingWritten(pads[i], pads[i + 1])
    ensures Alone(pads[i + 1].source, slot[EventKey(EV_ABS, code) := value])
  {
    assert Linked(g, pads, log, orders, i);
  }

  lemma ContactMoves(g: Region, pads: seq<Pad>, log: seq<InputEvent>, orders: seq<seq<seq<EventKey>>>, i: nat,
                     slot: Slot, x: int, y: int)
    requires IsPadRun(g, pads, log, orders) && i + 2 <= |log|
    requires log[i] == Abs(ABS_MT_POSITION_X, x) && log[i + 1] == Abs(ABS_MT_POSITION_Y, y)
    requires Alone(pads[i].source, slot)
    ensures NothingWritten(pads[i], pads[i + 2])
    ensures Alone(pads[i + 2].source, slot[POSITION_X := x][POSITION_Y := y])
  {
    ValueArrives(g, pads, log, orders, i, slot, ABS_MT_POSITION_X, x);
    ValueArrives(g, pads, log, orders, i + 1, slot[POSITION_X := x], ABS_MT_POSITION_Y, y);
  }

  // A contact lands in a slot that has no values.
  lemma ContactLands(g: Region, pads: seq<Pad>, log: seq<InputEvent>, orders: seq<seq<seq<EventKey>>>, i: nat,
                     tid: int, x: int, y: int)
    requires IsPadRun(g, pads, log, orders) && i + 3 <= |log|
    requires log[i] == TidEvent(tid)
    requires log[i + 1] == Abs(ABS_MT_POSITION_X, x) && log[i + 2] == Abs(ABS_MT_POSITION_Y, y)
    requires Alone(pads[i].source, map[])
    ensures NothingWritten(pads[i], pads[i + 3])
    ensures Alone(pads[i + 3].source, map[TRACKING_ID := tid, POSITION_X := x, POSITION_Y := y])
  {
    ValueArrives(g, pads, log, orders, i, map[], ABS_MT_TRACKING_ID, tid);
    ContactMoves(g, pads, log, orders, i + 1, map[TRACKING_ID := tid], x, y);
  }

  lemma EventsAreLost(g: Region, pads: seq<Pad>, log: seq<InputEvent>, orders: seq<seq<seq<EventKey>>>, i: nat)
    requires IsPadRun(g, pads, log, orders) && i + 2 <= |log|
    requires log[i].IsDropped() && log[i + 1] == Report()
    ensures NothingWritten(pads[i], pads[i + 2])
    ensures Alone(pads[i + 2].source, map[])
  {
    assert Linked(g, pads, log, orders, i);
    assert Linked(g, pads, log, orders, i + 1);
    Beginning();
  }

  // The first frame of a contact in slot 0.
  lemma FirstFrame(g: Region, pads: seq<Pad>, log: seq<InputEvent>, orders: seq<seq<seq<EventKey>>>, i: nat,
                   slot: Slot)
    requires IsPadRun(g, pads, log, orders) && i < |log| && log[i] == Report()
    requires Blank(pads[i]) && Alone(pads[i].source, slot) && Contains(g, slot) && TRACKING_ID in slot
    ensures Showing(pads[i + 1], Turned(g, slot))
  {
    assert Linked(g, pads, log, orders, i);
    var p, walks := pads[i], orders[i];
    StepKeepsOk(g, p, Report(), walks);
    SyncSlots(p.receiver, g, p.source.slots, p.members, walks);
    var r := pads[i + 1].receiver;
    forall j | 1 <= j < NUM_SLOTS ensures TidOf(r.slots[j]) == -1 {
      ReceivedTid(g, map[], map[], false, walks[j]);
    }
    FirstReceived(g, slot, walks[0]);
  }

  lemma FirstReceived(g: Region, slot: Slot, order: seq<EventKey>)
    requires Contains(g, slot) && TRACKING_ID in slot && Lists(order, slot.Keys)
    ensures Received(g, map[], slot, false, order) == Turned(g, slot)
  {
    var base: Slot := map[TRACKING_ID := TidOf(slot)];
    OverlayIsMerge(g, base, slot, order);
    TurnedAt(g, slot, TRACKING_ID);
    assert base + Turned(g, slot) == Turned(g, slot);
  }

  // A frame of slot 0 in the region, when the receiver already has values for it.
  lemma NextFrame(g: Region, pads: seq<Pad>, log: seq<InputEvent>, orders: seq<seq<seq<EventKey>>>, i: nat,
                  slot: Slot, base: Slot)
    requires IsPadRun(g, pads, log, orders) && i < |log| && log[i] == Report()
    requires Alone(pads[i].source, slot) && Showing(pads[i], base) && Contains(g, slot)
    ensures PadOk(pads[i + 1]) && Alone(pads[i + 1].source, slot)
    ensures pads[i + 1].receiver.slots[0] == base + Turned(g, slot)
    ensures MirrorsAll(g, pads[i + 1]) ==> !Stale(g, slot, true, base) && !Leftover(g, slot, base)
  {
    assert Linked(g, pads, log, orders, i);
    var p, walks := pads[i], orders[i];
    StepKeepsOk(g, p, Report(), walks);
    SyncSlots(p.receiver, g, p.source.slots, p.members, walks);
    OverlayIsMerge(g, base, slot, walks[0]);
  }

  lemma {:induction false} CountNone(g: Region, slots: seq<Slot>, n: nat)
    requires n <= |slots| && forall i | 0 <= i < n :: !HasContact(slots[i])
    ensures TouchCount(g, slots, n) == 0
  {
    if n > 0 {
      CountNone(g, slots, n - 1);
    }
  }

  /** A run from the start that ends with a contact only the receiver has. */
  lemma LostContactStays(g: Region, pads: seq<Pad>, orders: seq<seq<seq<EventKey>>>, x: int, y: int)
    requires RunsFromStart(g, pads, LostContact(x, y), orders)
    requires g.xmin <= x <= g.xmax && g.ymin <= y <= g.ymax
    ensures var end := pads[9];
            && PadOk(end) && !MirrorsAll(g, end)
            && TouchCount(g, end.source.slots, NUM_SLOTS) == 0 && TidOf(end.receiver.slots[0]) == 7
  {
    var log := LostContact(x, y);
    var m: Slot := map[TRACKING_ID := 7, POSITION_X := x, POSITION_Y := y];
    var m': Slot := map[POSITION_X := x, POSITION_Y := y];
    ContactShown(g, pads, log, orders, x, y);
    EventsAreLost(g, pads, log, orders, 4);
    ContactMoves(g, pads, log, orders, 6, map[], x, y);
    MotionFrame(g, pads, log, orders, 8, m, m');
  }

  // A run whose first frame shows a contact.
  lemma ContactShown(g: Region, pads: seq<Pad>, log: seq<InputEvent>, orders: seq<seq<seq<EventKey>>>, x: int, y: int)
    requires RunsFromStart(g, pads, log, orders) && 4 <= |log|
    requires log[0] == TidEvent(7) && log[1] == Abs(ABS_MT_POSITION_X, x) && log[2] == Abs(ABS_MT_POSITION_Y, y)
    requires log[3] == Report() && g.xmin <= x <= g.xmax && g.ymin <= y <= g.ymax
    ensures Showing(pads[4], Turned(g, map[TRACKING_ID := 7, POSITION_X := x, POSITION_Y := y]))
  {
    Beginning();
    ContactLands(g, pads, log, orders, 0, 7, x, y);
    FirstFrame(g, pads, log, orders, 3, map[TRACKING_ID := 7, POSITION_X := x, POSITION_Y := y]);
  }

  // A frame of a slot without a tracking id, where the receiver shows a contact.
  lemma MotionFrame(g: Region, pads: seq<Pad>, log: seq<InputEvent>, orders: seq<seq<seq<EventKey>>>, i: nat,
                    m: Slot, m': Slot)
    requires IsPadRun(g, pads, log, orders) && i < |log| && log[i] == Report()
    requires Alone(pads[i].source, m') && Showing(pads[i], Turned(g, m)) && Contains(g, m')
    requires TRACKING_ID in m && m[TRACKING_ID] != -1 && TRACKING_ID !in m'
    ensures var end := pads[i + 1];
            && PadOk(end) && !MirrorsAll(g, end)
            && TouchCount(g, end.source.slots, NUM_SLOTS) == 0
            && TidOf(end.receiver.slots[0]) == m[TRACKING_ID]
  {
    NextFrame(g, pads, log, orders, i, m', Turned(g, m));
    ContactStays(g, m, m', Turned(g, m) + Turned(g, m'));
    NoneCounted(g, pads[i + 1].source, m');
  }

  lemma ContactStays(g: Region, m: Slot, m': Slot, r: Slot)
    requires TRACKING_ID in m && m[TRACKING_ID] != -1 && TRACKING_ID !in m' && Contains(g, m')
    requires r == Turned(g, m) + Turned(g, m')
    ensures Stale(g, m', true, Turned(g, m)) && TidOf(r) == m[TRACKING_ID]
  {
    TurnedAt(g, m, TRACKING_ID);
    TurnedAt(g, m', TRACKING_ID);
  }

  lemma NoneCounted(g: Region, d: Decoder, slot: Slot)
    requires Alone(d, slot) && !HasContact(slot)
    ensures TouchCount(g, d.slots, NUM_SLOTS) == 0
  {
    CountNone(g, d.slots, NUM_SLOTS);
  }

  /** A run from the start in which no slot is stale, and yet it ends with a receiver that shows
      the new contact with the old one's pressure. */
  lemma LostPressureStays(g: Region, pads: seq<Pad>, orders: seq<seq<seq<EventKey>>>, x: int, y: int)
    requires RunsFromStart(g, pads, LostPressure(x, y), orders)
    requires g.xmin <= x <= g.xmax && g.ymin <= y <= g.ymax
    ensures var end := pads[11];
            && PadOk(pads[10]) && !SomeStale(g, pads[10])
            && PadOk(end) && !MirrorsAll(g, end)
            && TidOf(end.source.slots[0]) == TidOf(end.receiver.slots[0]) == 9
            && FingerOf(end.source.slots[0]).p == -1 && FingerOf(end.receiver.slots[0]).p == 80
  {
    var log := LostPressure(x, y);
    var m: Slot := map[TRACKING_ID := 7, POSITION_X := x, POSITION_Y := y, PRESSURE := 80];
    PressureShown(g, pads, orders, x, y);
    TakesItsPlace(g, pads, log, orders, 5, m, 9, x, y);
  }

  // Events are lost, and a new contact of unknown pressure lands where the receiver has a pressure.
  lemma TakesItsPlace(g: Region, pads: seq<Pad>, log: seq<InputEvent>, orders: seq<seq<seq<EventKey>>>, i: nat,
                      m: Slot, tid: int, x: int, y: int)
    requires IsPadRun(g, pads, log, orders) && i + 6 <= |log|
    requires log[i].IsDropped() && log[i + 1] == Report() && log[i + 2] == TidEvent(tid)
    requires log[i + 3] == Abs(ABS_MT_POSITION_X, x) && log[i + 4] == Abs(ABS_MT_POSITION_Y, y)
    requires log[i + 5] == Report() && g.xmin <= x <= g.xmax && g.ymin <= y <= g.ymax
    requires Showing(pads[i], Turned(g, m)) && PRESSURE in m && m[PRESSURE] == 80
    ensures var end := pads[i + 6];
            && PadOk(pads[i + 5]) && !SomeStale(g, pads[i + 5])
            && PadOk(end) && !MirrorsAll(g, end)
            && TidOf(end.source.slots[0]) == TidOf(end.receiver.slots[0]) == tid
            && FingerOf(end.source.slots[0]).p == -1 && FingerOf(end.receiver.slots[0]).p == 80
  {
    EventsAreLost(g, pads, log, orders, i);
    ContactLands(g, pads, log, orders, i + 2, tid, x, y);
    PressureFrame(g, pads, log, orders, i + 5, m, map[TRACKING_ID := tid, POSITION_X := x, POSITION_Y := y]);
  }

  lemma OnlyFirstCanBeStale(g: Region, p: Pad, slot: Slot, base: Slot)
    requires Alone(p.source, slot) && Showing(p, base) && TRACKING_ID in slot
    ensures !SomeStale(g, p)
  {
  }

  // A frame with a contact of unknown pressure, where the receiver has a pressure.
  lemma PressureFrame(g: Region, pads: seq<Pad>, log: seq<InputEvent>, orders: seq<seq<seq<EventKey>>>, i: nat,
                      m: Slot, m': Slot)
    requires IsPadRun(g, pads, log, orders) && i < |log| && log[i] == Report()
    requires Alone(pads[i].source, m') && Showing(pads[i], Turned(g, m)) && Contains(g, m')
    requires PRESSURE in m && m[PRESSURE] == 80 && PRESSURE !in m' && TRACKING_ID in m'
    ensures var end := pads[i + 1];
            && PadOk(end) && !MirrorsAll(g, end) && !SomeStale(g, pads[i])
            && TidOf(end.source.slots[0]) == TidOf(end.receiver.slots[0]) == m'[TRACKING_ID]
            && FingerOf(end.source.slots[0]).p == -1 && FingerOf(end.receiver.slots[0]).p == 80
  {
    OnlyFirstCanBeStale(g, pads[i], m', Turned(g, m));
    NextFrame(g, pads, log, orders, i, m', Turned(g, m));
    PressureStays(g, m, m', Turned(g, m) + Turned(g, m'));
  }

  // The run up to its first frame.
  lemma PressureShown(g: Region, pads: seq<Pad>, orders: seq<seq<seq<EventKey>>>, x: int, y: int)
    requires RunsFromStart(g, pads, LostPressure(x, y), orders)
    requires g.xmin <= x <= g.xmax && g.ymin <= y <= g.ymax
    ensures Showing(pads[5], Turned(g, map[TRACKING_ID := 7, POSITION_X := x, POSITION_Y := y, PRESSURE := 80]))
  {
    var log := LostPressure(x, y);
    var m: Slot := map[TRACKING_ID := 7, POSITION_X := x, POSITION_Y := y];
    Beginning();
    ContactLands(g, pads, log, orders, 0, 7, x, y);
    ValueArrives(g, pads, log, orders, 3, m, ABS_MT_PRESSURE, 80);
    assert m[PRESSURE := 80] == map[TRACKING_ID := 7, POSITION_X := x, POSITION_Y := y, PRESSURE := 80];
    FirstFrame(g, pads, log, orders, 4, m[PRESSURE := 80]);
  }

  lemma PressureStays(g: Region, m: Slot, m': Slot, r: Slot)
    requires PRESSURE in m && m[PRESSURE] == 80 && PRESSURE !in m' && Contains(g, m')
    requires TRACKING_ID in m' && r == Turned(g, m) + Turned(g, m')
    ensures Leftover(g, m', Turned(g, m))
    ensures FingerOf(r).p == 80 && FingerOf(m').p == -1 && TidOf(r) == m'[TRACKING_ID]
  {
    TurnedAt(g, m, PRESSURE);
    TurnedAt(g, m', PRESSURE);
    TurnedAt(g, m', TRACKING_ID);
    assert PRESSURE in Turned(g, m) && PRESSURE != TRACKING_ID && PRESSURE !in Turned(g, m');
  }
}
