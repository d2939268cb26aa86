/** What a receiver of the touchpad's output sees: its slots mirror the part of the source that
    lies in the region, and exactly when this can fail. */
module TouchpadMirror {
  import opened HashTables
  import opened InputEvents
  import opened StateMachine
  import opened DecoderLog
  import opened TouchpadModel

  // ---- feeding one slot's events to a receiver ----

  lemma RunOne(d: Decoder, ev: InputEvent)
    requires d.Valid()
    ensures Run(d, [ev]) == Step(d, ev)
  {
    assert [ev][..0] == [];
    assert Run(d, []) == d;
  }

  // The receiver's slot after the values of the source slot have been passed on.
  function Overlay(g: Region, base: Slot, slot: Slot, order: seq<EventKey>): Slot
    requires forall k | k in order :: k in slot
  {
    if order == [] then base
    else
      var n := |order| - 1;
      var k := order[n];
      var m := Overlay(g, base, slot, order[..n]);
      if k.IsSupportedForTouchpads() then m[OutKey(g.rotation, k) := OutValue(g, k, slot[k])] else m
  }

  lemma OutEventKey(g: Region, k: EventKey, value: int)
    requires k.IsSupportedForTouchpads()
    ensures OutEvent(g, k, value).Key() == OutKey(g.rotation, k)
    ensures OutKey(g.rotation, k).IsSupportedForTouchpads() && !OutKey(g.rotation, k).IsSlot()
    ensures OutKey(g.rotation, k).IsTrackingID() <==> k.IsTrackingID()
  {
  }

  lemma OutKeyInjective(rotation: int, k: EventKey, k': EventKey)
    requires k.IsSupportedForTouchpads() && k'.IsSupportedForTouchpads()
    requires OutKey(rotation, k) == OutKey(rotation, k')
    ensures k == k'
  {
  }

  lemma {:induction false} PassFeeds(d: Decoder, g: Region, slot: Slot, order: seq<EventKey>)
    requires d.Valid() && !d.dropping && d.current >= 0
    requires forall k | k in order :: k in slot
    ensures Run(d, Pass(g, slot, order)) ==
            d.(slots := d.slots[d.current := Overlay(g, d.slots[d.current], slot, order)])
  {
    if order == [] {
      assert d.slots[d.current := d.slots[d.current]] == d.slots;
    } else {
      var n := |order| - 1;
      var k := order[n];
      PassFeeds(d, g, slot, order[..n]);
      if k.IsSupportedForTouchpads() {
        var ev := OutEvent(g, k, slot[k]);
        RunConcat(d, Pass(g, slot, order[..n]), [ev]);
        RunOne(Run(d, Pass(g, slot, order[..n])), ev);
        OutEventKey(g, k, slot[k]);
      } else {
        assert Pass(g, slot, order) == Pass(g, slot, order[..n]);
      }
    }
  }

  // The slot a receiver ends up with, for one slot of a frame.
  function Received(g: Region, base: Slot, slot: Slot, member: bool, order: seq<EventKey>): Slot
    requires forall k | k in order :: k in slot
  {
    if Contains(g, slot) then
      Overlay(g, if member then base else base[TRACKING_ID := TidOf(slot)], slot, order)
    else if member then base[TRACKING_ID := -1]
    else base
  }

  lemma SlotFrameFeeds(d: Decoder, g: Region, i: nat, slot: Slot, member: bool, order: seq<EventKey>)
    requires d.Valid() && !d.dropping && i < NUM_SLOTS
    requires forall k | k in order :: k in slot
    ensures Run(d, SlotFrame(g, i, slot, member, order)) ==
            d.(current := i, slots := d.slots[i := Received(g, d.slots[i], slot, member, order)])
  {
    var d1 := d.(current := i);
    RunOne(d, SlotEvent(i));
    var rest := if Contains(g, slot) then
                  (if member then [] else [TidEvent(TidOf(slot))]) + Pass(g, slot, order)
                else if member then [TidEvent(-1)] else [];
    RunConcat(d, [SlotEvent(i)], rest);
    assert d.slots[i := d.slots[i]] == d.slots;
    if Contains(g, slot) {
      var head := if member then [] else [TidEvent(TidOf(slot))];
      RunConcat(d1, head, Pass(g, slot, order));
      RunOne(d1, TidEvent(TidOf(slot)));
      PassFeeds(Run(d1, head), g, slot, order);
    } else {
      RunOne(d1, TidEvent(-1));
    }
  }

  // ---- feeding a frame ----

  /** Feeding the frame to a receiver updates each of its slots from the matching source slot
      and nothing else. */
  lemma {:induction false} FrameFeeds(d: Decoder, g: Region, slots: seq<Slot>, members: seq<bool>,
                                      orders: seq<seq<EventKey>>)
    requires d.Valid() && !d.dropping
    requires |slots| == NUM_SLOTS == |members| && Walks(slots, orders)
    ensures var r := Run(d, Frame(g, slots, members, orders));
            && r.Valid() && !r.dropping
            && forall i | 0 <= i < NUM_SLOTS ::
                 r.slots[i] ==
                 if i < |orders| then Received(g, d.slots[i], slots[i], members[i], orders[i]) else d.slots[i]
  {
    if orders != [] {
      var i := |orders| - 1;
      var head := Frame(g, slots, members, orders[..i]);
      FrameFeeds(d, g, slots, members, orders[..i]);
      RunConcat(d, head, SlotFrame(g, i, slots[i], members[i], orders[i]));
      NextSlotFeeds(d, Run(d, head), g, slots, members, orders);
    }
  }

  lemma NextSlotFeeds(d: Decoder, m: Decoder, g: Region, slots: seq<Slot>, members: seq<bool>,
                      orders: seq<seq<EventKey>>)
    requires d.Valid() && m.Valid() && !m.dropping && orders != []
    requires |slots| == NUM_SLOTS == |members| && Walks(slots, orders)
    requires forall i | 0 <= i < NUM_SLOTS ::
               m.slots[i] ==
               if i < |orders| - 1 then Received(g, d.slots[i], slots[i], members[i], orders[i]) else d.slots[i]
    ensures var n := |orders| - 1;
            var r := Run(m, SlotFrame(g, n, slots[n], members[n], orders[n]));
            && !r.dropping
            && forall i | 0 <= i < NUM_SLOTS ::
                 r.slots[i] ==
                 if i < |orders| then Received(g, d.slots[i], slots[i], members[i], orders[i]) else d.slots[i]
  {
    var n := |orders| - 1;
    SlotFrameFeeds(m, g, n, slots[n], members[n], orders[n]);
  }

  // ---- what the receiver's slot holds ----

  /** The walk of the hash table does not matter: every supported value of the source arrives
      under its turned key and with its turned value; other keys keep what they had. */
  lemma {:induction false} OverlayMeaning(g: Region, base: Slot, slot: Slot, order: seq<EventKey>, k: EventKey)
    requires forall j | j in order :: j in slot
    requires k.IsSupportedForTouchpads()
    ensures var r, o := Overlay(g, base, slot, order), OutKey(g.rotation, k);
            if k in order then o in r && r[o] == OutValue(g, k, slot[k])
            else (o in r <==> o in base) && (o in r ==> r[o] == base[o])
  {
    if order != [] {
      var n := |order| - 1;
      assert order == order[..n] + [order[n]];
      OverlayMeaning(g, base, slot, order[..n], k);
      if order[n].IsSupportedForTouchpads() && OutKey(g.rotation, order[n]) == OutKey(g.rotation, k) {
        OutKeyInjective(g.rotation, order[n], k);
      }
    }
  }

  lemma {:induction false} OverlayElsewhere(g: Region, base: Slot, slot: Slot, order: seq<EventKey>, o: EventKey)
    requires forall j | j in order :: j in slot
    requires !o.IsSupportedForTouchpads()
    ensures var r := Overlay(g, base, slot, order); (o in r <==> o in base) && (o in r ==> r[o] == base[o])
  {
    if order != [] {
      OverlayElsewhere(g, base, slot, order[..|order| - 1], o);
    }
  }

  // The supported values of a source slot, turned into the touchpad's frame.
  function Turned(g: Region, slot: Slot): Slot {
    map k | k in slot && k.IsSupportedForTouchpads() :: OutKey(g.rotation, k) := OutValue(g, k, slot[k])
  }

  // Turning the keys twice gives them back, so each key comes from the one it is turned into.
  lemma TurnedAt(g: Region, slot: Slot, o: EventKey)
    ensures o in Turned(g, slot) <==> o.IsSupportedForTouchpads() && OutKey(g.rotation, o) in slot
    ensures o in Turned(g, slot) ==>
              Turned(g, slot)[o] == OutValue(g, OutKey(g.rotation, o), slot[OutKey(g.rotation, o)])
  {
    var k := OutKey(g.rotation, o);
    assert OutKey(g.rotation, k) == o;
    if o.IsSupportedForTouchpads() && k in slot {
      assert k.IsSupportedForTouchpads();
    }
  }

  /** A whole walk, in any order, lays the turned values over what the receiver's slot had. */
  lemma OverlayIsMerge(g: Region, base: Slot, slot: Slot, order: seq<EventKey>)
    requires Lists(order, slot.Keys)
    ensures Overlay(g, base, slot, order) == base + Turned(g, slot)
  {
    var r, m := Overlay(g, base, slot, order), base + Turned(g, slot);
    forall o: EventKey ensures o in r <==> o in m
      ensures o in r ==> r[o] == m[o] {
      TurnedAt(g, slot, o);
      if o.IsSupportedForTouchpads() {
        var k := OutKey(g.rotation, o);
        assert OutKey(g.rotation, k) == o;
        OverlayMeaning(g, base, slot, order, k);
      } else {
        OverlayElsewhere(g, base, slot, order, o);
      }
    }
    assert r.Keys == m.Keys;
  }

  // The contact a slot shows: none (-1) unless it lies in the region.
  function Shown(g: Region, slot: Slot): int {
    if Contains(g, slot) then TidOf(slot) else -1
  }

  // The receiver mirrors a source slot: it shows the same contact, and while the slot is in the
  // region it holds exactly the slot's supported values, turned into the touchpad's frame.
  predicate Mirrors(g: Region, slot: Slot, received: Slot) {
    && TidOf(received) == Shown(g, slot)
    && (Contains(g, slot) ==> received - {TRACKING_ID} == Turned(g, slot) - {TRACKING_ID})
  }

  // A slot that was in the region at the last frame and still is, but whose tracking id the
  // source has forgotten, while the receiver still shows a contact. Nothing then tells the
  // receiver that the contact is gone.
  predicate Stale(g: Region, slot: Slot, member: bool, received: Slot) {
    Contains(g, slot) && member && TRACKING_ID !in slot && TidOf(received) != -1
  }

  // A slot in the region for which the receiver holds a value that the source has forgotten.
  // Nothing ever takes a value back.
  predicate Leftover(g: Region, slot: Slot, received: Slot) {
    Contains(g, slot) && exists o :: o in received && o != TRACKING_ID && o !in Turned(g, slot)
  }

  // Before a frame: a slot outside the region shows no contact at the receiver.
  ghost predicate Closed(members: seq<bool>, receiver: Decoder) {
    && |members| == NUM_SLOTS && receiver.Valid() && !receiver.dropping
    && forall i | 0 <= i < NUM_SLOTS && !members[i] :: TidOf(receiver.slots[i]) == -1
  }

  lemma ReceivedTid(g: Region, base: Slot, slot: Slot, member: bool, order: seq<EventKey>)
    requires Lists(order, slot.Keys)
    requires !member ==> TidOf(base) == -1
    ensures var r := Received(g, base, slot, member, order);
            TidOf(r) == if Stale(g, slot, member, base) then TidOf(base) else Shown(g, slot)
  {
    if Contains(g, slot) {
      var b := if member then base else base[TRACKING_ID := TidOf(slot)];
      OverlayMeaning(g, b, slot, order, TRACKING_ID);
    }
  }

  lemma ReceivedValues(g: Region, base: Slot, slot: Slot, member: bool, order: seq<EventKey>)
    requires Lists(order, slot.Keys)
    ensures var r := Received(g, base, slot, member, order);
            r - {TRACKING_ID} == if Contains(g, slot) then (base + Turned(g, slot)) - {TRACKING_ID}
                                 else base - {TRACKING_ID}
  {
    if Contains(g, slot) {
      OverlayIsMerge(g, if member then base else base[TRACKING_ID := TidOf(slot)], slot, order);
      MergeWithoutId(base, TidOf(slot), Turned(g, slot));
    }
  }

  lemma MergeWithoutId(base: Slot, tid: int, over: Slot)
    ensures (base[TRACKING_ID := tid] + over) - {TRACKING_ID} == (base + over) - {TRACKING_ID}
  {
    var a, b := (base[TRACKING_ID := tid] + over) - {TRACKING_ID}, (base + over) - {TRACKING_ID};
    assert a.Keys == b.Keys;
  }

  // Laying values over others leaves just these exactly when there are no others.
  lemma MergeIsExact(base: Slot, over: Slot)
    ensures (base + over) - {TRACKING_ID} == over - {TRACKING_ID} <==>
            !exists o :: o in base && o != TRACKING_ID && o !in over
  {
    var m, v := (base + over) - {TRACKING_ID}, over - {TRACKING_ID};
    if o :| o in base && o != TRACKING_ID && o !in over {
      assert o in m && o !in v;
    } else {
      assert m.Keys == v.Keys;
    }
  }

  /** One slot of one frame: the receiver mirrors the source if and only if the slot was not
      stale and the receiver held no value the source has forgotten. A stale slot goes on showing
      the contact it showed. */
  lemma SlotMirrorsIff(g: Region, base: Slot, slot: Slot, member: bool, order: seq<EventKey>)
    requires Lists(order, slot.Keys)
    requires !member ==> TidOf(base) == -1
    ensures Mirrors(g, slot, Received(g, base, slot, member, order)) <==>
            !Stale(g, slot, member, base) && !Leftover(g, slot, base)
    ensures !Contains(g, slot) ==> TidOf(Received(g, base, slot, member, order)) == -1
  {
    ReceivedTid(g, base, slot, member, order);
    ReceivedValues(g, base, slot, member, order);
    MergeIsExact(base, Turned(g, slot));
  }

  // What a slot holds for an EV_ABS code, or -1.
  function Value(slot: Slot, code: int): int {
    var k := EventKey(3, code);
    if k in slot then slot[k] else -1
  }

  /** A mirrored contact is the source's contact seen in the touchpad's frame: the same tracking id
      (0x39), pressure (0x3a) and larger and smaller diameter (0x30, 0x31) at the turned position
      (0x35, 0x36), and nothing else. */
  lemma MirroredFinger(g: Region, slot: Slot, received: Slot)
    requires Mirrors(g, slot, received) && Contains(g, slot)
    ensures Value(received, 0x39) == Value(slot, 0x39)
    ensures forall code | code == 0x3a || code == 0x30 || code == 0x31 ::
              && (EventKey(3, code) in received <==> EventKey(3, code) in slot)
              && Value(received, code) == Value(slot, code)
    ensures EventKey(3, 0x35) in slot && EventKey(3, 0x36) in slot ==>
              (Value(received, 0x35), Value(received, 0x36)) == OutPosition(g, Value(slot, 0x35), Value(slot, 0x36))
    ensures forall o | o in received ::
              && o.typ == 3
              && (|| o.code == 0x39 || o.code == 0x35 || o.code == 0x36
                  || o.code == 0x3a || o.code == 0x30 || o.code == 0x31)
  {
    forall o | o in received && o != TRACKING_ID ensures o.IsSupportedForTouchpads() {
      MirroredAt(g, slot, received, o);
    }
    forall code | code == 0x3a || code == 0x30 || code == 0x31
      ensures EventKey(3, code) in received <==> EventKey(3, code) in slot
      ensures Value(received, code) == Value(slot, code) {
      MirroredAt(g, slot, received, EventKey(3, code));
    }
    MirroredAt(g, slot, received, POSITION_X);
    MirroredAt(g, slot, received, POSITION_Y);
  }

  lemma MirroredAt(g: Region, slot: Slot, received: Slot, o: EventKey)
    requires Mirrors(g, slot, received) && Contains(g, slot) && o != TRACKING_ID
    ensures o in received <==> o.IsSupportedForTouchpads() && OutKey(g.rotation, o) in slot
    ensures o in received ==>
              received[o] == OutValue(g, OutKey(g.rotation, o), slot[OutKey(g.rotation, o)])
  {
    var r, t := received - {TRACKING_ID}, Turned(g, slot) - {TRACKING_ID};
    assert o in received <==> o in r;
    assert o in Turned(g, slot) <==> o in t;
    TurnedAt(g, slot, o);
    if o in received {
      assert r[o] == t[o];
    }
  }

  /** Which contacts the touchpad shows: those at positions between the region's bounds, the bounds
      included. A position not reported counts as -1. */
  lemma ShownExactly(g: Region, slot: Slot)
    ensures var x, y := Value(slot, 0x35), Value(slot, 0x36);
            Shown(g, slot) ==
            if g.xmin <= x <= g.xmax && g.ymin <= y <= g.ymax then Value(slot, 0x39) else -1
  {
  }

  lemma {:induction false} IgnoredEvents(d: Decoder, evs: seq<InputEvent>)
    requires d.Valid() && !d.dropping
    requires forall ev | ev in evs :: ev.typ == EV_KEY || (ev.typ == EV_SYN && ev.code == SYN_REPORT)
    ensures Run(d, evs) == d
  {
    if evs != [] {
      IgnoredEvents(d, evs[..|evs| - 1]);
      assert evs[|evs| - 1] in evs;
    }
  }

  // The receiver after a frame.
  ghost function Sync(receiver: Decoder, g: Region, slots: seq<Slot>, members: seq<bool>,
                      orders: seq<seq<EventKey>>): Decoder
    requires receiver.Valid() && |slots| == NUM_SLOTS == |members| && Orders(slots, orders)
  {
    Run(receiver, Written(g, slots, members, orders))
  }

  lemma SyncSlots(receiver: Decoder, g: Region, slots: seq<Slot>, members: seq<bool>, orders: seq<seq<EventKey>>)
    requires Closed(members, receiver) && |slots| == NUM_SLOTS && Orders(slots, orders)
    ensures var r := Sync(receiver, g, slots, members, orders);
            && r.Valid() && !r.dropping
            && forall i | 0 <= i < NUM_SLOTS ::
                 r.slots[i] == Received(g, receiver.slots[i], slots[i], members[i], orders[i])
  {
    FrameFeeds(receiver, g, slots, members, orders);
    var frame := Frame(g, slots, members, orders);
    var tail := ButtonEvents(TouchCount(g, slots, NUM_SLOTS)) + [InputEvent(EV_SYN, SYN_REPORT, 0)];
    assert Written(g, slots, members, orders) == frame + tail;
    RunConcat(receiver, frame, tail);
    IgnoredEvents(Run(receiver, frame), tail);
  }

  function Active(slots: seq<Slot>, n: nat): nat
    requires n <= |slots|
  {
    if n == 0 then 0 else Active(slots, n - 1) + if TidOf(slots[n - 1]) != -1 then 1 else 0
  }

  lemma {:induction false} CountShown(g: Region, slots: seq<Slot>, received: seq<Slot>, n: nat)
    requires n <= |slots| == |received|
    requires forall i | 0 <= i < n :: TidOf(received[i]) == Shown(g, slots[i]) || TidOf(received[i]) != -1
    ensures Active(received, n) >= TouchCount(g, slots, n)
    ensures Active(received, n) == TouchCount(g, slots, n) <==>
            forall i | 0 <= i < n :: TidOf(received[i]) == -1 <==> Shown(g, slots[i]) == -1
  {
    if n > 0 {
      CountShown(g, slots, received, n - 1);
    }
  }

  /** The mirror theorem for one frame, in any state the device can be in and for any order of
      the hash tables. The receiver mirrors every slot if and only if no slot is stale and no slot
      has a leftover value; the count behind the tool buttons is the number of contacts it shows
      if and only if no slot is stale. Whatever happens, slots outside the region show no contact
      afterwards. */
  lemma FrameMirrorsIff(receiver: Decoder, g: Region, slots: seq<Slot>, members: seq<bool>, orders: seq<seq<EventKey>>)
    requires Closed(members, receiver) && |slots| == NUM_SLOTS && Orders(slots, orders)
    ensures var r := Sync(receiver, g, slots, members, orders);
            var stale := exists i :: 0 <= i < NUM_SLOTS && Stale(g, slots[i], members[i], receiver.slots[i]);
            var leftover := exists i :: 0 <= i < NUM_SLOTS && Leftover(g, slots[i], receiver.slots[i]);
            && Closed(MembersAfter(g, slots), r)
            && ((forall i | 0 <= i < NUM_SLOTS :: Mirrors(g, slots[i], r.slots[i])) <==> !stale && !leftover)
            && (TouchCount(g, slots, NUM_SLOTS) == Active(r.slots, NUM_SLOTS) <==> !stale)
  {
    var r := Sync(receiver, g, slots, members, orders);
    SyncSlots(receiver, g, slots, members, orders);
    forall i | 0 <= i < NUM_SLOTS
      ensures Mirrors(g, slots[i], r.slots[i]) <==>
              !Stale(g, slots[i], members[i], receiver.slots[i]) && !Leftover(g, slots[i], receiver.slots[i])
      ensures !Contains(g, slots[i]) ==> TidOf(r.slots[i]) == -1
      ensures TidOf(r.slots[i]) == Shown(g, slots[i]) <==> !Stale(g, slots[i], members[i], receiver.slots[i])
      ensures TidOf(r.slots[i]) == Shown(g, slots[i]) || (TidOf(r.slots[i]) != -1 && Shown(g, slots[i]) == -1)
    {
      SlotMirrorsIff(g, receiver.slots[i], slots[i], members[i], orders[i]);
      ReceivedTid(g, receiver.slots[i], slots[i], members[i], orders[i]);
    }
    CountShown(g, slots, r.slots, NUM_SLOTS);
  }

  /** What is written for a slot begins by selecting it. A slot that enters the region is announced
      by its tracking id before any of its values; one that leaves is closed with the id -1 and
      nothing else; one that stays outside has nothing written. */
  lemma SlotFrameTells(g: Region, i: int, slot: Slot, member: bool, order: seq<EventKey>)
    requires Lists(order, slot.Keys)
    ensures var w := SlotFrame(g, i, slot, member, order);
            && |w| > 0 && w[0] == InputEvent(3, 0x2f, i)
            && (Contains(g, slot) && !member ==> |w| > 1 && w[1] == InputEvent(3, 0x39, Value(slot, 0x39)))
            && (!Contains(g, slot) && member ==> w == [InputEvent(3, 0x2f, i), InputEvent(3, 0x39, -1)])
            && (!Contains(g, slot) && !member ==> w == [InputEvent(3, 0x2f, i)])
  {
  }
}
