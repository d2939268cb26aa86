/** The fake touchpad as the program has it: an object that decodes its source, updates its slot
    memberships in place and writes events. */
module FakeTouchpadDevice {
  import opened Wrappers
  import opened HashTables
  import opened Reordering
  import opened InputEvents
  import opened StateMachine
  import opened DecoderLog
  import opened TouchpadModel
  import opened TouchpadGeometry
  import opened TouchpadButtons
  import opened TouchpadRuns

  class FakeTouchpad {
    const g: Region
    const sm: MtStateMachine
    const memberships: array<bool>
    var sent: seq<InputEvent>

    // The source decoder, the memberships, and a decoder fed everything written so far.
    ghost function View(): Pad
      reads this, sm, sm.slots, memberships
    {
      Pad(sm.State(), memberships[..], Run(INITIAL, sent))
    }

    ghost predicate Valid()
      reads this, sm, sm.slots, memberships
    {
      sm.Valid() && PadOk(View()) && (forall ev | ev in sent :: InDeclaredRange(g, ev)) && EndsWithReport(sent)
    }

    constructor (g: Region)
      ensures Valid() && View() == PAD_START && this.g == g && sent == []
      ensures fresh(sm) && fresh(sm.slots) && fresh(memberships)
    {
      this.g := g;
      sm := new MtStateMachine();
      memberships := new bool[NUM_SLOTS](_ => false);
      sent := [];
      new;
      StartOk();
    }

    method SendEvent(typ: int, code: int, value: int)
      modifies this`sent
      ensures sent == old(sent) + [InputEvent(typ, code, value)]
    {
      sent := sent + [InputEvent(typ, code, value)];
    }

    method SendTouchpadBtnEvents(touches: int)
      modifies this`sent
      ensures sent == old(sent) + ButtonEvents(touches)
      ensures Tells(sent, touches)
    {
      SendEvent(EV_KEY, BTN_TOUCH, if touches > 0 then 1 else 0);
      SendEvent(EV_KEY, BTN_TOOL_FINGER, if touches == 1 then 1 else 0);
      SendEvent(EV_KEY, BTN_TOOL_DOUBLETAP, if touches == 2 then 1 else 0);
      SendEvent(EV_KEY, BTN_TOOL_TRIPLETAP, if touches == 3 then 1 else 0);
      SendEvent(EV_KEY, BTN_TOOL_QUADTAP, if touches == 4 then 1 else 0);
      ButtonsTell(old(sent), touches);
      assert sent == old(sent) + ButtonEvents(touches);
    }

    // The rewriting of one value, step by step.
    method Rewrite(key: EventKey, v: int) returns (code: int, value: int)
      ensures code == OutKey(g.rotation, key).code && value == OutValue(g, key, v)
    {
      code, value := key.code, v;
      if key.IsX() {
        value := value - g.xmin;
        match g.rotation {
          case 90 => code := ABS_MT_POSITION_Y;
          case 180 => value := (g.xmax - g.xmin) - value;
          case 270 =>
            code := ABS_MT_POSITION_Y;
            value := (g.xmax - g.xmin) - value;
          case _ =>
        }
      } else if key.IsY() {
        value := value - g.ymin;
        match g.rotation {
          case 90 =>
            code := ABS_MT_POSITION_X;
            value := (g.ymax - g.ymin) - value;
          case 180 => value := (g.ymax - g.ymin) - value;
          case 270 => code := ABS_MT_POSITION_X;
          case _ =>
        }
      }
    }

    method PassEventsThrough(slot: Slot) returns (isValid: bool, ghost order: seq<EventKey>)
      modifies this`sent
      ensures Lists(order, slot.Keys)
      ensures sent == old(sent) + Pass(g, slot, order)
      ensures isValid <==> HasContact(slot)
    {
      isValid, order := false, [];
      var todo := slot.Keys;
      while todo != {}
        invariant todo <= slot.Keys && Lists(order, slot.Keys - todo)
        invariant sent == old(sent) + Pass(g, slot, order)
        invariant isValid <==> HasContact(slot) && TRACKING_ID !in todo
        decreases |todo|
      {
        var key := Pick(todo);
        if key.IsSupportedForTouchpads() {
          if key.IsTrackingID() {
            isValid := isValid || slot[key] != -1;
          }
          var code, value := Rewrite(key, slot[key]);
          SendEvent(key.typ, code, value);
        }
        ListsNext(order, slot.Keys, todo, key);
        assert (order + [key])[..|order|] == order;
        order, todo := order + [key], todo - {key};
      }
      assert slot.Keys - {} == slot.Keys;
    }

    method SyncSlot(i: nat) returns (counted: bool, ghost order: seq<EventKey>)
      requires sm.Valid() && memberships.Length == NUM_SLOTS && i < NUM_SLOTS
      modifies this`sent, memberships
      ensures Lists(order, sm.slots[i].Keys)
      ensures sent == old(sent) + SlotFrame(g, i, sm.slots[i], old(memberships[i]), order)
      ensures memberships[..] == old(memberships[..])[i := Contains(g, sm.slots[i])]
      ensures counted <==> Contains(g, sm.slots[i]) && HasContact(sm.slots[i])
      ensures sm.slots[..] == old(sm.slots[..])
    {
      var slot := sm.slots[i];
      SendEvent(EV_ABS, ABS_MT_SLOT, i);
      if !Contains(g, slot) {
        if memberships[i] {
          SendEvent(EV_ABS, ABS_MT_TRACKING_ID, -1);
        }
        memberships[i] := false;
        counted := false;
        SomeWalk(slot.Keys);
        order :| Lists(order, slot.Keys);
      } else {
        if !memberships[i] {
          SendEvent(EV_ABS, ABS_MT_TRACKING_ID, TidOf(slot));
        }
        memberships[i] := true;
        var validFinger;
        validFinger, order := PassEventsThrough(slot);
        counted := validFinger && memberships[i];
      }
    }

    // One turn of the loop, when the slots walked so far have been written.
    method SyncTurn(i: nat, count: nat, ghost slots: seq<Slot>, ghost members: seq<bool>,
                    ghost sent0: seq<InputEvent>, ghost orders: seq<seq<EventKey>>)
      returns (touchCount: nat, ghost orders': seq<seq<EventKey>>)
      requires sm.slots[..] == slots && i == |orders| < NUM_SLOTS == memberships.Length && sm.Valid()
      requires Synced(g, slots, members, sent0, orders, sent, memberships[..])
      requires count == TouchCount(g, slots, i)
      modifies this`sent, memberships
      ensures sm.slots[..] == slots && |orders'| == i + 1
      ensures Synced(g, slots, members, sent0, orders', sent, memberships[..])
      ensures touchCount == TouchCount(g, slots, i + 1)
    {
      ghost var before, members0, order := sent, memberships[..], [];
      var counted;
      counted, order := SyncSlot(i);
      SyncNext(g, slots, members, sent0, orders, before, members0, order);
      orders' := orders + [order];
      touchCount := if counted then count + 1 else count;
    }

    method SyncTouchEvents() returns (touchCount: nat, ghost orders: seq<seq<EventKey>>)
      requires sm.Valid() && memberships.Length == NUM_SLOTS
      modifies this`sent, memberships
      ensures Orders(sm.slots[..], orders)
      ensures sent == old(sent) + Frame(g, sm.slots[..], old(memberships[..]), orders)
      ensures memberships[..] == MembersAfter(g, sm.slots[..])
      ensures touchCount == TouchCount(g, sm.slots[..], NUM_SLOTS)
    {
      touchCount, orders := 0, [];
      ghost var slots, members, sent0 := sm.slots[..], memberships[..], sent;
      SyncBegins(g, slots, members, sent0);
      for i := 0 to NUM_SLOTS
        invariant sm.slots[..] == slots && |orders| == i
        invariant Synced(g, slots, members, sent0, orders, sent, memberships[..])
        invariant touchCount == TouchCount(g, slots, i)
      {
        touchCount, orders := SyncTurn(i, touchCount, slots, members, sent0, orders);
      }
      SyncEnds(g, slots, members, sent0, orders, sent, memberships[..]);
    }

    // What follows a completed frame: the slots, the buttons, the report.
    method PassFrame() returns (ghost orders: seq<seq<EventKey>>)
      requires sm.Valid() && memberships.Length == NUM_SLOTS
      modifies this`sent, memberships
      ensures Orders(sm.slots[..], orders)
      ensures sent == old(sent) + Written(g, sm.slots[..], old(memberships[..]), orders)
      ensures memberships[..] == MembersAfter(g, sm.slots[..])
    {
      var count;
      ghost var sent0, frame := sent, [];
      count, orders := SyncTouchEvents();
      frame := Frame(g, sm.slots[..], old(memberships[..]), orders);
      SendTouchpadBtnEvents(count);
      SendEvent(EV_SYN, SYN_REPORT, 0);
      assert sent == sent0 + (frame + ButtonEvents(count) + [InputEvent(EV_SYN, SYN_REPORT, 0)]);
    }

    /** One pass of Consume: nothing on a timeout; otherwise the source is decoded, and the end
        of a frame is passed on. */
    method ConsumeOnce(event: Option<InputEvent>) returns (ghost orders: seq<seq<EventKey>>)
      requires Valid()
      modifies this`sent, memberships, sm, sm.slots
      ensures Valid()
      ensures event.None? ==> View() == old(View()) && sent == old(sent)
      ensures event.Some? ==>
                AdmissibleOrders(old(View()), event.value, orders) &&
                View() == PadStep(g, old(View()), event.value, orders)
      ensures event.Some? ==>
                sent == old(sent) + if Completes(old(sm.State()), event.value)
                                    then Written(g, old(sm.slots[..]), old(memberships[..]), orders) else []
      ensures event.Some? && Completes(old(sm.State()), event.value) ==> FrameAdded(old(sent), sent)
    {
      orders := [];
      if event.None? {
        return;
      }
      ghost var before, sent0 := View(), sent;
      var complete, _ := sm.AddEvent(event.value, false, map[]);
      if complete {
        orders := PassFrame();
        RunConcat(INITIAL, sent0, Written(g, before.source.slots, before.members, orders));
        WrittenInRange(g, before.source.slots, before.members, orders);
        FrameCloses(sent0, g, before.source.slots, before.members, orders);
      }
      StepKeepsOk(g, before, event.value, orders);
    }
  }

  // ---- the walk over the slots ----

  // How far SyncTouchEvents has come: the slots walked so far have been written and their
  // memberships updated.
  ghost predicate Synced(g: Region, slots: seq<Slot>, members: seq<bool>, sent0: seq<InputEvent>,
                         orders: seq<seq<EventKey>>, sent: seq<InputEvent>, now: seq<bool>)
  {
    && |slots| == NUM_SLOTS == |members| && Walks(slots, orders)
    && sent == sent0 + Frame(g, slots, members, orders)
    && now == MembersAfter(g, slots)[..|orders|] + members[|orders|..]
  }

  lemma SyncBegins(g: Region, slots: seq<Slot>, members: seq<bool>, sent0: seq<InputEvent>)
    requires |slots| == NUM_SLOTS == |members|
    ensures Synced(g, slots, members, sent0, [], sent0, members)
  {
    assert sent0 + [] == sent0;
  }

  lemma SyncNext(g: Region, slots: seq<Slot>, members: seq<bool>, sent0: seq<InputEvent>,
                 orders: seq<seq<EventKey>>, sent: seq<InputEvent>, now: seq<bool>, order: seq<EventKey>)
    requires Synced(g, slots, members, sent0, orders, sent, now) && |orders| < NUM_SLOTS
    requires Lists(order, slots[|orders|].Keys)
    ensures |now| == NUM_SLOTS && now[|orders|] == members[|orders|]
    ensures var i := |orders|;
            Synced(g, slots, members, sent0, orders + [order],
                   sent + SlotFrame(g, i, slots[i], members[i], order), now[i := Contains(g, slots[i])])
  {
    var i := |orders|;
    FrameSnoc(g, slots, members, orders, order);
    MembersSnoc(MembersAfter(g, slots), members, i);
    Assoc(sent0, Frame(g, slots, members, orders), SlotFrame(g, i, slots[i], members[i], order));
  }

  lemma SyncEnds(g: Region, slots: seq<Slot>, members: seq<bool>, sent0: seq<InputEvent>,
                 orders: seq<seq<EventKey>>, sent: seq<InputEvent>, now: seq<bool>)
    requires Synced(g, slots, members, sent0, orders, sent, now) && |orders| == NUM_SLOTS
    ensures Orders(slots, orders) && sent == sent0 + Frame(g, slots, members, orders)
    ensures now == MembersAfter(g, slots)
  {
  }

  lemma MembersSnoc(after: seq<bool>, members: seq<bool>, i: nat)
    requires i < |after| == |members|
    ensures (after[..i] + members[i..])[i := after[i]] == after[..i + 1] + members[i + 1..]
  {
  }

  lemma FrameSnoc(g: Region, slots: seq<Slot>, members: seq<bool>, orders: seq<seq<EventKey>>, order: seq<EventKey>)
    requires Walks(slots, orders) && |members| == |slots| && |orders| < |slots|
    requires Lists(order, slots[|orders|].Keys)
    ensures var i := |orders|;
            && Walks(slots, orders + [order])
            && Frame(g, slots, members, orders + [order]) ==
               Frame(g, slots, members, orders) + SlotFrame(g, i, slots[i], members[i], order)
  {
    assert (orders + [order])[..|orders|] == orders;
  }
}
