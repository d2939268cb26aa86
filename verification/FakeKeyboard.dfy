/** The fake keyboard as the program has it: an object that updates its queue, its finger table
    and its Fn flag in place. Each method is tied to the function that specifies it. */
module FakeKeyboardDevice {
  import opened Wrappers
  import opened HashTables
  import opened Reordering
  import opened InputEvents
  import opened Timespecs
  import opened StateMachine
  import opened KeyboardModel
  import opened KeyboardInvariant
  import opened KeyboardSteps
  import opened KeyboardRuns
  import opened KeyboardOutput
  import opened KeyboardHaptics

  // The insertion into the rest of a queue either stops at its head or passes it.
  lemma InsertFrom(q: seq<Event>, i: nat, ev: Event)
    requires i < |q|
    ensures Later(q[i].deadline, ev.deadline) ==> q[..i] + Insert(q[i..], ev) == q[..i] + [ev] + q[i..]
    ensures !Later(q[i].deadline, ev.deadline) ==>
              q[..i] + Insert(q[i..], ev) == q[..i + 1] + Insert(q[i + 1..], ev)
  {
    var front, rest := q[..i], q[i..];
    assert rest[0] == q[i] && rest[1..] == q[i + 1..] && q[..i + 1] == front + [q[i]];
    Assoc(front, [ev], rest);
    Assoc(front, [q[i]], Insert(rest[1..], ev));
  }

  lemma SplitHere(kept: seq<Event>, rest: seq<Event>)
    requires rest != []
    ensures var all, i := kept + rest, |kept|;
            && all[i] == rest[0] && all[..i] == kept && all[i + 1..] == rest[1..]
            && all == kept + [rest[0]] + rest[1..]
  {
  }

  lemma TurnKeeps(s: State, now: Timespec)
    requires Inv(s, now) && FrontDue(s, now)
    ensures Inv(Fire(s), now) && Drain(Fire(s), now) == Drain(s, now)
    ensures EventOk(s, s.pending[0]) && forall tid | tid in s.fingers :: FingerOk(s, tid)
  {
    FireKeeps(s, now);
  }

  lemma OneMoreTouch(s: State, now: Timespec, snapshot: map<int, MtFinger>, order: seq<int>, tid: int)
    requires tid in snapshot && forall t | t in order :: t in snapshot
    ensures TouchAll(s, now, snapshot, order + [tid]) ==
            Touch(TouchAll(s, now, snapshot, order), now, tid, snapshot[tid])
    ensures Felt(s, snapshot, order + [tid]) == Felt(s, snapshot, order) + FeltAt(s, tid, snapshot[tid])
  {
    assert (order + [tid])[..|order|] == order;
  }

  lemma FingersInBounds(s: State, now: Timespec, snapshot: map<int, MtFinger>, touches: seq<int>)
    requires Inv(s, now)
    requires forall i, j | 0 <= i < j < |touches| :: touches[i] != touches[j]
    requires forall tid | tid in touches :: tid in snapshot && tid != OLD_TID && (tid !in s.fingers ==> Fresh(s, tid))
    ensures var r := TouchAll(s, now, snapshot, touches);
            && (forall tid | tid in r.fingers :: FingerOk(r, tid))
            && (forall tid :: tid in r.fingers <==> tid in s.fingers || tid in touches)
  {
    TouchAllKeeps(s, now, snapshot, touches);
  }

  lemma StillKnown(s: State, now: Timespec, snapshot: map<int, MtFinger>, leaves: seq<int>, tid: int)
    requires Inv(s, now) && tid in s.fingers && tid !in leaves
    ensures tid in LeaveAll(s, now, snapshot, leaves).fingers
  {
    LeaveAllKeeps(s, now, snapshot, leaves);
  }

  class FakeKeyboard {
    const layout: seq<Key>
    const sm: MtStateMachine
    var pending: seq<Event>
    var fingers: map<int, FingerData>
    var fnPressed: bool
    var sent: seq<InputEvent>
    var felt: seq<(int, int)>
    var uses: map<int, nat>
    ghost var trace: seq<Stroke>
    ghost var clock: Timespec

    ghost function View(): State
      reads this
    {
      State(layout, pending, fingers, fnPressed, uses, trace)
    }

    ghost function Sys(): System
      reads this, sm, sm.slots
    {
      System(sm.State(), View(), clock)
    }

    ghost predicate Valid()
      reads this, sm, sm.slots
    {
      sm.Valid() && Inv(View(), clock) && Records(sent, trace) && Closed(sent)
    }

    constructor (layout: seq<Key>, ghost clock: Timespec)
      requires LayoutOk(layout) && Normal(clock)
      ensures Valid() && Sys() == Start(layout, clock) && sent == [] && felt == []
      ensures fresh(sm) && fresh(sm.slots)
    {
      this.layout := layout;
      this.sm := new MtStateMachine();
      pending, fingers, fnPressed := [], map[], false;
      sent, felt, uses := [], [], map[];
      this.clock, trace := clock, [];
      new;
      StartIsGood(layout, clock);
    }

    /** The codes enabled when the device is created. The kernel may refuse key events as such, or
        any one code; the first refusal ends the loop. */
    method EnableKeyboardEvents(acceptsKeys: bool, accepted: set<int>) returns (ok: bool, codes: set<int>)
      ensures ok <==> acceptsKeys && forall code | Enabled(layout, code) :: code in accepted
      ensures ok ==> forall code :: code in codes <==> Enabled(layout, code)
      ensures forall code | code in codes :: Enabled(layout, code) && code in accepted
      ensures LayoutOk(layout) ==> forall code | code in codes :: code > 0
    {
      codes := {};
      if !acceptsKeys {
        return false, codes;
      }
      for i := 0 to |layout|
        invariant forall code :: code in codes <==> Enabled(layout[..i], code)
        invariant codes <= accepted
      {
        var key := layout[i];
        assert layout[..i + 1] == layout[..i] + [key] && key in layout;
        assert forall code | Enabled(layout[..i], code) :: Enabled(layout, code);
        if key.code !in accepted {
          assert Enabled(layout, key.code);
          return false, codes;
        }
        codes := codes + {key.code};
        if key.codeFn != 0 {
          if key.codeFn !in accepted {
            assert Enabled(layout, key.codeFn);
            assert Enabled(layout, key.code);
            return false, codes;
          }
          codes := codes + {key.codeFn};
        }
      }
      assert layout[..|layout|] == layout;
      return true, codes;
    }

    method EnqueueEvent(ev: Event)
      modifies this`pending
      ensures View() == Enqueue(old(View()), ev)
    {
      var i := 0;
      while i < |pending|
        invariant 0 <= i <= |pending| && pending == old(pending)
        invariant Insert(pending, ev) == pending[..i] + Insert(pending[i..], ev)
      {
        InsertFrom(pending, i, ev);
        if Later(pending[i].deadline, ev.deadline) {
          pending := pending[..i] + [ev] + pending[i..];
          return;
        }
        i := i + 1;
      }
      assert pending[..i] == pending && pending[i..] == [];
      pending := pending + [ev];
    }

    method EnqueueKeyUpEvent(code: int, now: Timespec, contact: Contact)
      modifies this`pending
      ensures View() == EnqueueKeyUp(old(View()), code, now, contact)
    {
      var deadline := AddMsToTimespec(now, EVENT_DELAY_MS);
      EnqueueEvent(Event(true, code, false, OLD_TID, deadline, contact));
    }

    method GenerateEventForArrivingFinger(now: Timespec, finger: MtFinger, tid: int)
      returns (key: int, code: int)
      modifies this`pending
      ensures View() == ScheduleDown(old(View()), now, tid, finger)
      ensures key == FindKey(layout, finger.x, finger.y)
      ensures code == CodeAt(layout, fnPressed, finger.x, finger.y)
    {
      var i := 0;
      while i < |layout|
        invariant 0 <= i <= |layout| && pending == old(pending)
        invariant FindKey(layout, finger.x, finger.y) == FindKey(layout, finger.x, finger.y, i)
      {
        if layout[i].Contains(finger.x, finger.y) {
          if fnPressed && layout[i].codeFn != 0 {
            code := layout[i].codeFn;
          } else {
            code := layout[i].code;
          }
          var deadline := AddMsToTimespec(now, EVENT_DELAY_MS);
          var nth := if tid in uses then uses[tid] else 0;
          EnqueueEvent(Event(false, code, true, tid, deadline, Contact(tid, nth)));
          return i, code;
        }
        i := i + 1;
      }
      return NO_KEY, 0;
    }

    method RejectFinger(tid: int, reason: RejectionStatus)
      modifies this`pending, this`fingers, this`fnPressed
      ensures View() == Reject(old(View()), tid, reason)
    {
      if tid !in fingers {
        return;
      }
      fingers := fingers[tid := fingers[tid].(status := reason)];
      if fingers[tid].code == KEY_FN {
        fnPressed := false;
      }
      EraseEvents(tid);
    }

    // Deletes the pending events of a tracking id, one list node at a time.
    method EraseEvents(tid: int)
      modifies this`pending
      ensures pending == Erase(old(pending), tid)
    {
      var i := 0;
      ghost var kept, rest := [], pending;
      while i < |pending|
        invariant pending == kept + rest && i == |kept|
        invariant kept + Erase(rest, tid) == Erase(old(pending), tid)
        decreases |rest|
      {
        SplitHere(kept, rest);
        if pending[i].tid == tid {
          pending := pending[..i] + pending[i + 1..];
        } else {
          kept, i := kept + [rest[0]], i + 1;
        }
        rest := rest[1..];
      }
    }

    method HandleLeavingFinger(tid: int, finger: FingerData, now: Timespec)
      modifies this`pending, this`fnPressed
      ensures View() == HandleLeaving(old(View()), tid, finger, now)
    {
      if finger.status != NotRejectedYet {
        return;
      }
      var upGuaranteed := false;
      if !finger.downSent {
        var i := 0;
        while i < |pending|
          invariant 0 <= i <= |pending| && pending == old(pending) && !upGuaranteed
          invariant FirstOf(pending, tid) == i + FirstOf(pending[i..], tid)
        {
          if pending[i].tid == tid {
            pending := pending[i := pending[i].(guaranteed := true)];
            upGuaranteed := !pending[i].down;
            break;
          }
          assert pending[i..][1..] == pending[i + 1..];
          i := i + 1;
        }
      }
      if !upGuaranteed {
        EnqueueKeyUpEvent(finger.code, now, finger.contact);
        if finger.code == KEY_FN {
          fnPressed := false;
        }
      }
    }

    predicate StillOnFirstKey(finger: MtFinger, data: FingerData)
      requires data.startingKey == NO_KEY || 0 <= data.startingKey < |layout|
    {
      data.startingKey != NO_KEY && layout[data.startingKey].Contains(finger.x, finger.y)
    }

    // The first loop's body: one contact of the snapshot.
    method ProcessTouch(now: Timespec, tid: int, finger: MtFinger)
      requires forall t | t in fingers :: FingerOk(View(), t)
      modifies this`pending, this`fingers, this`fnPressed, this`uses, this`felt
      ensures View() == Touch(old(View()), now, tid, finger)
      ensures felt == old(felt) + FeltAt(old(View()), tid, finger)
    {
      if tid !in fingers {
        var key, code := GenerateEventForArrivingFinger(now, finger, tid);
        var nth := if tid in uses then uses[tid] else 0;
        var data := FingerData(now, finger.p, finger.touchMajor, key, code, false, NotRejectedYet,
                               Contact(tid, nth));
        if code == KEY_FN {
          fnPressed := true;
        }
        if key == NO_KEY {
          data := data.(status := TouchdownOffKey);
        } else {
          felt := felt + [(finger.x, finger.y)];
        }
        fingers := fingers[tid := data];
        uses := uses[tid := nth + 1];
      } else if fingers[tid].status == NotRejectedYet {
        assert FingerOk(View(), tid);
        UpdateFinger(now, tid, finger);
      }
    }

    // The branch for a contact seen before.
    method UpdateFinger(now: Timespec, tid: int, finger: MtFinger)
      requires tid in fingers
      requires fingers[tid].startingKey == NO_KEY || 0 <= fingers[tid].startingKey < |layout|
      modifies this`pending, this`fingers, this`fnPressed
      ensures View() == Update(old(View()), now, tid, finger)
    {
      fingers := fingers[tid := fingers[tid].(maxPressure := Max(fingers[tid].maxPressure, finger.p))];
      fingers := fingers[tid := fingers[tid].(maxTouchMajor := Max(fingers[tid].maxTouchMajor, finger.touchMajor))];
      assert fingers == old(fingers)[tid := Measure(old(fingers)[tid], finger)];
      if !StillOnFirstKey(finger, fingers[tid]) {
        RejectFinger(tid, MovedOffKey);
        if fingers[tid].downSent {
          EnqueueKeyUpEvent(fingers[tid].code, now, fingers[tid].contact);
          if fingers[tid].code == KEY_FN {
            fnPressed := false;
          }
        }
      }
    }

    // One turn of the loop, when the contacts walked so far have been processed.
    method TouchNext(now: Timespec, tid: int, snapshot: map<int, MtFinger>, ghost s0: State,
                     ghost felt0: seq<(int, int)>, ghost touches: seq<int>)
      requires Inv(s0, now) && s0.layout == layout && tid in snapshot && tid !in touches && tid != OLD_TID
      requires forall t | t in touches :: t in snapshot && t != OLD_TID && (t !in s0.fingers ==> Fresh(s0, t))
      requires forall i, j | 0 <= i < j < |touches| :: touches[i] != touches[j]
      requires View() == TouchAll(s0, now, snapshot, touches) && felt == felt0 + Felt(s0, snapshot, touches)
      modifies this`pending, this`fingers, this`fnPressed, this`uses, this`felt
      ensures forall t | t in touches + [tid] :: t in snapshot
      ensures View() == TouchAll(s0, now, snapshot, touches + [tid])
      ensures felt == felt0 + Felt(s0, snapshot, touches + [tid])
    {
      FingersInBounds(s0, now, snapshot, touches);
      OneMoreTouch(s0, now, snapshot, touches, tid);
      ProcessTouch(now, tid, snapshot[tid]);
    }

    // The first loop of ProcessIncomingSnapshot, over the contacts of the snapshot.
    method TouchFingers(now: Timespec, snapshot: map<int, MtFinger>) returns (ghost touches: seq<int>)
      requires Inv(View(), now)
      requires forall tid | tid in snapshot :: tid != OLD_TID && (tid !in fingers ==> Fresh(View(), tid))
      modifies this`pending, this`fingers, this`fnPressed, this`uses, this`felt
      ensures Lists(touches, snapshot.Keys)
      ensures View() == TouchAll(old(View()), now, snapshot, touches)
      ensures felt == old(felt) + Felt(old(View()), snapshot, touches)
    {
      ghost var s0, felt0 := View(), felt;
      touches := [];
      var todo := snapshot.Keys;
      while todo != {}
        invariant todo <= snapshot.Keys && Lists(touches, snapshot.Keys - todo)
        invariant View() == TouchAll(s0, now, snapshot, touches)
        invariant felt == felt0 + Felt(s0, snapshot, touches)
        decreases |todo|
      {
        var tid := Pick(todo);
        TouchNext(now, tid, snapshot, s0, felt0, touches);
        ListsNext(touches, snapshot.Keys, todo, tid);
        touches, todo := touches + [tid], todo - {tid};
      }
      assert snapshot.Keys - {} == snapshot.Keys;
    }

    // The second loop, over the fingers known, for those the snapshot no longer reports.
    method LeaveFingers(now: Timespec, snapshot: map<int, MtFinger>) returns (ghost leaves: seq<int>)
      requires Inv(View(), now)
      modifies this`pending, this`fingers, this`fnPressed
      ensures Lists(leaves, old(fingers).Keys)
      ensures View() == LeaveAll(old(View()), now, snapshot, leaves)
    {
      ghost var s, s0 := View(), View();
      leaves := [];
      var todo := fingers.Keys;
      while todo != {}
        invariant todo <= s0.fingers.Keys && Lists(leaves, s0.fingers.Keys - todo)
        invariant View() == s == LeaveAll(s0, now, snapshot, leaves)
        decreases |todo|
      {
        var tid := Pick(todo);
        StillKnown(s0, now, snapshot, leaves, tid);
        if tid != OLD_TID && tid !in snapshot {
          HandleLeavingFinger(tid, fingers[tid], now);
          fingers := fingers - {tid};
        }
        s := LeaveIfMissing(s, now, snapshot, tid);
        ListsNext(leaves, s0.fingers.Keys, todo, tid);
        assert (leaves + [tid])[..|leaves|] == leaves;
        leaves, todo := leaves + [tid], todo - {tid};
      }
      assert s0.fingers.Keys - {} == s0.fingers.Keys;
    }

    method ProcessIncomingSnapshot(now: Timespec, snapshot: map<int, MtFinger>)
      returns (ghost touches: seq<int>, ghost leaves: seq<int>)
      requires Inv(View(), now)
      requires forall tid | tid in snapshot :: tid != OLD_TID && (tid !in fingers ==> Fresh(View(), tid))
      modifies this`pending, this`fingers, this`fnPressed, this`uses, this`felt
      ensures AdmissibleFrame(old(View()), now, snapshot, touches, leaves)
      ensures View() == Snap(old(View()), now, snapshot, touches, leaves)
      ensures felt == old(felt) + Felt(old(View()), snapshot, touches)
    {
      ghost var s0 := View();
      touches := TouchFingers(now, snapshot);
      TouchAllKeeps(s0, now, snapshot, touches);
      leaves := LeaveFingers(now, snapshot);
    }

    // The check that Consume makes before it fires the event of a finger still on the surface.
    method FingerPasses(data: FingerData) returns (passes: bool, reason: RejectionStatus)
      requires 0 <= data.startingKey < |layout|
      ensures passes <==> InRange(layout, data)
      ensures reason == RangeStatus(data)
    {
      if data.maxPressure != -1 {
        passes := !(data.maxPressure < MIN_TAP_PRESSURE ||
                    (layout[data.startingKey].code != KEY_SPACE && data.maxPressure > MAX_TAP_PRESSURE));
        reason := Pressure;
      } else {
        passes := !(data.maxTouchMajor < MIN_TAP_TOUCH_DIAMETER ||
                    (layout[data.startingKey].code != KEY_SPACE && data.maxTouchMajor > MAX_TAP_TOUCH_DIAMETER));
        reason := TouchDiameter;
      }
    }

    // One turn of the firing loop. An event whose finger nobody knows is always guaranteed, so
    // the error the program would log for it never happens.
    method FireFront() returns (fired: bool)
      requires pending != [] && EventOk(View(), pending[0])
      requires forall tid | tid in fingers :: FingerOk(View(), tid)
      modifies this`pending, this`fingers, this`fnPressed, this`sent, this`trace
      ensures View() == Fire(old(View()))
      ensures if fired then trace == old(trace) + [old(pending)[0].AsStroke()] else trace == old(trace)
      ensures sent == old(sent) + if fired then KeyEvents([old(pending)[0].AsStroke()]) else []
    {
      ghost var s0 := View();
      var next := pending[0];
      pending := pending[1..];
      if next.tid in fingers {
        assert FingerOk(s0, next.tid);
        var passes, reason := FingerPasses(fingers[next.tid]);
        if !passes {
          RejectFinger(next.tid, reason);
          return false;
        }
      } else {
        assert next.guaranteed;
      }
      sent := sent + [InputEvent(EV_KEY, next.code, if next.down then 1 else 0)];
      trace := trace + [next.AsStroke()];
      if next.down && next.tid in fingers {
        fingers := fingers[next.tid := fingers[next.tid].(downSent := true)];
      }
      return true;
    }

    // What has been written since the firing loop began.
    ghost predicate Logged(fired: seq<Stroke>, trace0: seq<Stroke>, sent0: seq<InputEvent>)
      reads this
    {
      trace == trace0 + fired && sent == sent0 + KeyEvents(fired)
    }

    method FireTurn(ghost s: State, ghost fired: seq<Stroke>, ghost trace0: seq<Stroke>, ghost sent0: seq<InputEvent>)
      returns (sentOne: bool, ghost fired': seq<Stroke>)
      requires View() == s && Logged(fired, trace0, sent0)
      requires pending != [] && EventOk(s, pending[0]) && forall tid | tid in fingers :: FingerOk(s, tid)
      modifies this`pending, this`fingers, this`fnPressed, this`sent, this`trace
      ensures View() == Fire(s) && Logged(fired', trace0, sent0)
      ensures sentOne <==> fired' != fired
      ensures fired <= fired'
    {
      sentOne := FireFront();
      fired' := fired;
      if sentOne {
        KeyEventsSnoc(fired, s.pending[0].AsStroke());
        fired' := fired + [s.pending[0].AsStroke()];
      }
    }

    // The firing loop of Consume.
    method FireDueEvents(now: Timespec) returns (needsSyn: bool, ghost fired: seq<Stroke>)
      requires Inv(View(), now)
      modifies this`pending, this`fingers, this`fnPressed, this`sent, this`trace
      ensures View() == Drain(old(View()), now)
      ensures trace == old(trace) + fired && sent == old(sent) + KeyEvents(fired)
      ensures needsSyn <==> fired != []
    {
      ghost var s, target := View(), Drain(View(), now);
      needsSyn, fired := false, [];
      assert trace + [] == trace && sent + [] == sent;
      while pending != []
        invariant View() == s && Inv(s, now) && Drain(s, now) == target
        invariant Logged(fired, old(trace), old(sent))
        invariant needsSyn <==> fired != []
        decreases |pending|
      {
        if Later(pending[0].deadline, now) {
          break;
        }
        TurnKeeps(s, now);
        var sentOne;
        sentOne, fired := FireTurn(s, fired, old(trace), old(sent));
        needsSyn := needsSyn || sentOne;
        s := Fire(s);
      }
    }

    // How long Consume waits: -1, without limit, when nothing is pending.
    method ComputeTimeout(now: Timespec) returns (timeout: int)
      ensures timeout == if pending == [] then -1 else WaitMs(pending[0].deadline, now)
    {
      timeout := -1;
      if pending != [] {
        var deadline := pending[0].deadline;
        timeout := (deadline.sec - now.sec) * 1000 + TruncDiv(deadline.nsec - now.nsec, NS_PER_MS);
        timeout := timeout + 1;
        if timeout < 0 {
          timeout := 1;
        }
      }
    }

    // The part of a pass that follows a snapshot or a timeout.
    method Handle(now: Timespec, snapshot: Option<map<int, MtFinger>>)
      returns (ghost touches: seq<int>, ghost leaves: seq<int>, ghost fired: seq<Stroke>)
      requires Inv(View(), now)
      requires snapshot.Some? ==> forall tid | tid in snapshot.value ::
                 tid != OLD_TID && (tid !in fingers ==> Fresh(View(), tid))
      modifies this`pending, this`fingers, this`fnPressed, this`uses, this`felt, this`sent, this`trace
      ensures snapshot.Some? ==> AdmissibleFrame(old(View()), now, snapshot.value, touches, leaves)
      ensures View() == Iterate(old(View()), now,
                if snapshot.Some? then Frame(snapshot.value, touches, leaves) else Timeout)
      ensures felt == old(felt) + if snapshot.Some? then Felt(old(View()), snapshot.value, touches) else []
      ensures trace == old(trace) + fired && sent == old(sent) + Report(fired)
    {
      touches, leaves := [], [];
      if snapshot.Some? {
        ghost var s0 := View();
        touches, leaves := ProcessIncomingSnapshot(now, snapshot.value);
        assert Inv(View(), now) by { SnapKeeps(s0, now, snapshot.value, touches, leaves); }
      }
      var needsSyn;
      needsSyn, fired := FireDueEvents(now);
      if needsSyn {
        sent := sent + [InputEvent(EV_SYN, SYN_REPORT, 0)];
      }
    }

    // What Handle leaves behind, with its whole output.
    method Respond(now: Timespec, snapshot: Option<map<int, MtFinger>>)
      returns (ghost touches: seq<int>, ghost leaves: seq<int>, ghost fired: seq<Stroke>)
      requires Inv(View(), now) && Records(sent, trace) && Closed(sent)
      requires snapshot.Some? ==> forall tid | tid in snapshot.value ::
                 tid != OLD_TID && (tid !in fingers ==> Fresh(View(), tid))
      modifies this`pending, this`fingers, this`fnPressed, this`uses, this`felt, this`sent, this`trace
      ensures Inv(View(), now) && Records(sent, trace) && Closed(sent)
      ensures snapshot.Some? ==> AdmissibleFrame(old(View()), now, snapshot.value, touches, leaves)
      ensures View() == Iterate(old(View()), now,
                if snapshot.Some? then Frame(snapshot.value, touches, leaves) else Timeout)
      ensures felt == old(felt) + if snapshot.Some? then Felt(old(View()), snapshot.value, touches) else []
      ensures trace == old(trace) + fired && Writes(old(sent), fired, sent)
    {
      ghost var s, sent0, trace0 := View(), sent, trace;
      touches, leaves, fired := Handle(now, snapshot);
      OutputGrows(sent0, trace0, fired);
      IterateKeeps(s, now, now, if snapshot.Some? then Frame(snapshot.value, touches, leaves) else Timeout);
    }

    // What GetNextEvent read goes into the decoder: a timeout or a completed frame is handled.
    method Read(event: Option<InputEvent>) returns (handle: bool, snapshot: Option<map<int, MtFinger>>)
      requires sm.Valid()
      modifies sm, sm.slots
      ensures sm.Valid()
      ensures sm.State() == if event.None? then old(sm.State()) else Step(old(sm.State()), event.value)
      ensures handle <==> event.None? || Completes(old(sm.State()), event.value)
      ensures handle ==> snapshot == if event.None? then None else Some(Snapshot(old(sm.State()).slots, NUM_SLOTS))
    {
      if event.None? {
        return true, None;
      }
      var complete, frame := sm.AddEvent(event.value, true, map[]);
      return complete, Some(frame);
    }

    /** One pass of Consume. `event` is what GetNextEvent read, or None when select timed out;
        `timeout` is what it was called with. */
    method ConsumeOnce(before: Timespec, event: Option<InputEvent>, after: Timespec)
      returns (timeout: int, ghost touches: seq<int>, ghost leaves: seq<int>, ghost fired: seq<Stroke>)
      requires Valid()
      requires Normal(before) && Normal(after) && Ns(clock) <= Ns(before) <= Ns(after)
      requires event.Some? && Completes(sm.State(), event.value) ==>
                 forall tid | tid in Snapshot(sm.State().slots, NUM_SLOTS) ::
                   tid != OLD_TID && (tid !in fingers ==> Fresh(View(), tid))
      modifies this, sm, sm.slots
      ensures Valid()
      ensures AdmissibleTurn(old(Sys()), Turn(before, event, after, touches, leaves))
      ensures Sys() == Pass(old(Sys()), Turn(before, event, after, touches, leaves))
      ensures var input := InputOf(old(sm.State()), Turn(before, event, after, touches, leaves));
              felt == old(felt) + if input.Frame? then Felt(old(View()), input.snapshot, touches) else []
      ensures timeout == if old(pending) == [] then -1 else WaitMs(old(pending)[0].deadline, before)
      ensures trace == old(trace) + fired && Writes(old(sent), fired, sent)
    {
      touches, leaves, fired := [], [], [];
      ghost var sys := Sys();
      assert Inv(sys.keyboard, after) by { InvLater(sys.keyboard, clock, after); }
      timeout := ComputeTimeout(before);
      clock := after;
      var handle, snapshot := Read(event);
      if !handle {
        assert trace + [] == trace;
        return;
      }
      touches, leaves, fired := Respond(after, snapshot);
    }
  }
}
