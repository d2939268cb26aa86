/** Whole runs of the keyboard: the loop of Consume over raw input events and timeouts, with
    the decoder in front of the key scheduler. */
module KeyboardRuns {
  import opened Wrappers
  import opened HashTables
  import opened InputEvents
  import opened Timespecs
  import opened StateMachine
  import opened KeyboardModel
  import opened KeyboardInvariant
  import opened KeyboardSteps

  // ---- what the environment must respect ----

  // The orders are walks of the two hash tables; a contact never uses the id reserved for Up
  // events, and a new contact never reuses the id of an event that is still pending.
  ghost predicate AdmissibleFrame(s: State, now: Timespec, snapshot: map<int, MtFinger>,
                                  touches: seq<int>, leaves: seq<int>)
  {
    && Lists(touches, snapshot.Keys)
    && (forall tid | tid in snapshot :: tid != OLD_TID && (tid !in s.fingers ==> Fresh(s, tid)))
    && Lists(leaves, TouchAll(s, now, snapshot, touches).fingers.Keys)
  }

  ghost predicate Admissible(s: State, now: Timespec, input: Input) {
    input.Frame? ==> AdmissibleFrame(s, now, input.snapshot, input.touches, input.leaves)
  }

  // ---- one snapshot ----

  lemma {:induction false} InsertMembers(q: seq<Event>, ev: Event, e: Event)
    ensures e in Insert(q, ev) <==> e in q || e == ev
  {
    if q != [] && !Later(q[0].deadline, ev.deadline) {
      InsertMembers(q[1..], ev, e);
      assert q == [q[0]] + q[1..];
    }
  }

  lemma TouchMembers(s: State, now: Timespec, tid: int, f: MtFinger)
    ensures Touch(s, now, tid, f).fingers.Keys == s.fingers.Keys + {tid}
    ensures forall e | e in Touch(s, now, tid, f).pending :: e in s.pending || e.tid == OLD_TID || e.tid == tid
  {
    forall e | e in Touch(s, now, tid, f).pending
      ensures e in s.pending || e.tid == OLD_TID || e.tid == tid
    {
      if tid !in s.fingers {
        InsertMembers(s.pending, DownEvent(NewFinger(s, now, tid, f)), e);
      } else if s.fingers[tid].status == NotRejectedYet {
        UpdateMembers(s, now, tid, f, e);
      }
    }
  }

  lemma UpdateMembers(s: State, now: Timespec, tid: int, f: MtFinger, e: Event)
    requires tid in s.fingers && e in Update(s, now, tid, f).pending
    ensures e in s.pending || e.tid == OLD_TID
  {
    var d := s.fingers[tid];
    EraseMembers(s.pending, tid);
    InsertMembers(Erase(s.pending, tid), UpEvent(d.code, now, d.contact), e);
  }

  lemma {:induction false} TouchAllKeeps(s: State, now: Timespec, snapshot: map<int, MtFinger>, order: seq<int>)
    requires Inv(s, now)
    requires forall i, j | 0 <= i < j < |order| :: order[i] != order[j]
    requires forall tid | tid in order :: tid in snapshot && tid != OLD_TID && (tid !in s.fingers ==> Fresh(s, tid))
    ensures var r := TouchAll(s, now, snapshot, order);
            && Inv(r, now) && Evolves(s, r)
            && (forall tid :: tid in r.fingers <==> tid in s.fingers || tid in order)
            && (forall e | e in r.pending :: e in s.pending || e.tid == OLD_TID || e.tid in order)
  {
    if order != [] {
      var n := |order| - 1;
      var tid := order[n];
      assert order == order[..n] + [tid];
      assert tid in order && forall t | t in order[..n] :: t in order;
      TouchAllKeeps(s, now, snapshot, order[..n]);
      var m := TouchAll(s, now, snapshot, order[..n]);
      TouchMembers(m, now, tid, snapshot[tid]);
      TouchKeeps(m, now, tid, snapshot[tid]);
      EvolvesTransitive(s, m, Touch(m, now, tid, snapshot[tid]));
    }
  }

  lemma {:induction false} LeaveAllKeeps(s: State, now: Timespec, snapshot: map<int, MtFinger>, order: seq<int>)
    requires Inv(s, now)
    ensures var r := LeaveAll(s, now, snapshot, order);
            && Inv(r, now) && Evolves(s, r)
            && (forall tid :: tid in r.fingers <==> tid in s.fingers && (tid !in order || tid in snapshot))
  {
    if order != [] {
      var n := |order| - 1;
      var tid := order[n];
      LeaveAllKeeps(s, now, snapshot, order[..n]);
      ThenLeaveKeeps(s, LeaveAll(s, now, snapshot, order[..n]), now, snapshot, tid);
      assert order == order[..n] + [tid];
    }
  }

  lemma ThenLeaveKeeps(s: State, m: State, now: Timespec, snapshot: map<int, MtFinger>, tid: int)
    requires Inv(m, now) && Evolves(s, m)
    ensures var r := LeaveIfMissing(m, now, snapshot, tid);
            && Inv(r, now) && Evolves(s, r)
            && r.fingers.Keys == if tid in snapshot then m.fingers.Keys else m.fingers.Keys - {tid}
  {
    if tid in m.fingers && tid !in snapshot {
      assert tid != OLD_TID by { assert FingerOk(m, tid); }
      LeaveKeeps(m, now, tid);
      EvolvesTransitive(s, m, Leave(m, now, tid));
    }
  }

  /** A whole snapshot keeps the invariant, and afterwards the fingers known are exactly those
      the snapshot reports. */
  lemma SnapKeeps(s: State, now: Timespec, snapshot: map<int, MtFinger>, touches: seq<int>, leaves: seq<int>)
    requires Inv(s, now) && AdmissibleFrame(s, now, snapshot, touches, leaves)
    ensures var r := Snap(s, now, snapshot, touches, leaves);
            Inv(r, now) && Evolves(s, r) && r.fingers.Keys == snapshot.Keys
  {
    var m := TouchAll(s, now, snapshot, touches);
    TouchAllKeeps(s, now, snapshot, touches);
    LeaveAllKeeps(m, now, snapshot, leaves);
    var r := LeaveAll(m, now, snapshot, leaves);
    EvolvesTransitive(s, m, r);
    forall tid ensures tid in r.fingers <==> tid in snapshot {
      assert tid in touches <==> tid in snapshot.Keys;
      assert tid in leaves <==> tid in m.fingers.Keys;
    }
  }

  lemma InvLater(s: State, t1: Timespec, t2: Timespec)
    requires Inv(s, t1) && Normal(t2) && Ns(t1) <= Ns(t2)
    ensures Inv(s, t2)
  {
  }

  lemma IterateKeeps(s: State, clock: Timespec, now: Timespec, input: Input)
    requires Inv(s, clock) && Normal(now) && Ns(clock) <= Ns(now)
    requires Admissible(s, now, input)
    ensures Inv(Iterate(s, now, input), now)
    ensures Evolves(s, Iterate(s, now, input))
  {
    assert Inv(s, now);
    match input
    case Partial =>
    case Timeout => DrainKeeps(s, now);
    case Frame(snapshot, touches, leaves) =>
      SnapKeeps(s, now, snapshot, touches, leaves);
      var m := Snap(s, now, snapshot, touches, leaves);
      DrainKeeps(m, now);
      EvolvesTransitive(s, m, Drain(m, now));
  }

  // ---- runs over raw events ----

  datatype System = System(decoder: Decoder, keyboard: State, clock: Timespec)

  // One pass of Consume: the two clock readings, the raw event unless select timed out, and
  // the orders in which the hash tables are walked if the event completes a snapshot.
  datatype Turn = Turn(before: Timespec, event: Option<InputEvent>, after: Timespec,
                       touches: seq<int>, leaves: seq<int>)

  function InputOf(decoder: Decoder, turn: Turn): Input
    requires decoder.Valid()
  {
    match turn.event
    case None => Timeout
    case Some(ev) =>
      if Completes(decoder, ev) then Frame(Snapshot(decoder.slots, NUM_SLOTS), turn.touches, turn.leaves)
      else Partial
  }

  ghost predicate AdmissibleTurn(sys: System, turn: Turn) {
    && sys.decoder.Valid()
    && Normal(turn.before) && Normal(turn.after)
    && Ns(sys.clock) <= Ns(turn.before) <= Ns(turn.after)
    && Admissible(sys.keyboard, turn.after, InputOf(sys.decoder, turn))
  }

  ghost function Pass(sys: System, turn: Turn): System
    requires AdmissibleTurn(sys, turn)
  {
    System(if turn.event.None? then sys.decoder else Step(sys.decoder, turn.event.value),
           Iterate(sys.keyboard, turn.after, InputOf(sys.decoder, turn)),
           turn.after)
  }

  ghost predicate Follows(states: seq<System>, turns: seq<Turn>, i: nat)
    requires |states| == |turns| + 1 && i < |turns|
  {
    AdmissibleTurn(states[i], turns[i]) && states[i + 1] == Pass(states[i], turns[i])
  }

  // The states of a run are linked by passes.
  ghost predicate IsRun(states: seq<System>, turns: seq<Turn>) {
    && |states| == |turns| + 1
    && forall i | 0 <= i < |turns| :: Follows(states, turns, i)
  }

  ghost predicate Good(sys: System) {
    sys.decoder.Valid() && Inv(sys.keyboard, sys.clock)
  }

  function Start(layout: seq<Key>, clock: Timespec): System {
    System(INITIAL, State(layout, [], map[], false, map[], []), clock)
  }

  lemma StartIsGood(layout: seq<Key>, clock: Timespec)
    requires LayoutOk(layout) && Normal(clock)
    ensures Good(Start(layout, clock))
  {
    var s := Start(layout, clock).keyboard;
    forall k ensures HistoryOk(s, k) {
      assert Sent(s, k) == [] && Pend(s, k) == [];
    }
  }

  /** The invariant holds in every state of every run, and from any state of a run to any later
      one the record of sent keys only grows and finished contacts keep their history. */
  lemma {:induction false} RunsKeepInvariant(states: seq<System>, turns: seq<Turn>, i: nat, j: nat)
    requires IsRun(states, turns) && Good(states[0]) && i <= j < |states|
    ensures Good(states[j])
    ensures Evolves(states[i].keyboard, states[j].keyboard)
    decreases j, i
  {
    if j > 0 {
      if i == j {
        RunsKeepInvariant(states, turns, 0, j);
      } else {
        RunsKeepInvariant(states, turns, i, j - 1);
        var sys, turn := states[j - 1], turns[j - 1];
        assert Follows(states, turns, j - 1);
        IterateKeeps(sys.keyboard, sys.clock, turn.after, InputOf(sys.decoder, turn));
        EvolvesTransitive(states[i].keyboard, sys.keyboard, states[j].keyboard);
      }
    }
  }
}
