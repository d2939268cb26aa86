/** Timing over whole runs: every press is sent to the device shifted by the event delay, with
    the length the contact had. */
module KeyboardTiming {
  import opened Timespecs
  import opened StateMachine
  import opened KeyboardModel
  import opened KeyboardInvariant
  import opened KeyboardSteps
  import opened KeyboardRuns
  import opened KeyboardDrain
  import opened KeyboardTheorems

  // Nothing, or a whole press of a key whose Down and Up are due the event delay after two instants.
  ghost predicate PressFrom(h: seq<Stroke>, code: int, from: Timespec, to: Timespec) {
    h == [] ||
    (&& |h| == 2 && Whole(h) && h[0].code == code
     && h[0].due == AddMs(from, EVENT_DELAY_MS) && h[1].due == AddMs(to, EVENT_DELAY_MS))
  }

  ghost function KeyHeld(s: State, k: Contact): int
    requires Holds(s, k)
  {
    s.fingers[k.tid].code
  }

  ghost function Since(s: State, k: Contact): Timespec
    requires Holds(s, k)
  {
    s.fingers[k.tid].arrival
  }

  // A contact held after a step has held the same key since the same time before it, or arrived in
  // it; one that ended in it has the press of its key from its arrival to now.
  ghost predicate TimelyFor(s: State, s': State, now: Timespec, k: Contact) {
    && (Holds(s', k) ==>
          if Used(s, k) then Holds(s, k) && Since(s', k) == Since(s, k) && KeyHeld(s', k) == KeyHeld(s, k)
          else Since(s', k) == now)
    && (Holds(s, k) && !Holds(s', k) ==> PressFrom(History(s', k), KeyHeld(s, k), Since(s, k), now))
    && (!Used(s, k) && Used(s', k) && !Holds(s', k) ==>
          exists code :: PressFrom(History(s', k), code, now, now))
  }

  ghost predicate Timely(s: State, s': State, now: Timespec) {
    forall k :: TimelyFor(s, s', now, k)
  }

  ghost predicate HeldAreUsed(s: State) {
    forall k | Holds(s, k) :: Used(s, k)
  }

  lemma InvHeldAreUsed(s: State, now: Timespec)
    requires Inv(s, now)
    ensures HeldAreUsed(s)
  {
    forall k | Holds(s, k) ensures Used(s, k) {
      assert FingerOk(s, k.tid);
    }
  }

  lemma TimelyTransitive(a: State, b: State, c: State, now: Timespec)
    requires Timely(a, b, now) && Timely(b, c, now) && Evolves(a, b) && Evolves(b, c)
    requires HeldAreUsed(a) && HeldAreUsed(b)
    ensures Timely(a, c, now)
  {
    forall k ensures TimelyFor(a, c, now, k) {
      assert TimelyFor(a, b, now, k) && TimelyFor(b, c, now, k);
      assert Uses(a, k.tid) <= Uses(b, k.tid);
    }
  }

  lemma Unchanged(s: State, now: Timespec)
    requires Inv(s, now)
    ensures Timely(s, s, now) && Evolves(s, s)
  {
    InvHeldAreUsed(s, now);
  }

  // ---- the steps ----

  lemma ArriveTimely(s: State, now: Timespec, tid: int, f: MtFinger)
    requires Inv(s, now) && Fresh(s, tid)
    ensures Timely(s, Arrive(s, now, tid, f), now)
  {
    var d := NewFinger(s, now, tid, f);
    var s' := Arrived(s, d);
    ArriveAppends(s, now, tid, f);
    InvHeldAreUsed(s, now);
    forall k ensures TimelyFor(s, s', now, k) {
      assert HistoryOk(s, k);
      if k == d.contact && d.startingKey == NO_KEY {
        assert s'.pending == s.pending;
        assert PressFrom(History(s', k), 0, now, now);
      }
    }
  }

  lemma MeasureTimely(s: State, now: Timespec, tid: int, f: MtFinger)
    requires Inv(s, now) && Live(s, tid)
    ensures Timely(s, s.(fingers := s.fingers[tid := Measure(s.fingers[tid], f)]), now)
  {
    InvHeldAreUsed(s, now);
  }

  lemma RevokeTimely(s: State, now: Timespec, tid: int, reason: RejectionStatus)
    requires Inv(s, now) && Live(s, tid) && !s.fingers[tid].downSent && reason != NotRejectedYet
    ensures Timely(s, Reject(s, tid, reason), now)
  {
    var s' := Reject(s, tid, reason);
    var c := s.fingers[tid].contact;
    InvHeldAreUsed(s, now);
    assert FingerOk(s, tid) && HistoryOk(s, c);
    forall e | e in s.pending ensures e.tid == tid <==> e.contact == c {
      PendingOfLive(s, tid, e);
    }
    EraseOf(s.pending, c, tid, c);
    assert History(s', c) == [];
  }

  lemma EndTimely(s: State, now: Timespec, tid: int, left: bool)
    requires Inv(s, now) && Live(s, tid) && (left || s.fingers[tid].downSent)
    ensures Timely(s, Ended(s, now, tid, left), now)
  {
    var s' := Ended(s, now, tid, left);
    var c := s.fingers[tid].contact;
    InvHeldAreUsed(s, now);
    EndedHistory(s, now, tid, left);
    assert FingerOk(s, tid);
    assert PressFrom(History(s', c), s.fingers[tid].code, s.fingers[tid].arrival, now);
  }

  lemma UpdateTimely(s: State, now: Timespec, tid: int, f: MtFinger)
    requires Inv(s, now) && Live(s, tid)
    ensures Timely(s, Update(s, now, tid, f), now)
  {
    var d := Measure(s.fingers[tid], f);
    var s1 := s.(fingers := s.fingers[tid := d]);
    MeasureKeeps(s, now, tid, f);
    MeasureTimely(s, now, tid, f);
    if !StillOnFirstKey(s.layout, f, d) {
      InvHeldAreUsed(s, now);
      InvHeldAreUsed(s1, now);
      if d.downSent {
        SlideOffAfterDown(s1, now, tid);
        EndKeeps(s1, now, tid, false);
        EndTimely(s1, now, tid, false);
      } else {
        RevokeKeeps(s1, now, tid, MovedOffKey);
        RevokeTimely(s1, now, tid, MovedOffKey);
      }
      TimelyTransitive(s, s1, Update(s, now, tid, f), now);
    }
  }

  lemma TouchTimely(s: State, now: Timespec, tid: int, f: MtFinger)
    requires Inv(s, now) && (tid !in s.fingers ==> Fresh(s, tid))
    ensures Timely(s, Touch(s, now, tid, f), now)
  {
    if tid !in s.fingers {
      ArriveTimely(s, now, tid, f);
    } else if Live(s, tid) {
      UpdateTimely(s, now, tid, f);
    } else {
      Unchanged(s, now);
    }
  }

  lemma LeaveTimely(s: State, now: Timespec, tid: int)
    requires Inv(s, now) && tid in s.fingers
    ensures Timely(s, Leave(s, now, tid), now)
  {
    if Live(s, tid) {
      LeaveEnds(s, now, tid);
      EndTimely(s, now, tid, true);
    } else {
      InvHeldAreUsed(s, now);
    }
  }

  lemma FireTimely(s: State, now: Timespec)
    requires Inv(s, now) && s.pending != []
    ensures Timely(s, Fire(s), now)
  {
    var e := s.pending[0];
    if e.tid in s.fingers && !InRange(s.layout, s.fingers[e.tid]) {
      assert EventOk(s, e);
      RevokeTimely(s, now, e.tid, RangeStatus(s.fingers[e.tid]));
    } else {
      InvHeldAreUsed(s, now);
      SendTimely(s, now);
    }
  }

  lemma SendTimely(s: State, now: Timespec)
    requires HeldAreUsed(s) && FrontPasses(s)
    ensures Timely(s, Fire(s), now)
  {
  }

  // ---- snapshots and passes ----

  lemma ThenTouchTimely(s: State, m: State, now: Timespec, tid: int, f: MtFinger)
    requires Inv(s, now) && Inv(m, now) && Evolves(s, m) && Timely(s, m, now)
    requires tid !in m.fingers ==> Fresh(m, tid)
    ensures Timely(s, Touch(m, now, tid, f), now)
  {
    TouchTimely(m, now, tid, f);
    InvHeldAreUsed(s, now);
    InvHeldAreUsed(m, now);
    assert Evolves(m, Touch(m, now, tid, f)) by { TouchKeeps(m, now, tid, f); }
    TimelyTransitive(s, m, Touch(m, now, tid, f), now);
  }

  // A contact not yet reached by the walk is as new as it was.
  lemma StillFresh(s: State, now: Timespec, snapshot: map<int, MtFinger>, head: seq<int>, tid: int)
    requires Inv(s, now) && tid !in head && tid != OLD_TID && (tid !in s.fingers ==> Fresh(s, tid))
    requires forall i, j | 0 <= i < j < |head| :: head[i] != head[j]
    requires forall t | t in head :: t in snapshot && t != OLD_TID && (t !in s.fingers ==> Fresh(s, t))
    ensures var m := TouchAll(s, now, snapshot, head);
            Inv(m, now) && Evolves(s, m) && (tid !in m.fingers ==> Fresh(m, tid))
  {
    TouchAllKeeps(s, now, snapshot, head);
  }

  lemma {:induction false} TouchAllTimely(s: State, now: Timespec, snapshot: map<int, MtFinger>, order: seq<int>)
    requires Inv(s, now)
    requires forall i, j | 0 <= i < j < |order| :: order[i] != order[j]
    requires forall tid | tid in order :: tid in snapshot && tid != OLD_TID && (tid !in s.fingers ==> Fresh(s, tid))
    ensures Timely(s, TouchAll(s, now, snapshot, order), now)
  {
    if order == [] {
      Unchanged(s, now);
    } else {
      var n := |order| - 1;
      var head, tid := order[..n], order[n];
      assert order == head + [tid];
      assert tid in order && forall t | t in head :: t in order;
      assert tid !in head;
      TouchAllTimely(s, now, snapshot, head);
      StillFresh(s, now, snapshot, head, tid);
      ThenTouchTimely(s, TouchAll(s, now, snapshot, head), now, tid, snapshot[tid]);
    }
  }

  lemma {:induction false} LeaveAllTimely(s: State, now: Timespec, snapshot: map<int, MtFinger>, order: seq<int>)
    requires Inv(s, now)
    ensures Timely(s, LeaveAll(s, now, snapshot, order), now)
  {
    if order == [] {
      Unchanged(s, now);
    } else {
      var n := |order| - 1;
      LeaveAllTimely(s, now, snapshot, order[..n]);
      LeaveAllKeeps(s, now, snapshot, order[..n]);
      var m := LeaveAll(s, now, snapshot, order[..n]);
      if order[n] in m.fingers && order[n] != OLD_TID && order[n] !in snapshot {
        LeaveTimely(m, now, order[n]);
        LeaveKeeps(m, now, order[n]);
        InvHeldAreUsed(s, now);
        InvHeldAreUsed(m, now);
        TimelyTransitive(s, m, Leave(m, now, order[n]), now);
      }
    }
  }

  lemma {:induction false} DrainTimely(s: State, now: Timespec)
    requires Inv(s, now)
    ensures Timely(s, Drain(s, now), now)
    decreases |s.pending|
  {
    if FrontDue(s, now) {
      FireTimely(s, now);
      FireKeeps(s, now);
      DrainTimely(Fire(s), now);
      DrainKeeps(Fire(s), now);
      InvHeldAreUsed(s, now);
      InvHeldAreUsed(Fire(s), now);
      TimelyTransitive(s, Fire(s), Drain(s, now), now);
    } else {
      Unchanged(s, now);
    }
  }

  lemma {:induction false} NothingSentBy(s: State, now: Timespec, snapshot: map<int, MtFinger>, order: seq<int>)
    requires forall tid | tid in order :: tid in snapshot
    ensures TouchAll(s, now, snapshot, order).trace == s.trace
  {
    if order != [] {
      NothingSentBy(s, now, snapshot, order[..|order| - 1]);
    }
  }

  lemma {:induction false} NothingSentByLeaving(s: State, now: Timespec, snapshot: map<int, MtFinger>, order: seq<int>)
    ensures LeaveAll(s, now, snapshot, order).trace == s.trace
  {
    if order != [] {
      NothingSentByLeaving(s, now, snapshot, order[..|order| - 1]);
    }
  }

  lemma SnapTimely(s: State, now: Timespec, snapshot: map<int, MtFinger>, touches: seq<int>, leaves: seq<int>)
    requires Inv(s, now) && AdmissibleFrame(s, now, snapshot, touches, leaves)
    ensures Timely(s, Snap(s, now, snapshot, touches, leaves), now)
    ensures Snap(s, now, snapshot, touches, leaves).trace == s.trace
  {
    var m := TouchAll(s, now, snapshot, touches);
    assert forall tid | tid in touches :: tid in snapshot.Keys;
    TouchAllTimely(s, now, snapshot, touches);
    TouchAllKeeps(s, now, snapshot, touches);
    LeaveAllTimely(m, now, snapshot, leaves);
    LeaveAllKeeps(m, now, snapshot, leaves);
    NothingSentBy(s, now, snapshot, touches);
    NothingSentByLeaving(m, now, snapshot, leaves);
    InvHeldAreUsed(s, now);
    InvHeldAreUsed(m, now);
    TimelyTransitive(s, m, LeaveAll(m, now, snapshot, leaves), now);
  }

  lemma IterateTimely(s: State, clock: Timespec, now: Timespec, input: Input)
    requires Inv(s, clock) && Normal(now) && Ns(clock) <= Ns(now) && Admissible(s, now, input)
    ensures Timely(s, Iterate(s, now, input), now)
    ensures var sent := Iterate(s, now, input).trace;
            forall n | |s.trace| <= n < |sent| :: !Later(sent[n].due, now)
  {
    InvLater(s, clock, now);
    match input
    case Partial => Unchanged(s, now);
    case Timeout =>
      DrainTimely(s, now);
      DrainComplete(s, now);
    case Frame(snapshot, touches, leaves) =>
      var m := Snap(s, now, snapshot, touches, leaves);
      SnapTimely(s, now, snapshot, touches, leaves);
      SnapKeeps(s, now, snapshot, touches, leaves);
      DrainTimely(m, now);
      DrainKeeps(m, now);
      DrainComplete(m, now);
      InvHeldAreUsed(s, now);
      InvHeldAreUsed(m, now);
      TimelyTransitive(s, m, Drain(m, now), now);
  }

  // ---- runs ----

  lemma TurnTimely(states: seq<System>, turns: seq<Turn>, i: nat)
    requires IsRun(states, turns) && Good(states[0]) && i < |turns|
    ensures Timely(states[i].keyboard, states[i + 1].keyboard, turns[i].after)
    ensures Good(states[i]) && Evolves(states[i].keyboard, states[i + 1].keyboard)
    ensures var sent := states[i + 1].keyboard.trace;
            forall n | |states[i].keyboard.trace| <= n < |sent| :: !Later(sent[n].due, turns[i].after)
  {
    var sys, turn := states[i], turns[i];
    RunsKeepInvariant(states, turns, 0, i);
    RunsKeepInvariant(states, turns, i, i + 1);
    assert Follows(states, turns, i);
    IterateTimely(sys.keyboard, sys.clock, turn.after, InputOf(sys.decoder, turn));
  }

  // The contact is new in a turn: no contact before it had this name.
  ghost predicate ArrivesIn(states: seq<System>, i: nat, k: Contact)
    requires i + 1 < |states|
  {
    !Used(states[i].keyboard, k) && Used(states[i + 1].keyboard, k)
  }

  // In a turn the contact leaves, slides off its key or is rejected.
  ghost predicate EndsIn(states: seq<System>, j: nat, k: Contact)
    requires j + 1 < |states|
  {
    Holds(states[j].keyboard, k) && !Holds(states[j + 1].keyboard, k)
  }

  lemma UsedStaysUsed(states: seq<System>, turns: seq<Turn>, i: nat, j: nat, k: Contact)
    requires IsRun(states, turns) && Good(states[0]) && i <= j < |states| && Used(states[i].keyboard, k)
    ensures Used(states[j].keyboard, k)
  {
    RunsKeepInvariant(states, turns, i, j);
    assert Uses(states[i].keyboard, k.tid) <= Uses(states[j].keyboard, k.tid);
  }

  lemma {:induction false} HeldSinceArrival(states: seq<System>, turns: seq<Turn>, i: nat, j: nat, k: Contact)
    requires IsRun(states, turns) && Good(states[0]) && i < j < |states|
    requires ArrivesIn(states, i, k) && Holds(states[j].keyboard, k)
    ensures Since(states[j].keyboard, k) == turns[i].after
    ensures Holds(states[i + 1].keyboard, k) && KeyHeld(states[j].keyboard, k) == KeyHeld(states[i + 1].keyboard, k)
  {
    assert TimelyFor(states[j - 1].keyboard, states[j].keyboard, turns[j - 1].after, k) by {
      TurnTimely(states, turns, j - 1);
    }
    if i + 1 < j {
      UsedStaysUsed(states, turns, i + 1, j - 1, k);
      HeldSinceArrival(states, turns, i, j - 1, k);
    }
  }

  /** A pure shift by 50 ms, over any run: a contact that arrives in one turn and ends in another
      has caused, in every later state, nothing at all or one press, whose Down is due 50 ms
      after the clock reading of the turn it arrived in and whose Up is due 50 ms after that of
      the turn it ended in, both of the key that was settled in the turn it arrived in. */
  lemma PressIsShifted(states: seq<System>, turns: seq<Turn>, i: nat, j: nat, m: nat, k: Contact)
    requires IsRun(states, turns) && Good(states[0]) && i < j < m < |states|
    requires ArrivesIn(states, i, k) && EndsIn(states, j, k)
    ensures Holds(states[i + 1].keyboard, k)
    ensures var h := History(states[m].keyboard, k);
            h == [] ||
            (&& |h| == 2 && h[0].down && !h[1].down
             && h[0].code == h[1].code == KeyHeld(states[i + 1].keyboard, k)
             && Ns(h[0].due) == Ns(turns[i].after) + 50_000_000
             && Ns(h[1].due) == Ns(turns[j].after) + 50_000_000)
  {
    HeldSinceArrival(states, turns, i, j, k);
    TurnTimely(states, turns, j);
    assert TimelyFor(states[j].keyboard, states[j + 1].keyboard, turns[j].after, k);
    InvHeldAreUsed(states[j].keyboard, states[j].clock);
    UsedStaysUsed(states, turns, j, j + 1, k);
    RunsKeepInvariant(states, turns, j + 1, m);
  }

  /** Nothing is sent before it is due, over any run. */
  lemma SentWhenDue(states: seq<System>, turns: seq<Turn>, i: nat)
    requires IsRun(states, turns) && Good(states[0]) && i < |turns|
    ensures var sent := states[i + 1].keyboard.trace;
            forall n | |states[i].keyboard.trace| <= n < |sent| :: Ns(sent[n].due) <= Ns(turns[i].after)
  {
    TurnTimely(states, turns, i);
    RunsKeepInvariant(states, turns, i, i + 1);
    var trace := states[i + 1].keyboard.trace;
    assert Follows(states, turns, i);
    forall n | |states[i].keyboard.trace| <= n < |trace| ensures Ns(trace[n].due) <= Ns(turns[i].after) {
      assert trace[n] in trace;
      LaterIsInstantOrder(trace[n].due, turns[i].after);
    }
  }
}
