/** What the firing loop does as a whole: it takes exactly the due events off the queue and
    decides each of them by its own finger alone. */
module KeyboardDrain {
  import opened InputEvents
  import opened Timespecs
  import opened KeyboardModel
  import opened KeyboardInvariant
  import opened KeyboardSteps

  // The number of events at the front of the queue whose deadline has come.
  function DueCount(q: seq<Event>, now: Timespec): (n: nat)
    ensures n <= |q|
    ensures forall i | 0 <= i < n :: !Later(q[i].deadline, now)
    ensures n < |q| ==> Later(q[n].deadline, now)
  {
    if q == [] || Later(q[0].deadline, now) then 0 else 1 + DueCount(q[1..], now)
  }

  predicate HasEvent(q: seq<Event>, tid: int) {
    FirstOf(q, tid) < |q|
  }

  // A due event is sent unless its finger is still known and out of range.
  predicate Passes(layout: seq<Key>, fingers: map<int, FingerData>, e: Event) {
    e.tid !in fingers || InRange(layout, fingers[e.tid])
  }

  function Passing(layout: seq<Key>, fingers: map<int, FingerData>, q: seq<Event>): seq<Stroke> {
    if q == [] then []
    else if Passes(layout, fingers, q[0]) then [q[0].AsStroke()] + Passing(layout, fingers, q[1..])
    else Passing(layout, fingers, q[1..])
  }

  // A finger with a due event has its Down sent or is rejected; the others are left alone.
  function Decide(layout: seq<Key>, d: FingerData, due: bool): FingerData {
    if !due then d
    else if InRange(layout, d) then d.(downSent := true)
    else d.(status := RangeStatus(d))
  }

  predicate LosesFn(s: State, due: seq<Event>) {
    exists tid | tid in s.fingers ::
      HasEvent(due, tid) && s.fingers[tid].code == KEY_FN && !InRange(s.layout, s.fingers[tid])
  }

  // The firing loop without a loop.
  function Decided(s: State, now: Timespec): State {
    var n := DueCount(s.pending, now);
    var due := s.pending[..n];
    s.(pending := s.pending[n..],
       trace := s.trace + Passing(s.layout, s.fingers, due),
       fingers := map tid | tid in s.fingers :: Decide(s.layout, s.fingers[tid], HasEvent(due, tid)),
       fn := s.fn && !LosesFn(s, due))
  }

  // The front event is the only pending one of its finger.
  lemma FrontIsAlone(s: State, now: Timespec)
    requires Inv(s, now) && s.pending != []
    requires s.pending[0].tid in s.fingers
    ensures s.pending[0].down
    ensures forall e | e in s.pending[1..] :: e.tid != s.pending[0].tid
    ensures Erase(s.pending[1..], s.pending[0].tid) == s.pending[1..]
  {
    var e := s.pending[0];
    assert EventOk(s, e) && FingerOk(s, e.tid);
    assert HistoryOk(s, e.contact);
    forall o | o in s.pending[1..] ensures o.tid != e.tid {
      var j :| 1 <= j < |s.pending| && s.pending[j] == o;
      assert EventOk(s, o);
      if o.tid == e.tid {
        TwoPending(s.pending, e.contact, 0, j);
      }
    }
    EraseNothing(s.pending[1..], e.tid);
  }

  lemma HasEventMeaning(q: seq<Event>, tid: int)
    ensures HasEvent(q, tid) <==> exists e :: e in q && e.tid == tid
  {
    if HasEvent(q, tid) {
      assert q[FirstOf(q, tid)] in q;
    }
  }

  // Two finger tables that agree on what the range check reads pass the same events.
  lemma {:induction false} PassingAgrees(layout: seq<Key>, a: map<int, FingerData>, b: map<int, FingerData>,
                                           q: seq<Event>)
    requires forall e | e in q :: Passes(layout, a, e) <==> Passes(layout, b, e)
    ensures Passing(layout, a, q) == Passing(layout, b, q)
  {
    if q != [] {
      assert q[0] in q;
      PassingAgrees(layout, a, b, q[1..]);
    }
  }

  lemma FingersDecided(s: State, due: seq<Event>, rest: seq<Event>)
    requires s.pending != [] && due == [s.pending[0]] + rest
    requires s.pending[0].tid in s.fingers ==> s.pending[0].down && !HasEvent(rest, s.pending[0].tid)
    ensures Fire(s).fingers.Keys == s.fingers.Keys
    ensures forall tid | tid in s.fingers ::
              Decide(s.layout, Fire(s).fingers[tid], HasEvent(rest, tid)) ==
              Decide(s.layout, s.fingers[tid], HasEvent(due, tid))
    ensures forall tid | tid in s.fingers :: HasEvent(due, tid) <==> tid == s.pending[0].tid || HasEvent(rest, tid)
  {
  }

  ghost predicate FrontStandsAlone(s: State, now: Timespec) {
    FrontDue(s, now) &&
    var n := DueCount(s.pending, now);
    && Fire(s).pending == s.pending[1..] && DueCount(s.pending[1..], now) == n - 1
    && s.pending[..n] == [s.pending[0]] + s.pending[1..][..n - 1]
    && s.pending[1..][n - 1..] == s.pending[n..]
    && (s.pending[0].tid in s.fingers ==>
          s.pending[0].down && !HasEvent(s.pending[1..][..n - 1], s.pending[0].tid))
  }

  // The due events of the state after the front event was taken are the other due events.
  lemma FrontStandsAloneHolds(s: State, now: Timespec)
    requires Inv(s, now) && FrontDue(s, now)
    ensures FrontStandsAlone(s, now)
  {
    CutAfterFront(s.pending, now);
    FireTakesFront(s, now);
    if s.pending[0].tid in s.fingers {
      NoOtherEvent(s, now, DueCount(s.pending, now) - 1);
    }
    StandsAlone(s, now);
  }

  lemma StandsAlone(s: State, now: Timespec)
    requires FrontDue(s, now) && Fire(s).pending == s.pending[1..]
    requires 0 < DueCount(s.pending, now) <= |s.pending|
    requires s.pending[0].tid in s.fingers ==>
               s.pending[0].down && !HasEvent(s.pending[1..][..DueCount(s.pending, now) - 1], s.pending[0].tid)
    ensures FrontStandsAlone(s, now)
  {
    CutAfterFront(s.pending, now);
  }

  // Sent or rejected, the front event is all that leaves the queue.
  lemma FireTakesFront(s: State, now: Timespec)
    requires Inv(s, now) && s.pending != []
    ensures Fire(s).pending == s.pending[1..]
  {
    if s.pending[0].tid in s.fingers {
      FrontIsAlone(s, now);
    }
  }

  lemma NoOtherEvent(s: State, now: Timespec, n: nat)
    requires Inv(s, now) && s.pending != [] && s.pending[0].tid in s.fingers && n <= |s.pending[1..]|
    ensures s.pending[0].down && !HasEvent(s.pending[1..][..n], s.pending[0].tid)
  {
    var tail, tid := s.pending[1..], s.pending[0].tid;
    assert s.pending[0].down && forall e | e in tail :: e.tid != tid by { FrontIsAlone(s, now); }
    HasEventMeaning(tail[..n], tid);
  }

  lemma CutAfterFront(q: seq<Event>, now: Timespec)
    requires q != [] && !Later(q[0].deadline, now)
    ensures var n := DueCount(q, now);
            && n > 0 && DueCount(q[1..], now) == n - 1
            && q[..n] == [q[0]] + q[1..][..n - 1] && q[1..][n - 1..] == q[n..]
  {
  }

  lemma TraceDecided(s: State, due: seq<Event>, rest: seq<Event>)
    requires s.pending != [] && due == [s.pending[0]] + rest
    ensures Fire(s).trace + Passing(s.layout, Fire(s).fingers, rest) ==
            s.trace + Passing(s.layout, s.fingers, due)
  {
    var s1 := Fire(s);
    assert due[1..] == rest;
    PassingAgrees(s.layout, s.fingers, s1.fingers, rest);
  }

  lemma FireThenDecide(s: State, now: Timespec)
    requires FrontStandsAlone(s, now)
    ensures Decided(Fire(s), now) == Decided(s, now)
  {
    var s1 := Fire(s);
    var n := DueCount(s.pending, now);
    var due, rest := s.pending[..n], s.pending[1..][..n - 1];
    FingersDecided(s, due, rest);
    TraceDecided(s, due, rest);
    var f1 := map tid | tid in s1.fingers :: Decide(s.layout, s1.fingers[tid], HasEvent(rest, tid));
    var f := map tid | tid in s.fingers :: Decide(s.layout, s.fingers[tid], HasEvent(due, tid));
    assert f1 == f;
    FnDecided(s, s1, due, rest);
  }

  lemma FnDecided(s: State, s1: State, due: seq<Event>, rest: seq<Event>)
    requires s.pending != [] && s1 == Fire(s) && s1.fingers.Keys == s.fingers.Keys
    requires forall tid | tid in s.fingers :: HasEvent(due, tid) <==> tid == s.pending[0].tid || HasEvent(rest, tid)
    requires s.pending[0].tid in s.fingers ==> !HasEvent(rest, s.pending[0].tid)
    ensures (s1.fn && !LosesFn(s1, rest)) == (s.fn && !LosesFn(s, due))
  {
    var e := s.pending[0];
    if LosesFn(s, due) && s1.fn {
      var t :| t in s.fingers && HasEvent(due, t) && s.fingers[t].code == KEY_FN && !InRange(s.layout, s.fingers[t]);
      assert t != e.tid;
      assert t in s1.fingers && s1.fingers[t] == s.fingers[t];
    }
    if LosesFn(s1, rest) {
      var t :| t in s1.fingers && HasEvent(rest, t) && s1.fingers[t].code == KEY_FN
               && !InRange(s.layout, s1.fingers[t]);
      assert t != e.tid && s1.fingers[t] == s.fingers[t];
    }
  }

  /** The firing loop equals its loop-free description: it removes exactly the due events, sends
      those whose finger is gone or in range, and rejects the fingers of the others. Rejecting a
      finger never takes another event off the queue. */
  lemma {:induction false} DrainIsDecided(s: State, now: Timespec)
    requires Inv(s, now)
    ensures Drain(s, now) == Decided(s, now)
    decreases |s.pending|
  {
    if FrontDue(s, now) {
      FireKeeps(s, now);
      DrainIsDecided(Fire(s), now);
      FrontStandsAloneHolds(s, now);
      FireThenDecide(s, now);
    } else {
      assert s.pending[..0] == [] && s.pending[0..] == s.pending;
      assert s.trace + [] == s.trace;
      assert Decided(s, now).fingers == s.fingers;
    }
  }

  /** Drain completeness: what is left is not yet due, what was sent was. */
  lemma DrainComplete(s: State, now: Timespec)
    requires Inv(s, now)
    ensures forall e | e in Drain(s, now).pending :: Later(e.deadline, now)
    ensures s.trace <= Drain(s, now).trace
    ensures forall i | |s.trace| <= i < |Drain(s, now).trace| :: !Later(Drain(s, now).trace[i].due, now)
  {
    DrainIsDecided(s, now);
    var n := DueCount(s.pending, now);
    forall e | e in s.pending[n..] ensures Later(e.deadline, now) {
      var j :| n <= j < |s.pending| && s.pending[j] == e;
      assert s.pending[n] in s.pending && e in s.pending;
      LaterIsInstantOrder(e.deadline, now);
      LaterIsInstantOrder(s.pending[n].deadline, now);
    }
    PassingIsDue(s.layout, s.fingers, s.pending[..n], now);
  }

  lemma {:induction false} PassingIsDue(layout: seq<Key>, fingers: map<int, FingerData>, q: seq<Event>, now: Timespec)
    requires forall i | 0 <= i < |q| :: !Later(q[i].deadline, now)
    ensures forall t | t in Passing(layout, fingers, q) :: !Later(t.due, now)
  {
    if q != [] {
      PassingIsDue(layout, fingers, q[1..], now);
    }
  }

  /** When select times out the wait was at most 51 ms, and the pass that follows takes at least
      the front event off the queue. */
  lemma TimeoutMakesProgress(s: State, clock: Timespec, before: Timespec, after: Timespec)
    requires Inv(s, clock) && s.pending != []
    requires Normal(before) && Normal(after) && Ns(clock) <= Ns(before)
    requires Ns(before) + WaitMs(s.pending[0].deadline, before) * NS_PER_MS <= Ns(after)
    ensures WaitMs(s.pending[0].deadline, before) <= 51
    ensures var s' := Iterate(s, after, Timeout);
            |s'.pending| < |s.pending| && s.pending[0] !in s'.pending
  {
    var front := s.pending[0];
    assert front in s.pending;
    WaitBound(front.deadline, before);
    LaterIsInstantOrder(front.deadline, after);
    assert Inv(s, after);
    DrainIsDecided(s, after);
    DrainComplete(s, after);
  }
}
