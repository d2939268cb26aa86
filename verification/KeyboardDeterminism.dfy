/** The output does not depend on the hash tables: runs over the same input that walk them
    differently send the same strokes, but for the order of strokes that share a deadline. */
module KeyboardDeterminism {
  import opened Reordering
  import opened Timespecs
  import opened StateMachine
  import opened KeyboardModel
  import opened KeyboardInvariant
  import opened KeyboardSteps
  import opened KeyboardRuns
  import opened KeyboardDrain
  import opened KeyboardTheorems
  import opened KeyboardConfluence

  // The states differ at most in the order of what is pending and of what was sent.
  ghost predicate Alike(a: State, b: State) {
    && a.layout == b.layout && a.fingers == b.fingers && a.fn == b.fn && a.uses == b.uses
    && multiset(a.pending) == multiset(b.pending) && multiset(a.trace) == multiset(b.trace)
  }

  // ---- the queue as a bag ----

  lemma {:induction false} InsertBag(q: seq<Event>, ev: Event)
    ensures multiset(Insert(q, ev)) == multiset(q) + multiset{ev}
  {
    if q != [] {
      assert q == [q[0]] + q[1..];
      InsertBag(q[1..], ev);
    }
  }

  lemma {:induction false} EraseBag(q: seq<Event>, tid: int, e: Event)
    ensures multiset(Erase(q, tid))[e] == if e.tid == tid then 0 else multiset(q)[e]
  {
    if q != [] {
      assert q == [q[0]] + q[1..];
      EraseBag(q[1..], tid, e);
    }
  }

  lemma EraseAlike(q1: seq<Event>, q2: seq<Event>, tid: int)
    requires multiset(q1) == multiset(q2)
    ensures multiset(Erase(q1, tid)) == multiset(Erase(q2, tid))
  {
    forall e ensures multiset(Erase(q1, tid))[e] == multiset(Erase(q2, tid))[e] {
      EraseBag(q1, tid, e);
      EraseBag(q2, tid, e);
    }
  }

  // ---- the same walk from alike states ----

  lemma EnqueueAlike(a: State, b: State, ev: Event)
    requires Alike(a, b)
    ensures Alike(Enqueue(a, ev), Enqueue(b, ev))
  {
    InsertBag(a.pending, ev);
    InsertBag(b.pending, ev);
  }

  lemma RejectAlike(a: State, b: State, tid: int, reason: RejectionStatus)
    requires Alike(a, b)
    ensures Alike(Reject(a, tid, reason), Reject(b, tid, reason))
  {
    EraseAlike(a.pending, b.pending, tid);
  }

  lemma ArriveAlike(a: State, b: State, now: Timespec, tid: int, f: MtFinger)
    requires Alike(a, b)
    ensures Alike(Arrive(a, now, tid, f), Arrive(b, now, tid, f))
  {
    var d := NewFinger(a, now, tid, f);
    assert d == NewFinger(b, now, tid, f);
    EnqueueAlike(a, b, DownEvent(d));
  }

  lemma UpdateAlike(a: State, b: State, now: Timespec, tid: int, f: MtFinger)
    requires Alike(a, b) && tid in a.fingers
    ensures Alike(Update(a, now, tid, f), Update(b, now, tid, f))
  {
    var d := Measure(a.fingers[tid], f);
    var a1, b1 := a.(fingers := a.fingers[tid := d]), b.(fingers := b.fingers[tid := d]);
    var a2, b2 := Reject(a1, tid, MovedOffKey), Reject(b1, tid, MovedOffKey);
    RejectAlike(a1, b1, tid, MovedOffKey);
    EnqueueAlike(a2, b2, UpEvent(d.code, now, d.contact));
  }

  lemma TouchAlike(a: State, b: State, now: Timespec, tid: int, f: MtFinger)
    requires Alike(a, b)
    ensures Alike(Touch(a, now, tid, f), Touch(b, now, tid, f))
  {
    if tid !in a.fingers {
      ArriveAlike(a, b, now, tid, f);
    } else {
      UpdateAlike(a, b, now, tid, f);
    }
  }

  lemma {:induction false} TouchAllAlike(a: State, b: State, now: Timespec, snapshot: map<int, MtFinger>,
                                         order: seq<int>)
    requires Alike(a, b) && forall tid | tid in order :: tid in snapshot
    ensures Alike(TouchAll(a, now, snapshot, order), TouchAll(b, now, snapshot, order))
  {
    if order != [] {
      var n := |order| - 1;
      assert forall tid | tid in order[..n] :: tid in order;
      TouchAllAlike(a, b, now, snapshot, order[..n]);
      TouchAlike(TouchAll(a, now, snapshot, order[..n]), TouchAll(b, now, snapshot, order[..n]), now,
                 order[n], snapshot[order[n]]);
    }
  }

  // Guaranteeing replaces the one pending event of a contact that is about to leave.
  lemma GuaranteeBag(s: State, now: Timespec, tid: int)
    requires Inv(s, now) && Live(s, tid) && !s.fingers[tid].downSent
    ensures var e := DownEvent(s.fingers[tid]);
            multiset(Guarantee(s.pending, tid)) ==
            multiset(s.pending) - multiset{e} + multiset{e.(guaranteed := true)}
  {
    QueueMirrorsFingers(s, now, tid);
  }

  lemma LeaveAlike(a: State, b: State, now: Timespec, tid: int)
    requires Inv(a, now) && Inv(b, now) && Alike(a, b) && tid in a.fingers
    ensures Alike(Leave(a, now, tid), Leave(b, now, tid))
  {
    if Live(a, tid) {
      LeaveEnds(a, now, tid);
      LeaveEnds(b, now, tid);
      if !a.fingers[tid].downSent {
        GuaranteeBag(a, now, tid);
        GuaranteeBag(b, now, tid);
      }
    }
  }

  lemma {:induction false} LeaveAllAlike(a: State, b: State, now: Timespec, snapshot: map<int, MtFinger>,
                                         order: seq<int>)
    requires Inv(a, now) && Inv(b, now) && Alike(a, b)
    ensures Alike(LeaveAll(a, now, snapshot, order), LeaveAll(b, now, snapshot, order))
  {
    if order != [] {
      var n := |order| - 1;
      var a1, b1 := LeaveAll(a, now, snapshot, order[..n]), LeaveAll(b, now, snapshot, order[..n]);
      LeaveAllAlike(a, b, now, snapshot, order[..n]);
      assert Inv(a1, now) by { LeaveAllKeeps(a, now, snapshot, order[..n]); }
      assert Inv(b1, now) by { LeaveAllKeeps(b, now, snapshot, order[..n]); }
      if Missing(a1, snapshot, order[n]) {
        LeaveAlike(a1, b1, now, order[n]);
      }
    }
  }

  // ---- different walks ----

  lemma TiesAreAlike(a: State, b: State, deadline: Timespec)
    requires SameButForTies(a, b, deadline)
    ensures Alike(a, b)
  {
  }

  lemma WalkFits(a: State, b: State, now: Timespec, snapshot: map<int, MtFinger>, touches: seq<int>, leaves: seq<int>)
    requires Alike(a, b) && Reportable(a, snapshot) && AdmissibleFrame(b, now, snapshot, touches, leaves)
    ensures AdmissibleFrame(a, now, snapshot, touches, leaves)
  {
    assert forall tid | tid in touches :: tid in snapshot.Keys;
    TouchAllAlike(a, b, now, snapshot, touches);
  }

  /** A snapshot whose order does not matter leaves alike states alike, however it is walked. */
  lemma SnapAlike(a: State, b: State, now: Timespec, snapshot: map<int, MtFinger>,
                  t1: seq<int>, l1: seq<int>, t2: seq<int>, l2: seq<int>)
    requires Inv(a, now) && Inv(b, now) && Alike(a, b) && !OrderMatters(a, snapshot)
    requires AdmissibleFrame(a, now, snapshot, t1, l1) && AdmissibleFrame(b, now, snapshot, t2, l2)
    ensures Alike(Snap(a, now, snapshot, t1, l1), Snap(b, now, snapshot, t2, l2))
  {
    WalkFits(a, b, now, snapshot, t2, l2);
    SnapshotOrderIrrelevant(a, now, snapshot, t1, l1, t2, l2);
    TiesAreAlike(Snap(a, now, snapshot, t1, l1), Snap(a, now, snapshot, t2, l2), AddMs(now, EVENT_DELAY_MS));
    SameWalkAlike(a, b, now, snapshot, t2, l2);
  }

  lemma SameWalkAlike(a: State, b: State, now: Timespec, snapshot: map<int, MtFinger>, touches: seq<int>,
                      leaves: seq<int>)
    requires Inv(a, now) && Inv(b, now) && Alike(a, b)
    requires AdmissibleFrame(a, now, snapshot, touches, leaves) && AdmissibleFrame(b, now, snapshot, touches, leaves)
    ensures Alike(Snap(a, now, snapshot, touches, leaves), Snap(b, now, snapshot, touches, leaves))
  {
    var a1, b1 := TouchAll(a, now, snapshot, touches), TouchAll(b, now, snapshot, touches);
    assert forall tid | tid in touches :: tid in snapshot.Keys;
    TouchAllAlike(a, b, now, snapshot, touches);
    assert Inv(a1, now) by { TouchAllKeeps(a, now, snapshot, touches); }
    assert Inv(b1, now) by { TouchAllKeeps(b, now, snapshot, touches); }
    LeaveAllAlike(a1, b1, now, snapshot, leaves);
  }

  // ---- firing ----

  // The queue is cut where the events stop being due.
  ghost predicate CutAt(q: seq<Event>, n: nat, now: Timespec) {
    n <= |q| && forall i | 0 <= i < |q| :: i < n <==> !Later(q[i].deadline, now)
  }

  lemma DueCuts(s: State, now: Timespec)
    requires Inv(s, now)
    ensures CutAt(s.pending, DueCount(s.pending, now), now)
  {
    forall i | 0 <= i < |s.pending| ensures i < DueCount(s.pending, now) <==> !Later(s.pending[i].deadline, now) {
      DueIsPrefix(s, now, i);
    }
  }

  lemma CutBag(q: seq<Event>, n: nat, now: Timespec, e: Event)
    requires CutAt(q, n, now)
    ensures multiset(q[..n])[e] == if Later(e.deadline, now) then 0 else multiset(q)[e]
    ensures multiset(q[n..])[e] == if Later(e.deadline, now) then multiset(q)[e] else 0
  {
    assert q == q[..n] + q[n..];
    if e in q[..n] {
      var i :| 0 <= i < n && q[i] == e;
    }
    if e in q[n..] {
      var i :| n <= i < |q| && q[i] == e;
    }
    assert Later(e.deadline, now) ==> e !in multiset(q[..n]);
    assert !Later(e.deadline, now) ==> e !in multiset(q[n..]);
  }

  // The same events are due, and the same are not.
  lemma CutAlike(q1: seq<Event>, n1: nat, q2: seq<Event>, n2: nat, now: Timespec)
    requires CutAt(q1, n1, now) && CutAt(q2, n2, now) && multiset(q1) == multiset(q2)
    ensures multiset(q1[..n1]) == multiset(q2[..n2]) && multiset(q1[n1..]) == multiset(q2[n2..])
  {
    forall e ensures multiset(q1[..n1])[e] == multiset(q2[..n2])[e] && multiset(q1[n1..])[e] == multiset(q2[n2..])[e] {
      CutBag(q1, n1, now, e);
      CutBag(q2, n2, now, e);
    }
  }

  lemma DueAlike(a: State, b: State, now: Timespec)
    requires Inv(a, now) && Inv(b, now) && Alike(a, b)
    ensures var n, m := DueCount(a.pending, now), DueCount(b.pending, now);
            && multiset(a.pending[..n]) == multiset(b.pending[..m])
            && multiset(a.pending[n..]) == multiset(b.pending[m..])
  {
    DueCuts(a, now);
    DueCuts(b, now);
    CutAlike(a.pending, DueCount(a.pending, now), b.pending, DueCount(b.pending, now), now);
  }

  function PassOne(layout: seq<Key>, fingers: map<int, FingerData>): Event -> seq<Stroke> {
    e => if Passes(layout, fingers, e) then [e.AsStroke()] else []
  }

  lemma {:induction false} PassingSnoc(layout: seq<Key>, fingers: map<int, FingerData>, q: seq<Event>, e: Event)
    ensures Passing(layout, fingers, q + [e]) == Passing(layout, fingers, q) + PassOne(layout, fingers)(e)
  {
    if q == [] {
      assert [] + [e] == [e] && [e][1..] == [];
    } else {
      PassingSnoc(layout, fingers, q[1..], e);
      assert (q + [e])[1..] == q[1..] + [e];
    }
  }

  lemma {:induction false} PassingIsCollect(layout: seq<Key>, fingers: map<int, FingerData>, q: seq<Event>)
    ensures Passing(layout, fingers, q) == Collect(PassOne(layout, fingers), q)
  {
    if q != [] {
      var n := |q| - 1;
      PassingIsCollect(layout, fingers, q[..n]);
      PassingSnoc(layout, fingers, q[..n], q[n]);
      assert q[..n] + [q[n]] == q;
    }
  }

  lemma PassingAlike(layout: seq<Key>, fingers: map<int, FingerData>, q1: seq<Event>, q2: seq<Event>)
    requires multiset(q1) == multiset(q2)
    ensures multiset(Passing(layout, fingers, q1)) == multiset(Passing(layout, fingers, q2))
  {
    PassingIsCollect(layout, fingers, q1);
    PassingIsCollect(layout, fingers, q2);
    CollectSame(PassOne(layout, fingers), q1, q2);
  }

  lemma HasEventAlike(q1: seq<Event>, q2: seq<Event>, tid: int)
    requires multiset(q1) == multiset(q2)
    ensures HasEvent(q1, tid) <==> HasEvent(q2, tid)
  {
    HasEventMeaning(q1, tid);
    HasEventMeaning(q2, tid);
    assert forall e :: e in q1 <==> e in multiset(q1);
    assert forall e :: e in q2 <==> e in multiset(q2);
  }

  lemma DecidedAlike(a: State, b: State, now: Timespec)
    requires Inv(a, now) && Inv(b, now) && Alike(a, b)
    ensures Alike(Decided(a, now), Decided(b, now))
  {
    var d1, d2 := a.pending[..DueCount(a.pending, now)], b.pending[..DueCount(b.pending, now)];
    DueAlike(a, b, now);
    PassingAlike(a.layout, a.fingers, d1, d2);
    FingersAlike(a, b, d1, d2);
  }

  lemma FingersAlike(a: State, b: State, d1: seq<Event>, d2: seq<Event>)
    requires a.layout == b.layout && a.fingers == b.fingers && multiset(d1) == multiset(d2)
    ensures LosesFn(a, d1) <==> LosesFn(b, d2)
    ensures (map tid | tid in a.fingers :: Decide(a.layout, a.fingers[tid], HasEvent(d1, tid))) ==
            (map tid | tid in b.fingers :: Decide(b.layout, b.fingers[tid], HasEvent(d2, tid)))
  {
    forall tid ensures HasEvent(d1, tid) <==> HasEvent(d2, tid) {
      HasEventAlike(d1, d2, tid);
    }
  }

  /** The firing loop leaves alike states alike, though it may take their events in another order. */
  lemma DrainAlike(a: State, b: State, now: Timespec)
    requires Inv(a, now) && Inv(b, now) && Alike(a, b)
    ensures Alike(Drain(a, now), Drain(b, now))
  {
    DrainIsDecided(a, now);
    DrainIsDecided(b, now);
    DecidedAlike(a, b, now);
  }

  // ---- runs ----

  ghost predicate SameInput(x: Turn, y: Turn) {
    x.before == y.before && x.event == y.event && x.after == y.after
  }

  // In this pass no frame depends on the order of the hash tables.
  ghost predicate Confluent(sys: System, turn: Turn)
    requires sys.decoder.Valid()
  {
    var input := InputOf(sys.decoder, turn);
    input.Frame? ==> !OrderMatters(sys.keyboard, input.snapshot)
  }

  ghost predicate SystemsAlike(x: System, y: System) {
    x.decoder == y.decoder && x.clock == y.clock && Alike(x.keyboard, y.keyboard)
  }

  lemma PassAlike(x: System, y: System, t: Turn, u: Turn)
    requires Good(x) && Good(y) && SystemsAlike(x, y) && SameInput(t, u)
    requires AdmissibleTurn(x, t) && AdmissibleTurn(y, u) && Confluent(x, t)
    ensures SystemsAlike(Pass(x, t), Pass(y, u))
  {
    var a, b, now := x.keyboard, y.keyboard, t.after;
    InvLater(a, x.clock, now);
    InvLater(b, y.clock, now);
    match InputOf(x.decoder, t)
    case Partial =>
    case Timeout => DrainAlike(a, b, now);
    case Frame(snapshot, t1, l1) =>
      var a1, b1 := Snap(a, now, snapshot, t1, l1), Snap(b, now, snapshot, u.touches, u.leaves);
      SnapAlike(a, b, now, snapshot, t1, l1, u.touches, u.leaves);
      assert Inv(a1, now) by { SnapKeeps(a, now, snapshot, t1, l1); }
      assert Inv(b1, now) by { SnapKeeps(b, now, snapshot, u.touches, u.leaves); }
      DrainAlike(a1, b1, now);
  }

  ghost predicate ConfluentAt(states: seq<System>, turns: seq<Turn>, i: nat)
    requires i < |states| && i < |turns|
  {
    states[i].decoder.Valid() && Confluent(states[i], turns[i])
  }

  ghost predicate ConfluentRun(states: seq<System>, turns: seq<Turn>)
    requires IsRun(states, turns)
  {
    forall i | 0 <= i < |turns| :: ConfluentAt(states, turns, i)
  }

  ghost predicate SameInputs(turns: seq<Turn>, turns': seq<Turn>) {
    |turns| == |turns'| && forall i | 0 <= i < |turns| :: SameInput(turns[i], turns'[i])
  }

  lemma {:induction false} RunsAlike(states: seq<System>, turns: seq<Turn>, states': seq<System>,
                                     turns': seq<Turn>, n: nat)
    requires IsRun(states, turns) && IsRun(states', turns') && Good(states[0]) && states[0] == states'[0]
    requires SameInputs(turns, turns') && ConfluentRun(states, turns) && n < |states|
    ensures SystemsAlike(states[n], states'[n])
  {
    if n > 0 {
      RunsAlike(states, turns, states', turns', n - 1);
      TurnAlike(states, turns, states', turns', n - 1);
    }
  }

  lemma TurnAlike(states: seq<System>, turns: seq<Turn>, states': seq<System>, turns': seq<Turn>, i: nat)
    requires IsRun(states, turns) && IsRun(states', turns') && Good(states[0]) && Good(states'[0])
    requires SameInputs(turns, turns') && ConfluentRun(states, turns)
    requires i < |turns| && SystemsAlike(states[i], states'[i])
    ensures SystemsAlike(states[i + 1], states'[i + 1])
  {
    var x, y, t, u := states[i], states'[i], turns[i], turns'[i];
    assert Follows(states, turns, i) && Follows(states', turns', i) && ConfluentAt(states, turns, i);
    assert Good(x) by { RunsKeepInvariant(states, turns, 0, i); }
    assert Good(y) by { RunsKeepInvariant(states', turns', 0, i); }
    PassAlike(x, y, t, u);
  }

  // ---- the output ----

  function DueOne(): Stroke -> seq<int> { (t: Stroke) => [Ns(t.due)] }

  lemma {:induction false} DuesAt(h: seq<Stroke>)
    ensures var dues := Collect(DueOne(), h);
            |dues| == |h| && forall i | 0 <= i < |h| :: dues[i] == Ns(h[i].due)
  {
    if h != [] {
      DuesAt(h[..|h| - 1]);
    }
  }

  // Two records in deadline order with the same strokes have the same deadlines throughout.
  lemma SameDeadlines(h: seq<Stroke>, h': seq<Stroke>)
    requires multiset(h) == multiset(h') && TraceOrdered(h) && TraceOrdered(h')
    requires forall t | t in h :: Normal(t.due)
    ensures |h| == |h'| && forall i | 0 <= i < |h| :: h[i].due == h'[i].due
  {
    DuesAt(h);
    DuesAt(h');
    CollectSame(DueOne(), h, h');
    SortedUnique(Collect(DueOne(), h), Collect(DueOne(), h'));
    forall i | 0 <= i < |h| ensures h[i].due == h'[i].due {
      assert h[i] in h && h'[i] in multiset(h');
      assert Collect(DueOne(), h)[i] == Collect(DueOne(), h')[i];
      LaterIsInstantOrder(h[i].due, h'[i].due);
    }
  }

  lemma {:induction false} OfBag(h: seq<Stroke>, k: Contact, t: Stroke)
    ensures multiset(Of(h, k))[t] == if t.contact == k then multiset(h)[t] else 0
  {
    if h != [] {
      assert h == [h[0]] + h[1..];
      OfBag(h[1..], k, t);
    }
  }

  lemma PressIsItsBag(h: seq<Stroke>, h': seq<Stroke>)
    requires PressPrefix(h) && PressPrefix(h') && multiset(h) == multiset(h')
    ensures h == h'
  {
    assert |h| == |multiset(h)| == |multiset(h')| == |h'|;
    forall i | 0 <= i < |h| ensures h[i] == h'[i] {
      assert h[i] in multiset(h');
      var j :| 0 <= j < |h'| && h'[j] == h[i];
    }
  }

  lemma SamePress(s: State, s': State, now: Timespec, k: Contact)
    requires Inv(s, now) && Inv(s', now) && Alike(s, s')
    ensures Sent(s, k) == Sent(s', k)
  {
    forall t ensures multiset(Sent(s, k))[t] == multiset(Sent(s', k))[t] {
      OfBag(s.trace, k, t);
      OfBag(s'.trace, k, t);
    }
    WholePrefix(s, now, k);
    WholePrefix(s', now, k);
    PressIsItsBag(Sent(s, k), Sent(s', k));
  }

  lemma WholePrefix(s: State, now: Timespec, k: Contact)
    requires Inv(s, now)
    ensures PressPrefix(Sent(s, k))
  {
    assert s.trace[..|s.trace|] == s.trace;
    ContactOutputIsPress(s, now, |s.trace|, k);
  }

  /** Two runs over the same events and clock readings, however each walks the hash tables, send
      the same strokes, in every state, as long as no frame of one of them depends on the order:
      stroke by stroke the deadlines agree, so only strokes that share a deadline can change
      places, and the strokes of each contact agree exactly. */
  lemma OutputIsDetermined(states: seq<System>, turns: seq<Turn>, states': seq<System>, turns': seq<Turn>, n: nat)
    requires IsRun(states, turns) && IsRun(states', turns') && Good(states[0]) && states[0] == states'[0]
    requires SameInputs(turns, turns') && ConfluentRun(states, turns) && n < |states|
    ensures var h, h' := states[n].keyboard.trace, states'[n].keyboard.trace;
            && multiset(h) == multiset(h') && |h| == |h'|
            && (forall i | 0 <= i < |h| :: h[i].due == h'[i].due)
            && (forall k :: Of(h, k) == Of(h', k))
    ensures states[n].keyboard.fingers == states'[n].keyboard.fingers
    ensures states[n].keyboard.fn == states'[n].keyboard.fn
  {
    RunsAlike(states, turns, states', turns', n);
    RunsKeepInvariant(states, turns, 0, n);
    RunsKeepInvariant(states', turns', 0, n);
    SameTraces(states[n].keyboard, states'[n].keyboard, states[n].clock);
  }

  lemma SameTraces(s: State, s': State, now: Timespec)
    requires Inv(s, now) && Inv(s', now) && Alike(s, s')
    ensures |s.trace| == |s'.trace| && forall i | 0 <= i < |s.trace| :: s.trace[i].due == s'.trace[i].due
    ensures forall k :: Of(s.trace, k) == Of(s'.trace, k)
  {
    SameDeadlines(s.trace, s'.trace);
    forall k ensures Of(s.trace, k) == Of(s'.trace, k) {
      SamePress(s, s', now, k);
    }
  }
}
