/** What becomes of a contact over a whole run: which key it is, whether it is pressed, and that
    the press is sent. */
module KeyboardFates {
  import opened Timespecs
  import opened StateMachine
  import opened KeyboardModel
  import opened KeyboardInvariant
  import opened KeyboardSteps
  import opened KeyboardRuns
  import opened KeyboardDrain
  import opened KeyboardTheorems
  import opened KeyboardConfluence
  import opened KeyboardTiming

  // ---- what has ended is sent ----

  // The pass comes to the firing loop.
  ghost predicate Fires(sys: System, turn: Turn) {
    sys.decoder.Valid() && !InputOf(sys.decoder, turn).Partial?
  }

  lemma LeftIsLater(sys: System, turn: Turn)
    requires Good(sys) && AdmissibleTurn(sys, turn) && Fires(sys, turn)
    ensures forall e | e in Pass(sys, turn).keyboard.pending :: Later(e.deadline, turn.after)
  {
    var s, now := sys.keyboard, turn.after;
    InvLater(s, sys.clock, now);
    match InputOf(sys.decoder, turn)
    case Timeout => DrainComplete(s, now);
    case Frame(snapshot, touches, leaves) =>
      SnapKeeps(s, now, snapshot, touches, leaves);
      DrainComplete(Snap(s, now, snapshot, touches, leaves), now);
  }

  lemma {:induction false} OfSubset(h: seq<Stroke>, k: Contact)
    ensures forall t | t in Of(h, k) :: t in h
  {
    if h != [] {
      OfSubset(h[1..], k);
    }
  }

  // Nothing a contact has caused is due later than the event delay from now.
  lemma HistoryIsDue(s: State, now: Timespec, k: Contact)
    requires TimesOk(s, now)
    ensures forall t | t in History(s, k) :: Normal(t.due) && Ns(t.due) <= Ns(now) + DELAY_NS
  {
    OfSubset(s.trace, k);
    OfSubset(Strokes(s.pending), k);
    forall t | t in Strokes(s.pending) ensures Normal(t.due) && Ns(t.due) <= Ns(now) + DELAY_NS {
      var i :| 0 <= i < |s.pending| && Strokes(s.pending)[i] == t;
      assert s.pending[i] in s.pending;
    }
  }

  // Strokes that are due leave nothing pending once everything pending is later.
  lemma NothingPending(s: State, now: Timespec, k: Contact)
    requires Normal(now) && forall e | e in s.pending :: Later(e.deadline, now)
    requires forall t | t in History(s, k) :: Normal(t.due) && Ns(t.due) <= Ns(now)
    ensures Pend(s, k) == []
  {
    if Pend(s, k) != [] {
      OfHasEvent(s.pending, k);
      var i :| 0 <= i < |s.pending| && s.pending[i].contact == k;
      OfMember(Strokes(s.pending), k, i);
      assert s.pending[i] in s.pending;
      assert s.pending[i].AsStroke() in History(s, k);
      LaterIsInstantOrder(s.pending[i].deadline, now);
    }
  }

  /** No stuck key, over any run and whatever other fingers do: once a contact is over, any pass
      that comes to the firing loop at least 50 ms later has sent all it caused, which is nothing
      or one whole press. */
  lemma WhatEndedIsSent(states: seq<System>, turns: seq<Turn>, j: nat, n: nat, k: Contact)
    requires IsRun(states, turns) && Good(states[0]) && j < n < |turns|
    requires Used(states[j + 1].keyboard, k) && !Holds(states[j + 1].keyboard, k)
    requires Fires(states[n], turns[n]) && Ns(turns[j].after) + 50_000_000 <= Ns(turns[n].after)
    ensures var sent := Sent(states[n + 1].keyboard, k);
            sent == History(states[j + 1].keyboard, k) && Whole(sent)
    ensures Pend(states[n + 1].keyboard, k) == []
  {
    var s' := states[n + 1].keyboard;
    assert Follows(states, turns, j);
    OverStaysOver(states, turns, j + 1, n + 1, k);
    assert Normal(turns[n].after) && forall e | e in s'.pending :: Later(e.deadline, turns[n].after) by {
      AllLeftIsLater(states, turns, n);
    }
    NothingPending(s', turns[n].after, k);
    assert Sent(s', k) + [] == Sent(s', k);
  }

  lemma AllLeftIsLater(states: seq<System>, turns: seq<Turn>, n: nat)
    requires IsRun(states, turns) && Good(states[0]) && n < |turns| && Fires(states[n], turns[n])
    ensures Normal(turns[n].after)
    ensures forall e | e in states[n + 1].keyboard.pending :: Later(e.deadline, turns[n].after)
  {
    assert Follows(states, turns, n);
    RunsKeepInvariant(states, turns, 0, n);
    LeftIsLater(states[n], turns[n]);
  }

  lemma OverStaysOver(states: seq<System>, turns: seq<Turn>, i: nat, n: nat, k: Contact)
    requires IsRun(states, turns) && Good(states[0]) && i <= n < |states|
    requires Used(states[i].keyboard, k) && !Holds(states[i].keyboard, k)
    ensures History(states[n].keyboard, k) == History(states[i].keyboard, k) && Whole(History(states[n].keyboard, k))
    ensures forall t | t in History(states[n].keyboard, k) ::
              Normal(t.due) && Ns(t.due) <= Ns(states[i].clock) + DELAY_NS
  {
    RunsKeepInvariant(states, turns, 0, i);
    RunsKeepInvariant(states, turns, i, n);
    HistoryIsDue(states[i].keyboard, states[i].clock, k);
    assert HistoryOk(states[i].keyboard, k);
  }

  // ---- whether a contact is pressed ----

  lemma TouchFate(s: State, now: Timespec, k: Contact, f: MtFinger)
    requires Inv(s, now) && Holds(s, k)
    ensures var r := Touch(s, now, k.tid, f);
            && (Holds(r, k) ==> r.fingers[k.tid].downSent == s.fingers[k.tid].downSent)
            && (!Holds(r, k) ==> (History(r, k) != [] <==> s.fingers[k.tid].downSent))
  {
    if !StillOnFirstKey(s.layout, f, s.fingers[k.tid]) {
      SlideOffRevokesOrReleases(s, now, k.tid, f);
    }
  }

  // A contact that ends while it is reported has slid off: it is pressed if its Down was sent.
  lemma {:induction false} TouchAllFate(s: State, now: Timespec, snapshot: map<int, MtFinger>, order: seq<int>,
                                        k: Contact)
    requires Inv(s, now) && Holds(s, k)
    requires forall i, j | 0 <= i < j < |order| :: order[i] != order[j]
    requires forall tid | tid in order :: tid in snapshot && tid != OLD_TID && (tid !in s.fingers ==> Fresh(s, tid))
    ensures var r := TouchAll(s, now, snapshot, order);
            && (Holds(r, k) ==> r.fingers[k.tid].downSent == s.fingers[k.tid].downSent)
            && (!Holds(r, k) ==> k.tid in order && (History(r, k) != [] <==> s.fingers[k.tid].downSent))
  {
    if order != [] {
      var n := |order| - 1;
      var head, tid := order[..n], order[n];
      assert order == head + [tid];
      assert tid in order && forall t | t in head :: t in order;
      assert tid !in head;
      TouchAllFate(s, now, snapshot, head, k);
      StillFresh(s, now, snapshot, head, tid);
      ThenTouchFate(s, TouchAll(s, now, snapshot, head), now, snapshot, tid, k);
    }
  }

  lemma ThenTouchFate(s: State, m: State, now: Timespec, snapshot: map<int, MtFinger>, tid: int, k: Contact)
    requires Inv(s, now) && Inv(m, now) && Holds(s, k) && Evolves(s, m)
    requires tid in snapshot && (tid !in m.fingers ==> Fresh(m, tid))
    ensures var r := Touch(m, now, tid, snapshot[tid]);
            && (Holds(r, k) && Holds(m, k) ==> r.fingers[k.tid].downSent == m.fingers[k.tid].downSent)
            && (!Holds(m, k) ==> !Holds(r, k) && History(r, k) == History(m, k))
            && (!Holds(r, k) && Holds(m, k) ==>
                  tid == k.tid && (History(r, k) != [] <==> m.fingers[k.tid].downSent))
  {
    if Holds(m, k) {
      if tid == k.tid {
        TouchFate(m, now, k, snapshot[tid]);
      } else {
        TouchFlag(m, now, snapshot, tid);
      }
    } else {
      InvHeldAreUsed(s, now);
      assert Uses(s, k.tid) <= Uses(m, k.tid);
      TouchKeeps(m, now, tid, snapshot[tid]);
    }
  }

  lemma LeaveFate(s: State, now: Timespec, snapshot: map<int, MtFinger>, tid: int, k: Contact)
    requires Inv(s, now) && Holds(s, k)
    ensures var r := LeaveIfMissing(s, now, snapshot, tid);
            && (Holds(r, k) ==> r.fingers[k.tid].downSent == s.fingers[k.tid].downSent)
            && (!Holds(r, k) ==> k.tid !in snapshot && History(r, k) != [])
  {
    if tid == k.tid && Missing(s, snapshot, tid) {
      LeaveEnds(s, now, tid);
      EndedHistory(s, now, tid, true);
    }
  }

  // A contact that ends because it is missing is always pressed.
  lemma {:induction false} LeaveAllFate(s: State, now: Timespec, snapshot: map<int, MtFinger>, order: seq<int>,
                                        k: Contact)
    requires Inv(s, now) && Holds(s, k)
    ensures var r := LeaveAll(s, now, snapshot, order);
            && (Holds(r, k) ==> r.fingers[k.tid].downSent == s.fingers[k.tid].downSent)
            && (!Holds(r, k) ==> k.tid !in snapshot && History(r, k) != [])
  {
    if order != [] {
      var n := |order| - 1;
      var m := LeaveAll(s, now, snapshot, order[..n]);
      LeaveAllFate(s, now, snapshot, order[..n], k);
      assert Inv(m, now) && Evolves(s, m) by { LeaveAllKeeps(s, now, snapshot, order[..n]); }
      ThenLeaveFate(s, m, now, snapshot, order[n], k);
    }
  }

  lemma ThenLeaveFate(s: State, m: State, now: Timespec, snapshot: map<int, MtFinger>, tid: int, k: Contact)
    requires Inv(s, now) && Inv(m, now) && Holds(s, k) && Evolves(s, m)
    ensures var r := LeaveIfMissing(m, now, snapshot, tid);
            && (Holds(r, k) && Holds(m, k) ==> r.fingers[k.tid].downSent == m.fingers[k.tid].downSent)
            && (!Holds(m, k) ==> !Holds(r, k) && History(r, k) == History(m, k))
            && (!Holds(r, k) && Holds(m, k) ==> k.tid !in snapshot && History(r, k) != [])
  {
    if Holds(m, k) {
      LeaveFate(m, now, snapshot, tid, k);
    } else if Missing(m, snapshot, tid) {
      InvHeldAreUsed(s, now);
      assert Uses(s, k.tid) <= Uses(m, k.tid);
      LeaveKeeps(m, now, tid);
    }
  }

  // A contact that ends in the firing loop was rejected before its Down was sent.
  lemma DrainFate(s: State, now: Timespec, k: Contact)
    requires Inv(s, now) && Holds(s, k) && !Holds(Drain(s, now), k)
    ensures !s.fingers[k.tid].downSent && History(Drain(s, now), k) == []
  {
    if s.fingers[k.tid].downSent {
      QueueMirrorsFingers(s, now, k.tid);
      var due := s.pending[..DueCount(s.pending, now)];
      assert !HasEvent(due, k.tid) by {
        HasEventMeaning(s.pending, k.tid);
        HasEventMeaning(due, k.tid);
      }
      DrainIsDecided(s, now);
    } else {
      FiringDecidesByRange(s, now, k.tid);
    }
  }

  // The pass handles a frame that no longer reports the tracking id.
  ghost predicate GoesMissing(sys: System, turn: Turn, tid: int)
    requires sys.decoder.Valid()
  {
    var input := InputOf(sys.decoder, turn);
    input.Frame? && tid !in input.snapshot
  }

  // A snapshot and the firing after it.
  lemma FrameFate(s: State, now: Timespec, snapshot: map<int, MtFinger>, touches: seq<int>, leaves: seq<int>,
                  k: Contact)
    requires Inv(s, now) && AdmissibleFrame(s, now, snapshot, touches, leaves) && Holds(s, k)
    ensures var m := Snap(s, now, snapshot, touches, leaves);
            && (!Holds(m, k) ==> (History(m, k) != [] <==> s.fingers[k.tid].downSent || k.tid !in snapshot))
            && (Holds(m, k) ==> k.tid in snapshot && m.fingers[k.tid].downSent == s.fingers[k.tid].downSent)
  {
    var m := TouchAll(s, now, snapshot, touches);
    assert forall tid | tid in touches :: tid in snapshot.Keys;
    TouchAllFate(s, now, snapshot, touches, k);
    assert Snap(s, now, snapshot, touches, leaves).fingers.Keys == snapshot.Keys by {
      SnapKeeps(s, now, snapshot, touches, leaves);
    }
    assert Inv(m, now) && Evolves(s, m) by { TouchAllKeeps(s, now, snapshot, touches); }
    if Holds(m, k) {
      LeaveAllFate(m, now, snapshot, leaves, k);
    } else {
      ThenAllLeaveFate(s, m, now, snapshot, leaves, k);
    }
  }

  lemma ThenAllLeaveFate(s: State, m: State, now: Timespec, snapshot: map<int, MtFinger>, leaves: seq<int>, k: Contact)
    requires Inv(s, now) && Inv(m, now) && Evolves(s, m) && Holds(s, k) && !Holds(m, k)
    ensures !Holds(LeaveAll(m, now, snapshot, leaves), k)
    ensures History(LeaveAll(m, now, snapshot, leaves), k) == History(m, k)
  {
    InvHeldAreUsed(s, now);
    assert Uses(s, k.tid) <= Uses(m, k.tid);
    LeaveAllKeeps(m, now, snapshot, leaves);
  }

  lemma ThenDrainFate(s: State, m: State, now: Timespec, k: Contact)
    requires Inv(s, now) && Inv(m, now) && Evolves(s, m) && Holds(s, k) && !Holds(Drain(m, now), k)
    ensures Holds(m, k) ==> !m.fingers[k.tid].downSent && History(Drain(m, now), k) == []
    ensures !Holds(m, k) ==> History(Drain(m, now), k) == History(m, k)
  {
    if Holds(m, k) {
      DrainFate(m, now, k);
    } else {
      InvHeldAreUsed(s, now);
      assert Uses(s, k.tid) <= Uses(m, k.tid);
      DrainKeeps(m, now);
    }
  }

  /** Exactly which contacts are pressed: one that ends is pressed if and only if its Down had
      been sent before the turn, or it ends because it is no longer reported. */
  lemma PressedIff(states: seq<System>, turns: seq<Turn>, j: nat, k: Contact)
    requires IsRun(states, turns) && Good(states[0]) && j < |turns| && EndsIn(states, j, k)
    ensures states[j].decoder.Valid()
    ensures History(states[j + 1].keyboard, k) != [] <==>
            states[j].keyboard.fingers[k.tid].downSent || GoesMissing(states[j], turns[j], k.tid)
  {
    var sys, turn := states[j], turns[j];
    assert Follows(states, turns, j);
    RunsKeepInvariant(states, turns, 0, j);
    var s, now := sys.keyboard, turn.after;
    InvLater(s, sys.clock, now);
    match InputOf(sys.decoder, turn)
    case Partial =>
    case Timeout => DrainFate(s, now, k);
    case Frame(snapshot, touches, leaves) =>
      var m := Snap(s, now, snapshot, touches, leaves);
      FrameFate(s, now, snapshot, touches, leaves, k);
      assert Inv(m, now) && Evolves(s, m) by { SnapKeeps(s, now, snapshot, touches, leaves); }
      ThenDrainFate(s, m, now, k);
  }

  // ---- which key a contact is ----

  // A new contact's entry is made in its turn of the walk, and the rest of the walk leaves it.
  lemma {:induction false} ArrivedFinger(s: State, now: Timespec, snapshot: map<int, MtFinger>, order: seq<int>, p: nat)
    requires forall i, j | 0 <= i < j < |order| :: order[i] != order[j]
    requires forall tid | tid in order :: tid in snapshot
    requires p < |order| && order[p] !in s.fingers
    ensures forall tid | tid in order[..p] :: tid in snapshot
    ensures var r, m := TouchAll(s, now, snapshot, order), TouchAll(s, now, snapshot, order[..p]);
            order[p] in r.fingers && r.fingers[order[p]] == NewFinger(m, now, order[p], snapshot[order[p]])
  {
    var n := |order| - 1;
    var head, tid := order[..n], order[n];
    assert order == head + [tid];
    assert tid in order && forall t | t in head :: t in order;
    assert forall t | t in order[..p] :: t in order;
    if p == n {
      WalkFlag(s, now, snapshot, head);
      assert tid !in head;
    } else {
      ArrivedFinger(s, now, snapshot, head, p);
      assert head[..p] == order[..p];
      TouchFlag(TouchAll(s, now, snapshot, head), now, snapshot, tid);
    }
  }

  // Only a new contact is counted as a use of its tracking id.
  lemma {:induction false} KnownNotCounted(s: State, now: Timespec, snapshot: map<int, MtFinger>,
                                           order: seq<int>, t: int)
    requires forall tid | tid in order :: tid in snapshot
    requires t in s.fingers || t !in order
    ensures Uses(TouchAll(s, now, snapshot, order), t) == Uses(s, t)
    ensures t in s.fingers ==> t in TouchAll(s, now, snapshot, order).fingers
  {
    if order != [] {
      var n := |order| - 1;
      assert order == order[..n] + [order[n]];
      assert forall tid | tid in order[..n] :: tid in order;
      assert order[n] in order;
      KnownNotCounted(s, now, snapshot, order[..n], t);
      TouchCounts(TouchAll(s, now, snapshot, order[..n]), now, order[n], snapshot[order[n]], t);
    }
  }

  lemma TouchCounts(s: State, now: Timespec, tid: int, f: MtFinger, t: int)
    requires t in s.fingers || t != tid
    ensures Uses(Touch(s, now, tid, f), t) == Uses(s, t)
    ensures t in s.fingers ==> t in Touch(s, now, tid, f).fingers
  {
  }

  lemma {:induction false} LeavingNotCounted(s: State, now: Timespec, snapshot: map<int, MtFinger>, order: seq<int>)
    ensures LeaveAll(s, now, snapshot, order).uses == s.uses
  {
    if order != [] {
      LeavingNotCounted(s, now, snapshot, order[..|order| - 1]);
    }
  }

  // The contact is the one at place p of a walk, and has the code its key has with the flag it finds.
  ghost predicate CodeSettledAt(s: State, snapshot: map<int, MtFinger>, touches: seq<int>, p: nat, tid: int,
                                code: int) {
    && p < |touches| && touches[p] == tid && Arrives(s, snapshot, tid)
    && code == ResolveCode(Landing(s, snapshot, tid), FlagAfter(s, snapshot, touches[..p]))
  }

  lemma FrameSettlesCode(s: State, now: Timespec, snapshot: map<int, MtFinger>, touches: seq<int>, leaves: seq<int>,
                         k: Contact)
    requires Inv(s, now) && AdmissibleFrame(s, now, snapshot, touches, leaves)
    requires var m := Snap(s, now, snapshot, touches, leaves);
             !Used(s, k) && Used(m, k) && k.tid in m.fingers && m.fingers[k.tid].startingKey != NO_KEY
    ensures exists p ::
              CodeSettledAt(s, snapshot, touches, p, k.tid, Snap(s, now, snapshot, touches, leaves).fingers[k.tid].code)
  {
    var m1, m := TouchAll(s, now, snapshot, touches), Snap(s, now, snapshot, touches, leaves);
    assert forall tid | tid in touches :: tid in snapshot.Keys;
    LeavingNotCounted(m1, now, snapshot, leaves);
    assert k.tid !in s.fingers && k.tid in touches by {
      if k.tid in s.fingers || k.tid !in touches {
        KnownNotCounted(s, now, snapshot, touches, k.tid);
      }
    }
    var p :| 0 <= p < |touches| && touches[p] == k.tid;
    ArrivedFinger(s, now, snapshot, touches, p);
    assert m.fingers[k.tid] == m1.fingers[k.tid] by { ReportedStay(m1, now, snapshot, leaves); }
    NewFingerIsSettled(s, now, snapshot, touches, p);
    assert CodeSettledAt(s, snapshot, touches, p, k.tid, m.fingers[k.tid].code);
  }

  lemma NewFingerIsSettled(s: State, now: Timespec, snapshot: map<int, MtFinger>, touches: seq<int>, p: nat)
    requires p < |touches| && forall tid | tid in touches[..p + 1] :: tid in snapshot
    requires forall i, j | 0 <= i < j < |touches| :: touches[i] != touches[j]
    requires touches[p] in snapshot && touches[p] !in s.fingers
    ensures forall tid | tid in touches[..p] :: tid in touches[..p + 1]
    ensures var tid, m := touches[p], TouchAll(s, now, snapshot, touches[..p]);
            var d := NewFinger(m, now, tid, snapshot[tid]);
            d.startingKey != NO_KEY ==> CodeSettledAt(s, snapshot, touches, p, tid, d.code)
  {
    assert touches[..p + 1] == touches[..p] + [touches[p]];
    WalkFlag(s, now, snapshot, touches[..p]);
  }

  lemma DrainKeepsKeys(s: State, now: Timespec, tid: int)
    requires Inv(s, now) && tid in Drain(s, now).fingers
    ensures tid in s.fingers && Drain(s, now).uses == s.uses
    ensures var d, d' := s.fingers[tid], Drain(s, now).fingers[tid];
            d'.code == d.code && d'.startingKey == d.startingKey
  {
    DrainIsDecided(s, now);
  }

  /** The key of a contact is settled in the turn it arrives in: it is the key it landed on, with
      its Fn code if the Fn flag was on when the walk of the snapshot came to it. */
  lemma CodeIsSettledOnArrival(states: seq<System>, turns: seq<Turn>, i: nat, k: Contact)
    requires IsRun(states, turns) && Good(states[0]) && i < |turns|
    requires ArrivesIn(states, i, k) && Holds(states[i + 1].keyboard, k)
    ensures states[i].decoder.Valid() && InputOf(states[i].decoder, turns[i]).Frame?
    ensures var s, input := states[i].keyboard, InputOf(states[i].decoder, turns[i]);
            var code := KeyHeld(states[i + 1].keyboard, k);
            exists p :: CodeSettledAt(s, input.snapshot, input.touches, p, k.tid, code)
  {
    var sys, turn := states[i], turns[i];
    assert Follows(states, turns, i);
    RunsKeepInvariant(states, turns, 0, i);
    assert FingerOk(states[i + 1].keyboard, k.tid) by { RunsKeepInvariant(states, turns, 0, i + 1); }
    var s, now := sys.keyboard, turn.after;
    InvLater(s, sys.clock, now);
    match InputOf(sys.decoder, turn)
    case Partial =>
    case Timeout => DrainKeepsKeys(s, now, k.tid);
    case Frame(snapshot, touches, leaves) =>
      var m := Snap(s, now, snapshot, touches, leaves);
      assert Inv(m, now) by { SnapKeeps(s, now, snapshot, touches, leaves); }
      DrainKeepsKeys(m, now, k.tid);
      FrameSettlesCode(s, now, snapshot, touches, leaves, k);
      var p :| CodeSettledAt(s, snapshot, touches, p, k.tid, m.fingers[k.tid].code);
      assert CodeSettledAt(s, snapshot, touches, p, k.tid, KeyHeld(states[i + 1].keyboard, k));
  }

  // ---- all of it ----

  /** The whole life of a contact, over any run. It arrives in one turn and ends in another. From
      then on it has caused, and once 50 ms have passed it has sent, one press of the key settled
      on arrival if its Down was already sent or it went missing, and otherwise nothing. */
  lemma LifeOfContact(states: seq<System>, turns: seq<Turn>, i: nat, j: nat, n: nat, k: Contact)
    requires IsRun(states, turns) && Good(states[0]) && i < j < n < |turns|
    requires ArrivesIn(states, i, k) && EndsIn(states, j, k)
    requires Fires(states[n], turns[n]) && Ns(turns[j].after) + 50_000_000 <= Ns(turns[n].after)
    ensures Holds(states[i + 1].keyboard, k) && states[j].decoder.Valid()
    ensures var sent := Sent(states[n + 1].keyboard, k);
            var pressed := states[j].keyboard.fingers[k.tid].downSent || GoesMissing(states[j], turns[j], k.tid);
            if pressed then
              && |sent| == 2 && sent[0].down && !sent[1].down
              && sent[0].code == sent[1].code == KeyHeld(states[i + 1].keyboard, k)
              && Ns(sent[0].due) == Ns(turns[i].after) + 50_000_000
              && Ns(sent[1].due) == Ns(turns[j].after) + 50_000_000
            else sent == []
  {
    UsedOnceHeld(states, turns, j, k);
    PressIsShifted(states, turns, i, j, j + 1, k);
    PressedIff(states, turns, j, k);
    WhatEndedIsSent(states, turns, j, n, k);
  }

  lemma UsedOnceHeld(states: seq<System>, turns: seq<Turn>, j: nat, k: Contact)
    requires IsRun(states, turns) && Good(states[0]) && j < |turns| && Holds(states[j].keyboard, k)
    ensures Used(states[j + 1].keyboard, k)
  {
    RunsKeepInvariant(states, turns, 0, j);
    InvHeldAreUsed(states[j].keyboard, states[j].clock);
    UsedStaysUsed(states, turns, j, j + 1, k);
  }
}
