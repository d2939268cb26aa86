/** The snapshot and the finger table are hash tables, so their contacts come in an order nobody
    controls. When that order matters, and that otherwise it does not. */
module KeyboardConfluence {
  import opened HashTables
  import opened Reordering
  import opened InputEvents
  import opened Timespecs
  import opened StateMachine
  import opened KeyboardModel
  import opened KeyboardInvariant
  import opened KeyboardSteps
  import opened KeyboardRuns
  import opened KeyboardTheorems

  // ---- what one contact of a snapshot contributes ----

  ghost predicate SlidesOff(s: State, snapshot: map<int, MtFinger>, tid: int) {
    tid in snapshot && Live(s, tid) && !StillOnFirstKey(s.layout, snapshot[tid], s.fingers[tid])
  }

  ghost predicate Arrives(s: State, snapshot: map<int, MtFinger>, tid: int) {
    tid in snapshot && tid !in s.fingers && FindKey(s.layout, snapshot[tid].x, snapshot[tid].y) != NO_KEY
  }

  // The key a new contact lands on.
  ghost function Landing(s: State, snapshot: map<int, MtFinger>, tid: int): Key
    requires Arrives(s, snapshot, tid)
  {
    s.layout[FindKey(s.layout, snapshot[tid].x, snapshot[tid].y)]
  }

  // A new contact that leaves the Fn flag on.
  ghost predicate SetsFn(s: State, snapshot: map<int, MtFinger>, tid: int) {
    Arrives(s, snapshot, tid) && Landing(s, snapshot, tid).code == KEY_FN
  }

  // A new contact whose code depends on the Fn flag.
  ghost predicate ReadsFn(s: State, snapshot: map<int, MtFinger>, tid: int) {
    Arrives(s, snapshot, tid) &&
    Landing(s, snapshot, tid).codeFn != 0 && Landing(s, snapshot, tid).codeFn != Landing(s, snapshot, tid).code
  }

  // A contact that slides off and takes the Fn flag with it.
  ghost predicate DropsFn(s: State, snapshot: map<int, MtFinger>, tid: int) {
    SlidesOff(s, snapshot, tid) && s.fingers[tid].code == KEY_FN
  }

  // No contact reads a flag that another may have changed before it.
  ghost predicate CodesSettled(s: State, snapshot: map<int, MtFinger>) {
    if s.fn then
      !((exists x :: DropsFn(s, snapshot, x)) && (exists y :: ReadsFn(s, snapshot, y)))
    else
      forall x, y | SetsFn(s, snapshot, x) && ReadsFn(s, snapshot, y) :: x == y
  }

  // The flag that remains is the same whichever contact comes last: not both set and dropped,
  // unless a contact that has left drops it afterwards anyway.
  ghost predicate FlagSettled(s: State, snapshot: map<int, MtFinger>) {
    || !((exists x :: DropsFn(s, snapshot, x)) && (exists y :: SetsFn(s, snapshot, y)))
    || exists z :: Missing(s, snapshot, z) && Live(s, z) && s.fingers[z].code == KEY_FN
  }

  // The Fn flag after a walk over some contacts: the last one that sets or drops it decides.
  ghost function FlagAfter(s: State, snapshot: map<int, MtFinger>, order: seq<int>): bool {
    if order == [] then s.fn
    else
      var n := |order| - 1;
      if DropsFn(s, snapshot, order[n]) then false
      else if SetsFn(s, snapshot, order[n]) then true
      else FlagAfter(s, snapshot, order[..n])
  }

  // One contact changes the flag and its own entry, nothing else that a later contact reads.
  lemma TouchFlag(m: State, now: Timespec, snapshot: map<int, MtFinger>, tid: int)
    requires tid in snapshot
    ensures var r := Touch(m, now, tid, snapshot[tid]);
            && r.layout == m.layout && tid in r.fingers
            && r.fn == (if DropsFn(m, snapshot, tid) then false
                        else if SetsFn(m, snapshot, tid) then true else m.fn)
            && (forall t | t != tid :: t in r.fingers <==> t in m.fingers)
            && (forall t | t != tid && t in m.fingers :: r.fingers[t] == m.fingers[t])
  {
  }

  ghost predicate Walked(s: State, snapshot: map<int, MtFinger>, order: seq<int>, r: State) {
    && r.layout == s.layout && r.fn == FlagAfter(s, snapshot, order)
    && (forall t :: t in r.fingers <==> t in s.fingers || t in order)
    && (forall t | t !in order && t in s.fingers :: r.fingers[t] == s.fingers[t])
  }

  /** The flag along any walk. */
  lemma {:induction false} WalkFlag(s: State, now: Timespec, snapshot: map<int, MtFinger>, order: seq<int>)
    requires forall i, j | 0 <= i < j < |order| :: order[i] != order[j]
    requires forall tid | tid in order :: tid in snapshot
    ensures Walked(s, snapshot, order, TouchAll(s, now, snapshot, order))
  {
    if order != [] {
      var n := |order| - 1;
      var head, tid := order[..n], order[n];
      assert order == head + [tid];
      assert tid in order && forall t | t in head :: t in order;
      WalkFlag(s, now, snapshot, head);
      TouchFlag(TouchAll(s, now, snapshot, head), now, snapshot, tid);
      assert tid !in head;
    }
  }

  lemma {:induction false} FlagReason(s: State, snapshot: map<int, MtFinger>, order: seq<int>)
    ensures FlagAfter(s, snapshot, order) != s.fn ==>
              exists t :: t in order && if s.fn then DropsFn(s, snapshot, t) else SetsFn(s, snapshot, t)
  {
    if order != [] {
      var n := |order| - 1;
      FlagReason(s, snapshot, order[..n]);
      assert order[n] in order && forall t | t in order[..n] :: t in order;
    }
  }

  // When the codes are settled, a contact finds the flag as it was, or does not read it.
  lemma FlagUnread(s: State, snapshot: map<int, MtFinger>, order: seq<int>, tid: int)
    requires CodesSettled(s, snapshot) && tid !in order
    ensures FlagAfter(s, snapshot, order) == s.fn || !ReadsFn(s, snapshot, tid)
  {
    FlagReason(s, snapshot, order);
  }

  ghost function TouchEvents(s: State, now: Timespec, snapshot: map<int, MtFinger>): int -> seq<Event> {
    tid =>
      if tid !in snapshot then []
      else if tid !in s.fingers then
        var d := NewFinger(s, now, tid, snapshot[tid]);
        if d.startingKey == NO_KEY then [] else [DownEvent(d)]
      else if SlidesOff(s, snapshot, tid) && s.fingers[tid].downSent then
        [UpEvent(s.fingers[tid].code, now, s.fingers[tid].contact)]
      else []
  }

  function Keep(q: seq<Event>, dead: set<int>): seq<Event> {
    if q == [] then []
    else if q[0].tid in dead then Keep(q[1..], dead)
    else [q[0]] + Keep(q[1..], dead)
  }

  ghost function Dead(s: State, snapshot: map<int, MtFinger>, order: seq<int>): set<int> {
    set tid | tid in order && SlidesOff(s, snapshot, tid)
  }

  lemma {:induction false} EraseKeep(q: seq<Event>, dead: set<int>, tid: int)
    ensures Erase(Keep(q, dead), tid) == Keep(q, dead + {tid})
  {
    if q != [] {
      EraseKeep(q[1..], dead, tid);
      if q[0].tid !in dead {
        assert Keep(q, dead)[1..] == Keep(q[1..], dead);
      }
    }
  }

  lemma {:induction false} EraseConcat(a: seq<Event>, b: seq<Event>, tid: int)
    ensures Erase(a + b, tid) == Erase(a, tid) + Erase(b, tid)
  {
    if a == [] {
      assert a + b == b;
    } else {
      var rest := a[1..];
      EraseConcat(rest, b, tid);
      EraseConcatStep(a[0], rest, b, tid);
      assert a == [a[0]] + rest;
      assert a + b == [a[0]] + (rest + b);
    }
  }

  lemma EraseConcatStep(e: Event, rest: seq<Event>, b: seq<Event>, tid: int)
    requires Erase(rest + b, tid) == Erase(rest, tid) + Erase(b, tid)
    ensures Erase([e] + (rest + b), tid) == Erase([e] + rest, tid) + Erase(b, tid)
  {
    EraseHead(e, rest + b, tid);
    EraseHead(e, rest, tid);
    Assoc([e], Erase(rest, tid), Erase(b, tid));
  }

  lemma EraseHead(e: Event, q: seq<Event>, tid: int)
    ensures Erase([e] + q, tid) == if e.tid == tid then Erase(q, tid) else [e] + Erase(q, tid)
  {
    assert ([e] + q)[1..] == q;
  }

  lemma {:induction false} KeepAll(q: seq<Event>)
    ensures Keep(q, {}) == q
  {
    if q != [] { KeepAll(q[1..]); }
  }

  // ---- the snapshot's contacts, in closed form ----

  ghost predicate TouchedQueue(s: State, now: Timespec, snapshot: map<int, MtFinger>, order: seq<int>, r: State) {
    && r.layout == s.layout && r.trace == s.trace
    && r.pending == Keep(s.pending, Dead(s, snapshot, order)) + Collect(TouchEvents(s, now, snapshot), order)
  }

  ghost predicate TouchedFinger(s: State, now: Timespec, snapshot: map<int, MtFinger>, order: seq<int>,
                                r: State, tid: int) {
    && (tid in r.fingers <==> tid in s.fingers || tid in order)
    && (tid in r.fingers ==>
          if tid in order && tid in snapshot then r.fingers[tid] == Touch(s, now, tid, snapshot[tid]).fingers[tid]
          else tid in s.fingers && r.fingers[tid] == s.fingers[tid])
    && Uses(r, tid) == Uses(s, tid) + (if tid in order && tid !in s.fingers then 1 else 0)
    && (tid in r.uses <==> tid in s.uses || (tid in order && tid !in s.fingers))
  }

  ghost predicate Touched(s: State, now: Timespec, snapshot: map<int, MtFinger>, order: seq<int>, r: State) {
    TouchedQueue(s, now, snapshot, order, r) && forall tid :: TouchedFinger(s, now, snapshot, order, r, tid)
  }

  lemma {:induction false} CollectTids(s: State, now: Timespec, snapshot: map<int, MtFinger>, order: seq<int>)
    ensures forall e | e in Collect(TouchEvents(s, now, snapshot), order) ::
              (e.tid in order && e.tid in snapshot) || e.tid == OLD_TID
    ensures forall e | e in Collect(TouchEvents(s, now, snapshot), order) ::
              e.deadline == AddMs(now, EVENT_DELAY_MS)
  {
    if order != [] {
      var n := |order| - 1;
      CollectTids(s, now, snapshot, order[..n]);
      assert order == order[..n] + [order[n]];
    }
  }

  lemma TouchSlide(s: State, now: Timespec, snapshot: map<int, MtFinger>, m: State, tid: int)
    requires TimesOk(m, now) && m.layout == s.layout && SlidesOff(s, snapshot, tid)
    requires tid in m.fingers && m.fingers[tid] == s.fingers[tid]
    ensures var r := Touch(m, now, tid, snapshot[tid]);
            && r.pending == Erase(m.pending, tid) + TouchEvents(s, now, snapshot)(tid)
            && r.fingers == m.fingers[tid := Touch(s, now, tid, snapshot[tid]).fingers[tid]]
            && r.trace == m.trace && r.uses == m.uses && r.layout == m.layout
  {
    var d := Measure(m.fingers[tid], snapshot[tid]);
    var m1 := m.(fingers := m.fingers[tid := d]);
    var m2 := Reject(m1, tid, MovedOffKey);
    if d.downSent {
      EraseTimes(m, now, tid);
      EnqueueAppends(m2, UpEvent(d.code, now, d.contact), now);
    } else {
      assert Erase(m.pending, tid) + [] == Erase(m.pending, tid);
    }
  }

  lemma EraseTimes(s: State, now: Timespec, tid: int)
    requires TimesOk(s, now)
    ensures TimesOk(s.(pending := Erase(s.pending, tid)), now)
  {
    EraseMembers(s.pending, tid);
    EraseOrdered(s.pending, tid);
  }

  lemma TouchArrive(s: State, now: Timespec, snapshot: map<int, MtFinger>, m: State, tid: int)
    requires TimesOk(m, now) && m.layout == s.layout && Uses(m, tid) == Uses(s, tid)
    requires tid in snapshot && tid !in s.fingers && tid !in m.fingers
    requires m.fn == s.fn || !ReadsFn(s, snapshot, tid)
    ensures var r := Touch(m, now, tid, snapshot[tid]);
            && r.pending == m.pending + TouchEvents(s, now, snapshot)(tid)
            && r.fingers == m.fingers[tid := Touch(s, now, tid, snapshot[tid]).fingers[tid]]
            && r.trace == m.trace && r.layout == m.layout
            && r.uses == m.uses[tid := Uses(s, tid) + 1]
  {
    ArriveAppends(m, now, tid, snapshot[tid]);
    assert NewFinger(m, now, tid, snapshot[tid]) == NewFinger(s, now, tid, snapshot[tid]);
  }

  lemma TouchStay(s: State, now: Timespec, snapshot: map<int, MtFinger>, m: State, tid: int)
    requires m.layout == s.layout
    requires tid in snapshot && tid in s.fingers && tid in m.fingers && m.fingers[tid] == s.fingers[tid]
    requires !SlidesOff(s, snapshot, tid)
    ensures Touch(m, now, tid, snapshot[tid]) ==
            m.(fingers := m.fingers[tid := Touch(s, now, tid, snapshot[tid]).fingers[tid]])
    ensures TouchEvents(s, now, snapshot)(tid) == []
  {
    assert m.fingers[tid := m.fingers[tid]] == m.fingers;
  }

  // The queue after one more contact.
  lemma QueueStep(s: State, now: Timespec, snapshot: map<int, MtFinger>, order: seq<int>, tid: int)
    requires tid !in order && tid != OLD_TID
    ensures var q := Keep(s.pending, Dead(s, snapshot, order)) + Collect(TouchEvents(s, now, snapshot), order);
            Keep(s.pending, Dead(s, snapshot, order + [tid])) + Collect(TouchEvents(s, now, snapshot), order + [tid]) ==
            (if SlidesOff(s, snapshot, tid) then Erase(q, tid) else q) + TouchEvents(s, now, snapshot)(tid)
  {
    var f, dead := TouchEvents(s, now, snapshot), Dead(s, snapshot, order + [tid]);
    CollectSnoc(f, order, tid);
    Assoc(Keep(s.pending, dead), Collect(f, order), f(tid));
    OldPart(s, now, snapshot, order, tid);
  }

  // The part of the queue that comes before the new contact's own events.
  lemma OldPart(s: State, now: Timespec, snapshot: map<int, MtFinger>, order: seq<int>, tid: int)
    requires tid !in order && tid != OLD_TID
    ensures var q := Keep(s.pending, Dead(s, snapshot, order)) + Collect(TouchEvents(s, now, snapshot), order);
            Keep(s.pending, Dead(s, snapshot, order + [tid])) + Collect(TouchEvents(s, now, snapshot), order) ==
            if SlidesOff(s, snapshot, tid) then Erase(q, tid) else q
  {
    DeadSnoc(s, snapshot, order, tid);
    if SlidesOff(s, snapshot, tid) {
      CollectTids(s, now, snapshot, order);
      EraseOld(s.pending, Dead(s, snapshot, order), Collect(TouchEvents(s, now, snapshot), order), tid);
    }
  }

  lemma DeadSnoc(s: State, snapshot: map<int, MtFinger>, order: seq<int>, tid: int)
    ensures Dead(s, snapshot, order + [tid]) ==
            if SlidesOff(s, snapshot, tid) then Dead(s, snapshot, order) + {tid} else Dead(s, snapshot, order)
  {
  }

  // Erasing a tracking id from a queue whose new part does not have it.
  lemma EraseOld(q: seq<Event>, dead: set<int>, news: seq<Event>, tid: int)
    requires forall e | e in news :: e.tid != tid
    ensures Erase(Keep(q, dead) + news, tid) == Keep(q, dead + {tid}) + news
  {
    EraseConcat(Keep(q, dead), news, tid);
    EraseKeep(q, dead, tid);
    EraseNothing(news, tid);
  }

  lemma FingersStep(s: State, now: Timespec, snapshot: map<int, MtFinger>, order: seq<int>, m: State, r: State,
                    tid: int, t: int)
    requires tid in snapshot && tid !in order
    requires TouchedFinger(s, now, snapshot, order, m, t) && TouchedFinger(s, now, snapshot, order, m, tid)
    requires tid in Touch(s, now, tid, snapshot[tid]).fingers
    requires r.fingers == m.fingers[tid := Touch(s, now, tid, snapshot[tid]).fingers[tid]]
    requires r.uses == if tid in s.fingers then m.uses else m.uses[tid := Uses(s, tid) + 1]
    ensures TouchedFinger(s, now, snapshot, order + [tid], r, t)
  {
  }

  // One more contact: its own contribution does not depend on those already taken.
  lemma TouchStep(s: State, now: Timespec, snapshot: map<int, MtFinger>, order: seq<int>, m: State, tid: int)
    requires TimesOk(m, now) && Touched(s, now, snapshot, order, m)
    requires m.fn == s.fn || !ReadsFn(s, snapshot, tid)
    requires tid in snapshot && tid !in order && tid != OLD_TID
    ensures Touched(s, now, snapshot, order + [tid], Touch(m, now, tid, snapshot[tid]))
  {
    assert TouchedFinger(s, now, snapshot, order, m, tid);
    var r := Touch(m, now, tid, snapshot[tid]);
    QueueStep(s, now, snapshot, order, tid);
    if SlidesOff(s, snapshot, tid) {
      TouchSlide(s, now, snapshot, m, tid);
    } else if tid !in s.fingers {
      TouchArrive(s, now, snapshot, m, tid);
    } else {
      TouchStay(s, now, snapshot, m, tid);
      assert m.pending + [] == m.pending;
    }
    forall t ensures TouchedFinger(s, now, snapshot, order + [tid], r, t) {
      FingersStep(s, now, snapshot, order, m, r, tid, t);
    }
  }

  lemma {:induction false} TouchAllTouched(s: State, now: Timespec, snapshot: map<int, MtFinger>, order: seq<int>)
    requires Inv(s, now) && CodesSettled(s, snapshot)
    requires forall i, j | 0 <= i < j < |order| :: order[i] != order[j]
    requires forall tid | tid in order :: tid in snapshot && tid != OLD_TID && (tid !in s.fingers ==> Fresh(s, tid))
    ensures Touched(s, now, snapshot, order, TouchAll(s, now, snapshot, order))
  {
    if order == [] {
      NoneTouched(s, now, snapshot);
    } else {
      var n := |order| - 1;
      var head, tid := order[..n], order[n];
      assert order == head + [tid];
      assert tid in order && forall t | t in head :: t in order;
      TouchAllTouched(s, now, snapshot, head);
      var m := TouchAll(s, now, snapshot, head);
      assert TimesOk(m, now) by { TouchAllKeeps(s, now, snapshot, head); }
      assert m.fn == FlagAfter(s, snapshot, head) by { WalkFlag(s, now, snapshot, head); }
      FlagUnread(s, snapshot, head, tid);
      TouchStep(s, now, snapshot, head, m, tid);
    }
  }

  lemma NoneTouched(s: State, now: Timespec, snapshot: map<int, MtFinger>)
    ensures Touched(s, now, snapshot, [], s)
  {
    KeepAll(s.pending);
    assert Dead(s, snapshot, []) == {};
    assert s.pending + [] == s.pending;
  }

  // ---- the contacts that have left, in closed form ----

  ghost predicate Missing(s: State, snapshot: map<int, MtFinger>, tid: int) {
    tid in s.fingers && tid != OLD_TID && tid !in snapshot
  }

  ghost function LeaveEvents(s: State, now: Timespec, snapshot: map<int, MtFinger>): int -> seq<Event> {
    tid =>
      if Missing(s, snapshot, tid) && Live(s, tid) then
        [UpEvent(s.fingers[tid].code, now, s.fingers[tid].contact)]
      else []
  }

  // The queue with the events of some tracking ids guaranteed.
  function Mark(q: seq<Event>, tids: set<int>): (r: seq<Event>)
    ensures |r| == |q|
    ensures forall i | 0 <= i < |q| :: r[i] == if q[i].tid in tids then q[i].(guaranteed := true) else q[i]
  {
    seq(|q|, i requires 0 <= i < |q| => if q[i].tid in tids then q[i].(guaranteed := true) else q[i])
  }

  ghost function Gone(s: State, snapshot: map<int, MtFinger>, order: seq<int>): set<int> {
    set tid | tid in order && Missing(s, snapshot, tid) && Live(s, tid) && !s.fingers[tid].downSent
  }

  ghost predicate FnLeaves(s: State, snapshot: map<int, MtFinger>, order: seq<int>) {
    exists tid :: tid in order && Missing(s, snapshot, tid) && Live(s, tid) && s.fingers[tid].code == KEY_FN
  }

  ghost predicate Left(s: State, now: Timespec, snapshot: map<int, MtFinger>, order: seq<int>, r: State) {
    && r.layout == s.layout && r.trace == s.trace && r.uses == s.uses
    && (r.fn <==> s.fn && !FnLeaves(s, snapshot, order))
    && r.pending == Mark(s.pending, Gone(s, snapshot, order)) + Collect(LeaveEvents(s, now, snapshot), order)
    && (forall tid :: tid in r.fingers <==> tid in s.fingers && !(tid in order && Missing(s, snapshot, tid)))
    && (forall tid | tid in r.fingers :: r.fingers[tid] == s.fingers[tid])
  }

  lemma {:induction false} LeaveEventsAreUps(s: State, now: Timespec, snapshot: map<int, MtFinger>, order: seq<int>)
    ensures forall e | e in Collect(LeaveEvents(s, now, snapshot), order) ::
              e.tid == OLD_TID && e.deadline == AddMs(now, EVENT_DELAY_MS)
  {
    if order != [] {
      LeaveEventsAreUps(s, now, snapshot, order[..|order| - 1]);
    }
  }

  // Guaranteeing the one event of a contact that is leaving, in a queue that already has the
  // marks and the Ups of the contacts before it.
  lemma GuaranteeMarked(q: seq<Event>, tids: set<int>, ups: seq<Event>, tid: int)
    requires forall i, j | 0 <= i < |q| && 0 <= j < |q| && q[i].tid == q[j].tid == tid :: i == j
    requires forall e | e in ups :: e.tid == OLD_TID
    requires tid != OLD_TID
    ensures Guarantee(Mark(q, tids) + ups, tid) == Mark(q, tids + {tid}) + ups
  {
    var marked := Mark(q, tids);
    var i := FirstOf(q, tid);
    if i < |q| {
      MarkOne(q, tids, tid, i);
      assert (marked + ups)[i] == marked[i];
      FirstIs(marked + ups, tid, i);
      UpdateFront(marked, ups, i, marked[i].(guaranteed := true));
    } else {
      assert Mark(q, tids + {tid}) == marked;
      FirstIs(marked + ups, tid, |q| + |ups|);
    }
  }

  lemma MarkOne(q: seq<Event>, tids: set<int>, tid: int, i: nat)
    requires i < |q| && q[i].tid == tid
    requires forall j | 0 <= j < |q| && q[j].tid == tid :: j == i
    ensures Mark(q, tids + {tid}) == Mark(q, tids)[i := Mark(q, tids)[i].(guaranteed := true)]
  {
  }

  lemma FirstIs(q: seq<Event>, tid: int, i: nat)
    requires i <= |q| && forall j | 0 <= j < i :: q[j].tid != tid
    requires i < |q| ==> q[i].tid == tid
    ensures FirstOf(q, tid) == i
  {
  }

  lemma UpdateFront(a: seq<Event>, b: seq<Event>, i: nat, e: Event)
    requires i < |a|
    ensures (a + b)[i := e] == a[i := e] + b
  {
  }

  lemma {:induction false} LeaveQueueStep(s: State, now: Timespec, snapshot: map<int, MtFinger>,
                                            order: seq<int>, tid: int)
    requires tid != OLD_TID
    requires Missing(s, snapshot, tid) && Live(s, tid) && !s.fingers[tid].downSent ==>
               forall i, j | 0 <= i < |s.pending| && 0 <= j < |s.pending|
                 && s.pending[i].tid == s.pending[j].tid == tid :: i == j
    ensures var q := Mark(s.pending, Gone(s, snapshot, order)) + Collect(LeaveEvents(s, now, snapshot), order);
            var marks := Missing(s, snapshot, tid) && Live(s, tid) && !s.fingers[tid].downSent;
            Mark(s.pending, Gone(s, snapshot, order + [tid])) + Collect(LeaveEvents(s, now, snapshot), order + [tid]) ==
            (if marks then Guarantee(q, tid) else q) + LeaveEvents(s, now, snapshot)(tid)
  {
    var f, gone := LeaveEvents(s, now, snapshot), Gone(s, snapshot, order + [tid]);
    CollectSnoc(f, order, tid);
    Assoc(Mark(s.pending, gone), Collect(f, order), f(tid));
    GoneSnoc(s, snapshot, order, tid);
    if Missing(s, snapshot, tid) && Live(s, tid) && !s.fingers[tid].downSent {
      LeaveEventsAreUps(s, now, snapshot, order);
      GuaranteeMarked(s.pending, Gone(s, snapshot, order), Collect(f, order), tid);
    }
  }

  lemma GoneSnoc(s: State, snapshot: map<int, MtFinger>, order: seq<int>, tid: int)
    ensures var marks := Missing(s, snapshot, tid) && Live(s, tid) && !s.fingers[tid].downSent;
            Gone(s, snapshot, order + [tid]) ==
            if marks then Gone(s, snapshot, order) + {tid} else Gone(s, snapshot, order)
  {
  }

  // What a step of the walk does, given the state the walk started from.
  lemma LeaveOne(m: State, now: Timespec, snapshot: map<int, MtFinger>, tid: int)
    requires Inv(m, now)
    ensures LeftOne(m, now, snapshot, tid, LeaveIfMissing(m, now, snapshot, tid))
  {
    if Missing(m, snapshot, tid) && Live(m, tid) {
      LeaveEnds(m, now, tid);
    }
    assert m.pending + [] == m.pending;
  }

  lemma OnlyOnePending(s: State, now: Timespec, tid: int, i: nat, j: nat)
    requires Inv(s, now) && Live(s, tid) && i < |s.pending| && j < |s.pending|
    requires s.pending[i].tid == s.pending[j].tid == tid
    ensures i == j
  {
    QueueMirrorsFingers(s, now, tid);
    PendingOfLive(s, tid, s.pending[i]);
  }

  lemma LeaveStep(s: State, now: Timespec, snapshot: map<int, MtFinger>, order: seq<int>, m: State, r: State, tid: int)
    requires Left(s, now, snapshot, order, m) && tid !in order && tid != OLD_TID
    requires r.layout == m.layout && r.trace == m.trace && r.uses == m.uses
    requires r.fingers == (if Missing(s, snapshot, tid) then m.fingers - {tid} else m.fingers)
    requires r.fn <==> m.fn && !(Missing(s, snapshot, tid) && Live(s, tid) && s.fingers[tid].code == KEY_FN)
    requires r.pending ==
             Mark(s.pending, Gone(s, snapshot, order + [tid])) + Collect(LeaveEvents(s, now, snapshot), order + [tid])
    ensures Left(s, now, snapshot, order + [tid], r)
  {
    assert FnLeaves(s, snapshot, order + [tid]) <==>
           || FnLeaves(s, snapshot, order)
           || (Missing(s, snapshot, tid) && Live(s, tid) && s.fingers[tid].code == KEY_FN) by {
      if FnLeaves(s, snapshot, order) {
        var t :| t in order && Missing(s, snapshot, t) && Live(s, t) && s.fingers[t].code == KEY_FN;
        assert t in order + [tid];
      }
      assert tid in order + [tid];
    }
  }

  lemma {:induction false} LeaveAllLeft(s: State, now: Timespec, snapshot: map<int, MtFinger>, order: seq<int>)
    requires Inv(s, now)
    requires forall i, j | 0 <= i < j < |order| :: order[i] != order[j]
    requires forall tid | tid in order :: tid != OLD_TID
    ensures Left(s, now, snapshot, order, LeaveAll(s, now, snapshot, order))
  {
    if order == [] {
      NoneLeft(s, now, snapshot);
    } else {
      var n := |order| - 1;
      var head, tid := order[..n], order[n];
      assert order == head + [tid];
      assert tid in order && forall t | t in head :: t in order;
      LeaveAllLeft(s, now, snapshot, head);
      var m := LeaveAll(s, now, snapshot, head);
      assert LeftOne(m, now, snapshot, tid, LeaveIfMissing(m, now, snapshot, tid)) by {
        LeaveAllKeeps(s, now, snapshot, head);
        LeaveOne(m, now, snapshot, tid);
      }
      NoTwoPending(s, now, tid);
      LeaveQueueStep(s, now, snapshot, head, tid);
      LeaveNext(s, now, snapshot, head, m, tid);
    }
  }

  lemma NoTwoPending(s: State, now: Timespec, tid: int)
    requires Inv(s, now)
    ensures Live(s, tid) ==>
              forall i, j | 0 <= i < |s.pending| && 0 <= j < |s.pending|
                && s.pending[i].tid == s.pending[j].tid == tid :: i == j
  {
    forall i, j | 0 <= i < |s.pending| && 0 <= j < |s.pending|
      && Live(s, tid) && s.pending[i].tid == s.pending[j].tid == tid
      ensures i == j {
      OnlyOnePending(s, now, tid, i, j);
    }
  }

  ghost predicate LeftOne(m: State, now: Timespec, snapshot: map<int, MtFinger>, tid: int, r: State) {
    var missing := Missing(m, snapshot, tid);
    && r.layout == m.layout && r.trace == m.trace && r.uses == m.uses
    && r.fingers == (if missing then m.fingers - {tid} else m.fingers)
    && (r.fn <==> m.fn && !(missing && Live(m, tid) && m.fingers[tid].code == KEY_FN))
    && r.pending ==
       (if missing && Live(m, tid) && !m.fingers[tid].downSent then Guarantee(m.pending, tid) else m.pending)
                    + LeaveEvents(m, now, snapshot)(tid)
  }

  // A contact not yet walked looks the same as at the start of the walk.
  lemma LeaveNext(s: State, now: Timespec, snapshot: map<int, MtFinger>, head: seq<int>, m: State, tid: int)
    requires Left(s, now, snapshot, head, m) && tid !in head && tid != OLD_TID
    requires LeftOne(m, now, snapshot, tid, LeaveIfMissing(m, now, snapshot, tid))
    requires var marks := Missing(s, snapshot, tid) && Live(s, tid) && !s.fingers[tid].downSent;
             Mark(s.pending, Gone(s, snapshot, head + [tid])) + Collect(LeaveEvents(s, now, snapshot), head + [tid]) ==
             (if marks then Guarantee(m.pending, tid) else m.pending) + LeaveEvents(s, now, snapshot)(tid)
    ensures Left(s, now, snapshot, head + [tid], LeaveIfMissing(m, now, snapshot, tid))
  {
    assert Missing(m, snapshot, tid) <==> Missing(s, snapshot, tid);
    LeaveStep(s, now, snapshot, head, m, LeaveIfMissing(m, now, snapshot, tid), tid);
  }

  lemma NoneLeft(s: State, now: Timespec, snapshot: map<int, MtFinger>)
    ensures Left(s, now, snapshot, [], s)
  {
    assert Gone(s, snapshot, []) == {};
    assert Mark(s.pending, {}) == s.pending;
    assert s.pending + [] == s.pending;
  }

  // ---- any order will do ----

  // Two queues that agree but for the order of events at the end that share a deadline.
  ghost predicate SameUpToTies(q1: seq<Event>, q2: seq<Event>, deadline: Timespec) {
    exists base: seq<Event>, t1: seq<Event>, t2: seq<Event> ::
      && q1 == base + t1 && q2 == base + t2 && multiset(t1) == multiset(t2)
      && forall e | e in t1 :: e.deadline == deadline
  }

  ghost predicate SameButForTies(a: State, b: State, deadline: Timespec) {
    && a.layout == b.layout && a.fingers == b.fingers && a.fn == b.fn && a.uses == b.uses && a.trace == b.trace
    && SameUpToTies(a.pending, b.pending, deadline)
  }

  lemma TouchOrders(s: State, now: Timespec, snapshot: map<int, MtFinger>, a: seq<int>, b: seq<int>)
    requires Inv(s, now) && CodesSettled(s, snapshot)
    requires Lists(a, snapshot.Keys) && Lists(b, snapshot.Keys)
    requires forall tid | tid in snapshot :: tid != OLD_TID && (tid !in s.fingers ==> Fresh(s, tid))
    ensures var base, f := Keep(s.pending, Dead(s, snapshot, a)), TouchEvents(s, now, snapshot);
            var m1, m2 := TouchAll(s, now, snapshot, a), TouchAll(s, now, snapshot, b);
            && m1.pending == base + Collect(f, a) && m2.pending == base + Collect(f, b)
            && m2 == m1.(pending := m2.pending, fn := m2.fn)
            && multiset(Collect(f, a)) == multiset(Collect(f, b))
  {
    TouchAllTouched(s, now, snapshot, a);
    TouchAllTouched(s, now, snapshot, b);
    CombineTouched(s, now, snapshot, a, b, TouchAll(s, now, snapshot, a), TouchAll(s, now, snapshot, b));
  }

  lemma CombineTouched(s: State, now: Timespec, snapshot: map<int, MtFinger>, a: seq<int>, b: seq<int>,
                       m1: State, m2: State)
    requires Touched(s, now, snapshot, a, m1) && Touched(s, now, snapshot, b, m2)
    requires Lists(a, snapshot.Keys) && Lists(b, snapshot.Keys)
    ensures var base, f := Keep(s.pending, Dead(s, snapshot, a)), TouchEvents(s, now, snapshot);
            && m1.pending == base + Collect(f, a) && m2.pending == base + Collect(f, b)
            && m2 == m1.(pending := m2.pending, fn := m2.fn)
            && multiset(Collect(f, a)) == multiset(Collect(f, b))
  {
    CollectAnyOrder(TouchEvents(s, now, snapshot), a, b, snapshot.Keys);
    assert forall tid :: tid in a <==> tid in b;
    assert Dead(s, snapshot, a) == Dead(s, snapshot, b);
    SameTables(s, now, snapshot, a, b, m1, m2);
  }

  lemma SameTables(s: State, now: Timespec, snapshot: map<int, MtFinger>, a: seq<int>, b: seq<int>,
                   m1: State, m2: State)
    requires forall tid :: tid in a <==> tid in b
    requires forall tid :: TouchedFinger(s, now, snapshot, a, m1, tid) && TouchedFinger(s, now, snapshot, b, m2, tid)
    ensures m1.fingers == m2.fingers && m1.uses == m2.uses
  {
    forall tid ensures tid in m1.fingers <==> tid in m2.fingers
      ensures tid in m1.fingers ==> m1.fingers[tid] == m2.fingers[tid]
      ensures tid in m1.uses <==> tid in m2.uses
      ensures tid in m1.uses ==> m1.uses[tid] == m2.uses[tid]
    {
      assert TouchedFinger(s, now, snapshot, a, m1, tid) && TouchedFinger(s, now, snapshot, b, m2, tid);
      assert Uses(m1, tid) == Uses(m2, tid);
    }
  }

  // Walks of the finger table that start from states differing only in new events and, if a
  // contact that has left drops it, in the Fn flag.
  lemma LeaveOrders(m1: State, m2: State, now: Timespec, snapshot: map<int, MtFinger>, c: seq<int>, d: seq<int>,
                    base: seq<Event>, n1: seq<Event>, n2: seq<Event>)
    requires Inv(m1, now) && Inv(m2, now) && m2 == m1.(pending := m2.pending, fn := m2.fn)
    requires m1.fn == m2.fn || FnLeaves(m1, snapshot, c)
    requires m1.pending == base + n1 && m2.pending == base + n2 && multiset(n1) == multiset(n2)
    requires forall e | e in n1 :: (e.tid in snapshot || e.tid == OLD_TID) && e.deadline == AddMs(now, EVENT_DELAY_MS)
    requires Lists(c, m1.fingers.Keys) && Lists(d, m1.fingers.Keys)
    ensures SameButForTies(LeaveAll(m1, now, snapshot, c), LeaveAll(m2, now, snapshot, d), AddMs(now, EVENT_DELAY_MS))
  {
    assert forall tid | tid in m1.fingers :: FingerOk(m1, tid);
    LeaveAllLeft(m1, now, snapshot, c);
    LeaveAllLeft(m2, now, snapshot, d);
    CombineLeft(m1, m2, now, snapshot, c, d, base, n1, n2,
                LeaveAll(m1, now, snapshot, c), LeaveAll(m2, now, snapshot, d));
  }

  lemma CombineLeft(m1: State, m2: State, now: Timespec, snapshot: map<int, MtFinger>, c: seq<int>, d: seq<int>,
                    base: seq<Event>, n1: seq<Event>, n2: seq<Event>, r1: State, r2: State)
    requires Left(m1, now, snapshot, c, r1) && Left(m2, now, snapshot, d, r2)
    requires m2 == m1.(pending := m2.pending, fn := m2.fn)
    requires m1.fn == m2.fn || FnLeaves(m1, snapshot, c)
    requires m1.pending == base + n1 && m2.pending == base + n2 && multiset(n1) == multiset(n2)
    requires forall e | e in n1 :: (e.tid in snapshot || e.tid == OLD_TID) && e.deadline == AddMs(now, EVENT_DELAY_MS)
    requires Lists(c, m1.fingers.Keys) && Lists(d, m1.fingers.Keys)
    ensures SameButForTies(r1, r2, AddMs(now, EVENT_DELAY_MS))
  {
    var f, gone := LeaveEvents(m1, now, snapshot), Gone(m1, snapshot, c);
    SameGone(m1, m2, snapshot, c, d);
    SameFingers(m1, m2, now, snapshot, c, d, r1, r2);
    CollectAnyOrder(f, c, d, m1.fingers.Keys);
    SameLeaveEvents(m1, m2, now, snapshot, d);
    LeaveEventsAreUps(m1, now, snapshot, c);
    QueuesTie(base, n1, n2, Collect(f, c), Collect(f, d), gone, AddMs(now, EVENT_DELAY_MS));
  }

  lemma SameFingers(m1: State, m2: State, now: Timespec, snapshot: map<int, MtFinger>, c: seq<int>, d: seq<int>,
                    r1: State, r2: State)
    requires Left(m1, now, snapshot, c, r1) && Left(m2, now, snapshot, d, r2) && m1.fingers == m2.fingers
    requires forall tid :: tid in c <==> tid in d
    ensures r1.fingers == r2.fingers
  {
    forall tid ensures tid in r1.fingers <==> tid in r2.fingers {
      assert Missing(m1, snapshot, tid) <==> Missing(m2, snapshot, tid);
    }
    assert r1.fingers.Keys == r2.fingers.Keys;
    forall tid | tid in r1.fingers ensures r1.fingers[tid] == r2.fingers[tid] {
      assert r1.fingers[tid] == m1.fingers[tid] && r2.fingers[tid] == m2.fingers[tid];
    }
  }

  lemma TiesShown(base: seq<Event>, n1: seq<Event>, n2: seq<Event>, u1: seq<Event>, u2: seq<Event>, deadline: Timespec)
    requires multiset(n1) == multiset(n2) && multiset(u1) == multiset(u2)
    requires forall e | e in n1 :: e.deadline == deadline
    requires forall e | e in u1 :: e.deadline == deadline
    ensures SameUpToTies(base + n1 + u1, base + n2 + u2, deadline)
  {
    var t1, t2 := n1 + u1, n2 + u2;
    assert base + n1 + u1 == base + t1;
    assert base + n2 + u2 == base + t2;
    assert multiset(t1) == multiset(t2);
  }

  lemma QueuesTie(base: seq<Event>, n1: seq<Event>, n2: seq<Event>, u1: seq<Event>, u2: seq<Event>,
                  gone: set<int>, deadline: Timespec)
    requires multiset(n1) == multiset(n2) && multiset(u1) == multiset(u2)
    requires forall e | e in n1 :: e.tid !in gone && e.deadline == deadline
    requires forall e | e in u1 :: e.deadline == deadline
    ensures SameUpToTies(Mark(base + n1, gone) + u1, Mark(base + n2, gone) + u2, deadline)
  {
    forall e | e in n2 ensures e in n1 {
      assert e in multiset(n2);
    }
    MarkTail(base, n1, gone);
    MarkTail(base, n2, gone);
    TiesShown(Mark(base, gone), n1, n2, u1, u2, deadline);
  }

  lemma SameGone(m1: State, m2: State, snapshot: map<int, MtFinger>, c: seq<int>, d: seq<int>)
    requires m1.fingers == m2.fingers && forall tid :: tid in m1.fingers.Keys <==> tid in c
    requires forall tid :: tid in m1.fingers.Keys <==> tid in d
    ensures Gone(m1, snapshot, c) == Gone(m2, snapshot, d)
    ensures FnLeaves(m1, snapshot, c) <==> FnLeaves(m2, snapshot, d)
  {
    assert forall tid :: Missing(m1, snapshot, tid) <==> Missing(m2, snapshot, tid);
    assert forall tid :: Live(m1, tid) <==> Live(m2, tid);
  }

  lemma {:induction false} SameLeaveEvents(m1: State, m2: State, now: Timespec, snapshot: map<int, MtFinger>,
                                             order: seq<int>)
    requires m1.fingers == m2.fingers
    ensures Collect(LeaveEvents(m1, now, snapshot), order) == Collect(LeaveEvents(m2, now, snapshot), order)
  {
    if order != [] {
      SameLeaveEvents(m1, m2, now, snapshot, order[..|order| - 1]);
    }
  }

  lemma MarkTail(base: seq<Event>, tail: seq<Event>, tids: set<int>)
    requires forall e | e in tail :: e.tid !in tids
    ensures Mark(base + tail, tids) == Mark(base, tids) + tail
  {
  }

  // ---- when the order matters ----

  // Two walks of a snapshot may end differently: in some contact's code, or in the Fn flag.
  ghost predicate OrderMatters(s: State, snapshot: map<int, MtFinger>) {
    !CodesSettled(s, snapshot) || !FlagSettled(s, snapshot)
  }

  // The flag after a whole walk, when it is not both set and dropped.
  lemma FlagAtEnd(s: State, snapshot: map<int, MtFinger>, order: seq<int>)
    requires forall tid | tid in snapshot :: tid in order
    requires !((exists x :: DropsFn(s, snapshot, x)) && (exists y :: SetsFn(s, snapshot, y)))
    ensures FlagAfter(s, snapshot, order) ==
            if exists x :: DropsFn(s, snapshot, x) then false
            else if exists y :: SetsFn(s, snapshot, y) then true else s.fn
  {
    if x :| DropsFn(s, snapshot, x) {
      DroppedFrom(s, snapshot, order, x);
    } else if y :| SetsFn(s, snapshot, y) {
      SetFrom(s, snapshot, order, y);
    } else {
      FlagReason(s, snapshot, order);
    }
  }

  lemma {:induction false} DroppedFrom(s: State, snapshot: map<int, MtFinger>, order: seq<int>, x: int)
    requires x in order && DropsFn(s, snapshot, x) && forall y :: !SetsFn(s, snapshot, y)
    ensures !FlagAfter(s, snapshot, order)
  {
    var n := |order| - 1;
    if order[n] != x {
      assert order == order[..n] + [order[n]];
      DroppedFrom(s, snapshot, order[..n], x);
    }
  }

  lemma {:induction false} SetFrom(s: State, snapshot: map<int, MtFinger>, order: seq<int>, y: int)
    requires y in order && SetsFn(s, snapshot, y) && forall x :: !DropsFn(s, snapshot, x)
    ensures FlagAfter(s, snapshot, order)
  {
    var n := |order| - 1;
    if order[n] != y {
      assert order == order[..n] + [order[n]];
      SetFrom(s, snapshot, order[..n], y);
    }
  }

  // The contacts that have left are those of the state before the snapshot.
  lemma LeaversUntouched(s: State, snapshot: map<int, MtFinger>, a: seq<int>, m: State, c: seq<int>)
    requires Walked(s, snapshot, a, m) && Lists(a, snapshot.Keys) && Lists(c, m.fingers.Keys)
    ensures FnLeaves(m, snapshot, c) <==>
            exists z :: Missing(s, snapshot, z) && Live(s, z) && s.fingers[z].code == KEY_FN
  {
    forall z ensures Missing(m, snapshot, z) <==> Missing(s, snapshot, z)
      ensures Missing(s, snapshot, z) ==> m.fingers[z] == s.fingers[z] && z in c {
      assert z in a <==> z in snapshot.Keys;
      assert z in c <==> z in m.fingers.Keys;
    }
    if z :| Missing(s, snapshot, z) && Live(s, z) && s.fingers[z].code == KEY_FN {
      assert z in c && Missing(m, snapshot, z) && Live(m, z) && m.fingers[z].code == KEY_FN;
    }
    if FnLeaves(m, snapshot, c) {
      var z :| z in c && Missing(m, snapshot, z) && Live(m, z) && m.fingers[z].code == KEY_FN;
      assert Missing(s, snapshot, z) && Live(s, z) && s.fingers[z].code == KEY_FN;
    }
  }

  /** Confluence: unless the order matters, the fingers, the Fn flag and the queue come out the
      same whichever way the hash tables are walked, but for the order of the new events, which
      share a deadline. */
  lemma SnapshotOrderIrrelevant(s: State, now: Timespec, snapshot: map<int, MtFinger>,
                                a: seq<int>, c: seq<int>, b: seq<int>, d: seq<int>)
    requires Inv(s, now) && !OrderMatters(s, snapshot)
    requires AdmissibleFrame(s, now, snapshot, a, c) && AdmissibleFrame(s, now, snapshot, b, d)
    ensures SameButForTies(Snap(s, now, snapshot, a, c), Snap(s, now, snapshot, b, d), AddMs(now, EVENT_DELAY_MS))
  {
    var m1, m2 := TouchAll(s, now, snapshot, a), TouchAll(s, now, snapshot, b);
    var base, f := Keep(s.pending, Dead(s, snapshot, a)), TouchEvents(s, now, snapshot);
    TouchOrders(s, now, snapshot, a, b);
    CollectTids(s, now, snapshot, a);
    FlagsAgree(s, now, snapshot, a, c, b);
    assert Inv(m1, now) && Inv(m2, now) by {
      TouchAllKeeps(s, now, snapshot, a);
      TouchAllKeeps(s, now, snapshot, b);
    }
    LeaveOrders(m1, m2, now, snapshot, c, d, base, Collect(f, a), Collect(f, b));
  }

  lemma FlagsAgree(s: State, now: Timespec, snapshot: map<int, MtFinger>, a: seq<int>, c: seq<int>, b: seq<int>)
    requires FlagSettled(s, snapshot)
    requires Lists(a, snapshot.Keys) && Lists(b, snapshot.Keys)
    requires Lists(c, TouchAll(s, now, snapshot, a).fingers.Keys)
    ensures var m1, m2 := TouchAll(s, now, snapshot, a), TouchAll(s, now, snapshot, b);
            m1.fn == m2.fn || FnLeaves(m1, snapshot, c)
  {
    WalkFlag(s, now, snapshot, a);
    WalkFlag(s, now, snapshot, b);
    LeaversUntouched(s, snapshot, a, TouchAll(s, now, snapshot, a), c);
    forall tid | tid in snapshot ensures tid in a && tid in b {
      assert tid in snapshot.Keys;
    }
    if !((exists x :: DropsFn(s, snapshot, x)) && (exists y :: SetsFn(s, snapshot, y))) {
      FlagAtEnd(s, snapshot, a);
      FlagAtEnd(s, snapshot, b);
    }
  }

  // ---- walks that end differently ----

  ghost predicate Reportable(s: State, snapshot: map<int, MtFinger>) {
    forall tid | tid in snapshot :: tid != OLD_TID && (tid !in s.fingers ==> Fresh(s, tid))
  }

  ghost predicate EndDifferently(s: State, now: Timespec, snapshot: map<int, MtFinger>,
                                 a: seq<int>, c: seq<int>, b: seq<int>, d: seq<int>) {
    && AdmissibleFrame(s, now, snapshot, a, c) && AdmissibleFrame(s, now, snapshot, b, d)
    && !SameButForTies(Snap(s, now, snapshot, a, c), Snap(s, now, snapshot, b, d), AddMs(now, EVENT_DELAY_MS))
  }

  // The code of a new contact is decided by the flag when its turn comes.
  lemma {:induction false} ArrivedCode(s: State, now: Timespec, snapshot: map<int, MtFinger>, order: seq<int>, p: nat)
    requires forall i, j | 0 <= i < j < |order| :: order[i] != order[j]
    requires forall tid | tid in order :: tid in snapshot
    requires p < |order| && Arrives(s, snapshot, order[p])
    ensures var r := TouchAll(s, now, snapshot, order);
            && order[p] in r.fingers
            && r.fingers[order[p]].code ==
               ResolveCode(Landing(s, snapshot, order[p]), FlagAfter(s, snapshot, order[..p]))
  {
    var n := |order| - 1;
    var head, tid := order[..n], order[n];
    assert order == head + [tid];
    assert tid in order && forall t | t in head :: t in order;
    if p == n {
      WalkFlag(s, now, snapshot, head);
      assert tid !in head;
    } else {
      ArrivedCode(s, now, snapshot, head, p);
      assert head[..p] == order[..p];
      TouchFlag(TouchAll(s, now, snapshot, head), now, snapshot, tid);
    }
  }

  lemma {:induction false} ReportedStay(m: State, now: Timespec, snapshot: map<int, MtFinger>, order: seq<int>)
    ensures forall t | t in m.fingers && t in snapshot ::
              t in LeaveAll(m, now, snapshot, order).fingers &&
              LeaveAll(m, now, snapshot, order).fingers[t] == m.fingers[t]
  {
    if order != [] {
      ReportedStay(m, now, snapshot, order[..|order| - 1]);
    }
  }

  // Two walks in which a contact that reads the flag finds it on and off.
  lemma CodesDiffer(s: State, now: Timespec, snapshot: map<int, MtFinger>, a: seq<int>, c: seq<int>,
                    b: seq<int>, d: seq<int>, p: nat, q: nat)
    requires AdmissibleFrame(s, now, snapshot, a, c) && AdmissibleFrame(s, now, snapshot, b, d)
    requires p < |a| && q < |b| && a[p] == b[q] && ReadsFn(s, snapshot, a[p])
    requires FlagAfter(s, snapshot, a[..p]) != FlagAfter(s, snapshot, b[..q])
    ensures EndDifferently(s, now, snapshot, a, c, b, d)
  {
    var m1, m2 := TouchAll(s, now, snapshot, a), TouchAll(s, now, snapshot, b);
    ArrivedCode(s, now, snapshot, a, p);
    ArrivedCode(s, now, snapshot, b, q);
    ReportedStay(m1, now, snapshot, c);
    ReportedStay(m2, now, snapshot, d);
    assert m1.fingers[a[p]].code != m2.fingers[a[p]].code;
  }

  // The contact comes first in one walk, and second, after one that changes the flag, in another.
  lemma ReadFirstOrSecond(s: State, now: Timespec, snapshot: map<int, MtFinger>, z: int, x: int)
    requires Reportable(s, snapshot) && z in snapshot && z != x && ReadsFn(s, snapshot, x)
    requires FlagAfter(s, snapshot, [z]) != s.fn
    ensures exists a, c, b, d :: EndDifferently(s, now, snapshot, a, c, b, d)
  {
    WalkBeginningWith(s, now, snapshot, [x]);
    WalkBeginningWith(s, now, snapshot, [z, x]);
    var a, c :| AdmissibleFrame(s, now, snapshot, a, c) && [x] <= a;
    var b, d :| AdmissibleFrame(s, now, snapshot, b, d) && [z, x] <= b;
    assert a[..0] == [] && b[..1] == [z];
    CodesDiffer(s, now, snapshot, a, c, b, d, 0, 1);
  }

  lemma SomeLeaves(s: State, now: Timespec, snapshot: map<int, MtFinger>, a: seq<int>)
    requires Reportable(s, snapshot) && Lists(a, snapshot.Keys)
    ensures exists c :: AdmissibleFrame(s, now, snapshot, a, c)
  {
    var known := TouchAll(s, now, snapshot, a).fingers.Keys;
    SomeWalk(known);
    var c: seq<int> :| Lists(c, known);
    assert AdmissibleFrame(s, now, snapshot, a, c);
  }

  lemma WalkBeginningWith(s: State, now: Timespec, snapshot: map<int, MtFinger>, front: seq<int>)
    requires Reportable(s, snapshot) && forall x | x in front :: x in snapshot
    requires forall i, j | 0 <= i < j < |front| :: front[i] != front[j]
    ensures exists a, c :: AdmissibleFrame(s, now, snapshot, a, c) && front <= a
  {
    var rest := snapshot.Keys - (set x | x in front);
    SomeWalk(rest);
    var w: seq<int> :| Lists(w, rest);
    var a := front + w;
    assert forall x | x in front :: x in snapshot.Keys;
    WalkFrom(front, w, snapshot.Keys);
    SomeLeaves(s, now, snapshot, a);
  }

  lemma WalkEndingWith(s: State, now: Timespec, snapshot: map<int, MtFinger>, y: int)
    requires Reportable(s, snapshot) && y in snapshot
    ensures exists a, c :: AdmissibleFrame(s, now, snapshot, a, c) && a != [] && a[|a| - 1] == y
  {
    SomeWalk(snapshot.Keys - {y});
    var w: seq<int> :| Lists(w, snapshot.Keys - {y});
    var a := w + [y];
    ListsNext(w, snapshot.Keys, {y}, y);
    assert snapshot.Keys - ({y} - {y}) == snapshot.Keys;
    SomeLeaves(s, now, snapshot, a);
  }

  // The last contact sets the flag in one walk and drops it in another, and no contact that has
  // left drops it afterwards.
  lemma SetOrDroppedLast(s: State, now: Timespec, snapshot: map<int, MtFinger>, z: int, y: int)
    requires Inv(s, now) && Reportable(s, snapshot)
    requires DropsFn(s, snapshot, z) && SetsFn(s, snapshot, y) && !FlagSettled(s, snapshot)
    ensures exists a, c, b, d :: EndDifferently(s, now, snapshot, a, c, b, d)
  {
    WalkEndingWith(s, now, snapshot, y);
    WalkEndingWith(s, now, snapshot, z);
    var a, c :| AdmissibleFrame(s, now, snapshot, a, c) && a != [] && a[|a| - 1] == y;
    var b, d :| AdmissibleFrame(s, now, snapshot, b, d) && b != [] && b[|b| - 1] == z;
    FlagAtLast(s, now, snapshot, a, c);
    FlagAtLast(s, now, snapshot, b, d);
    assert !DropsFn(s, snapshot, y);
    assert EndDifferently(s, now, snapshot, a, c, b, d);
  }

  lemma FlagAtLast(s: State, now: Timespec, snapshot: map<int, MtFinger>, a: seq<int>, c: seq<int>)
    requires Inv(s, now) && AdmissibleFrame(s, now, snapshot, a, c) && !FlagSettled(s, snapshot)
    ensures Snap(s, now, snapshot, a, c).fn == FlagAfter(s, snapshot, a)
  {
    var m := TouchAll(s, now, snapshot, a);
    WalkFlag(s, now, snapshot, a);
    LeaversUntouched(s, snapshot, a, m, c);
    assert Inv(m, now) by { TouchAllKeeps(s, now, snapshot, a); }
    assert forall tid | tid in m.fingers :: FingerOk(m, tid);
    LeaveAllLeft(m, now, snapshot, c);
  }

  /** Exactly when the order matters: two walks of a snapshot end differently if and only if
      - the Fn flag was on, a contact slides off and drops it, and a new contact reads it; or
      - the flag was off, a new contact sets it, and another new contact reads it; or
      - one contact sets it and another drops it, and none that has left drops it afterwards. */
  lemma OrderMattersIff(s: State, now: Timespec, snapshot: map<int, MtFinger>)
    requires Inv(s, now) && Reportable(s, snapshot)
    ensures OrderMatters(s, snapshot) <==> exists a, c, b, d :: EndDifferently(s, now, snapshot, a, c, b, d)
  {
    if OrderMatters(s, snapshot) {
      if !CodesSettled(s, snapshot) {
        var z, x :| ReadsFn(s, snapshot, x) && z != x &&
                    if s.fn then DropsFn(s, snapshot, z) else SetsFn(s, snapshot, z);
        assert [z][..0] == [];
        ReadFirstOrSecond(s, now, snapshot, z, x);
      } else {
        var z, y :| DropsFn(s, snapshot, z) && SetsFn(s, snapshot, y);
        SetOrDroppedLast(s, now, snapshot, z, y);
      }
    } else {
      forall a, c, b, d ensures !EndDifferently(s, now, snapshot, a, c, b, d) {
        if AdmissibleFrame(s, now, snapshot, a, c) && AdmissibleFrame(s, now, snapshot, b, d) {
          SnapshotOrderIrrelevant(s, now, snapshot, a, c, b, d);
        }
      }
    }
  }

  /** An instance: with Fn and another key landing in one snapshot, the walk decides whether the
      other key is sent with its Fn code. */
  lemma FnArrivalDependsOnOrder(now: Timespec)
    ensures var layout := [Key(KEY_FN, 0, 0, 10, 0, 10), Key(59, 113, 10, 20, 0, 10)];
            var snapshot := map[1 := MtFinger(5, 5, 80, -1), 2 := MtFinger(15, 5, 80, -1)];
            var s := State(layout, [], map[], false, map[], []);
            var r1, r2 := TouchAll(s, now, snapshot, [1, 2]), TouchAll(s, now, snapshot, [2, 1]);
            && 2 in r1.fingers && r1.fingers[2].code == 113
            && 2 in r2.fingers && r2.fingers[2].code == 59
  {
    var layout := [Key(KEY_FN, 0, 0, 10, 0, 10), Key(59, 113, 10, 20, 0, 10)];
    var snapshot := map[1 := MtFinger(5, 5, 80, -1), 2 := MtFinger(15, 5, 80, -1)];
    var s := State(layout, [], map[], false, map[], []);
    assert FindKey(layout, 5, 5, 0) == 0;
    assert FindKey(layout, 15, 5, 0) == FindKey(layout, 15, 5, 1) == 1;
    assert [1, 2][..1] == [1] && [2, 1][..1] == [2] && [1][..0] == [] && [2][..0] == [];
    assert TouchAll(s, now, snapshot, [1]) == Touch(TouchAll(s, now, snapshot, []), now, 1, snapshot[1]);
    assert TouchAll(s, now, snapshot, [2]) == Touch(TouchAll(s, now, snapshot, []), now, 2, snapshot[2]);
    assert TouchAll(s, now, snapshot, [1, 2]) == Touch(TouchAll(s, now, snapshot, [1]), now, 2, snapshot[2]);
    assert TouchAll(s, now, snapshot, [2, 1]) == Touch(TouchAll(s, now, snapshot, [2]), now, 1, snapshot[1]);
  }
}
