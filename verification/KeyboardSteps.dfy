/** Every step of the key scheduler keeps the invariant and leaves finished contacts alone. */
module KeyboardSteps {
  import opened InputEvents
  import opened Timespecs
  import opened StateMachine
  import opened KeyboardModel
  import opened KeyboardInvariant

  // A new deadline is never earlier than any other, so the sorted insertion appends.
  lemma EnqueueAppends(s: State, ev: Event, now: Timespec)
    requires TimesOk(s, now) && ev.deadline == AddMs(now, EVENT_DELAY_MS)
    ensures Enqueue(s, ev) == s.(pending := s.pending + [ev])
  {
    forall e | e in s.pending ensures !Later(e.deadline, ev.deadline) {
      LaterIsInstantOrder(e.deadline, ev.deadline);
    }
    InsertAtEnd(s.pending, ev);
  }

  // The position of the first event with a later deadline, or the length of the queue.
  function FirstLater(q: seq<Event>, deadline: Timespec): (i: nat)
    ensures i <= |q|
    ensures forall j | 0 <= j < i :: !Later(q[j].deadline, deadline)
    ensures i < |q| ==> Later(q[i].deadline, deadline)
  {
    if q == [] || Later(q[0].deadline, deadline) then 0 else 1 + FirstLater(q[1..], deadline)
  }

  lemma {:induction false} InsertSplits(q: seq<Event>, ev: Event)
    ensures var i := FirstLater(q, ev.deadline); Insert(q, ev) == q[..i] + [ev] + q[i..]
  {
    if q != [] && !Later(q[0].deadline, ev.deadline) {
      var i := FirstLater(q[1..], ev.deadline);
      InsertSplits(q[1..], ev);
      assert q[..i + 1] == [q[0]] + q[1..][..i] && q[i + 1..] == q[1..][i..];
    }
  }

  /** Whatever the clock does, the insertion keeps the queue in deadline order and puts the new
      event behind those that share its deadline. */
  lemma InsertIsStable(q: seq<Event>, ev: Event)
    requires QueueOrdered(q) && Normal(ev.deadline) && forall e | e in q :: Normal(e.deadline)
    ensures exists i ::
              && 0 <= i <= |q| && Insert(q, ev) == q[..i] + [ev] + q[i..]
              && (forall j | 0 <= j < i :: Ns(q[j].deadline) <= Ns(ev.deadline))
              && (forall j | i <= j < |q| :: Ns(ev.deadline) < Ns(q[j].deadline))
  {
    var i := FirstLater(q, ev.deadline);
    InsertSplits(q, ev);
    forall j | 0 <= j < |q| ensures Later(q[j].deadline, ev.deadline) <==> Ns(ev.deadline) < Ns(q[j].deadline) {
      assert q[j] in q;
      LaterIsInstantOrder(q[j].deadline, ev.deadline);
    }
    forall j | i <= j < |q| ensures Ns(ev.deadline) < Ns(q[j].deadline) {
      assert Ns(ev.deadline) < Ns(q[i].deadline) <= Ns(q[j].deadline);
    }
  }

  lemma AppendTimes(s: State, ev: Event, now: Timespec)
    requires TimesOk(s, now)
    requires Normal(ev.deadline) && Ns(ev.deadline) == Ns(now) + DELAY_NS
    ensures TimesOk(s.(pending := s.pending + [ev]), now)
  {
    var q := s.pending + [ev];
    forall e | e in q ensures Normal(e.deadline) && Ns(e.deadline) <= Ns(now) + DELAY_NS {
    }
    forall i, j | 0 <= i < j < |q| ensures Ns(q[i].deadline) <= Ns(q[j].deadline) {
      assert q[i] in s.pending;
    }
  }

  lemma AppendPend(q: seq<Event>, ev: Event, k: Contact)
    ensures Of(Strokes(q + [ev]), k) == Of(Strokes(q), k) + if ev.contact == k then [ev.AsStroke()] else []
  {
    StrokesSnoc(q, ev);
    OfSnoc(Strokes(q), ev.AsStroke(), k);
  }

  // ---- a contact arrives ----

  ghost predicate Fresh(s: State, tid: int) {
    tid !in s.fingers && tid != OLD_TID && forall e | e in s.pending :: e.tid != tid
  }

  ghost predicate NewFingerOk(s: State, d: FingerData) {
    && d.contact.nth == Uses(s, d.contact.tid) && !d.downSent && Normal(d.arrival)
    && (d.startingKey == NO_KEY <==> d.status != NotRejectedYet)
    && (if d.startingKey == NO_KEY then d.code == 0
        else 0 <= d.startingKey < |s.layout| && Enabled(s.layout, d.code) &&
             exists fn :: d.code == ResolveCode(s.layout[d.startingKey], fn))
  }

  ghost function Arrived(s: State, d: FingerData): State {
    var tid := d.contact.tid;
    s.(pending := s.pending + (if d.startingKey == NO_KEY then [] else [DownEvent(d)]),
       fingers := s.fingers[tid := d],
       fn := s.fn || d.code == KEY_FN,
       uses := s.uses[tid := Uses(s, tid) + 1])
  }

  lemma ArriveAppends(s: State, now: Timespec, tid: int, f: MtFinger)
    requires TimesOk(s, now)
    ensures Arrive(s, now, tid, f) == Arrived(s, NewFinger(s, now, tid, f))
  {
    var d := NewFinger(s, now, tid, f);
    if d.startingKey != NO_KEY {
      EnqueueAppends(s, DownEvent(d), now);
    }
    assert s.pending + [] == s.pending;
  }

  lemma ArriveEvent(s: State, d: FingerData, e: Event)
    requires Fresh(s, d.contact.tid) && NewFingerOk(s, d)
    requires e in Arrived(s, d).pending
    requires e in s.pending ==> EventOk(s, e)
    ensures EventOk(Arrived(s, d), e)
  {
  }

  lemma ArriveHistory(s: State, d: FingerData, k: Contact)
    requires Fresh(s, d.contact.tid) && NewFingerOk(s, d)
    requires HistoryOk(s, k)
    ensures HistoryOk(Arrived(s, d), k)
    ensures Used(s, k) && !Holds(s, k) ==>
              !Holds(Arrived(s, d), k) && History(Arrived(s, d), k) == History(s, k)
  {
    if d.startingKey != NO_KEY {
      AppendPend(s.pending, DownEvent(d), k);
    } else {
      assert s.pending + [] == s.pending;
    }
  }

  lemma NewFingerIsOk(s: State, now: Timespec, tid: int, f: MtFinger)
    requires Normal(now)
    ensures NewFingerOk(s, NewFinger(s, now, tid, f))
  {
    var d := NewFinger(s, now, tid, f);
    if d.startingKey != NO_KEY {
      assert s.layout[d.startingKey] in s.layout;
      assert d.code == ResolveCode(s.layout[d.startingKey], s.fn);
    }
  }

  lemma ArriveTables(s: State, d: FingerData)
    requires Fresh(s, d.contact.tid) && NewFingerOk(s, d) && FnOk(s)
    requires forall t | t in s.fingers :: FingerOk(s, t)
    ensures FnOk(Arrived(s, d))
    ensures forall t | t in Arrived(s, d).fingers :: FingerOk(Arrived(s, d), t)
  {
    var s' := Arrived(s, d);
    forall t | t in s'.fingers ensures FingerOk(s', t) {
      if t != d.contact.tid { assert FingerOk(s, t); }
    }
    if s'.fn {
      if d.code == KEY_FN {
        assert Live(s', d.contact.tid);
      } else {
        var t :| Live(s, t) && s.fingers[t].code == KEY_FN;
        assert Live(s', t);
      }
    }
  }

  lemma ArriveKeeps(s: State, now: Timespec, tid: int, f: MtFinger)
    requires Inv(s, now) && Fresh(s, tid)
    ensures Inv(Arrive(s, now, tid, f), now)
    ensures Evolves(s, Arrive(s, now, tid, f))
  {
    var d := NewFinger(s, now, tid, f);
    var s' := Arrived(s, d);
    ArriveAppends(s, now, tid, f);
    NewFingerIsOk(s, now, tid, f);
    ArriveTables(s, d);
    if d.startingKey != NO_KEY {
      AppendTimes(s, DownEvent(d), now);
    } else {
      assert s'.pending == s.pending;
    }
    forall e | e in s'.pending ensures EventOk(s', e) {
      ArriveEvent(s, d, e);
    }
    forall k ensures HistoryOk(s', k)
      ensures Used(s, k) && !Holds(s, k) ==> !Holds(s', k) && History(s', k) == History(s, k) {
      ArriveHistory(s, d, k);
    }
  }

  // ---- a contact that is still on the surface ----

  // The pending events of a live contact's tracking id are those of the contact itself, and
  // there are none once its Down has been sent.
  lemma PendingOfLive(s: State, tid: int, e: Event)
    requires Live(s, tid) && FingerOk(s, tid) && e in s.pending && EventOk(s, e)
    ensures e.tid == tid <==> e.contact == s.fingers[tid].contact
    ensures e.tid == tid ==> e.down && !s.fingers[tid].downSent
  {
  }

  lemma TwoPending(q: seq<Event>, k: Contact, i: nat, j: nat)
    requires i < j < |q| && q[i].contact == q[j].contact == k
    ensures |Of(Strokes(q), k)| >= 2
  {
    var h := Strokes(q);
    assert h == h[..j] + h[j..];
    OfConcat(h[..j], h[j..], k);
    OfMember(h[..j], k, i);
    OfMember(h[j..], k, 0);
  }

  lemma {:induction false} OfMember(h: seq<Stroke>, k: Contact, i: nat)
    requires i < |h| && h[i].contact == k
    ensures h[i] in Of(h, k)
  {
    if i > 0 {
      OfMember(h[1..], k, i - 1);
    }
  }

  lemma MeasureKeeps(s: State, now: Timespec, tid: int, f: MtFinger)
    requires Inv(s, now) && Live(s, tid)
    ensures var s' := s.(fingers := s.fingers[tid := Measure(s.fingers[tid], f)]);
            Inv(s', now) && Evolves(s, s')
  {
    var s' := s.(fingers := s.fingers[tid := Measure(s.fingers[tid], f)]);
    forall t | t in s'.fingers ensures FingerOk(s', t) {
      assert FingerOk(s, t);
    }
    forall e | e in s'.pending ensures EventOk(s', e) {
      assert EventOk(s, e);
    }
    forall k ensures HistoryOk(s', k) {
      assert HistoryOk(s, k);
    }
    if s'.fn {
      var t :| Live(s, t) && s.fingers[t].code == KEY_FN;
      assert Live(s', t);
    }
  }

  // ---- a contact is revoked before its Down is sent ----

  lemma RevokeHistory(s: State, tid: int, reason: RejectionStatus, k: Contact)
    requires Live(s, tid) && FingerOk(s, tid) && !s.fingers[tid].downSent && reason != NotRejectedYet
    requires forall e | e in s.pending :: EventOk(s, e)
    requires HistoryOk(s, k)
    ensures HistoryOk(Reject(s, tid, reason), k)
    ensures Used(s, k) && !Holds(s, k) ==>
              !Holds(Reject(s, tid, reason), k) && History(Reject(s, tid, reason), k) == History(s, k)
  {
    forall e | e in s.pending ensures e.tid == tid <==> e.contact == s.fingers[tid].contact {
      PendingOfLive(s, tid, e);
    }
    EraseOf(s.pending, s.fingers[tid].contact, tid, k);
  }

  lemma FnAfterLoss(s: State, s': State, tid: int)
    requires FnOk(s) && tid in s.fingers
    requires s'.fn == (s.fn && s.fingers[tid].code != KEY_FN)
    requires forall t | t != tid && t in s.fingers :: t in s'.fingers && s'.fingers[t] == s.fingers[t]
    ensures FnOk(s')
  {
    if s'.fn {
      var t :| Live(s, t) && s.fingers[t].code == KEY_FN;
      assert Live(s', t);
    }
  }

  lemma RevokeKeeps(s: State, now: Timespec, tid: int, reason: RejectionStatus)
    requires Inv(s, now) && Live(s, tid) && !s.fingers[tid].downSent && reason != NotRejectedYet
    ensures Inv(Reject(s, tid, reason), now)
    ensures Evolves(s, Reject(s, tid, reason))
  {
    var s' := Reject(s, tid, reason);
    EraseMembers(s.pending, tid);
    EraseOrdered(s.pending, tid);
    forall t | t in s'.fingers ensures FingerOk(s', t) {
      assert FingerOk(s, t);
    }
    forall e | e in s'.pending ensures EventOk(s', e) {
      assert EventOk(s, e);
    }
    forall k ensures HistoryOk(s', k)
      ensures Used(s, k) && !Holds(s, k) ==> !Holds(s', k) && History(s', k) == History(s, k) {
      RevokeHistory(s, tid, reason, k);
    }
    FnAfterLoss(s, s', tid);
  }

  // ---- a contact ends and its Up is scheduled ----

  // What becomes of a live contact that leaves (no status) or slides off its key.
  ghost function Ended(s: State, now: Timespec, tid: int, left: bool): State
    requires tid in s.fingers
  {
    var d := s.fingers[tid];
    s.(pending := (if left && !d.downSent then Guarantee(s.pending, tid) else s.pending)
                  + [UpEvent(d.code, now, d.contact)],
       fingers := if left then s.fingers - {tid} else s.fingers[tid := d.(status := MovedOffKey)],
       fn := s.fn && d.code != KEY_FN)
  }

  lemma {:induction false} GuaranteeStrokes(q: seq<Event>, tid: int)
    ensures Strokes(Guarantee(q, tid)) == Strokes(q)
  {
    var r := Guarantee(q, tid);
    forall i | 0 <= i < |q| ensures Strokes(r)[i] == Strokes(q)[i] {
    }
  }

  lemma EndHistory(s: State, now: Timespec, tid: int, left: bool, k: Contact)
    requires Live(s, tid) && FingerOk(s, tid) && (left || s.fingers[tid].downSent)
    requires HistoryOk(s, k)
    ensures HistoryOk(Ended(s, now, tid, left), k)
    ensures Used(s, k) && !Holds(s, k) ==>
              !Holds(Ended(s, now, tid, left), k) && History(Ended(s, now, tid, left), k) == History(s, k)
  {
    EndPend(s, now, tid, left, k);
  }

  lemma EndPend(s: State, now: Timespec, tid: int, left: bool, k: Contact)
    requires tid in s.fingers
    ensures var d := s.fingers[tid];
            Pend(Ended(s, now, tid, left), k) ==
            Pend(s, k) + if d.contact == k then [UpEvent(d.code, now, d.contact).AsStroke()] else []
  {
    var d := s.fingers[tid];
    var q := if left && !d.downSent then Guarantee(s.pending, tid) else s.pending;
    GuaranteeStrokes(s.pending, tid);
    AppendPend(q, UpEvent(d.code, now, d.contact), k);
  }

  lemma EndEvent(s: State, now: Timespec, tid: int, left: bool, e: Event)
    requires Live(s, tid) && FingerOk(s, tid) && (left || s.fingers[tid].downSent)
    requires forall o | o in s.pending :: EventOk(s, o)
    requires HistoryOk(s, s.fingers[tid].contact)
    requires e in Ended(s, now, tid, left).pending
    ensures EventOk(Ended(s, now, tid, left), e)
  {
    var d := s.fingers[tid];
    var r := Guarantee(s.pending, tid);
    var i := FirstOf(s.pending, tid);
    if e in s.pending {
      PendingOfLive(s, tid, e);
      if left && e.tid == tid && !e.guaranteed {
        var j :| 0 <= j < |r| && r[j] == e;
        PendingOfLive(s, tid, s.pending[i]);
        if i < j {
          TwoPending(s.pending, d.contact, i, j);
        }
      }
    } else if left && !d.downSent && e in r {
      var j :| 0 <= j < |r| && r[j] == e;
      assert j == i;
      PendingOfLive(s, tid, s.pending[i]);
      assert EventOk(s, s.pending[i]);
    }
  }

  lemma GuaranteeTimes(s: State, now: Timespec, tid: int)
    requires TimesOk(s, now)
    ensures TimesOk(s.(pending := Guarantee(s.pending, tid)), now)
  {
    var q, r := s.pending, Guarantee(s.pending, tid);
    forall e | e in r ensures exists o :: o in q && o.deadline == e.deadline {
      var j :| 0 <= j < |r| && r[j] == e;
      assert q[j] in q && q[j].deadline == e.deadline;
    }
  }

  lemma EndTimes(s: State, now: Timespec, tid: int, left: bool)
    requires TimesOk(s, now) && tid in s.fingers
    ensures TimesOk(Ended(s, now, tid, left), now)
  {
    var d := s.fingers[tid];
    GuaranteeTimes(s, now, tid);
    var s1 := if left && !d.downSent then s.(pending := Guarantee(s.pending, tid)) else s;
    AppendTimes(s1, UpEvent(d.code, now, d.contact), now);
  }

  lemma EndFingers(s: State, now: Timespec, tid: int, left: bool)
    requires tid in s.fingers && forall t | t in s.fingers :: FingerOk(s, t)
    ensures forall t | t in Ended(s, now, tid, left).fingers :: FingerOk(Ended(s, now, tid, left), t)
  {
    var s' := Ended(s, now, tid, left);
    forall t | t in s'.fingers ensures FingerOk(s', t) {
      assert FingerOk(s, t);
    }
  }

  lemma EndKeeps(s: State, now: Timespec, tid: int, left: bool)
    requires Inv(s, now) && Live(s, tid) && (left || s.fingers[tid].downSent)
    ensures Inv(Ended(s, now, tid, left), now)
    ensures Evolves(s, Ended(s, now, tid, left))
  {
    var s' := Ended(s, now, tid, left);
    var d := s.fingers[tid];
    EndTimes(s, now, tid, left);
    EndFingers(s, now, tid, left);
    assert HistoryOk(s, d.contact);
    forall e | e in s'.pending ensures EventOk(s', e) {
      EndEvent(s, now, tid, left, e);
    }
    forall k ensures HistoryOk(s', k)
      ensures Used(s, k) && !Holds(s, k) ==> !Holds(s', k) && History(s', k) == History(s, k) {
      EndHistory(s, now, tid, left, k);
    }
    FnAfterLoss(s, s', tid);
  }

  // ---- the operations on one contact ----

  lemma UpdateKeeps(s: State, now: Timespec, tid: int, f: MtFinger)
    requires Inv(s, now) && Live(s, tid)
    ensures Inv(Update(s, now, tid, f), now)
    ensures Evolves(s, Update(s, now, tid, f))
  {
    var d := Measure(s.fingers[tid], f);
    var s1 := s.(fingers := s.fingers[tid := d]);
    MeasureKeeps(s, now, tid, f);
    if !StillOnFirstKey(s.layout, f, d) {
      if d.downSent {
        SlideOffAfterDown(s1, now, tid);
        EndKeeps(s1, now, tid, false);
      } else {
        RevokeKeeps(s1, now, tid, MovedOffKey);
      }
      EvolvesTransitive(s, s1, Update(s, now, tid, f));
    }
  }

  // With the Down already sent nothing is pending for the contact, so rejecting it erases
  // nothing and the Up is all that happens.
  lemma SlideOffAfterDown(s: State, now: Timespec, tid: int)
    requires Inv(s, now) && Live(s, tid) && s.fingers[tid].downSent
    ensures var d := s.fingers[tid];
            EnqueueKeyUp(Reject(s, tid, MovedOffKey), d.code, now, d.contact) == Ended(s, now, tid, false)
  {
    forall e | e in s.pending ensures e.tid != tid {
      PendingOfLive(s, tid, e);
    }
    EraseNothing(s.pending, tid);
    EnqueueAppends(Reject(s, tid, MovedOffKey), UpEvent(s.fingers[tid].code, now, s.fingers[tid].contact), now);
  }

  lemma TouchKeeps(s: State, now: Timespec, tid: int, f: MtFinger)
    requires Inv(s, now) && (tid !in s.fingers ==> Fresh(s, tid))
    ensures Inv(Touch(s, now, tid, f), now)
    ensures Evolves(s, Touch(s, now, tid, f))
  {
    if tid !in s.fingers {
      ArriveKeeps(s, now, tid, f);
    } else if Live(s, tid) {
      UpdateKeeps(s, now, tid, f);
    }
  }

  lemma ForgetRejectedKeeps(s: State, now: Timespec, tid: int)
    requires Inv(s, now) && tid in s.fingers && !Live(s, tid)
    ensures var s' := s.(fingers := s.fingers - {tid}); Inv(s', now) && Evolves(s, s')
  {
    var s' := s.(fingers := s.fingers - {tid});
    forall t | t in s'.fingers ensures FingerOk(s', t) {
      assert FingerOk(s, t);
    }
    forall e | e in s'.pending ensures EventOk(s', e) {
      assert EventOk(s, e);
    }
    forall k ensures HistoryOk(s', k) {
      assert HistoryOk(s, k);
    }
    if s'.fn {
      var t :| Live(s, t) && s.fingers[t].code == KEY_FN;
      assert Live(s', t);
    }
  }

  // A live contact that leaves always has its Up scheduled: what is pending for it can only be
  // its Down.
  lemma LeaveEnds(s: State, now: Timespec, tid: int)
    requires Inv(s, now) && Live(s, tid)
    ensures Leave(s, now, tid) == Ended(s, now, tid, true)
  {
    var d := s.fingers[tid];
    var i := FirstOf(s.pending, tid);
    if i < |s.pending| {
      PendingOfLive(s, tid, s.pending[i]);
    }
    GuaranteeTimes(s, now, tid);
    var s1 := if d.downSent then s else s.(pending := Guarantee(s.pending, tid));
    EnqueueAppends(s1, UpEvent(d.code, now, d.contact), now);
  }

  lemma LeaveKeeps(s: State, now: Timespec, tid: int)
    requires Inv(s, now) && tid in s.fingers
    ensures Inv(Leave(s, now, tid), now)
    ensures Evolves(s, Leave(s, now, tid))
  {
    if Live(s, tid) {
      LeaveEnds(s, now, tid);
      EndKeeps(s, now, tid, true);
    } else {
      ForgetRejectedKeeps(s, now, tid);
    }
  }

  // ---- firing ----

  // The front event is sent: its finger, if any, is in range.
  ghost predicate FrontPasses(s: State) {
    s.pending != [] && (s.pending[0].tid !in s.fingers || InRange(s.layout, s.fingers[s.pending[0].tid]))
  }

  lemma FireSends(s: State, now: Timespec)
    requires Inv(s, now) && FrontPasses(s)
    ensures Inv(Fire(s), now)
    ensures Evolves(s, Fire(s))
  {
    var s' := Fire(s);
    assert EventOk(s, s.pending[0]) && HistoryOk(s, s.pending[0].contact);
    FireEvents(s);
    forall k ensures HistoryOk(s', k)
      ensures Used(s, k) && !Holds(s, k) ==> !Holds(s', k) && History(s', k) == History(s, k) {
      FireHistory(s, k);
    }
    FireFingers(s);
    FireTimes(s, now);
  }

  lemma FireEvents(s: State)
    requires FrontPasses(s) && HistoryOk(s, s.pending[0].contact)
    requires forall e | e in s.pending :: EventOk(s, e)
    ensures forall e | e in Fire(s).pending :: EventOk(Fire(s), e)
  {
    forall o | o in s.pending[1..] ensures EventOk(Fire(s), o) {
      LaterInQueue(s.pending, o);
      assert EventOk(s, s.pending[0]) && EventOk(s, o);
      FireEvent(s, o);
    }
  }

  lemma LaterInQueue(q: seq<Event>, o: Event)
    requires q != [] && o in q[1..]
    ensures o in q && exists j :: 0 < j < |q| && q[j] == o
  {
    var j :| 0 <= j < |q[1..]| && q[1..][j] == o;
    assert q[j + 1] == o;
  }

  lemma FireFingers(s: State)
    requires FrontPasses(s) && FnOk(s)
    requires forall tid | tid in s.fingers :: FingerOk(s, tid)
    ensures FnOk(Fire(s))
    ensures forall tid | tid in Fire(s).fingers :: FingerOk(Fire(s), tid)
  {
    var s' := Fire(s);
    forall t | t in s'.fingers ensures FingerOk(s', t) {
      assert FingerOk(s, t);
    }
    if s'.fn {
      var t :| Live(s, t) && s.fingers[t].code == KEY_FN;
      assert Live(s', t);
    }
  }

  lemma FireEvent(s: State, o: Event)
    requires FrontPasses(s) && EventOk(s, s.pending[0]) && HistoryOk(s, s.pending[0].contact)
    requires EventOk(s, o) && exists j :: 0 < j < |s.pending| && s.pending[j] == o
    ensures EventOk(Fire(s), o)
  {
    var e := s.pending[0];
    if e.down && o.down && o.tid == e.tid && e.tid in s.fingers {
      var j :| 0 < j < |s.pending| && s.pending[j] == o;
      TwoPending(s.pending, e.contact, 0, j);
    }
  }

  lemma FireHistory(s: State, k: Contact)
    requires s.pending != [] && EventOk(s, s.pending[0]) && HistoryOk(s, k)
    requires FrontPasses(s)
    requires OLD_TID !in s.fingers
    ensures HistoryOk(Fire(s), k)
    ensures Used(s, k) && !Holds(s, k) ==> !Holds(Fire(s), k) && History(Fire(s), k) == History(s, k)
  {
    var e := s.pending[0];
    OfSnoc(s.trace, e.AsStroke(), k);
    assert Strokes(s.pending)[1..] == Strokes(s.pending[1..]);
    assert History(Fire(s), k) == History(s, k);
  }

  lemma FireTimes(s: State, now: Timespec)
    requires FrontPasses(s) && TimesOk(s, now)
    ensures TimesOk(Fire(s), now)
  {
    var e, q := s.pending[0], s.pending[1..];
    assert e in s.pending && forall o | o in q :: o in s.pending;
    FrontIsFirst(s.pending);
    TraceSnoc(s.trace, e.AsStroke());
  }

  lemma FrontIsFirst(q: seq<Event>)
    requires q != [] && QueueOrdered(q)
    ensures QueueOrdered(q[1..]) && forall o | o in q[1..] :: Ns(q[0].deadline) <= Ns(o.deadline)
  {
    forall o | o in q[1..] ensures Ns(q[0].deadline) <= Ns(o.deadline) {
      var j :| 0 <= j < |q[1..]| && q[1..][j] == o;
      assert q[j + 1] == o;
    }
  }

  lemma TraceSnoc(h: seq<Stroke>, x: Stroke)
    requires TraceOrdered(h) && forall t | t in h :: Ns(t.due) <= Ns(x.due)
    ensures TraceOrdered(h + [x])
  {
  }

  lemma FireKeeps(s: State, now: Timespec)
    requires Inv(s, now) && s.pending != []
    ensures Inv(Fire(s), now)
    ensures Evolves(s, Fire(s))
  {
    var e := s.pending[0];
    assert EventOk(s, e);
    if e.tid in s.fingers && !InRange(s.layout, s.fingers[e.tid]) {
      assert FingerOk(s, e.tid);
      RevokeKeeps(s, now, e.tid, RangeStatus(s.fingers[e.tid]));
    } else {
      FireSends(s, now);
    }
  }

  lemma {:induction false} DrainKeeps(s: State, now: Timespec)
    requires Inv(s, now)
    ensures Inv(Drain(s, now), now)
    ensures Evolves(s, Drain(s, now))
    decreases |s.pending|
  {
    if FrontDue(s, now) {
      FireKeeps(s, now);
      DrainKeeps(Fire(s), now);
      EvolvesTransitive(s, Fire(s), Drain(s, now));
    }
  }
}
