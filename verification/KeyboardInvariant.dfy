/** The invariant that couples the queue, the finger table and what has been sent, and how the
    operations on the queue change the strokes of a contact. */
module KeyboardInvariant {
  import opened InputEvents
  import opened Timespecs
  import opened KeyboardModel

  // ---- the strokes of one contact ----

  function Strokes(q: seq<Event>): (r: seq<Stroke>)
    ensures |r| == |q|
    ensures forall i | 0 <= i < |q| :: r[i] == q[i].AsStroke()
  {
    if q == [] then [] else [q[0].AsStroke()] + Strokes(q[1..])
  }

  function Of(h: seq<Stroke>, k: Contact): seq<Stroke> {
    if h == [] then []
    else if h[0].contact == k then [h[0]] + Of(h[1..], k)
    else Of(h[1..], k)
  }

  function Sent(s: State, k: Contact): seq<Stroke> { Of(s.trace, k) }

  function Pend(s: State, k: Contact): seq<Stroke> { Of(Strokes(s.pending), k) }

  // Everything a contact has caused so far: what was sent, then what is scheduled.
  function History(s: State, k: Contact): seq<Stroke> { Sent(s, k) + Pend(s, k) }

  // Nothing, or one whole key press: a Down followed by the Up of the same key.
  predicate Whole(h: seq<Stroke>) {
    h == [] || (|h| == 2 && h[0].down && !h[1].down && h[0].code == h[1].code)
  }

  // ---- the invariant ----

  ghost predicate Live(s: State, tid: int) {
    tid in s.fingers && s.fingers[tid].status == NotRejectedYet
  }

  // The contact is on the surface and has not been rejected.
  ghost predicate Holds(s: State, k: Contact) {
    Live(s, k.tid) && s.fingers[k.tid].contact == k
  }

  ghost predicate Used(s: State, k: Contact) {
    k.nth < Uses(s, k.tid)
  }

  ghost predicate LayoutOk(layout: seq<Key>) {
    forall i | 0 <= i < |layout| :: layout[i].code > 0 && layout[i].codeFn >= 0
  }

  ghost predicate FingerOk(s: State, tid: int)
    requires tid in s.fingers
  {
    var d := s.fingers[tid];
    && tid != OLD_TID && d.contact.tid == tid && Used(s, d.contact) && Normal(d.arrival)
    && (d.startingKey == NO_KEY || 0 <= d.startingKey < |s.layout|)
    && (d.status == NotRejectedYet ==>
          d.startingKey != NO_KEY && Enabled(s.layout, d.code) &&
          exists fn :: d.code == ResolveCode(s.layout[d.startingKey], fn))
  }

  // A pending Down is the one event of a live contact whose Down has not been sent, or belongs
  // to a contact that has left and is then guaranteed. A pending Up is always guaranteed,
  // carries no tracking id, and its contact is over.
  ghost predicate EventOk(s: State, e: Event) {
    && Used(s, e.contact) && Enabled(s.layout, e.code)
    && if e.down then
         && e.tid != OLD_TID && e.contact.tid == e.tid
         && if e.tid in s.fingers then
              Holds(s, e.contact) && !s.fingers[e.tid].downSent && e == DownEvent(s.fingers[e.tid])
            else e.guaranteed
       else e.tid == OLD_TID && e.guaranteed && !Holds(s, e.contact)
  }

  ghost predicate HistoryOk(s: State, k: Contact) {
    && (!Used(s, k) ==> Sent(s, k) == [] && Pend(s, k) == [])
    && if Holds(s, k) then
         var d := s.fingers[k.tid];
         var down := DownEvent(d).AsStroke();
         if d.downSent then Sent(s, k) == [down] && Pend(s, k) == []
         else Sent(s, k) == [] && Pend(s, k) == [down]
       else Whole(History(s, k))
  }

  ghost predicate FnOk(s: State) {
    s.fn ==> exists tid :: Live(s, tid) && s.fingers[tid].code == KEY_FN
  }

  ghost predicate QueueOrdered(q: seq<Event>) {
    forall i, j | 0 <= i < j < |q| :: Ns(q[i].deadline) <= Ns(q[j].deadline)
  }

  ghost predicate TraceOrdered(h: seq<Stroke>) {
    forall i, j | 0 <= i < j < |h| :: Ns(h[i].due) <= Ns(h[j].due)
  }

  // Sent, then pending, is one sequence in deadline order, and no deadline is further away
  // than the event delay.
  ghost predicate TimesOk(s: State, now: Timespec) {
    && Normal(now)
    && QueueOrdered(s.pending) && TraceOrdered(s.trace)
    && (forall e | e in s.pending :: Normal(e.deadline) && Ns(e.deadline) <= Ns(now) + DELAY_NS)
    && (forall t | t in s.trace :: Normal(t.due) && Ns(t.due) <= Ns(now) + DELAY_NS)
    && (forall t, e | t in s.trace && e in s.pending :: Ns(t.due) <= Ns(e.deadline))
  }

  ghost predicate Inv(s: State, now: Timespec) {
    && LayoutOk(s.layout)
    && (forall tid | tid in s.fingers :: FingerOk(s, tid))
    && (forall e | e in s.pending :: EventOk(s, e))
    && (forall k :: HistoryOk(s, k))
    && FnOk(s)
    && (forall t | t in s.trace :: Enabled(s.layout, t.code))
    && TimesOk(s, now)
  }

  // How a state may develop: the record of what was sent only grows, and a contact that is
  // over stays over with the history it has.
  ghost predicate Evolves(s: State, s': State) {
    && s'.layout == s.layout
    && s.trace <= s'.trace
    && (forall tid :: Uses(s, tid) <= Uses(s', tid))
    && (forall k | Used(s, k) && !Holds(s, k) :: !Holds(s', k) && History(s', k) == History(s, k))
  }

  lemma EvolvesTransitive(a: State, b: State, c: State)
    requires Evolves(a, b) && Evolves(b, c)
    ensures Evolves(a, c)
  {
    forall k | Used(a, k) && !Holds(a, k) ensures !Holds(c, k) && History(c, k) == History(a, k) {
      assert Uses(a, k.tid) <= Uses(b, k.tid);
      assert Used(b, k) && !Holds(b, k);
    }
  }

  // ---- how queue operations change the strokes of a contact ----

  lemma {:induction false} OfConcat(a: seq<Stroke>, b: seq<Stroke>, k: Contact)
    ensures Of(a + b, k) == Of(a, k) + Of(b, k)
  {
    if a == [] {
      assert a + b == b;
    } else {
      OfConcat(a[1..], b, k);
      assert (a + b)[1..] == a[1..] + b;
    }
  }

  lemma OfSnoc(h: seq<Stroke>, x: Stroke, k: Contact)
    ensures Of(h + [x], k) == Of(h, k) + if x.contact == k then [x] else []
  {
    OfConcat(h, [x], k);
    assert Of([x], k) == if x.contact == k then [x] else [];
  }

  lemma StrokesSnoc(q: seq<Event>, e: Event)
    ensures Strokes(q + [e]) == Strokes(q) + [e.AsStroke()]
  {
  }

  lemma {:induction false} InsertAtEnd(q: seq<Event>, ev: Event)
    requires forall e | e in q :: !Later(e.deadline, ev.deadline)
    ensures Insert(q, ev) == q + [ev]
  {
    if q != [] {
      assert q[0] in q;
      InsertAtEnd(q[1..], ev);
    }
  }

  lemma {:induction false} EraseMembers(q: seq<Event>, tid: int)
    ensures forall e :: e in Erase(q, tid) <==> e in q && e.tid != tid
  {
    if q != [] {
      EraseMembers(q[1..], tid);
      assert q == [q[0]] + q[1..];
    }
  }

  lemma {:induction false} EraseOrdered(q: seq<Event>, tid: int)
    requires QueueOrdered(q)
    ensures QueueOrdered(Erase(q, tid))
  {
    if q != [] {
      var rest := q[1..];
      EraseOrdered(rest, tid);
      EraseMembers(rest, tid);
      forall e | e in Erase(rest, tid) ensures Ns(q[0].deadline) <= Ns(e.deadline) {
        var j :| 0 <= j < |rest| && rest[j] == e;
        assert q[j + 1] == e;
      }
    }
  }

  lemma {:induction false} EraseNothing(q: seq<Event>, tid: int)
    requires forall e | e in q :: e.tid != tid
    ensures Erase(q, tid) == q
  {
    if q != [] {
      assert q[0] in q;
      EraseNothing(q[1..], tid);
    }
  }

  // When the events of a tracking id are those of one contact, erasing the id erases the contact.
  lemma {:induction false} EraseOf(q: seq<Event>, c: Contact, tid: int, k: Contact)
    requires forall e | e in q :: e.tid == tid <==> e.contact == c
    ensures Of(Strokes(Erase(q, tid)), k) == if k == c then [] else Of(Strokes(q), k)
  {
    if q != [] {
      assert q[0] in q;
      EraseOf(q[1..], c, tid, k);
      assert Strokes(q)[1..] == Strokes(q[1..]);
      if q[0].tid != tid {
        var r := Erase(q[1..], tid);
        assert Strokes([q[0]] + r)[1..] == Strokes(r);
      }
    }
  }
}
