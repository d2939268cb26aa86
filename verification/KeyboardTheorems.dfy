/** The promises of the fake keyboard over whole runs: key presses come whole, nothing is lost
    or stuck, and timing is shifted, not distorted. */
module KeyboardTheorems {
  import opened InputEvents
  import opened Timespecs
  import opened StateMachine
  import opened KeyboardModel
  import opened KeyboardInvariant
  import opened KeyboardSteps
  import opened KeyboardRuns
  import opened KeyboardDrain

  // ---- the queue mirrors the finger table ----

  lemma {:induction false} OfHasEvent(q: seq<Event>, k: Contact)
    requires Of(Strokes(q), k) != []
    ensures exists i :: 0 <= i < |q| && q[i].contact == k
  {
    if q[0].contact != k {
      assert Strokes(q)[1..] == Strokes(q[1..]);
      OfHasEvent(q[1..], k);
      var i :| 0 <= i < |q[1..]| && q[1..][i].contact == k;
      assert q[i + 1].contact == k;
    }
  }

  /** A live finger whose Down was sent has nothing pending; one whose Down was not sent has
      exactly one pending event, its Down; a rejected finger has none; the event of a tracking
      id nobody knows is guaranteed. The key a live finger started on is in the layout. */
  lemma QueueMirrorsFingers(s: State, now: Timespec, tid: int)
    requires Inv(s, now)
    ensures Live(s, tid) && s.fingers[tid].downSent ==> !HasEvent(s.pending, tid)
    ensures Live(s, tid) && !s.fingers[tid].downSent ==>
              var i := FirstOf(s.pending, tid);
              && i < |s.pending| && s.pending[i] == DownEvent(s.fingers[tid])
              && forall j | 0 <= j < |s.pending| && s.pending[j].tid == tid :: j == i
    ensures tid in s.fingers && !Live(s, tid) ==> !HasEvent(s.pending, tid)
    ensures tid !in s.fingers ==> forall e | e in s.pending && e.tid == tid :: e.guaranteed
    ensures Live(s, tid) ==> 0 <= s.fingers[tid].startingKey < |s.layout|
  {
    var i := FirstOf(s.pending, tid);
    if i < |s.pending| {
      assert EventOk(s, s.pending[i]);
    }
    if tid in s.fingers {
      assert FingerOk(s, tid);
    }
    if Live(s, tid) && !s.fingers[tid].downSent {
      var c := s.fingers[tid].contact;
      assert HistoryOk(s, c);
      OfHasEvent(s.pending, c);
      var j :| 0 <= j < |s.pending| && s.pending[j].contact == c;
      PendingOfLive(s, tid, s.pending[j]);
      forall j' | 0 <= j' < |s.pending| && s.pending[j'].tid == tid ensures j' == i {
        PendingOfLive(s, tid, s.pending[i]);
        PendingOfLive(s, tid, s.pending[j']);
        if i < j' { TwoPending(s.pending, c, i, j'); }
      }
    }
    forall e | e in s.pending && e.tid == tid && tid !in s.fingers ensures e.guaranteed {
      assert EventOk(s, e);
    }
  }

  // ---- the output of one contact ----

  // A prefix of one key press.
  predicate PressPrefix(h: seq<Stroke>) {
    || h == []
    || (|h| == 1 && h[0].down)
    || (|h| == 2 && h[0].down && !h[1].down && h[0].code == h[1].code)
  }

  lemma PrefixOfPress(a: seq<Stroke>, b: seq<Stroke>)
    requires PressPrefix(a + b)
    ensures PressPrefix(a)
  {
    assert forall i | 0 <= i < |a| :: a[i] == (a + b)[i];
  }

  lemma HistoryIsPress(s: State, now: Timespec, k: Contact)
    requires Inv(s, now)
    ensures PressPrefix(History(s, k))
  {
    assert HistoryOk(s, k);
  }

  /** At every point of the output, what any one contact has produced is nothing, a Down, or a
      Down and the Up of the same key. */
  lemma ContactOutputIsPress(s: State, now: Timespec, n: nat, k: Contact)
    requires Inv(s, now) && n <= |s.trace|
    ensures PressPrefix(Of(s.trace[..n], k))
  {
    HistoryIsPress(s, now, k);
    PrefixOfPress(Sent(s, k), Pend(s, k));
    SentSoFar(s.trace, n, k);
  }

  lemma SentSoFar(trace: seq<Stroke>, n: nat, k: Contact)
    requires n <= |trace| && PressPrefix(Of(trace, k))
    ensures PressPrefix(Of(trace[..n], k))
  {
    OfConcat(trace[..n], trace[n..], k);
    assert trace == trace[..n] + trace[n..];
    PrefixOfPress(Of(trace[..n], k), Of(trace[n..], k));
  }

  /** A contact rejected while its Down is still pending never produces anything, in any state
      the run may reach. One that ends later produces exactly one Down and one Up, whatever
      happens to it afterwards. */
  lemma FateIsSealed(s: State, s': State, now: Timespec, now': Timespec, k: Contact)
    requires Inv(s, now) && Inv(s', now') && Evolves(s, s')
    requires Used(s, k) && !Holds(s, k)
    ensures History(s, k) == [] ==> Sent(s', k) == []
    ensures History(s, k) != [] ==>
              |History(s', k)| == 2 && Whole(History(s', k)) && Sent(s', k) <= History(s, k)
    ensures s'.pending == [] ==> Sent(s', k) == History(s, k)
  {
    assert HistoryOk(s, k);
    assert History(s', k) == History(s, k);
  }

  // ---- counting keys ----

  function Count(h: seq<Stroke>, code: int, down: bool): nat {
    if h == [] then 0
    else (if h[0].code == code && h[0].down == down then 1 else 0) + Count(h[1..], code, down)
  }

  function Balance(h: seq<Stroke>, code: int): int {
    Count(h, code, true) - Count(h, code, false)
  }

  lemma {:induction false} CountConcat(a: seq<Stroke>, b: seq<Stroke>, code: int, down: bool)
    ensures Count(a + b, code, down) == Count(a, code, down) + Count(b, code, down)
  {
    if a == [] {
      assert a + b == b;
    } else {
      CountConcat(a[1..], b, code, down);
      assert (a + b)[1..] == a[1..] + b;
    }
  }

  function Without(h: seq<Stroke>, k: Contact): (r: seq<Stroke>)
    ensures |r| <= |h|
  {
    if h == [] then []
    else if h[0].contact == k then Without(h[1..], k)
    else [h[0]] + Without(h[1..], k)
  }

  lemma {:induction false} SplitContact(h: seq<Stroke>, k: Contact, code: int, down: bool)
    ensures Count(h, code, down) == Count(Of(h, k), code, down) + Count(Without(h, k), code, down)
  {
    if h != [] {
      SplitContact(h[1..], k, code, down);
      if h[0].contact == k {
        assert Of(h, k)[1..] == Of(h[1..], k);
      } else {
        assert Without(h, k)[1..] == Without(h[1..], k);
      }
    }
  }

  lemma {:induction false} OfWithout(h: seq<Stroke>, k: Contact, k': Contact)
    ensures Of(Without(h, k), k') == if k' == k then [] else Of(h, k')
  {
    if h != [] {
      OfWithout(h[1..], k, k');
      if h[0].contact != k {
        assert Without(h, k)[1..] == Without(h[1..], k);
      }
    }
  }

  // The contacts whose own balance is one add up.
  lemma {:induction false} BalanceIsSum(h: seq<Stroke>, code: int, holders: set<Contact>)
    requires forall k :: Balance(Of(h, k), code) == if k in holders then 1 else 0
    ensures Balance(h, code) == |holders|
    decreases |h|
  {
    if h == [] {
      forall k ensures k !in holders {
        assert Of(h, k) == [];
      }
      assert holders == {};
    } else {
      var c := h[0].contact;
      var rest := Without(h, c);
      forall k ensures Balance(Of(rest, k), code) == if k in holders - {c} then 1 else 0 {
        OfWithout(h, c, k);
      }
      BalanceIsSum(rest, code, holders - {c});
      SplitContact(h, c, code, true);
      SplitContact(h, c, code, false);
    }
  }

  lemma {:induction false} BalanceNotNegative(h: seq<Stroke>, code: int)
    requires forall k :: Balance(Of(h, k), code) >= 0
    ensures Balance(h, code) >= 0
    decreases |h|
  {
    if h != [] {
      var c := h[0].contact;
      var rest := Without(h, c);
      forall k ensures Balance(Of(rest, k), code) >= 0 {
        OfWithout(h, c, k);
      }
      BalanceNotNegative(rest, code);
      SplitContact(h, c, code, true);
      SplitContact(h, c, code, false);
    }
  }

  lemma PressBalance(h: seq<Stroke>, code: int)
    requires PressPrefix(h)
    ensures Balance(h, code) == if |h| == 1 && h[0].code == code then 1 else 0
  {
    if |h| == 1 {
      assert h[1..] == [];
    } else if |h| == 2 {
      assert h == [h[0]] + [h[1]] && [h[0]][1..] == [] && [h[1]][1..] == [];
      CountConcat([h[0]], [h[1]], code, true);
      CountConcat([h[0]], [h[1]], code, false);
    }
  }

  /** No Up is ever ahead of its Down: at every point of the output each key has been pressed at
      least as often as it has been released. */
  lemma ReleasesNeverLead(s: State, now: Timespec, n: nat, code: int)
    requires Inv(s, now) && n <= |s.trace|
    ensures Balance(s.trace[..n], code) >= 0
  {
    forall k ensures Balance(Of(s.trace[..n], k), code) >= 0 {
      ContactOutputIsPress(s, now, n, k);
      PressBalance(Of(s.trace[..n], k), code);
    }
    BalanceNotNegative(s.trace[..n], code);
  }

  // The contacts that hold a key down: on the surface, not rejected, Down sent.
  ghost function Holders(s: State, code: int): set<Contact> {
    set tid | tid in s.fingers && Live(s, tid) && s.fingers[tid].downSent && s.fingers[tid].code == code
      :: s.fingers[tid].contact
  }

  // The pending events without the Downs of fingers still on the surface.
  function Settled(q: seq<Event>, fingers: map<int, FingerData>): seq<Event> {
    if q == [] then []
    else if q[0].down && q[0].tid in fingers then Settled(q[1..], fingers)
    else [q[0]] + Settled(q[1..], fingers)
  }

  lemma {:induction false} OfSettled(s: State, q: seq<Event>, k: Contact)
    requires forall e | e in q :: EventOk(s, e)
    ensures Of(Strokes(Settled(q, s.fingers)), k) == if Holds(s, k) then [] else Of(Strokes(q), k)
  {
    if q != [] {
      assert EventOk(s, q[0]);
      OfSettled(s, q[1..], k);
      var r := Settled(q[1..], s.fingers);
      assert Strokes([q[0]] + r)[1..] == Strokes(r);
      assert Strokes(q)[1..] == Strokes(q[1..]);
    }
  }

  lemma {:induction false} SettledKeepsUps(q: seq<Event>, fingers: map<int, FingerData>, code: int)
    ensures Count(Strokes(Settled(q, fingers)), code, false) == Count(Strokes(q), code, false)
  {
    if q != [] {
      SettledKeepsUps(q[1..], fingers, code);
      var r := Settled(q[1..], fingers);
      assert Strokes([q[0]] + r)[1..] == Strokes(r);
      assert Strokes(q)[1..] == Strokes(q[1..]);
    }
  }

  // The pending Downs of a key whose finger has left.
  function OrphanDowns(s: State, code: int): nat {
    Count(Strokes(Settled(s.pending, s.fingers)), code, true)
  }

  /** Conservation: for each key, the Downs sent less the Ups sent are the fingers holding it,
      plus the Ups that are pending, less the pending Downs whose finger has left. */
  lemma Conservation(s: State, now: Timespec, code: int)
    requires Inv(s, now)
    ensures Count(s.trace, code, true) - Count(s.trace, code, false) ==
            |Holders(s, code)| + Count(Strokes(s.pending), code, false) - OrphanDowns(s, code)
  {
    var q := Strokes(Settled(s.pending, s.fingers));
    forall k ensures Balance(Of(s.trace + q, k), code) == if k in Holders(s, code) then 1 else 0 {
      assert HistoryOk(s, k);
      OfConcat(s.trace, q, k);
      OfSettled(s, s.pending, k);
      HoldersMeaning(s, now, code, k);
      if Holds(s, k) {
        assert Sent(s, k) + [] == Sent(s, k);
        PressBalance(Sent(s, k), code);
      } else {
        PressBalance(History(s, k), code);
      }
    }
    BalanceIsSum(s.trace + q, code, Holders(s, code));
    CountConcat(s.trace, q, code, true);
    CountConcat(s.trace, q, code, false);
    SettledKeepsUps(s.pending, s.fingers, code);
  }

  lemma HoldersMeaning(s: State, now: Timespec, code: int, k: Contact)
    requires Inv(s, now)
    ensures k in Holders(s, code) <==>
              Holds(s, k) && s.fingers[k.tid].downSent && s.fingers[k.tid].code == code
  {
    if k in Holders(s, code) {
      var tid :| tid in s.fingers && Live(s, tid) && s.fingers[tid].downSent && s.fingers[tid].code == code
                 && s.fingers[tid].contact == k;
      assert FingerOk(s, tid);
    }
  }

  // ---- no stuck key ----

  /** From any state of a run: once every contact has left and 50 ms have passed, no finger and
      no event is left, Fn is off, every contact's output is a whole press, and every key has
      been released as often as it was pressed. */
  lemma Quiescence(s: State, clock: Timespec, t1: Timespec, leaves: seq<int>, t2: Timespec)
    requires Inv(s, clock) && Normal(t1) && Normal(t2)
    requires Ns(clock) <= Ns(t1) && Ns(t1) + DELAY_NS <= Ns(t2)
    requires AdmissibleFrame(s, t1, map[], [], leaves)
    ensures var r := Iterate(Iterate(s, t1, Frame(map[], [], leaves)), t2, Timeout);
            && r.fingers == map[] && r.pending == [] && !r.fn
            && (forall k :: Whole(Sent(r, k)))
            && (forall code :: Count(r.trace, code, true) == Count(r.trace, code, false))
  {
    var m := Snap(s, t1, map[], [], leaves);
    var s1 := Drain(m, t1);
    assert Inv(m, t1) && m.fingers.Keys == {} by {
      assert Inv(s, t1);
      SnapKeeps(s, t1, map[], [], leaves);
    }
    DrainKeepsFingers(m, t1);
    DrainKeepsFingers(s1, t2) by { InvLater(s1, t1, t2); }
    DrainEmpties(s1, t1, t2) by { InvLater(s1, t1, t2); }
    AtRest(Drain(s1, t2), t2);
  }

  lemma DrainKeepsFingers(s: State, now: Timespec)
    requires Inv(s, now)
    ensures Inv(Drain(s, now), now) && Drain(s, now).fingers.Keys == s.fingers.Keys
  {
    DrainKeeps(s, now);
    DrainIsDecided(s, now);
  }

  // With no finger and no event left, everything has been released.
  lemma AtRest(s: State, now: Timespec)
    requires Inv(s, now) && s.fingers.Keys == {} && s.pending == []
    ensures s.fingers == map[] && !s.fn
    ensures forall k :: Whole(Sent(s, k))
    ensures forall code :: Count(s.trace, code, true) == Count(s.trace, code, false)
  {
    assert s.fingers == map[] && FnOk(s);
    forall k ensures Whole(Sent(s, k)) {
      assert HistoryOk(s, k);
      assert Sent(s, k) + [] == Sent(s, k);
    }
    forall code ensures Count(s.trace, code, true) == Count(s.trace, code, false) {
      forall k ensures Balance(Of(s.trace, k), code) == if k in {} then 1 else 0 {
        assert Whole(Sent(s, k));
        PressBalance(Sent(s, k), code);
      }
      BalanceIsSum(s.trace, code, {});
    }
  }

  lemma DrainEmpties(s: State, t1: Timespec, t2: Timespec)
    requires Inv(s, t1) && Inv(s, t2) && Ns(t1) + DELAY_NS <= Ns(t2)
    ensures Drain(s, t2).pending == []
  {
    var q := Drain(s, t2).pending;
    if q != [] {
      LeftWasPending(s, t2, q[0]);
      DelayIsOver(q[0].deadline, t1, t2);
    }
  }

  lemma LeftWasPending(s: State, now: Timespec, e: Event)
    requires Inv(s, now) && e in Drain(s, now).pending
    ensures e in s.pending && Later(e.deadline, now)
  {
    DrainComplete(s, now);
    DrainIsDecided(s, now);
  }

  lemma DelayIsOver(deadline: Timespec, t1: Timespec, t2: Timespec)
    requires Normal(deadline) && Normal(t2) && Ns(deadline) <= Ns(t1) + DELAY_NS <= Ns(t2)
    ensures !Later(deadline, t2)
  {
    LaterIsInstantOrder(deadline, t2);
  }

  // ---- timing ----

  /** A contact that leaves has its whole press on record, and the Up follows the Down by
      exactly as long as the contact lasted. */
  lemma LeaveKeepsDuration(s: State, now: Timespec, tid: int)
    requires Inv(s, now) && Live(s, tid)
    ensures var d := s.fingers[tid];
            var h := History(Leave(s, now, tid), d.contact);
            && |h| == 2 && Whole(h) && h[0].code == d.code
            && Ns(h[0].due) == Ns(d.arrival) + DELAY_NS
            && Ns(h[1].due) - Ns(h[0].due) == Ns(now) - Ns(d.arrival)
  {
    EndedHistory(s, now, tid, true);
    LeaveEnds(s, now, tid);
  }

  lemma EndedHistory(s: State, now: Timespec, tid: int, left: bool)
    requires Inv(s, now) && Live(s, tid) && (left || s.fingers[tid].downSent)
    ensures var d := s.fingers[tid];
            History(Ended(s, now, tid, left), d.contact) ==
            [DownEvent(d).AsStroke(), UpEvent(d.code, now, d.contact).AsStroke()]
  {
    var d := s.fingers[tid];
    assert FingerOk(s, tid) && HistoryOk(s, d.contact);
    EndPend(s, now, tid, left, d.contact);
  }

  /** A contact that slides off its key leaves no trace if its Down was still pending; otherwise
      its Up is scheduled at once, again as long after the Down as the contact was on its key. */
  lemma SlideOffRevokesOrReleases(s: State, now: Timespec, tid: int, f: MtFinger)
    requires Inv(s, now) && Live(s, tid) && !StillOnFirstKey(s.layout, f, s.fingers[tid])
    ensures var d := s.fingers[tid];
            var s' := Touch(s, now, tid, f);
            var h := History(s', d.contact);
            && !Live(s', tid)
            && (!d.downSent ==> h == [])
            && (d.downSent ==>
                  |h| == 2 && Whole(h) && h[0].code == d.code &&
                  Ns(h[1].due) - Ns(h[0].due) == Ns(now) - Ns(d.arrival))
  {
    var s1 := s.(fingers := s.fingers[tid := Measure(s.fingers[tid], f)]);
    MeasureKeeps(s, now, tid, f);
    var d := s1.fingers[tid];
    if d.downSent {
      SlideOffAfterDown(s1, now, tid);
      EndedHistory(s1, now, tid, false);
    } else {
      assert FingerOk(s1, tid) && HistoryOk(s1, d.contact);
      forall e | e in s1.pending ensures e.tid == tid <==> e.contact == d.contact {
        PendingOfLive(s1, tid, e);
      }
      EraseOf(s1.pending, d.contact, tid, d.contact);
    }
  }

  /** A Down that is sent while its finger is still on the surface passed the check: pressure
      from 50 to 110, or a diameter from 300 to 3000 where no pressure is reported, without the
      upper limit on the space bar. A finger that came due outside the range is rejected and
      nothing it caused remains. */
  lemma FiringDecidesByRange(s: State, now: Timespec, tid: int)
    requires Inv(s, now) && Live(s, tid) && !s.fingers[tid].downSent
    ensures var d, s' := s.fingers[tid], Drain(s, now);
            var size := if d.maxPressure == -1 then d.maxTouchMajor else d.maxPressure;
            var lo := if d.maxPressure == -1 then 300 else 50;
            var hi := if d.maxPressure == -1 then 3000 else 110;
            var inside := lo <= size && (size <= hi || s.layout[d.startingKey].code == KEY_SPACE);
            var due := Ns(d.arrival) + 50_000_000 <= Ns(now);
            && tid in s'.fingers
            && (!due ==> s'.fingers[tid] == d && Sent(s', d.contact) == [])
            && (due && inside ==> Holds(s', d.contact) && Sent(s', d.contact) == [DownEvent(d).AsStroke()])
            && (due && !inside ==> !Live(s', tid) && History(s', d.contact) == [])
  {
    var d, s' := s.fingers[tid], Drain(s, now);
    var due := s.pending[..DueCount(s.pending, now)];
    assert 0 <= d.startingKey < |s.layout| && d.contact.tid == tid by { assert FingerOk(s, tid); }
    HasDueEvent(s, now, tid);
    DrainIsDecided(s, now);
    assert s'.fingers[tid] == Decide(s.layout, d, HasEvent(due, tid));
    DrainKeeps(s, now);
    assert HistoryOk(s', d.contact);
    if HasEvent(due, tid) && !InRange(s.layout, d) {
      NothingLeft(s, now, tid);
    }
  }

  lemma HasDueEvent(s: State, now: Timespec, tid: int)
    requires Inv(s, now) && Live(s, tid) && !s.fingers[tid].downSent
    ensures HasEvent(s.pending[..DueCount(s.pending, now)], tid) <==>
            Ns(s.fingers[tid].arrival) + DELAY_NS <= Ns(now)
  {
    var n, i := DueCount(s.pending, now), FirstOf(s.pending, tid);
    QueueMirrorsFingers(s, now, tid);
    assert FingerOk(s, tid);
    LaterIsInstantOrder(s.pending[i].deadline, now);
    DueIsPrefix(s, now, i);
    HasEventMeaning(s.pending[..n], tid);
    if i < n {
      assert s.pending[..n][i] in s.pending[..n];
    }
  }

  lemma DueIsPrefix(s: State, now: Timespec, i: nat)
    requires Inv(s, now) && i < |s.pending|
    ensures i < DueCount(s.pending, now) <==> !Later(s.pending[i].deadline, now)
  {
    var n := DueCount(s.pending, now);
    if n <= i {
      assert s.pending[n] in s.pending && s.pending[i] in s.pending;
      LaterIsInstantOrder(s.pending[n].deadline, now);
      LaterIsInstantOrder(s.pending[i].deadline, now);
    }
  }

  // A finger rejected by the firing loop had its only event taken and not sent.
  lemma NothingLeft(s: State, now: Timespec, tid: int)
    requires Inv(s, now) && Live(s, tid) && !s.fingers[tid].downSent
    requires HasEvent(s.pending[..DueCount(s.pending, now)], tid) && !InRange(s.layout, s.fingers[tid])
    ensures History(Drain(s, now), s.fingers[tid].contact) == []
  {
    NothingSent(s, now, tid);
    RejectedHasNoDown(s, now, tid);
  }

  lemma NothingSent(s: State, now: Timespec, tid: int)
    requires Inv(s, now) && Live(s, tid) && !s.fingers[tid].downSent && !InRange(s.layout, s.fingers[tid])
    ensures Sent(Drain(s, now), s.fingers[tid].contact) == []
  {
    var c := s.fingers[tid].contact;
    var due := s.pending[..DueCount(s.pending, now)];
    DrainIsDecided(s, now);
    assert FingerOk(s, tid) && HistoryOk(s, c);
    forall e | e in due && e.contact == c ensures !Passes(s.layout, s.fingers, e) {
      PendingOfLive(s, tid, e);
    }
    PassingSkips(s.layout, s.fingers, due, c);
    OfConcat(s.trace, Passing(s.layout, s.fingers, due), c);
  }

  // A contact that was live and no longer is has no event among those that are left.
  lemma NoEventLeft(s: State, s': State, tid: int)
    requires Live(s, tid) && FingerOk(s, tid) && tid in s'.fingers && !Holds(s', s.fingers[tid].contact)
    requires forall e | e in s'.pending :: e in s.pending && EventOk(s, e) && EventOk(s', e)
    ensures Pend(s', s.fingers[tid].contact) == []
  {
    var c := s.fingers[tid].contact;
    if Pend(s', c) != [] {
      OfHasEvent(s'.pending, c);
      var j :| 0 <= j < |s'.pending| && s'.pending[j].contact == c;
      assert s'.pending[j] in s'.pending;
      PendingOfLive(s, tid, s'.pending[j]);
    }
  }

  lemma RejectedHasNoDown(s: State, now: Timespec, tid: int)
    requires Inv(s, now) && Live(s, tid) && !s.fingers[tid].downSent && !InRange(s.layout, s.fingers[tid])
    requires HasEvent(s.pending[..DueCount(s.pending, now)], tid)
    ensures Pend(Drain(s, now), s.fingers[tid].contact) == []
  {
    var s' := Drain(s, now);
    assert tid in s'.fingers && !Live(s', tid) && forall e | e in s'.pending :: e in s.pending by {
      DrainIsDecided(s, now);
    }
    forall e | e in s'.pending ensures EventOk(s', e) {
      DrainKeeps(s, now);
    }
    assert s.fingers[tid].contact.tid == tid by { assert FingerOk(s, tid); }
    NoEventLeft(s, s', tid);
  }

  lemma {:induction false} PassingSkips(layout: seq<Key>, fingers: map<int, FingerData>, q: seq<Event>, c: Contact)
    requires forall e | e in q && e.contact == c :: !Passes(layout, fingers, e)
    ensures Of(Passing(layout, fingers, q), c) == []
  {
    if q != [] {
      assert q[0] in q;
      PassingSkips(layout, fingers, q[1..], c);
      if Passes(layout, fingers, q[0]) {
        assert Passing(layout, fingers, q)[1..] == Passing(layout, fingers, q[1..]);
      }
    }
  }

  // ---- whole runs ----

  /** In every state of every run, from an empty keyboard on: the output followed by the queue is
      in deadline order and no deadline is more than 50 ms after the last clock reading; every
      contact has produced a prefix of one press at every point of the output; releases never
      lead; keys are conserved; Fn is on only while a live finger rests on an Fn key; and every
      code that was sent is one the device was created with. */
  lemma EveryRun(layout: seq<Key>, clock: Timespec, states: seq<System>, turns: seq<Turn>, i: nat, n: nat,
                 k: Contact, code: int)
    requires LayoutOk(layout) && Normal(clock)
    requires IsRun(states, turns) && states[0] == Start(layout, clock)
    requires i < |states| && n <= |states[i].keyboard.trace|
    ensures var s := states[i].keyboard;
            && TimesOk(s, states[i].clock)
            && PressPrefix(Of(s.trace[..n], k))
            && Balance(s.trace[..n], code) >= 0
            && Balance(s.trace, code) ==
               |Holders(s, code)| + Count(Strokes(s.pending), code, false) - OrphanDowns(s, code)
            && (s.fn ==> exists tid :: Live(s, tid) && s.fingers[tid].code == 0x1d0)
            && (forall t | t in s.trace :: Enabled(s.layout, t.code))
  {
    StartIsGood(layout, clock);
    RunsKeepInvariant(states, turns, 0, i);
    var sys := states[i];
    ContactOutputIsPress(sys.keyboard, sys.clock, n, k);
    ReleasesNeverLead(sys.keyboard, sys.clock, n, code);
    Conservation(sys.keyboard, sys.clock, code);
  }

  /** Over any run, a contact that is over in one state has in every later state exactly the
      history it had. */
  lemma FateIsSealedOverRuns(states: seq<System>, turns: seq<Turn>, i: nat, j: nat, k: Contact)
    requires IsRun(states, turns) && Good(states[0]) && i <= j < |states|
    requires Used(states[i].keyboard, k) && !Holds(states[i].keyboard, k)
    ensures var s, s' := states[i].keyboard, states[j].keyboard;
            && !Holds(s', k)
            && (History(s, k) == [] ==> Sent(s', k) == [])
            && (History(s, k) != [] ==> |History(s', k)| == 2 && Whole(History(s', k)))
            && (s'.pending == [] ==> Sent(s', k) == History(s, k))
  {
    RunsKeepInvariant(states, turns, i, j);
    RunsKeepInvariant(states, turns, 0, i);
    FateIsSealed(states[i].keyboard, states[j].keyboard, states[i].clock, states[j].clock, k);
  }
}
