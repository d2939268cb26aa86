/** What becomes of a contact, told by what the frames report of it and by the clock alone: which
    key it is on, whether it stays on it, how hard it pressed, and when that is decided. */
module KeyboardReadings {
  import opened HashTables
  import opened Timespecs
  import opened StateMachine
  import opened KeyboardModel
  import opened KeyboardInvariant
  import opened KeyboardSteps
  import opened KeyboardRuns
  import opened KeyboardDrain
  import opened KeyboardTheorems
  import opened KeyboardConfluence
  import opened KeyboardTiming
  import opened KeyboardFates

  // ---- readings ----

  // The frame handled in a turn, if any, reports a tracking id.
  ghost predicate Reports(states: seq<System>, turns: seq<Turn>, n: nat, tid: int) {
    && n < |states| && n < |turns| && states[n].decoder.Valid()
    && var input := InputOf(states[n].decoder, turns[n]);
       input.Frame? && tid in input.snapshot
  }

  ghost function Reading(states: seq<System>, turns: seq<Turn>, n: nat, tid: int): MtFinger
    requires Reports(states, turns, n, tid)
  {
    InputOf(states[n].decoder, turns[n]).snapshot[tid]
  }

  // Everything the frames of turns i up to, but not including, j report of a tracking id.
  ghost function Readings(states: seq<System>, turns: seq<Turn>, i: nat, j: nat, tid: int): set<MtFinger> {
    set n: nat | i <= n < j && Reports(states, turns, n, tid) :: Reading(states, turns, n, tid)
  }

  // The key's rectangle is half-open: the lower edges belong to it, the upper ones do not.
  predicate On(key: Key, f: MtFinger) {
    key.xmin <= f.x < key.xmax && key.ymin <= f.y < key.ymax
  }

  ghost predicate NoPressure(readings: set<MtFinger>) {
    (forall f | f in readings :: f.p <= -1) && (exists f :: f in readings && f.p == -1)
  }

  // The readings pass the check made when the Down comes due. If none has a pressure, the largest
  // diameter decides, from 300 to 3000; otherwise the largest pressure does, from 50 to 110. The
  // space bar (57) has no upper limit.
  ghost predicate Fits(readings: set<MtFinger>, key: Key) {
    if NoPressure(readings) then
      && (exists f :: f in readings && f.touchMajor >= 300)
      && (key.code == 57 || forall f | f in readings :: f.touchMajor <= 3000)
    else
      && (exists f :: f in readings && f.p >= 50)
      && (key.code == 57 || forall f | f in readings :: f.p <= 110)
  }

  // The maxima kept for a contact are the largest readings.
  ghost predicate Largest(readings: set<MtFinger>, d: FingerData) {
    && (forall f | f in readings :: f.p <= d.maxPressure && f.touchMajor <= d.maxTouchMajor)
    && (exists f :: f in readings && f.p == d.maxPressure)
    && (exists f :: f in readings && f.touchMajor == d.maxTouchMajor)
  }

  // What is kept for a held contact comes from its readings: it has been on its key in all of them.
  ghost predicate Recorded(layout: seq<Key>, readings: set<MtFinger>, d: FingerData) {
    && 0 <= d.startingKey < |layout| && Largest(readings, d)
    && forall f | f in readings :: On(layout[d.startingKey], f)
  }

  // The range check on maxima that are the largest readings is the check on the readings.
  lemma InRangeIsFits(layout: seq<Key>, readings: set<MtFinger>, d: FingerData)
    requires Recorded(layout, readings, d)
    ensures InRange(layout, d) <==> Fits(readings, layout[d.startingKey])
  {
    var p :| p in readings && p.p == d.maxPressure;
    var t :| t in readings && t.touchMajor == d.maxTouchMajor;
  }

  // ---- one frame ----

  lemma TouchedKnown(s: State, m: State, now: Timespec, tid: int, f: MtFinger)
    requires tid in s.fingers && tid in m.fingers && m.fingers[tid] == s.fingers[tid] && m.layout == s.layout
    ensures tid in Touch(m, now, tid, f).fingers && tid in Touch(s, now, tid, f).fingers
    ensures Touch(m, now, tid, f).fingers[tid] == Touch(s, now, tid, f).fingers[tid]
  {
  }

  // A contact known before is updated once, in its turn of the walk.
  lemma {:induction false} KnownFinger(s: State, now: Timespec, snapshot: map<int, MtFinger>, order: seq<int>, t: int)
    requires forall i, j | 0 <= i < j < |order| :: order[i] != order[j]
    requires forall tid | tid in order :: tid in snapshot
    requires t in order && t in s.fingers
    ensures var r := TouchAll(s, now, snapshot, order);
            t in r.fingers && r.fingers[t] == Touch(s, now, t, snapshot[t]).fingers[t]
  {
    var n := |order| - 1;
    var head, tid := order[..n], order[n];
    assert order == head + [tid];
    assert tid in order && forall h | h in head :: h in order;
    WalkFlag(s, now, snapshot, head);
    if tid == t {
      assert t !in head;
      TouchedKnown(s, TouchAll(s, now, snapshot, head), now, t, snapshot[t]);
    } else {
      KnownFinger(s, now, snapshot, head, t);
      TouchFlag(TouchAll(s, now, snapshot, head), now, snapshot, tid);
    }
  }

  // The maxima after one more reading are the larger of each two.
  predicate Grew(d: FingerData, f: MtFinger, d': FingerData) {
    && d' == d.(maxPressure := d'.maxPressure, maxTouchMajor := d'.maxTouchMajor)
    && d'.maxPressure == (if d.maxPressure <= f.p then f.p else d.maxPressure)
    && d'.maxTouchMajor == (if d.maxTouchMajor <= f.touchMajor then f.touchMajor else d.maxTouchMajor)
  }

  lemma TouchReads(s: State, now: Timespec, k: Contact, f: MtFinger)
    requires Holds(s, k) && 0 <= s.fingers[k.tid].startingKey < |s.layout|
    ensures var r := Touch(s, now, k.tid, f);
            && (Holds(r, k) <==> On(s.layout[s.fingers[k.tid].startingKey], f))
            && (Holds(r, k) ==> Grew(s.fingers[k.tid], f, r.fingers[k.tid]))
  {
  }

  /** One frame, in any order: a held contact stays held exactly if the frame reports it on its key,
      and then its maxima take in the reading. */
  lemma FrameReads(s: State, now: Timespec, snapshot: map<int, MtFinger>, touches: seq<int>, leaves: seq<int>,
                   k: Contact)
    requires Inv(s, now) && AdmissibleFrame(s, now, snapshot, touches, leaves) && Holds(s, k)
    ensures 0 <= s.fingers[k.tid].startingKey < |s.layout|
    ensures var m, d := Snap(s, now, snapshot, touches, leaves), s.fingers[k.tid];
            && (Holds(m, k) <==> k.tid in snapshot && On(s.layout[d.startingKey], snapshot[k.tid]))
            && (Holds(m, k) ==> Grew(d, snapshot[k.tid], m.fingers[k.tid]))
  {
    assert FingerOk(s, k.tid);
    SnapKeeps(s, now, snapshot, touches, leaves);
    if k.tid in snapshot {
      assert k.tid in snapshot.Keys && forall tid | tid in touches :: tid in snapshot.Keys;
      KnownFinger(s, now, snapshot, touches, k.tid);
      ReportedStay(TouchAll(s, now, snapshot, touches), now, snapshot, leaves);
      TouchReads(s, now, k, snapshot[k.tid]);
    }
  }

  /** A new contact is held exactly if some key contains it; its key is the first that does, and
      its maxima are its first reading. */
  lemma FrameLands(s: State, now: Timespec, snapshot: map<int, MtFinger>, touches: seq<int>, leaves: seq<int>,
                   k: Contact)
    requires Inv(s, now) && AdmissibleFrame(s, now, snapshot, touches, leaves)
    requires !Used(s, k) && Used(Snap(s, now, snapshot, touches, leaves), k)
    ensures k.tid in snapshot
    ensures var m, f := Snap(s, now, snapshot, touches, leaves), snapshot[k.tid];
            && (Holds(m, k) <==> exists key :: key in s.layout && On(key, f))
            && (Holds(m, k) ==>
                  var d := m.fingers[k.tid];
                  && Recorded(s.layout, {f}, d) && !d.downSent
                  && forall q | 0 <= q < d.startingKey :: !On(s.layout[q], f))
            && k.tid in m.fingers && (!Holds(m, k) ==> m.fingers[k.tid].status == TouchdownOffKey)
  {
    assert forall tid | tid in touches :: tid in snapshot.Keys;
    Newcomer(s, now, snapshot, touches, leaves, k);
    var p: nat :| Entered(s, now, snapshot, touches, leaves, k, p);
    assert k.tid in touches;
    EnteredLands(TouchAll(s, now, snapshot, touches[..p]), Snap(s, now, snapshot, touches, leaves), now, k,
                 snapshot[k.tid]);
  }

  lemma EnteredLands(prefix: State, m: State, now: Timespec, k: Contact, f: MtFinger)
    requires Contact(k.tid, Uses(prefix, k.tid)) == k
    requires k.tid in m.fingers && m.fingers[k.tid] == NewFinger(prefix, now, k.tid, f)
    ensures Holds(m, k) <==> exists key :: key in prefix.layout && On(key, f)
    ensures var d := m.fingers[k.tid];
            && (Holds(m, k) ==>
                  && Recorded(prefix.layout, {f}, d) && !d.downSent
                  && forall q | 0 <= q < d.startingKey :: !On(prefix.layout[q], f))
            && (!Holds(m, k) ==> d.status == TouchdownOffKey)
  {
    LandsOnFirst(prefix.layout, f);
    NewFingerTells(prefix, now, k.tid, f);
  }

  // What is entered for a new contact.
  lemma NewFingerTells(s: State, now: Timespec, tid: int, f: MtFinger)
    ensures var d, q := NewFinger(s, now, tid, f), FindKey(s.layout, f.x, f.y);
            && d.startingKey == q && !d.downSent && d.contact == Contact(tid, Uses(s, tid))
            && d.status == (if q == NO_KEY then TouchdownOffKey else NotRejectedYet)
            && Largest({f}, d)
  {
    assert f in {f};
  }

  // The contact is the one at place p of the walk, and its entry is made there.
  ghost predicate Entered(s: State, now: Timespec, snapshot: map<int, MtFinger>, touches: seq<int>, leaves: seq<int>,
                          k: Contact, p: nat)
    requires forall tid | tid in touches :: tid in snapshot
  {
    && p < |touches| && touches[p] == k.tid && (forall tid | tid in touches[..p] :: tid in snapshot)
    && var m, prefix := Snap(s, now, snapshot, touches, leaves), TouchAll(s, now, snapshot, touches[..p]);
       && prefix.layout == s.layout && Contact(k.tid, Uses(prefix, k.tid)) == k
       && k.tid in m.fingers && m.fingers[k.tid] == NewFinger(prefix, now, k.tid, snapshot[k.tid])
  }

  lemma Newcomer(s: State, now: Timespec, snapshot: map<int, MtFinger>, touches: seq<int>, leaves: seq<int>,
                 k: Contact)
    requires Lists(touches, snapshot.Keys) && forall tid | tid in touches :: tid in snapshot
    requires !Used(s, k) && Used(Snap(s, now, snapshot, touches, leaves), k)
    ensures exists p :: Entered(s, now, snapshot, touches, leaves, k, p)
  {
    var m1 := TouchAll(s, now, snapshot, touches);
    LeavingNotCounted(m1, now, snapshot, leaves);
    assert k.tid !in s.fingers && k.tid in touches by {
      if k.tid in s.fingers || k.tid !in touches {
        KnownNotCounted(s, now, snapshot, touches, k.tid);
      }
    }
    var p :| 0 <= p < |touches| && touches[p] == k.tid;
    ArrivedFinger(s, now, snapshot, touches, p);
    ReportedStay(m1, now, snapshot, leaves);
    WalkFlag(s, now, snapshot, touches[..p]);
    UsedOnce(s, now, snapshot, touches, p, k);
    assert Entered(s, now, snapshot, touches, leaves, k, p);
  }

  // The scan for a key, without the scan.
  lemma LandsOnFirst(layout: seq<Key>, f: MtFinger)
    ensures var q := FindKey(layout, f.x, f.y);
            if q == NO_KEY then forall key | key in layout :: !On(key, f)
            else
              && 0 <= q < |layout| && On(layout[q], f) && layout[q] in layout
              && forall j | 0 <= j < q :: !On(layout[j], f)
  {
  }

  // The new contact is the one whose name is next for its tracking id.
  lemma UsedOnce(s: State, now: Timespec, snapshot: map<int, MtFinger>, touches: seq<int>, p: nat, k: Contact)
    requires forall i, j | 0 <= i < j < |touches| :: touches[i] != touches[j]
    requires forall tid | tid in touches :: tid in snapshot
    requires p < |touches| && touches[p] == k.tid && k.tid !in s.fingers
    requires !Used(s, k) && Used(TouchAll(s, now, snapshot, touches), k)
    ensures forall tid | tid in touches[..p] :: tid in touches
    ensures Contact(k.tid, Uses(TouchAll(s, now, snapshot, touches[..p]), k.tid)) == k
  {
    assert k.tid !in touches[..p];
    KnownNotCounted(s, now, snapshot, touches[..p], k.tid);
    CountedOnce(s, now, snapshot, touches, p);
  }

  lemma {:induction false} CountedOnce(s: State, now: Timespec, snapshot: map<int, MtFinger>, order: seq<int>, p: nat)
    requires forall i, j | 0 <= i < j < |order| :: order[i] != order[j]
    requires forall tid | tid in order :: tid in snapshot
    requires p < |order| && order[p] !in s.fingers
    ensures Uses(TouchAll(s, now, snapshot, order), order[p]) == Uses(s, order[p]) + 1
  {
    var n := |order| - 1;
    var head, tid := order[..n], order[n];
    assert order == head + [tid];
    assert tid in order && forall t | t in head :: t in order;
    if p == n {
      assert tid !in head;
      KnownNotCounted(s, now, snapshot, head, tid);
      WalkFlag(s, now, snapshot, head);
    } else {
      CountedOnce(s, now, snapshot, head, p);
      TouchCounts(TouchAll(s, now, snapshot, head), now, tid, snapshot[tid], order[p]);
    }
  }

  // ---- the firing loop ----

  // A held contact whose Down waits is decided once it is due: sent if it is in range, ended if not.
  ghost predicate Decides(s: State, r: State, now: Timespec, k: Contact)
    requires Holds(s, k)
  {
    var d := s.fingers[k.tid];
    var due := Ns(d.arrival) + 50_000_000 <= Ns(now);
    && (Holds(r, k) <==> d.downSent || !due || InRange(s.layout, d))
    && (Holds(r, k) ==> r.fingers[k.tid] == d.(downSent := d.downSent || due))
  }

  lemma DrainDecides(s: State, now: Timespec, k: Contact)
    requires Inv(s, now) && Holds(s, k)
    ensures Decides(s, Drain(s, now), now, k)
  {
    var d, due := s.fingers[k.tid], s.pending[..DueCount(s.pending, now)];
    if d.downSent {
      QueueMirrorsFingers(s, now, k.tid);
      assert !HasEvent(due, k.tid) by {
        HasEventMeaning(s.pending, k.tid);
        HasEventMeaning(due, k.tid);
      }
    } else {
      HasDueEvent(s, now, k.tid);
    }
    DrainIsDecided(s, now);
  }

  // ---- over runs ----

  lemma ReadingsGrow(states: seq<System>, turns: seq<Turn>, i: nat, j: nat, tid: int)
    requires i <= j
    ensures Readings(states, turns, i, j + 1, tid) ==
            Readings(states, turns, i, j, tid) +
            if Reports(states, turns, j, tid) then {Reading(states, turns, j, tid)} else {}
  {
    var all, old_ := Readings(states, turns, i, j + 1, tid), Readings(states, turns, i, j, tid);
    forall f | f in all
      ensures f in old_ || (Reports(states, turns, j, tid) && f == Reading(states, turns, j, tid)) {
      var n: nat :| i <= n < j + 1 && Reports(states, turns, n, tid) && Reading(states, turns, n, tid) == f;
      if n < j {
        assert f in old_;
      }
    }
    forall f | f in old_ ensures f in all {
      var n: nat :| i <= n < j && Reports(states, turns, n, tid) && Reading(states, turns, n, tid) == f;
    }
  }

  lemma RecordedGrows(layout: seq<Key>, readings: set<MtFinger>, d: FingerData, f: MtFinger, d': FingerData)
    requires Recorded(layout, readings, d) && Grew(d, f, d') && On(layout[d.startingKey], f)
    ensures Recorded(layout, readings + {f}, d')
  {
    var p :| p in readings && p.p == d.maxPressure;
    var t :| t in readings && t.touchMajor == d.maxTouchMajor;
    var all := readings + {f};
    assert p in all && t in all && f in all;
  }

  // The pass is due to decide a contact that arrived in turn i.
  ghost predicate DecidesIn(states: seq<System>, turns: seq<Turn>, i: nat, n: nat)
    requires i < |turns| && n < |turns| && n < |states|
  {
    Fires(states[n], turns[n]) && Ns(turns[i].after) + 50_000_000 <= Ns(turns[n].after)
  }

  // Some turn after the arrival, before turn j, has come to decide.
  ghost predicate DecidedBefore(states: seq<System>, turns: seq<Turn>, i: nat, j: nat)
    requires i < |turns| && j <= |turns| && j <= |states|
  {
    exists n: nat :: i < n < j && DecidesIn(states, turns, i, n)
  }

  // What a state keeps for a held contact, told by the turns since it arrived.
  ghost predicate Kept(states: seq<System>, turns: seq<Turn>, i: nat, j: nat, k: Contact)
    requires i < j <= |turns| && j < |states| && Holds(states[j].keyboard, k)
  {
    var d := states[j].keyboard.fingers[k.tid];
    && Recorded(states[j].keyboard.layout, Readings(states, turns, i, j, k.tid), d)
    && d.arrival == turns[i].after
    && (d.downSent <==> DecidedBefore(states, turns, i, j))
  }

  // The frame of a turn, if it handles one, reports the contact on the key.
  ghost predicate StaysOn(states: seq<System>, turns: seq<Turn>, j: nat, tid: int, key: Key)
    requires j < |turns| && j < |states| && states[j].decoder.Valid()
  {
    StaysIn(InputOf(states[j].decoder, turns[j]), tid, key)
  }

  lemma DecidedNext(states: seq<System>, turns: seq<Turn>, i: nat, j: nat)
    requires i < j < |turns| && j < |states|
    ensures DecidedBefore(states, turns, i, j + 1) <==>
            DecidedBefore(states, turns, i, j) || DecidesIn(states, turns, i, j)
  {
    if DecidedBefore(states, turns, i, j) {
      var n: nat :| i < n < j && DecidesIn(states, turns, i, n);
      assert i < n < j + 1;
    }
    if DecidesIn(states, turns, i, j) {
      assert i < j < j + 1;
    }
  }

  // Before the firing loop of a turn: the contact is still held, with its maxima up to date.
  ghost predicate Survives(s: State, m: State, k: Contact, readings: set<MtFinger>)
    requires Holds(s, k)
  {
    && Holds(m, k) && m.layout == s.layout
    && var d, d' := s.fingers[k.tid], m.fingers[k.tid];
       && d'.arrival == d.arrival && d'.startingKey == d.startingKey && d'.downSent == d.downSent
       && Recorded(m.layout, readings, d')
  }

  lemma ThenDecides(s: State, m: State, now: Timespec, k: Contact, readings: set<MtFinger>)
    requires Holds(s, k) && Survives(s, m, k, readings) && Inv(m, now)
    ensures var d, r := s.fingers[k.tid], Drain(m, now);
            var due := Ns(d.arrival) + 50_000_000 <= Ns(now);
            && (Holds(r, k) <==> d.downSent || !due || Fits(readings, s.layout[d.startingKey]))
            && (Holds(r, k) ==>
                  var d' := r.fingers[k.tid];
                  && d'.arrival == d.arrival && d'.startingKey == d.startingKey
                  && Recorded(s.layout, readings, d')
                  && (d'.downSent <==> d.downSent || due))
  {
    DrainDecides(m, now, k);
    InRangeIsFits(m.layout, readings, m.fingers[k.tid]);
    assert Drain(m, now).layout == m.layout by { DrainKeeps(m, now); }
  }

  ghost predicate StaysIn(input: Input, tid: int, key: Key) {
    input.Frame? ==> tid in input.snapshot && On(key, input.snapshot[tid])
  }

  ghost function NewReadings(input: Input, tid: int): set<MtFinger> {
    if input.Frame? && tid in input.snapshot then {input.snapshot[tid]} else {}
  }

  // A held contact after one pass, given its readings so far and those of the pass.
  ghost predicate Told(s: State, r: State, k: Contact, readings: set<MtFinger>, stays: bool, decides: bool)
    requires Holds(s, k) && 0 <= s.fingers[k.tid].startingKey < |s.layout|
  {
    var d := s.fingers[k.tid];
    && r.layout == s.layout
    && (Holds(r, k) <==> stays && (decides && !d.downSent ==> Fits(readings, s.layout[d.startingKey])))
    && (Holds(r, k) ==>
          var d' := r.fingers[k.tid];
          && d'.arrival == d.arrival && d'.startingKey == d.startingKey
          && Recorded(s.layout, readings, d')
          && (d'.downSent <==> d.downSent || decides))
  }

  lemma FrameTells(s: State, now: Timespec, snapshot: map<int, MtFinger>, touches: seq<int>, leaves: seq<int>,
                   k: Contact, readings: set<MtFinger>)
    requires Inv(s, now) && AdmissibleFrame(s, now, snapshot, touches, leaves) && Holds(s, k)
    requires Recorded(s.layout, readings, s.fingers[k.tid])
    ensures var input, d := Frame(snapshot, touches, leaves), s.fingers[k.tid];
            Told(s, Drain(Snap(s, now, snapshot, touches, leaves), now), k, readings + NewReadings(input, k.tid),
                 StaysIn(input, k.tid, s.layout[d.startingKey]), Ns(d.arrival) + 50_000_000 <= Ns(now))
  {
    var m := Snap(s, now, snapshot, touches, leaves);
    FrameReads(s, now, snapshot, touches, leaves, k);
    assert Inv(m, now) && Evolves(s, m) by { SnapKeeps(s, now, snapshot, touches, leaves); }
    DrainKeeps(m, now);
    if Holds(m, k) {
      RecordedGrows(s.layout, readings, s.fingers[k.tid], snapshot[k.tid], m.fingers[k.tid]);
      ThenDecides(s, m, now, k, readings + {snapshot[k.tid]});
    } else {
      InvHeldAreUsed(s, now);
      assert Uses(s, k.tid) <= Uses(m, k.tid);
    }
  }

  lemma IterateTells(s: State, clock: Timespec, now: Timespec, input: Input, k: Contact, readings: set<MtFinger>)
    requires Inv(s, clock) && Normal(now) && Ns(clock) <= Ns(now) && Admissible(s, now, input) && Holds(s, k)
    requires Recorded(s.layout, readings, s.fingers[k.tid])
    ensures var d := s.fingers[k.tid];
            Told(s, Iterate(s, now, input), k, readings + NewReadings(input, k.tid),
                 StaysIn(input, k.tid, s.layout[d.startingKey]),
                 !input.Partial? && Ns(d.arrival) + 50_000_000 <= Ns(now))
  {
    InvLater(s, clock, now);
    assert readings + {} == readings;
    match input
    case Partial =>
    case Timeout =>
      DrainKeeps(s, now);
      ThenDecides(s, s, now, k, readings);
    case Frame(snapshot, touches, leaves) => FrameTells(s, now, snapshot, touches, leaves, k, readings);
  }

  // One turn for a held contact, told by the frame and the clock.
  ghost predicate TurnTells(states: seq<System>, turns: seq<Turn>, i: nat, j: nat, k: Contact)
    requires i < j < |turns| && j + 1 < |states| && Holds(states[j].keyboard, k) && states[j].decoder.Valid()
    requires 0 <= states[j].keyboard.fingers[k.tid].startingKey < |states[j].keyboard.layout|
  {
    var s, r := states[j].keyboard, states[j + 1].keyboard;
    var key, q := s.layout[s.fingers[k.tid].startingKey], s.fingers[k.tid].startingKey;
    && (Holds(r, k) <==>
          && StaysOn(states, turns, j, k.tid, key)
          && (DecidesIn(states, turns, i, j) && !DecidedBefore(states, turns, i, j) ==>
                Fits(Readings(states, turns, i, j + 1, k.tid), key)))
    && (Holds(r, k) ==> r.fingers[k.tid].startingKey == q && Kept(states, turns, i, j + 1, k))
  }

  lemma TurnTellsHolds(states: seq<System>, turns: seq<Turn>, i: nat, j: nat, k: Contact)
    requires IsRun(states, turns) && i < j < |turns| && Good(states[j])
    requires Holds(states[j].keyboard, k) && Kept(states, turns, i, j, k)
    ensures TurnTells(states, turns, i, j, k)
  {
    var sys, turn := states[j], turns[j];
    var readings := Readings(states, turns, i, j, k.tid);
    assert Follows(states, turns, j);
    ReadingsGrow(states, turns, i, j, k.tid);
    DecidedNext(states, turns, i, j);
    IterateTells(sys.keyboard, sys.clock, turn.after, InputOf(sys.decoder, turn), k, readings);
  }

  /** Arrival, over any run: a contact that arrives is held after its turn exactly if some key of
      the layout contains its first reading, and its key is the first that does; otherwise it is
      rejected for that. */
  lemma LandingTells(states: seq<System>, turns: seq<Turn>, i: nat, k: Contact)
    requires IsRun(states, turns) && Good(states[0]) && i < |turns| && ArrivesIn(states, i, k)
    ensures Reports(states, turns, i, k.tid)
    ensures var s', f := states[i + 1].keyboard, Reading(states, turns, i, k.tid);
            && (Holds(s', k) <==> exists key :: key in s'.layout && On(key, f))
            && (Holds(s', k) ==>
                  && Kept(states, turns, i, i + 1, k)
                  && forall q | 0 <= q < s'.fingers[k.tid].startingKey :: !On(s'.layout[q], f))
            && k.tid in s'.fingers && (!Holds(s', k) ==> s'.fingers[k.tid].status == TouchdownOffKey)
  {
    var sys, turn := states[i], turns[i];
    assert Good(sys) by { RunsKeepInvariant(states, turns, 0, i); }
    assert Follows(states, turns, i);
    ReadingsGrow(states, turns, i, i, k.tid);
    assert Readings(states, turns, i, i, k.tid) == {};
    IterateLands(sys.keyboard, sys.clock, turn.after, InputOf(sys.decoder, turn), k);
  }

  // A new contact after the pass it arrives in.
  ghost predicate Landed(r: State, now: Timespec, k: Contact, f: MtFinger) {
    && (Holds(r, k) <==> exists key :: key in r.layout && On(key, f))
    && (Holds(r, k) ==>
          var d := r.fingers[k.tid];
          && Recorded(r.layout, {f}, d) && d.arrival == now && !d.downSent
          && forall q | 0 <= q < d.startingKey :: !On(r.layout[q], f))
    && k.tid in r.fingers && (!Holds(r, k) ==> r.fingers[k.tid].status == TouchdownOffKey)
  }

  lemma IterateLands(s: State, clock: Timespec, now: Timespec, input: Input, k: Contact)
    requires Inv(s, clock) && Normal(now) && Ns(clock) <= Ns(now) && Admissible(s, now, input)
    requires !Used(s, k) && Used(Iterate(s, now, input), k)
    ensures input.Frame? && k.tid in input.snapshot
    ensures Landed(Iterate(s, now, input), now, k, input.snapshot[k.tid])
  {
    InvLater(s, clock, now);
    match input
    case Partial =>
    case Timeout => DrainIsDecided(s, now);
    case Frame(snapshot, touches, leaves) =>
      var m := Snap(s, now, snapshot, touches, leaves);
      assert Inv(m, now) && Evolves(s, m) by { SnapKeeps(s, now, snapshot, touches, leaves); }
      assert Used(m, k) by { DrainIsDecided(m, now); }
      FrameLands(s, now, snapshot, touches, leaves, k);
      assert TimelyFor(s, m, now, k) by { SnapTimely(s, now, snapshot, touches, leaves); }
      LandedThenDrained(s, m, now, k, snapshot[k.tid]);
  }

  // Nothing is due for a contact that has just landed.
  lemma LandedThenDrained(s: State, m: State, now: Timespec, k: Contact, f: MtFinger)
    requires Inv(m, now) && Evolves(s, m)
    requires Holds(m, k) ==> Since(m, k) == now && !m.fingers[k.tid].downSent
    requires Used(m, k) && k.tid in m.fingers && (!Holds(m, k) ==> !Live(m, k.tid))
    ensures var r := Drain(m, now);
            && (Holds(r, k) <==> Holds(m, k)) && r.layout == m.layout
            && k.tid in r.fingers && r.fingers[k.tid] == m.fingers[k.tid]
  {
    DrainKeeps(m, now);
    if Holds(m, k) {
      DrainDecides(m, now, k);
    } else {
      DrainReason(m, now, k.tid);
    }
  }

  /** The readings, over any run: as long as a contact is held, every frame since it arrived has
      reported it on its key, the largest pressure and diameter kept for it are the largest that
      those frames reported, and its Down has been sent exactly if a pass has come to the firing
      loop 50 ms after it arrived. */
  lemma {:induction false} HeldTells(states: seq<System>, turns: seq<Turn>, i: nat, j: nat, k: Contact)
    requires IsRun(states, turns) && Good(states[0]) && i < j < |states|
    requires ArrivesIn(states, i, k) && Holds(states[j].keyboard, k)
    ensures Kept(states, turns, i, j, k)
    ensures Holds(states[i + 1].keyboard, k)
    ensures states[j].keyboard.fingers[k.tid].startingKey == states[i + 1].keyboard.fingers[k.tid].startingKey
    ensures states[j].keyboard.layout == states[i + 1].keyboard.layout
  {
    if j == i + 1 {
      LandingTells(states, turns, i, k);
    } else {
      HeldBefore(states, turns, i, j - 1, k);
      HeldTells(states, turns, i, j - 1, k);
      assert Good(states[j - 1]) by { RunsKeepInvariant(states, turns, 0, j - 1); }
      TurnTellsHolds(states, turns, i, j - 1, k);
      assert states[j].keyboard.layout == states[i + 1].keyboard.layout by {
        RunsKeepInvariant(states, turns, i + 1, j);
      }
    }
  }

  lemma HeldBefore(states: seq<System>, turns: seq<Turn>, i: nat, j: nat, k: Contact)
    requires IsRun(states, turns) && Good(states[0]) && i < j && j + 1 < |states|
    requires ArrivesIn(states, i, k) && Holds(states[j + 1].keyboard, k)
    ensures Holds(states[j].keyboard, k)
  {
    UsedStaysUsed(states, turns, i + 1, j, k);
    TurnTimely(states, turns, j);
    assert TimelyFor(states[j].keyboard, states[j + 1].keyboard, turns[j].after, k);
  }

  /** Exactly when a contact ends, over any run, told by frames and clock alone: in the first turn
      whose frame does not report it on its key, or that is the first to come to the firing loop
      50 ms after it arrived and finds that its readings do not fit. */
  lemma EndsExactly(states: seq<System>, turns: seq<Turn>, i: nat, j: nat, k: Contact)
    requires IsRun(states, turns) && Good(states[0]) && i < j < |turns|
    requires ArrivesIn(states, i, k) && Holds(states[j].keyboard, k)
    ensures Holds(states[i + 1].keyboard, k) && states[j].decoder.Valid()
    ensures var s := states[i + 1].keyboard;
            && 0 <= s.fingers[k.tid].startingKey < |s.layout|
            && var key := s.layout[s.fingers[k.tid].startingKey];
               EndsIn(states, j, k) <==>
               || !StaysOn(states, turns, j, k.tid, key)
               || (&& DecidesIn(states, turns, i, j) && !DecidedBefore(states, turns, i, j)
                   && !Fits(Readings(states, turns, i, j + 1, k.tid), key))
  {
    RunsKeepInvariant(states, turns, 0, j);
    HeldTells(states, turns, i, j, k);
    TurnTellsHolds(states, turns, i, j, k);
  }

  /** Exactly what is typed, over any run, told by frames and clock alone: a contact that ends is
      pressed if and only if a pass had come to the firing loop 50 ms after it arrived, or the frame
      it ends in no longer reports it. */
  lemma PressedExactly(states: seq<System>, turns: seq<Turn>, i: nat, j: nat, k: Contact)
    requires IsRun(states, turns) && Good(states[0]) && i < j < |turns|
    requires ArrivesIn(states, i, k) && EndsIn(states, j, k)
    ensures states[j].decoder.Valid()
    ensures var input := InputOf(states[j].decoder, turns[j]);
            History(states[j + 1].keyboard, k) != [] <==>
            DecidedBefore(states, turns, i, j) || (input.Frame? && k.tid !in input.snapshot)
  {
    HeldTells(states, turns, i, j, k);
    PressedIff(states, turns, j, k);
  }

  // ---- why a contact ended ----

  lemma DrainReason(s: State, now: Timespec, tid: int)
    requires Inv(s, now) && tid in s.fingers
    ensures var d, r := s.fingers[tid], Drain(s, now);
            && tid in r.fingers
            && (!Live(s, tid) ==> r.fingers[tid] == d)
            && (Live(s, tid) && !Live(r, tid) ==> r.fingers[tid].status == RangeStatus(d))
  {
    var due := s.pending[..DueCount(s.pending, now)];
    if !Live(s, tid) {
      QueueMirrorsFingers(s, now, tid);
      assert !HasEvent(due, tid) by {
        HasEventMeaning(s.pending, tid);
        HasEventMeaning(due, tid);
      }
    }
    DrainIsDecided(s, now);
  }

  lemma FrameReason(s: State, now: Timespec, snapshot: map<int, MtFinger>, touches: seq<int>, leaves: seq<int>,
                    k: Contact)
    requires Inv(s, now) && AdmissibleFrame(s, now, snapshot, touches, leaves) && Holds(s, k)
    ensures var m := Snap(s, now, snapshot, touches, leaves);
            && m.fingers.Keys == snapshot.Keys
            && (k.tid in snapshot && !Holds(m, k) ==> m.fingers[k.tid].status == MovedOffKey)
  {
    assert FingerOk(s, k.tid);
    SnapKeeps(s, now, snapshot, touches, leaves);
    if k.tid in snapshot {
      assert k.tid in snapshot.Keys && forall tid | tid in touches :: tid in snapshot.Keys;
      KnownFinger(s, now, snapshot, touches, k.tid);
      ReportedStay(TouchAll(s, now, snapshot, touches), now, snapshot, leaves);
    }
  }

  // Why a contact that ended in a pass is no longer held.
  ghost predicate Because(r: State, k: Contact, input: Input, readings: set<MtFinger>, key: Key) {
    if input.Frame? && k.tid !in input.snapshot then k.tid !in r.fingers
    else
      && k.tid in r.fingers
      && r.fingers[k.tid].status ==
         if !StaysIn(input, k.tid, key) then MovedOffKey
         else if NoPressure(readings) then TouchDiameter else Pressure
  }

  lemma RangeReason(layout: seq<Key>, readings: set<MtFinger>, d: FingerData)
    requires Recorded(layout, readings, d)
    ensures RangeStatus(d) == if NoPressure(readings) then TouchDiameter else Pressure
  {
    var p :| p in readings && p.p == d.maxPressure;
  }

  lemma IterateReason(s: State, clock: Timespec, now: Timespec, input: Input, k: Contact, readings: set<MtFinger>)
    requires Inv(s, clock) && Normal(now) && Ns(clock) <= Ns(now) && Admissible(s, now, input) && Holds(s, k)
    requires Recorded(s.layout, readings, s.fingers[k.tid]) && !Holds(Iterate(s, now, input), k)
    ensures Because(Iterate(s, now, input), k, input, readings + NewReadings(input, k.tid),
                    s.layout[s.fingers[k.tid].startingKey])
  {
    InvLater(s, clock, now);
    assert readings + {} == readings;
    match input
    case Partial =>
    case Timeout =>
      DrainReason(s, now, k.tid);
      SameContact(s, now, k);
      RangeReason(s.layout, readings, s.fingers[k.tid]);
    case Frame(snapshot, touches, leaves) =>
      var m := Snap(s, now, snapshot, touches, leaves);
      FrameReason(s, now, snapshot, touches, leaves, k);
      FrameReads(s, now, snapshot, touches, leaves, k);
      assert Inv(m, now) by { SnapKeeps(s, now, snapshot, touches, leaves); }
      ThenReason(s, m, now, k, input, readings);
  }

  lemma SameContact(s: State, now: Timespec, k: Contact)
    requires Inv(s, now) && Holds(s, k)
    ensures k.tid in Drain(s, now).fingers && Drain(s, now).fingers[k.tid].contact == k
  {
    DrainIsDecided(s, now);
  }

  lemma ThenReason(s: State, m: State, now: Timespec, k: Contact, input: Input, readings: set<MtFinger>)
    requires Inv(m, now) && Holds(s, k) && input.Frame? && m.fingers.Keys == input.snapshot.Keys
    requires Recorded(s.layout, readings, s.fingers[k.tid])
    requires var key := s.layout[s.fingers[k.tid].startingKey];
             && (Holds(m, k) <==> StaysIn(input, k.tid, key))
             && (Holds(m, k) ==> Grew(s.fingers[k.tid], input.snapshot[k.tid], m.fingers[k.tid]))
             && (k.tid in input.snapshot && !Holds(m, k) ==> !Live(m, k.tid) && m.fingers[k.tid].status == MovedOffKey)
    requires !Holds(Drain(m, now), k)
    ensures Because(Drain(m, now), k, input, readings + NewReadings(input, k.tid),
                    s.layout[s.fingers[k.tid].startingKey])
  {
    assert Drain(m, now).fingers.Keys == m.fingers.Keys by { DrainIsDecided(m, now); }
    if k.tid in input.snapshot {
      assert k.tid in m.fingers.Keys;
      DrainReason(m, now, k.tid);
      if Holds(m, k) {
        SameContact(m, now, k);
        RecordedGrows(s.layout, readings, s.fingers[k.tid], input.snapshot[k.tid], m.fingers[k.tid]);
        RangeReason(s.layout, readings + {input.snapshot[k.tid]}, m.fingers[k.tid]);
      }
    }
  }

  /** The reason that is kept for a contact that ended, over any run: it moved off its key if its
      frame reports it elsewhere; otherwise its diameter was out of range if it never had a
      pressure, and its pressure if it had; a contact no longer reported is forgotten. */
  lemma EndedBecause(states: seq<System>, turns: seq<Turn>, i: nat, j: nat, k: Contact)
    requires IsRun(states, turns) && Good(states[0]) && i < j < |turns|
    requires ArrivesIn(states, i, k) && EndsIn(states, j, k)
    ensures Holds(states[i + 1].keyboard, k) && states[j].decoder.Valid()
    ensures var s := states[i + 1].keyboard;
            && 0 <= s.fingers[k.tid].startingKey < |s.layout|
            && Because(states[j + 1].keyboard, k, InputOf(states[j].decoder, turns[j]),
                       Readings(states, turns, i, j + 1, k.tid), s.layout[s.fingers[k.tid].startingKey])
  {
    var sys, turn := states[j], turns[j];
    HeldTells(states, turns, i, j, k);
    assert Follows(states, turns, j);
    assert Good(sys) by { RunsKeepInvariant(states, turns, 0, j); }
    ReadingsGrow(states, turns, i, j, k.tid);
    IterateReason(sys.keyboard, sys.clock, turn.after, InputOf(sys.decoder, turn), k,
                  Readings(states, turns, i, j, k.tid));
  }

  // A turn that a contact on a key gets through: its frame, if any, reports it on the key, and if
  // the turn decides about it, its readings fit.
  ghost predicate GetsThrough(states: seq<System>, turns: seq<Turn>, i: nat, m: nat, tid: int, key: Key)
    requires i < m < |turns| && m < |states|
  {
    && states[m].decoder.Valid() && StaysOn(states, turns, m, tid, key)
    && (DecidesIn(states, turns, i, m) && !DecidedBefore(states, turns, i, m) ==>
          Fits(Readings(states, turns, i, m + 1, tid), key))
  }

  /** Exactly how long a contact is held, over any run: until the first turn it does not get
      through. */
  lemma {:induction false} HeldExactly(states: seq<System>, turns: seq<Turn>, i: nat, j: nat, k: Contact)
    requires IsRun(states, turns) && Good(states[0]) && i < j < |states|
    requires ArrivesIn(states, i, k) && Holds(states[i + 1].keyboard, k)
    ensures var s := states[i + 1].keyboard;
            && 0 <= s.fingers[k.tid].startingKey < |s.layout|
            && var key := s.layout[s.fingers[k.tid].startingKey];
               Holds(states[j].keyboard, k) <==>
               forall m | i < m < j :: GetsThrough(states, turns, i, m, k.tid, key)
  {
    if j == i + 1 {
      LandingTells(states, turns, i, k);
    } else {
      HeldExactly(states, turns, i, j - 1, k);
      var s := states[i + 1].keyboard;
      var key := s.layout[s.fingers[k.tid].startingKey];
      if Holds(states[j - 1].keyboard, k) {
        EndsExactly(states, turns, i, j - 1, k);
        assert Holds(states[j].keyboard, k) <==> GetsThrough(states, turns, i, j - 1, k.tid, key);
      } else if Holds(states[j].keyboard, k) {
        HeldBefore(states, turns, i, j - 1, k);
      }
    }
  }

  /** Everything a contact types, over any run, told by frames and clock alone. It arrives in turn
      i and ends in turn j. Once a pass has come to the firing loop 50 ms after turn j, it has typed
      one press of its key, due 50 ms after the two turns, if a pass had come to the firing loop 50
      ms after it arrived or the frame of turn j no longer reported it; and nothing otherwise. */
  lemma TypedExactly(states: seq<System>, turns: seq<Turn>, i: nat, j: nat, n: nat, k: Contact)
    requires IsRun(states, turns) && Good(states[0]) && i < j < n < |turns|
    requires ArrivesIn(states, i, k) && EndsIn(states, j, k) && DecidesIn(states, turns, j, n)
    ensures Holds(states[i + 1].keyboard, k) && states[j].decoder.Valid()
    ensures var input, sent := InputOf(states[j].decoder, turns[j]), Sent(states[n + 1].keyboard, k);
            if DecidedBefore(states, turns, i, j) || (input.Frame? && k.tid !in input.snapshot) then
              && |sent| == 2 && sent[0].down && !sent[1].down
              && sent[0].code == sent[1].code == KeyHeld(states[i + 1].keyboard, k)
              && Ns(sent[0].due) == Ns(turns[i].after) + 50_000_000
              && Ns(sent[1].due) == Ns(turns[j].after) + 50_000_000
            else sent == []
  {
    HeldTells(states, turns, i, j, k);
    LifeOfContact(states, turns, i, j, n, k);
  }
}
