/** Where a key that is touched vibrates: the haptics are told of each new contact on a key, at the
    position it was reported. */
module KeyboardHaptics {
  import opened HashTables
  import opened Geometry
  import opened StateMachine
  import opened KeyboardModel
  import opened KeyboardReadings

  // Where the haptics are told that a finger came down: at each new contact on a key.
  function Felt(s: State, snapshot: map<int, MtFinger>, order: seq<int>): seq<(int, int)>
    requires forall tid | tid in order :: tid in snapshot
  {
    if order == [] then []
    else
      var n := |order| - 1;
      Felt(s, snapshot, order[..n]) + FeltAt(s, order[n], snapshot[order[n]])
  }

  function FeltAt(s: State, tid: int, f: MtFinger): seq<(int, int)> {
    if tid !in s.fingers && FindKey(s.layout, f.x, f.y) != NO_KEY then [(f.x, f.y)] else []
  }

  // A new contact on a key, by what the frame reports.
  ghost predicate NewOnKey(s: State, snapshot: map<int, MtFinger>, tid: int) {
    tid in snapshot && tid !in s.fingers && exists key :: key in s.layout && On(key, snapshot[tid])
  }

  lemma FeltOnce(s: State, tid: int, f: MtFinger)
    ensures FeltAt(s, tid, f) ==
            if tid !in s.fingers && (exists key :: key in s.layout && On(key, f)) then [(f.x, f.y)] else []
  {
    LandsOnFirst(s.layout, f);
  }

  lemma {:induction false} FeltCount(s: State, snapshot: map<int, MtFinger>, order: seq<int>)
    requires forall tid | tid in order :: tid in snapshot
    requires forall i, j | 0 <= i < j < |order| :: order[i] != order[j]
    ensures |Felt(s, snapshot, order)| == |set tid | tid in order && NewOnKey(s, snapshot, tid)|
  {
    if order != [] {
      var head, tid := order[..|order| - 1], order[|order| - 1];
      assert order == head + [tid] && tid in order && forall t | t in head :: t in order;
      FeltCount(s, snapshot, head);
      FeltOnce(s, tid, snapshot[tid]);
      FeltSnoc(s, snapshot, head, tid);
    } else {
      assert (set tid | tid in order && NewOnKey(s, snapshot, tid)) == {};
    }
  }

  ghost predicate FeltFrom(s: State, snapshot: map<int, MtFinger>, order: seq<int>, pt: (int, int)) {
    exists tid :: tid in order && NewOnKey(s, snapshot, tid) && pt == (snapshot[tid].x, snapshot[tid].y)
  }

  lemma {:induction false} FeltAtPoint(s: State, snapshot: map<int, MtFinger>, order: seq<int>, pt: (int, int))
    requires forall tid | tid in order :: tid in snapshot
    ensures pt in Felt(s, snapshot, order) <==> FeltFrom(s, snapshot, order, pt)
  {
    if order != [] {
      var head, tid := order[..|order| - 1], order[|order| - 1];
      assert order == head + [tid] && tid in order && forall t | t in head :: t in order;
      FeltAtPoint(s, snapshot, head, pt);
      FeltOnce(s, tid, snapshot[tid]);
      FeltFromSnoc(s, snapshot, head, tid, pt);
    }
  }

  lemma FeltFromSnoc(s: State, snapshot: map<int, MtFinger>, head: seq<int>, tid: int, pt: (int, int))
    ensures FeltFrom(s, snapshot, head + [tid], pt) <==>
            FeltFrom(s, snapshot, head, pt) || FeltFrom(s, snapshot, [tid], pt)
  {
    if t :| t in head && NewOnKey(s, snapshot, t) && pt == (snapshot[t].x, snapshot[t].y) {
      assert t in head + [tid];
    }
    if FeltFrom(s, snapshot, [tid], pt) {
      assert tid in head + [tid];
    }
  }

  /** A walk of a frame tells the haptics once of every new contact on a key, at its own position,
      and of nothing else. */
  lemma FeltExactly(s: State, snapshot: map<int, MtFinger>, order: seq<int>)
    requires Lists(order, snapshot.Keys)
    ensures forall tid | tid in order :: tid in snapshot
    ensures |Felt(s, snapshot, order)| == |set tid | tid in snapshot && NewOnKey(s, snapshot, tid)|
    ensures forall pt :: pt in Felt(s, snapshot, order) <==>
                         exists tid :: NewOnKey(s, snapshot, tid) && pt == (snapshot[tid].x, snapshot[tid].y)
  {
    assert forall tid :: tid in order <==> tid in snapshot.Keys;
    FeltCount(s, snapshot, order);
    assert (set tid | tid in order && NewOnKey(s, snapshot, tid)) ==
           (set tid | tid in snapshot && NewOnKey(s, snapshot, tid));
    forall pt ensures pt in Felt(s, snapshot, order) <==>
                      exists tid :: NewOnKey(s, snapshot, tid) && pt == (snapshot[tid].x, snapshot[tid].y) {
      FeltAtPoint(s, snapshot, order, pt);
    }
  }

  lemma FeltSnoc(s: State, snapshot: map<int, MtFinger>, head: seq<int>, tid: int)
    requires tid in snapshot && tid !in head
    ensures (set t | t in head + [tid] && NewOnKey(s, snapshot, t)) ==
            (set t | t in head && NewOnKey(s, snapshot, t)) + if NewOnKey(s, snapshot, tid) then {tid} else {}
  {
  }

  /** The motor on the user's side: a new contact on a key, at a user point, is felt, and the left
      motor runs for it only in the left half of the surface, the right one only in the right half
      or at most half a unit from it. */
  lemma FeltOnUsersSide(c: HardwareConfig, u: real, v: real, s: State, snapshot: map<int, MtFinger>, order: seq<int>,
                        tid: int)
    requires ValidConfig(c) && Lists(order, snapshot.Keys) && NewOnKey(s, snapshot, tid)
    requires ToSensor(c, u, v) == Point(snapshot[tid].x as real, snapshot[tid].y as real)
    ensures forall t | t in order :: t in snapshot
    ensures (snapshot[tid].x, snapshot[tid].y) in Felt(s, snapshot, order)
    ensures var touchMax := TouchMaxX(c.rotation, c.resX, c.resY);
            var userWidth := if IsQuarterTurn(c) then c.height else c.width;
            && touchMax > 0
            && (LeftMotor(c.rotation, touchMax, snapshot[tid].x, snapshot[tid].y) ==> c.left + u < userWidth / 2.0)
            && (!LeftMotor(c.rotation, touchMax, snapshot[tid].x, snapshot[tid].y) ==>
                  userWidth / 2.0 * UserPitchX(c) - 0.5 <= (c.left + u) * UserPitchX(c))
  {
    FeltExactly(s, snapshot, order);
    HapticsFollowUser(c, u, v, snapshot[tid].x, snapshot[tid].y);
  }
}
