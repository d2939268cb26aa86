/** What the incremental decoder means: it agrees with a scan of the whole event log, and a
    resynchronisation makes it forget everything before it. */
module DecoderLog {
  import opened InputEvents
  import opened StateMachine

  // ---- the reference: a scan of the first n events of a log ----

  // The scan reads types and codes as the kernel numbers them: type 0 has the report (code 0) and
  // the notice that events were lost (code 3), type 3 the slot selection (code 0x2f).
  predicate IsReport(ev: InputEvent) { ev.typ == 0 && ev.code == 0 }

  predicate IsLoss(ev: InputEvent) { ev.typ == 0 && ev.code == 3 }

  predicate Selects(ev: InputEvent) { ev.typ == 3 && ev.code == 0x2f }

  // The index of the last SYN_DROPPED among the first n events, or -1.
  function LastDrop(log: seq<InputEvent>, n: nat): (d: int)
    requires n <= |log|
    ensures -1 <= d < n
    ensures 0 <= d ==> IsLoss(log[d])
    ensures forall i | d < i < n :: !IsLoss(log[i])
  {
    if n == 0 then -1
    else if IsLoss(log[n - 1]) then n - 1
    else LastDrop(log, n - 1)
  }

  // The index of the first SYN_REPORT at or after `from` among the first n events, or n.
  function FirstReport(log: seq<InputEvent>, from: nat, n: nat): (r: nat)
    requires from <= n <= |log|
    ensures from <= r <= n
    ensures r < n ==> IsReport(log[r])
    ensures forall i | from <= i < r :: !IsReport(log[i])
    decreases n - from
  {
    if from == n || IsReport(log[from]) then from else FirstReport(log, from + 1, n)
  }

  // Where the events that still count begin: after the report that ends the last dropped
  // stretch. It is n + 1 while that report has not been seen.
  function LiveFrom(log: seq<InputEvent>, n: nat): nat
    requires n <= |log|
  {
    var d := LastDrop(log, n);
    if d == -1 then 0 else FirstReport(log, d + 1, n) + 1
  }

  // The slot selected just before event i: by the last slot event since `from`, and none (-1)
  // when that event named a slot the decoder does not have.
  function SelectedAt(log: seq<InputEvent>, from: nat, i: nat): int
    requires i <= |log|
  {
    if i <= from then 0
    else if Selects(log[i - 1]) then
      if 0 <= log[i - 1].value < 10 then log[i - 1].value else -1
    else SelectedAt(log, from, i - 1)
  }

  predicate Writes(log: seq<InputEvent>, from: nat, i: nat, s: int, k: EventKey)
    requires i < |log|
  {
    log[i].typ == 3 && !Selects(log[i]) && log[i].Key() == k && SelectedAt(log, from, i) == s
  }

  ghost predicate LastWrite(log: seq<InputEvent>, from: nat, i: nat, n: nat, s: int, k: EventKey)
    requires n <= |log|
  {
    from <= i < n && Writes(log, from, i, s, k) &&
    forall j: nat | i < j < n :: !Writes(log, from, j, s, k)
  }

  // ---- the decoder refines the scan ----

  ghost predicate CellAgrees(log: seq<InputEvent>, from: nat, n: nat, slot: Slot, s: int, k: EventKey)
    requires n <= |log|
  {
    if k in slot then exists i: nat :: LastWrite(log, from, i, n, s, k) && slot[k] == log[i].value
    else forall i: nat | from <= i < n :: !Writes(log, from, i, s, k)
  }

  ghost predicate AgreesWithScan(log: seq<InputEvent>, n: nat, d: Decoder)
    requires n <= |log| && d.Valid()
  {
    var from := LiveFrom(log, n);
    && (d.dropping <==> n < from)
    && d.current == SelectedAt(log, from, n)
    && forall s, k | 0 <= s < NUM_SLOTS :: CellAgrees(log, from, n, d.slots[s], s, k)
  }

  lemma {:induction false} FirstReportStep(log: seq<InputEvent>, from: nat, n: nat)
    requires from <= n < |log|
    ensures FirstReport(log, from, n + 1) ==
              if FirstReport(log, from, n) < n || IsReport(log[n]) then FirstReport(log, from, n) else n + 1
    decreases n - from
  {
    if from < n && !IsReport(log[from]) {
      FirstReportStep(log, from + 1, n);
    }
  }

  lemma LiveFromStep(log: seq<InputEvent>, n: nat)
    requires n < |log|
    ensures IsLoss(log[n]) ==> LiveFrom(log, n + 1) == n + 2
    ensures !IsLoss(log[n]) && LiveFrom(log, n) <= n ==> LiveFrom(log, n + 1) == LiveFrom(log, n)
    ensures !IsLoss(log[n]) && n < LiveFrom(log, n) ==>
              LiveFrom(log, n + 1) == if IsReport(log[n]) then n + 1 else n + 2
  {
    if !IsLoss(log[n]) && LastDrop(log, n) != -1 {
      FirstReportStep(log, LastDrop(log, n) + 1, n);
    }
  }

  lemma CellStep(log: seq<InputEvent>, from: nat, n: nat, d: Decoder, s: int, k: EventKey)
    requires n < |log| && d.Valid() && 0 <= s < NUM_SLOTS && from <= n
    requires !IsLoss(log[n]) && !d.dropping && d.current == SelectedAt(log, from, n)
    requires CellAgrees(log, from, n, d.slots[s], s, k)
    ensures CellAgrees(log, from, n + 1, Step(d, log[n]).slots[s], s, k)
  {
    if Writes(log, from, n, s, k) {
      assert LastWrite(log, from, n, n + 1, s, k);
    } else if k in d.slots[s] {
      var i: nat :| LastWrite(log, from, i, n, s, k) && d.slots[s][k] == log[i].value;
      assert LastWrite(log, from, i, n + 1, s, k);
    }
  }

  // While events are dropped every slot is empty, since no event counts.
  lemma EmptyWhileDropping(log: seq<InputEvent>, n: nat, d: Decoder, s: int, k: EventKey)
    requires n <= |log| && d.Valid() && 0 <= s < NUM_SLOTS
    requires d.dropping && AgreesWithScan(log, n, d)
    ensures k !in d.slots[s]
  {
    assert CellAgrees(log, LiveFrom(log, n), n, d.slots[s], s, k);
  }

  lemma ScanStep(log: seq<InputEvent>, n: nat, d: Decoder)
    requires n < |log| && d.Valid() && AgreesWithScan(log, n, d)
    ensures AgreesWithScan(log, n + 1, Step(d, log[n]))
  {
    LiveFromStep(log, n);
    var d', from', n' := Step(d, log[n]), LiveFrom(log, n + 1), n + 1;
    forall s, k | 0 <= s < NUM_SLOTS ensures CellAgrees(log, from', n', d'.slots[s], s, k) {
      if IsLoss(log[n]) {
        assert d'.slots[s] == map[];
      } else if d.dropping {
        EmptyWhileDropping(log, n, d, s, k);
      } else {
        CellStep(log, from', n, d, s, k);
      }
    }
  }

  /** After any log, a slot holds for a key exactly the value of the last EV_ABS event of that
      key seen while the slot was selected since the last resynchronisation; keys without such
      an event are absent; the decoder drops events exactly while no report has followed the
      last SYN_DROPPED. */
  lemma {:induction false} DecoderRefinesScan(log: seq<InputEvent>, n: nat)
    requires n <= |log|
    ensures AgreesWithScan(log, n, Run(INITIAL, log[..n]))
  {
    if n > 0 {
      DecoderRefinesScan(log, n - 1);
      ScanStep(log, n - 1, Run(INITIAL, log[..n - 1]));
      assert log[..n][..n - 1] == log[..n - 1];
    }
  }

  // ---- frames ----

  /** The decoder answers that a frame is complete exactly at the reports that count: those that
      are not inside a dropped stretch and do not end one. */
  lemma CompletesIff(log: seq<InputEvent>, i: nat)
    requires i < |log|
    ensures Completes(Run(INITIAL, log[..i]), log[i]) <==>
            log[i].typ == 0 && log[i].code == 0 && LiveFrom(log, i) <= i
  {
    DecoderRefinesScan(log, i);
  }

  // ---- snapshots ----

  // The highest of the first n slots that carries a tracking id, or -1.
  function HighestSlot(slots: seq<Slot>, n: nat, tid: int): (s: int)
    requires n <= |slots|
    ensures -1 <= s < n
    ensures 0 <= s ==> TidOf(slots[s]) == tid
    ensures forall s' | s < s' < n :: TidOf(slots[s']) != tid
  {
    if n == 0 then -1
    else if TidOf(slots[n - 1]) == tid then n - 1
    else HighestSlot(slots, n - 1, tid)
  }

  /** A snapshot lists exactly the tracking ids other than -1 that some slot carries, and when
      slots share one the highest-indexed slot supplies the finger. */
  lemma {:induction false} SnapshotMeaning(slots: seq<Slot>, n: nat, tid: int)
    requires n <= |slots|
    ensures tid in Snapshot(slots, n) <==> tid != -1 && exists s :: 0 <= s < n && TidOf(slots[s]) == tid
    ensures tid in Snapshot(slots, n) ==>
              0 <= HighestSlot(slots, n, tid) &&
              Snapshot(slots, n)[tid] == FingerOf(slots[HighestSlot(slots, n, tid)])
  {
    if n > 0 {
      SnapshotMeaning(slots, n - 1, tid);
    }
  }

  // The value a slot has for an EV_ABS code: the last one written there since the last
  // resynchronisation, or -1 if there is none.
  ghost predicate Reads(log: seq<InputEvent>, n: nat, s: int, code: int, value: int)
    requires n <= |log|
  {
    var from, k := LiveFrom(log, n), EventKey(3, code);
    || (exists i: nat :: LastWrite(log, from, i, n, s, k) && value == log[i].value)
    || ((forall i: nat | from <= i < n :: !Writes(log, from, i, s, k)) && value == -1)
  }

  lemma ReadsCell(log: seq<InputEvent>, n: nat, s: int, code: int)
    requires n <= |log| && 0 <= s < NUM_SLOTS
    ensures Reads(log, n, s, code, FindValue(Run(INITIAL, log[..n]).slots[s], EventKey(3, code)))
  {
    DecoderRefinesScan(log, n);
    assert CellAgrees(log, LiveFrom(log, n), n, Run(INITIAL, log[..n]).slots[s], s, EventKey(3, code));
  }

  lemma ReadsOneValue(log: seq<InputEvent>, n: nat, s: int, code: int, v: int, w: int)
    requires n <= |log| && Reads(log, n, s, code, v) && Reads(log, n, s, code, w)
    ensures v == w
  {
    var from, k := LiveFrom(log, n), EventKey(3, code);
    if i: nat :| LastWrite(log, from, i, n, s, k) && v == log[i].value {
      if j: nat :| LastWrite(log, from, j, n, s, k) && w == log[j].value {
        assert i == j;
      }
    }
  }

  // A slot whose values, by the log, are those of a finger: position X and Y, pressure and
  // touch diameter.
  ghost predicate ReadsFinger(log: seq<InputEvent>, n: nat, s: int, f: MtFinger)
    requires n <= |log|
  {
    && Reads(log, n, s, 0x35, f.x) && Reads(log, n, s, 0x36, f.y)
    && Reads(log, n, s, 0x3a, f.p) && Reads(log, n, s, 0x30, f.touchMajor)
  }

  /** Snapshots come from the log: after any events, a snapshot has a tracking id (code 0x39) if
      and only if it is not -1 and one of the ten slots carries it, and it gives that id the
      position, pressure and diameter last written to the highest such slot. */
  lemma SnapshotReadsLog(log: seq<InputEvent>, n: nat, tid: int)
    requires n <= |log|
    ensures var snapshot := Snapshot(Run(INITIAL, log[..n]).slots, NUM_SLOTS);
            && (tid in snapshot <==> tid != -1 && exists s :: 0 <= s < 10 && Reads(log, n, s, 0x39, tid))
            && (tid in snapshot ==>
                  exists s :: 0 <= s < 10 && Reads(log, n, s, 0x39, tid) && ReadsFinger(log, n, s, snapshot[tid]) &&
                              forall s' | s < s' < 10 :: !Reads(log, n, s', 0x39, tid))
  {
    var slots := Run(INITIAL, log[..n]).slots;
    SnapshotMeaning(slots, NUM_SLOTS, tid);
    forall s | 0 <= s < 10 ensures TidOf(slots[s]) == tid <==> Reads(log, n, s, 0x39, tid) {
      TidReadsLog(log, n, s, tid);
    }
    if tid in Snapshot(slots, NUM_SLOTS) {
      var s := HighestSlot(slots, NUM_SLOTS, tid);
      FingerReadsLog(log, n, s);
      assert ReadsFinger(log, n, s, Snapshot(slots, NUM_SLOTS)[tid]);
    }
  }

  lemma TidReadsLog(log: seq<InputEvent>, n: nat, s: int, tid: int)
    requires n <= |log| && 0 <= s < NUM_SLOTS
    ensures TidOf(Run(INITIAL, log[..n]).slots[s]) == tid <==> Reads(log, n, s, 0x39, tid)
  {
    ReadsCell(log, n, s, 0x39);
    if Reads(log, n, s, 0x39, tid) {
      ReadsOneValue(log, n, s, 0x39, tid, TidOf(Run(INITIAL, log[..n]).slots[s]));
    }
  }

  lemma FingerReadsLog(log: seq<InputEvent>, n: nat, s: int)
    requires n <= |log| && 0 <= s < NUM_SLOTS
    ensures ReadsFinger(log, n, s, FingerOf(Run(INITIAL, log[..n]).slots[s]))
  {
    ReadsCell(log, n, s, 0x35);
    ReadsCell(log, n, s, 0x36);
    ReadsCell(log, n, s, 0x3a);
    ReadsCell(log, n, s, 0x30);
  }

  // ---- resynchronisation ----

  lemma {:induction false} RunConcat(d: Decoder, a: seq<InputEvent>, b: seq<InputEvent>)
    requires d.Valid()
    ensures Run(d, a + b) == Run(Run(d, a), b)
  {
    if b == [] {
      assert a + b == a;
    } else {
      assert (a + b)[..|a + b| - 1] == a + b[..|b| - 1];
      RunConcat(d, a, b[..|b| - 1]);
    }
  }

  // Whether the i-th event of a log completes a frame.
  predicate CompletesAt(d: Decoder, log: seq<InputEvent>, i: nat)
    requires d.Valid() && i < |log|
  {
    Completes(Run(d, log[..i]), log[i])
  }

  lemma {:induction false} DroppingIsSilent(d: Decoder, q: seq<InputEvent>)
    requires d == Decoder(0, true, NO_SLOTS)
    requires forall ev | ev in q :: !IsReport(ev)
    ensures Run(d, q) == d
  {
    if q != [] {
      DroppingIsSilent(d, q[..|q| - 1]);
      assert q[|q| - 1] in q;
    }
  }

  /** After SYN_DROPPED and the report that follows it, whatever came before and in between,
      the decoder is in its initial state. */
  lemma ResyncResets(p: seq<InputEvent>, drop: InputEvent, q: seq<InputEvent>, report: InputEvent)
    requires IsLoss(drop) && IsReport(report)
    requires forall ev | ev in q :: !IsReport(ev)
    ensures Run(INITIAL, p + [drop] + q + [report]) == INITIAL
  {
    var d := Run(INITIAL, p);
    RunConcat(INITIAL, p, [drop]);
    assert Run(d, [drop]) == Step(Run(d, []), drop);
    RunConcat(INITIAL, p + [drop], q);
    DroppingIsSilent(Decoder(0, true, NO_SLOTS), q);
    RunConcat(INITIAL, p + [drop] + q, [report]);
    assert Run(Decoder(0, true, NO_SLOTS), [report]) == Step(Run(Decoder(0, true, NO_SLOTS), []), report);
  }

  /** Resync forgets history: no frame completes between the drop and its report, and
      afterwards every state and every answer is that of a fresh decoder fed the suffix. */
  lemma {:induction false} ResyncForgetsHistory(p: seq<InputEvent>, drop: InputEvent, q: seq<InputEvent>,
                                                report: InputEvent, r: seq<InputEvent>)
    requires IsLoss(drop) && IsReport(report)
    requires forall ev | ev in q :: !IsReport(ev)
    ensures var head := p + [drop] + q + [report];
            && Run(INITIAL, head + r) == Run(INITIAL, r)
            && (forall i | |p| <= i < |head| :: !CompletesAt(INITIAL, head + r, i))
            && (forall i | 0 <= i < |r| ::
                  CompletesAt(INITIAL, head + r, |head| + i) <==> CompletesAt(INITIAL, r, i))
  {
    var head := p + [drop] + q + [report];
    var log := head + r;
    ResyncResets(p, drop, q, report);
    RunConcat(INITIAL, head, r);
    forall i | |p| <= i < |head| ensures !CompletesAt(INITIAL, log, i) {
      if i > |p| {
        var q' := q[..i - |p| - 1];
        assert log[..i] == p + [drop] + q';
        RunConcat(INITIAL, p + [drop], q');
        RunConcat(INITIAL, p, [drop]);
        var d := Run(INITIAL, p);
        assert Run(d, [drop]) == Step(Run(d, []), drop);
        DroppingIsSilent(Decoder(0, true, NO_SLOTS), q');
      } else {
        assert log[i] == drop;
      }
    }
    forall i | 0 <= i < |r|
      ensures CompletesAt(INITIAL, log, |head| + i) <==> CompletesAt(INITIAL, r, i)
    {
      assert log[..|head| + i] == head + r[..i];
      RunConcat(INITIAL, head, r[..i]);
    }
  }
}
