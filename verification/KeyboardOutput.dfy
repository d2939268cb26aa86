/** What the fake keyboard writes to its device, and that it is what the scheduler sent. */
module KeyboardOutput {
  import opened InputEvents
  import opened Timespecs
  import opened KeyboardModel
  import opened KeyboardInvariant
  import opened KeyboardTheorems

  function KeyEvent(t: Stroke): InputEvent {
    InputEvent(EV_KEY, t.code, if t.down then 1 else 0)
  }

  // The key events written for a stretch of sent strokes.
  function KeyEvents(h: seq<Stroke>): (r: seq<InputEvent>)
    ensures |r| == |h|
    ensures forall i | 0 <= i < |h| :: r[i] == KeyEvent(h[i])
  {
    if h == [] then [] else KeyEvents(h[..|h| - 1]) + [KeyEvent(h[|h| - 1])]
  }

  lemma KeyEventsSnoc(h: seq<Stroke>, x: Stroke)
    ensures KeyEvents(h + [x]) == KeyEvents(h) + KeyEvents([x])
  {
  }

  // What one pass writes: the key events, closed by a report if there are any.
  function Report(h: seq<Stroke>): seq<InputEvent> {
    if h == [] then [] else KeyEvents(h) + [InputEvent(EV_SYN, SYN_REPORT, 0)]
  }

  // An output holds key events (type 1) and reports (type 0, code 0) only. It ends with a report,
  // if it is not empty, and each report closes a batch of at least one key event.
  ghost predicate Closed(log: seq<InputEvent>) {
    && (forall i | 0 <= i < |log| :: log[i].typ == 1 || (log[i] == InputEvent(0, 0, 0) && i > 0 && log[i - 1].typ == 1))
    && (log != [] ==> log[|log| - 1] == InputEvent(0, 0, 0))
  }

  // What a pass adds to the output for the strokes it sends: nothing for none; otherwise one key
  // event for each, with value 1 for a Down and 0 for an Up, and then one report.
  ghost predicate Writes(before: seq<InputEvent>, fired: seq<Stroke>, after: seq<InputEvent>) {
    if fired == [] then after == before
    else
      && |after| == |before| + |fired| + 1 && before <= after
      && (forall i | 0 <= i < |fired| ::
            after[|before| + i] == InputEvent(1, fired[i].code, if fired[i].down then 1 else 0))
      && after[|before| + |fired|] == InputEvent(0, 0, 0)
  }

  /** Each pass closes what it writes, so no key event ever stands after the last report. */
  lemma ReportCloses(log: seq<InputEvent>, fired: seq<Stroke>)
    requires Closed(log)
    ensures Writes(log, fired, log + Report(fired)) && Closed(log + Report(fired))
  {
    if fired == [] {
      assert log + [] == log;
    }
  }

  // The key events of an output.
  function KeyPart(log: seq<InputEvent>): seq<InputEvent> {
    if log == [] then []
    else
      var ev := log[|log| - 1];
      KeyPart(log[..|log| - 1]) + if ev.typ == EV_KEY then [ev] else []
  }

  // The key events of an output are those of the strokes that were sent, in their order.
  ghost predicate Records(log: seq<InputEvent>, trace: seq<Stroke>) {
    KeyPart(log) == KeyEvents(trace)
  }

  lemma {:induction false} KeyPartConcat(a: seq<InputEvent>, b: seq<InputEvent>)
    ensures KeyPart(a + b) == KeyPart(a) + KeyPart(b)
  {
    if b == [] {
      assert a + b == a;
    } else {
      var n := |b| - 1;
      KeyPartConcat(a, b[..n]);
      assert (a + b)[..|a + b| - 1] == a + b[..n];
    }
  }

  lemma {:induction false} KeyPartAll(evs: seq<InputEvent>)
    requires forall ev | ev in evs :: ev.typ == EV_KEY
    ensures KeyPart(evs) == evs
  {
    if evs != [] {
      var n := |evs| - 1;
      assert evs == evs[..n] + [evs[n]] && evs[n] in evs;
      KeyPartAll(evs[..n]);
    }
  }

  /** Each pass adds to the output just what it adds to the record of sent strokes. */
  lemma RecordsGrow(log: seq<InputEvent>, trace: seq<Stroke>, fired: seq<Stroke>)
    requires Records(log, trace)
    ensures Records(log + Report(fired), trace + fired)
  {
    KeyPartConcat(log, Report(fired));
    assert KeyEvents(trace + fired) == KeyEvents(trace) + KeyEvents(fired);
    if fired != [] {
      var keys, report := KeyEvents(fired), InputEvent(EV_SYN, SYN_REPORT, 0);
      KeyPartAll(keys);
      KeyPartConcat(keys, [report]);
      assert [report][..0] == [] && KeyPart([report]) == [];
    }
  }

  lemma OutputGrows(log: seq<InputEvent>, trace: seq<Stroke>, fired: seq<Stroke>)
    requires Records(log, trace) && Closed(log)
    ensures var after := log + Report(fired);
            Records(after, trace + fired) && Closed(after) && Writes(log, fired, after)
  {
    RecordsGrow(log, trace, fired);
    ReportCloses(log, fired);
  }

  // ---- the whole output of the device ----

  function CountOf(log: seq<InputEvent>, ev: InputEvent): nat {
    if log == [] then 0 else CountOf(log[..|log| - 1], ev) + if log[|log| - 1] == ev then 1 else 0
  }

  lemma {:induction false} CountOfKeys(log: seq<InputEvent>, ev: InputEvent)
    requires ev.typ == EV_KEY
    ensures CountOf(KeyPart(log), ev) == CountOf(log, ev)
  {
    if log != [] {
      var n := |log| - 1;
      CountOfKeys(log[..n], ev);
      if log[n].typ == EV_KEY {
        assert KeyPart(log)[..|KeyPart(log)| - 1] == KeyPart(log[..n]);
      } else {
        assert KeyPart(log) == KeyPart(log[..n]);
      }
    }
  }

  lemma {:induction false} CountOfStrokes(h: seq<Stroke>, code: int, down: bool)
    ensures CountOf(KeyEvents(h), InputEvent(EV_KEY, code, if down then 1 else 0)) == Count(h, code, down)
  {
    if h != [] {
      var n := |h| - 1;
      CountOfStrokes(h[..n], code, down);
      assert KeyEvents(h)[..n] == KeyEvents(h[..n]);
      assert h == h[..n] + [h[n]] && [h[n]][1..] == [];
      CountConcat(h[..n], [h[n]], code, down);
    }
  }

  // A prefix of the output records a prefix of the strokes.
  lemma PrefixRecords(log: seq<InputEvent>, trace: seq<Stroke>, n: nat)
    requires Records(log, trace) && n <= |log|
    ensures |KeyPart(log[..n])| <= |trace| && Records(log[..n], trace[..|KeyPart(log[..n])|])
  {
    assert log == log[..n] + log[n..];
    KeyPartConcat(log[..n], log[n..]);
    var m := |KeyPart(log[..n])|;
    assert KeyEvents(trace)[..m] == KeyPart(log[..n]);
    assert KeyEvents(trace[..m]) == KeyEvents(trace)[..m];
  }

  /** At every point of the device's whole output, no key has been released more often than it has
      been pressed. */
  lemma OutputNeverLeads(s: State, now: Timespec, log: seq<InputEvent>, n: nat, code: int)
    requires Inv(s, now) && Records(log, s.trace) && n <= |log|
    ensures CountOf(log[..n], InputEvent(EV_KEY, code, 0)) <= CountOf(log[..n], InputEvent(EV_KEY, code, 1))
  {
    var m := |KeyPart(log[..n])|;
    PrefixRecords(log, s.trace, n);
    ReleasesNeverLead(s, now, m, code);
    CountOfKeys(log[..n], InputEvent(EV_KEY, code, 0));
    CountOfKeys(log[..n], InputEvent(EV_KEY, code, 1));
    CountOfStrokes(s.trace[..m], code, true);
    CountOfStrokes(s.trace[..m], code, false);
  }

  /** Conservation at the device: once no finger and no event is left, every key has been released
      as often as it was pressed, over the whole output. */
  lemma OutputAtRest(s: State, now: Timespec, log: seq<InputEvent>, code: int)
    requires Inv(s, now) && Records(log, s.trace) && s.fingers.Keys == {} && s.pending == []
    ensures CountOf(log, InputEvent(EV_KEY, code, 0)) == CountOf(log, InputEvent(EV_KEY, code, 1))
  {
    AtRest(s, now);
    CountOfKeys(log, InputEvent(EV_KEY, code, 0));
    CountOfKeys(log, InputEvent(EV_KEY, code, 1));
    CountOfStrokes(s.trace, code, true);
    CountOfStrokes(s.trace, code, false);
  }
}
