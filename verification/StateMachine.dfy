/** The incremental multi-touch decoder: the meaning of one event as a function on decoder
    values, and the class that applies it in place. */
module StateMachine {
  import opened InputEvents

  const NUM_SLOTS := 10

  datatype MtFinger = MtFinger(x: int, y: int, p: int, touchMajor: int)

  datatype Decoder = Decoder(current: int, dropping: bool, slots: seq<Slot>) {
    ghost predicate Valid() { |slots| == NUM_SLOTS && -1 <= current < NUM_SLOTS }
  }

  const NO_SLOTS: seq<Slot> :=
    [map[], map[], map[], map[], map[], map[], map[], map[], map[], map[]]
  const INITIAL := Decoder(0, false, NO_SLOTS)

  // The decoder after one event.
  function Step(d: Decoder, ev: InputEvent): (r: Decoder)
    requires d.Valid()
    ensures r.Valid()
  {
    if ev.IsDropped() then Decoder(0, true, NO_SLOTS)
    else if d.dropping then d.(dropping := !ev.Key().IsSyn())
    else if ev.Key().IsSlot() then
      d.(current := if 0 <= ev.value < NUM_SLOTS then ev.value else -1)
    else if ev.typ == EV_ABS && d.current >= 0 then
      d.(slots := d.slots[d.current := d.slots[d.current][ev.Key() := ev.value]])
    else d
  }

  // Whether the event ends a frame, so that AddEvent returns true.
  predicate Completes(d: Decoder, ev: InputEvent) {
    !ev.IsDropped() && !d.dropping && ev.Key().IsSyn()
  }

  function Run(d: Decoder, log: seq<InputEvent>): (r: Decoder)
    requires d.Valid()
    ensures r.Valid()
  {
    if log == [] then d
    else Step(Run(d, log[..|log| - 1]), log[|log| - 1])
  }

  function FingerOf(slot: Slot): MtFinger {
    MtFinger(FindValue(slot, POSITION_X), FindValue(slot, POSITION_Y),
             FindValue(slot, PRESSURE), FindValue(slot, TOUCH_MAJOR))
  }

  function TidOf(slot: Slot): int {
    FindValue(slot, TRACKING_ID)
  }

  // The snapshot of the first n slots; a later slot overwrites an earlier one.
  function Snapshot(slots: seq<Slot>, n: nat): map<int, MtFinger>
    requires n <= |slots|
  {
    if n == 0 then map[]
    else
      var m := Snapshot(slots, n - 1);
      var tid := TidOf(slots[n - 1]);
      if tid == -1 then m else m[tid := FingerOf(slots[n - 1])]
  }

  class MtStateMachine {
    var current: int
    var dropping: bool
    const slots: array<Slot>

    ghost predicate Valid()
      reads this, slots
    {
      State().Valid()
    }

    ghost function State(): Decoder
      reads this, slots
    {
      Decoder(current, dropping, slots[..])
    }

    constructor ()
      ensures Valid() && fresh(slots) && State() == INITIAL
    {
      current, dropping := 0, false;
      slots := new Slot[NUM_SLOTS](_ => map[]);
    }

    method Reset()
      requires Valid()
      modifies this, slots
      ensures Valid() && State() == INITIAL
    {
      for i := 0 to slots.Length
        invariant Valid()
        invariant forall j | 0 <= j < i :: slots[j] == map[]
      {
        slots[i] := map[];
      }
      current := 0;
      dropping := false;
    }

    method FillSnapshot() returns (snapshot: map<int, MtFinger>)
      requires Valid()
      ensures snapshot == Snapshot(State().slots, NUM_SLOTS)
    {
      snapshot := map[];
      for i := 0 to slots.Length
        invariant snapshot == Snapshot(State().slots, i)
      {
        var tid := TidOf(slots[i]);
        if tid != -1 {
          snapshot := snapshot[tid := FingerOf(slots[i])];
        }
      }
    }

    /** `wanted` is false when the caller passes no map; `out` is then left as it was, as it is
        for every event that does not complete a frame. */
    method AddEvent(ev: InputEvent, wanted: bool, before: map<int, MtFinger>)
      returns (complete: bool, out: map<int, MtFinger>)
      requires Valid()
      modifies this, slots
      ensures Valid() && State() == Step(old(State()), ev)
      ensures complete <==> Completes(old(State()), ev)
      ensures complete <==> !old(dropping) && ev.typ == 0 && ev.code == 0
      ensures out == if complete && wanted then Snapshot(State().slots, NUM_SLOTS) else before
    {
      complete, out := false, before;
      if ev.IsDropped() {
        Reset();
        dropping := true;
        return;
      }
      if dropping {
        if ev.Key().IsSyn() {
          dropping := false;
        }
        return;
      }
      if ev.Key().IsSlot() {
        current := if 0 <= ev.value < NUM_SLOTS then ev.value else -1;
      } else if ev.Key().IsSyn() {
        if wanted {
          out := FillSnapshot();
        }
        complete := true;
      } else if ev.typ == EV_ABS && current >= 0 {
        slots[current] := slots[current][ev.Key() := ev.value];
      }
    }
  }
}
