/** The fake keyboard as a function on values: what each operation of the key scheduler makes
    of its queue, its finger table, its Fn flag and the keys it has sent.

    Two things are carried along that no branch reads: every contact has a name, the tracking
    id together with how many earlier contacts used that id, and every key that is sent is
    recorded with its deadline and the contact it came from. */
module KeyboardModel {
  import opened InputEvents
  import opened Timespecs
  import opened StateMachine

  const NO_KEY := -1
  const OLD_TID := -999

  const MIN_TAP_PRESSURE := 50
  const MAX_TAP_PRESSURE := 110
  const MIN_TAP_TOUCH_DIAMETER := 300
  const MAX_TAP_TOUCH_DIAMETER := 3000

  datatype Key = Key(code: int, codeFn: int, xmin: int, xmax: int, ymin: int, ymax: int) {
    predicate Contains(x: int, y: int) {
      x < xmax && x >= xmin && y < ymax && y >= ymin
    }
  }

  datatype Contact = Contact(tid: int, nth: nat)

  // A key event that has been sent or is scheduled to be.
  datatype Stroke = Stroke(code: int, down: bool, due: Timespec, contact: Contact)

  datatype Event = Event(guaranteed: bool, code: int, down: bool, tid: int, deadline: Timespec,
                         contact: Contact) {
    function AsStroke(): Stroke { Stroke(code, down, deadline, contact) }
  }

  datatype RejectionStatus =
    NotRejectedYet | TouchdownOffKey | MovedOffKey | Pressure | TouchDiameter | AlreadyComplete

  datatype FingerData = FingerData(arrival: Timespec, maxPressure: int, maxTouchMajor: int,
                                   startingKey: int, code: int, downSent: bool,
                                   status: RejectionStatus, contact: Contact)

  datatype State = State(layout: seq<Key>, pending: seq<Event>, fingers: map<int, FingerData>,
                         fn: bool, uses: map<int, nat>, trace: seq<Stroke>)

  function Max(a: int, b: int): int { if a < b then b else a }

  // ---- the queue ----

  function Insert(q: seq<Event>, ev: Event): seq<Event> {
    if q == [] then [ev]
    else if Later(q[0].deadline, ev.deadline) then [ev] + q
    else [q[0]] + Insert(q[1..], ev)
  }

  // The queue without the events of a tracking id.
  function Erase(q: seq<Event>, tid: int): (r: seq<Event>)
    ensures |r| <= |q|
  {
    if q == [] then []
    else if q[0].tid == tid then Erase(q[1..], tid)
    else [q[0]] + Erase(q[1..], tid)
  }

  // The position of the first event of a tracking id, or the length of the queue.
  function FirstOf(q: seq<Event>, tid: int): (i: nat)
    ensures i <= |q|
    ensures i < |q| ==> q[i].tid == tid
    ensures forall j | 0 <= j < i :: q[j].tid != tid
  {
    if q == [] || q[0].tid == tid then 0 else 1 + FirstOf(q[1..], tid)
  }

  function Guarantee(q: seq<Event>, tid: int): (r: seq<Event>)
    ensures |r| == |q|
  {
    var i := FirstOf(q, tid);
    if i < |q| then q[i := q[i].(guaranteed := true)] else q
  }

  function Enqueue(s: State, ev: Event): State {
    s.(pending := Insert(s.pending, ev))
  }

  function UpEvent(code: int, now: Timespec, contact: Contact): Event {
    Event(true, code, false, OLD_TID, AddMs(now, EVENT_DELAY_MS), contact)
  }

  function EnqueueKeyUp(s: State, code: int, now: Timespec, contact: Contact): State {
    Enqueue(s, UpEvent(code, now, contact))
  }

  // ---- fingers ----

  // The first key of the layout, from index i on, that contains a point.
  function FindKey(layout: seq<Key>, x: int, y: int, i: nat := 0): (k: int)
    requires i <= |layout|
    ensures k == NO_KEY || i <= k < |layout|
    ensures k != NO_KEY ==> layout[k].Contains(x, y) && forall j | i <= j < k :: !layout[j].Contains(x, y)
    ensures k == NO_KEY ==> forall j | i <= j < |layout| :: !layout[j].Contains(x, y)
    decreases |layout| - i
  {
    if i == |layout| then NO_KEY
    else if layout[i].Contains(x, y) then i
    else FindKey(layout, x, y, i + 1)
  }

  function ResolveCode(key: Key, fn: bool): int {
    if fn && key.codeFn != 0 then key.codeFn else key.code
  }

  // Whether a code is one of those the new device was created with: any code of the layout, and
  // any Fn code that is set.
  ghost predicate Enabled(layout: seq<Key>, code: int) {
    exists key | key in layout :: code == key.code || (code == key.codeFn && key.codeFn != 0)
  }

  function CodeAt(layout: seq<Key>, fn: bool, x: int, y: int): int {
    var k := FindKey(layout, x, y);
    if k == NO_KEY then 0 else ResolveCode(layout[k], fn)
  }

  // How many contacts have used a tracking id so far.
  function Uses(s: State, tid: int): nat {
    if tid in s.uses then s.uses[tid] else 0
  }

  function NewFinger(s: State, now: Timespec, tid: int, f: MtFinger): FingerData {
    var k := FindKey(s.layout, f.x, f.y);
    FingerData(now, f.p, f.touchMajor, k, CodeAt(s.layout, s.fn, f.x, f.y), false,
               if k == NO_KEY then TouchdownOffKey else NotRejectedYet,
               Contact(tid, Uses(s, tid)))
  }

  function DownEvent(d: FingerData): Event {
    Event(false, d.code, true, d.contact.tid, AddMs(d.arrival, EVENT_DELAY_MS), d.contact)
  }

  // The first half of a new contact: its Down event, if it landed on a key.
  function ScheduleDown(s: State, now: Timespec, tid: int, f: MtFinger): State {
    var d := NewFinger(s, now, tid, f);
    if d.startingKey == NO_KEY then s else Enqueue(s, DownEvent(d))
  }

  function Arrive(s: State, now: Timespec, tid: int, f: MtFinger): State {
    var d := NewFinger(s, now, tid, f);
    ScheduleDown(s, now, tid, f).(
      fingers := s.fingers[tid := d],
      fn := s.fn || d.code == KEY_FN,
      uses := s.uses[tid := Uses(s, tid) + 1])
  }

  predicate StillOnFirstKey(layout: seq<Key>, f: MtFinger, d: FingerData) {
    0 <= d.startingKey < |layout| && layout[d.startingKey].Contains(f.x, f.y)
  }

  function Reject(s: State, tid: int, reason: RejectionStatus): State {
    if tid !in s.fingers then s
    else
      s.(fingers := s.fingers[tid := s.fingers[tid].(status := reason)],
         fn := s.fn && s.fingers[tid].code != KEY_FN,
         pending := Erase(s.pending, tid))
  }

  function Measure(d: FingerData, f: MtFinger): FingerData {
    d.(maxPressure := Max(d.maxPressure, f.p), maxTouchMajor := Max(d.maxTouchMajor, f.touchMajor))
  }

  // A known contact: its maxima grow, and it is rejected once it has left its key.
  function Update(s: State, now: Timespec, tid: int, f: MtFinger): State
    requires tid in s.fingers
  {
    var d := Measure(s.fingers[tid], f);
    var s1 := s.(fingers := s.fingers[tid := d]);
    if StillOnFirstKey(s.layout, f, d) then s1
    else
      var s2 := Reject(s1, tid, MovedOffKey);
      if d.downSent then EnqueueKeyUp(s2, d.code, now, d.contact) else s2
  }

  function Touch(s: State, now: Timespec, tid: int, f: MtFinger): State {
    if tid !in s.fingers then Arrive(s, now, tid, f)
    else if s.fingers[tid].status == NotRejectedYet then Update(s, now, tid, f)
    else s
  }

  // HandleLeavingFinger: a pending event of the finger becomes guaranteed and an Up follows,
  // unless what was pending is an Up already.
  function HandleLeaving(s: State, tid: int, d: FingerData, now: Timespec): State {
    if d.status != NotRejectedYet then s
    else
      var i := FirstOf(s.pending, tid);
      var s1 := if d.downSent then s else s.(pending := Guarantee(s.pending, tid));
      if !d.downSent && i < |s.pending| && !s.pending[i].down then s1
      else EnqueueKeyUp(s1, d.code, now, d.contact).(fn := s.fn && d.code != KEY_FN)
  }

  function Leave(s: State, now: Timespec, tid: int): State
    requires tid in s.fingers
  {
    var s1 := HandleLeaving(s, tid, s.fingers[tid], now);
    s1.(fingers := s1.fingers - {tid})
  }

  function LeaveIfMissing(s: State, now: Timespec, snapshot: map<int, MtFinger>, tid: int): State {
    if tid in s.fingers && tid != OLD_TID && tid !in snapshot then Leave(s, now, tid) else s
  }

  // ---- snapshots, contacts taken in a given order ----

  function TouchAll(s: State, now: Timespec, snapshot: map<int, MtFinger>, order: seq<int>): State
    requires forall tid | tid in order :: tid in snapshot
  {
    if order == [] then s
    else
      var n := |order| - 1;
      Touch(TouchAll(s, now, snapshot, order[..n]), now, order[n], snapshot[order[n]])
  }

  function LeaveAll(s: State, now: Timespec, snapshot: map<int, MtFinger>, order: seq<int>): State {
    if order == [] then s
    else
      var n := |order| - 1;
      LeaveIfMissing(LeaveAll(s, now, snapshot, order[..n]), now, snapshot, order[n])
  }

  function Snap(s: State, now: Timespec, snapshot: map<int, MtFinger>, touches: seq<int>, leaves: seq<int>): State
    requires forall tid | tid in touches :: tid in snapshot
  {
    LeaveAll(TouchAll(s, now, snapshot, touches), now, snapshot, leaves)
  }

  // ---- firing ----

  function StartingCode(layout: seq<Key>, d: FingerData): int {
    if 0 <= d.startingKey < |layout| then layout[d.startingKey].code else 0
  }

  // The check a contact must pass when its event comes due: pressure if the panel reports it,
  // the touch diameter otherwise. The space bar has no upper limit.
  predicate InRange(layout: seq<Key>, d: FingerData) {
    var isSpace := StartingCode(layout, d) == KEY_SPACE;
    if d.maxPressure != -1 then
      MIN_TAP_PRESSURE <= d.maxPressure && (isSpace || d.maxPressure <= MAX_TAP_PRESSURE)
    else
      MIN_TAP_TOUCH_DIAMETER <= d.maxTouchMajor && (isSpace || d.maxTouchMajor <= MAX_TAP_TOUCH_DIAMETER)
  }

  function RangeStatus(d: FingerData): RejectionStatus {
    if d.maxPressure != -1 then Pressure else TouchDiameter
  }

  // One turn of the firing loop, for the event at the front.
  function Fire(s: State): (r: State)
    requires s.pending != []
    ensures |r.pending| < |s.pending|
  {
    var ev := s.pending[0];
    var s1 := s.(pending := s.pending[1..]);
    if ev.tid in s.fingers && !InRange(s.layout, s.fingers[ev.tid]) then
      Reject(s1, ev.tid, RangeStatus(s.fingers[ev.tid]))
    else
      s1.(trace := s.trace + [ev.AsStroke()],
          fingers := if ev.down && ev.tid in s.fingers
                     then s.fingers[ev.tid := s.fingers[ev.tid].(downSent := true)] else s.fingers)
  }

  predicate FrontDue(s: State, now: Timespec) {
    s.pending != [] && !Later(s.pending[0].deadline, now)
  }

  function Drain(s: State, now: Timespec): State
    decreases |s.pending|
  {
    if FrontDue(s, now) then Drain(Fire(s), now) else s
  }

  // ---- one iteration of Consume ----

  datatype Input =
    | Frame(snapshot: map<int, MtFinger>, touches: seq<int>, leaves: seq<int>)
    | Partial
    | Timeout

  // The keyboard's part of an iteration. A raw event that does not complete a snapshot ends the
  // iteration before anything can fire.
  function Iterate(s: State, now: Timespec, input: Input): State
    requires input.Frame? ==> forall tid | tid in input.touches :: tid in input.snapshot
  {
    match input
    case Partial => s
    case Timeout => Drain(s, now)
    case Frame(snapshot, touches, leaves) => Drain(Snap(s, now, snapshot, touches, leaves), now)
  }
}
