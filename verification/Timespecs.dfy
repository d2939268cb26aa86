/** Deadlines of the fake keyboard: the timespec arithmetic and the wait that Consume
    computes before it blocks in select. */
module Timespecs {

  const NS_PER_SEC := 1_000_000_000
  const NS_PER_MS := 1_000_000

  // How long a key event is held back before it is sent.
  const EVENT_DELAY_MS := 50
  const DELAY_NS := EVENT_DELAY_MS * NS_PER_MS

  datatype Timespec = Timespec(sec: int, nsec: int)

  predicate Normal(t: Timespec) {
    0 <= t.nsec < NS_PER_SEC
  }

  // The instant a timespec denotes, in nanoseconds.
  function Ns(t: Timespec): int {
    t.sec * NS_PER_SEC + t.nsec
  }

  // The carry loop of AddMsToTimespec. It only ever carries upwards.
  function Carry(t: Timespec): (r: Timespec)
    ensures Ns(r) == Ns(t)
    ensures r.nsec < NS_PER_SEC
    ensures 0 <= t.nsec ==> Normal(r)
    decreases t.nsec
  {
    if t.nsec >= NS_PER_SEC then Carry(Timespec(t.sec + 1, t.nsec - NS_PER_SEC)) else t
  }

  function AddMs(t: Timespec, ms: int): (r: Timespec)
    ensures Ns(r) == Ns(t) + ms * NS_PER_MS
    ensures Normal(t) && 0 <= ms ==> Normal(r)
  {
    Carry(t.(nsec := t.nsec + ms * NS_PER_MS))
  }

  method AddMsToTimespec(orig: Timespec, additionalMs: int) returns (extended: Timespec)
    ensures extended == AddMs(orig, additionalMs)
    ensures Ns(extended) == Ns(orig) + additionalMs * NS_PER_MS
    ensures Normal(orig) && 0 <= additionalMs ==> Normal(extended)
  {
    extended := orig.(nsec := orig.nsec + additionalMs * NS_PER_MS);
    while extended.nsec >= NS_PER_SEC
      invariant Carry(extended) == AddMs(orig, additionalMs)
      decreases extended.nsec
    {
      extended := extended.(nsec := extended.nsec - NS_PER_SEC);
      extended := extended.(sec := extended.sec + 1);
    }
  }

  predicate Later(t1: Timespec, t2: Timespec) {
    t1.sec > t2.sec || (t1.sec == t2.sec && t1.nsec > t2.nsec)
  }

  /** On normalised timespecs the field-by-field comparison is the order of instants. */
  lemma LaterIsInstantOrder(t1: Timespec, t2: Timespec)
    requires Normal(t1) && Normal(t2)
    ensures Later(t1, t2) <==> Ns(t1) > Ns(t2)
    ensures Ns(t1) == Ns(t2) <==> t1 == t2
  {
  }

  // C++ integer division truncates toward zero; the divisor is positive here.
  function TruncDiv(a: int, b: int): int
    requires b > 0
  {
    if a >= 0 then a / b else -((-a) / b)
  }

  // The select timeout, in milliseconds, for the event at the front of the queue.
  function WaitMs(deadline: Timespec, now: Timespec): int {
    var ms := (deadline.sec - now.sec) * 1000 + TruncDiv(deadline.nsec - now.nsec, NS_PER_MS) + 1;
    if ms < 0 then 1 else ms
  }

  /** The wait is never negative and is strictly longer than the time left. Unless the deadline
      has passed it overshoots by less than 2 ms, and no deadline within the event delay makes
      it longer than 51 ms. For a deadline that has passed it is at most 1 ms, and exactly that if
      it passed at least 2 ms ago. */
  lemma WaitBound(deadline: Timespec, now: Timespec)
    requires Normal(deadline) && Normal(now)
    ensures 0 <= WaitMs(deadline, now)
    ensures Ns(deadline) - Ns(now) < WaitMs(deadline, now) * NS_PER_MS
    ensures Ns(now) <= Ns(deadline) ==>
              WaitMs(deadline, now) * NS_PER_MS < Ns(deadline) - Ns(now) + 2 * NS_PER_MS
    ensures Ns(deadline) <= Ns(now) + DELAY_NS ==> WaitMs(deadline, now) <= 51
    ensures Ns(deadline) <= Ns(now) ==> WaitMs(deadline, now) <= 1
    ensures Ns(deadline) + 2_000_000 <= Ns(now) ==> WaitMs(deadline, now) == 1
  {
    var d := deadline.nsec - now.nsec;
    var q := TruncDiv(d, NS_PER_MS);
    if d >= 0 {
      assert q * NS_PER_MS <= d < (q + 1) * NS_PER_MS;
    } else {
      assert d <= q * NS_PER_MS < d + NS_PER_MS;
    }
  }

  // The seconds and microseconds that GetNextEvent hands to select.
  function SelectTimeout(ms: nat): (int, int) {
    (ms / 1000, (ms % 1000) * 1000)
  }

  /** Splitting the wait into a timeval loses nothing. */
  lemma SelectTimeoutIsExact(ms: nat)
    ensures var (s, us) := SelectTimeout(ms);
            s * 1_000_000 + us == ms * 1000 && 0 <= s && 0 <= us < 1_000_000
  {
  }
}
