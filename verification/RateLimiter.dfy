/** One call per interval, decided by a compare-and-swap on the last admitted
    time. The RPC interceptor and the HTTP route run the same steps. */
module RateLimiter {
  import opened Options

  const MIN_INT64 := -0x8000_0000_0000_0000
  const MAX_INT64 := 0x7fff_ffff_ffff_ffff

  /** Subtraction as the source's 64-bit integers do it. */
  function Sub64(a: int, b: int): (r: int)
    ensures MIN_INT64 <= r <= MAX_INT64
    ensures MIN_INT64 <= a - b <= MAX_INT64 ==> r == a - b
  {
    (a - b + 0x8000_0000_0000_0000) % 0x1_0000_0000_0000_0000 - 0x8000_0000_0000_0000
  }

  /** Where one call stands. Other calls may run between any two of its steps. */
  datatype Call =
    | Arrived
    | HasClock(now: int)
    | HasLast(now: int, last: int)
    | Swapping(now: int, last: int)
    | Admitted(now: int)
    | Rejected

  /** log lists the admitted times in the order they were admitted. */
  datatype State = State(lastNano: int, calls: seq<Call>, log: seq<int>)

  datatype Event = ReadClock(t: nat, now: int) | Load(t: nat) | Compare(t: nat) | Swap(t: nat)

  function With(s: State, t: nat, call: Call): State
    requires t < |s.calls|
  {
    s.(calls := s.calls[t := call])
  }

  function Next(interval: int, s: State, e: Event): Option<State> {
    if e.t >= |s.calls| then None
    else
      var call := s.calls[e.t];
      match e
      case ReadClock(t, now) => if call.Arrived? then Some(With(s, t, HasClock(now))) else None
      case Load(t) => if call.HasClock? then Some(With(s, t, HasLast(call.now, s.lastNano))) else None
      case Compare(t) =>
        if !call.HasLast? then None
        else Some(With(s, t, if Sub64(call.now, call.last) < interval then Rejected else Swapping(call.now, call.last)))
      case Swap(t) =>
        if !call.Swapping? then None
        else if s.lastNano == call.last then
          Some(With(s, t, Admitted(call.now)).(lastNano := call.now, log := s.log + [call.now]))
        else Some(With(s, t, Rejected))
  }

  function After(interval: int, calls: nat, events: seq<Event>): Option<State>
    decreases |events|
  {
    if events == [] then Some(State(0, seq(calls, i => Arrived), []))
    else
      match After(interval, calls, events[..|events| - 1])
      case None => None
      case Some(mid) => Next(interval, mid, events[|events| - 1])
  }

  /** Every clock reading is a 64-bit time at or after the epoch. In what order the
      readings come does not matter. */
  predicate PastTheEpoch(events: seq<Event>) {
    forall i :: 0 <= i < |events| && events[i].ReadClock? ==> 0 <= events[i].now <= MAX_INT64
  }

  predicate Spaced(interval: int, times: seq<int>) {
    forall i, j :: 0 <= i < j < |times| ==> times[j] - times[i] >= interval
  }

  predicate SoundCall(interval: int, call: Call) {
    match call
    case HasClock(now) => 0 <= now <= MAX_INT64
    case HasLast(now, last) => 0 <= now <= MAX_INT64 && 0 <= last <= MAX_INT64
    case Swapping(now, last) => 0 <= now <= MAX_INT64 && now - last >= interval
    case _ => true
  }

  ghost predicate Inv(interval: int, s: State) {
    && 0 <= s.lastNano <= MAX_INT64
    && (s.log != [] ==> s.lastNano == s.log[|s.log| - 1])
    && Spaced(interval, s.log)
    && (forall t :: 0 <= t < |s.calls| ==> SoundCall(interval, s.calls[t]))
    && (forall t :: 0 <= t < |s.calls| && s.calls[t].Admitted? ==> s.calls[t].now in s.log)
  }

  lemma StepKeepsInv(interval: int, s: State, e: Event)
    requires interval > 0 && Inv(interval, s) && Next(interval, s, e).Some?
    requires e.ReadClock? ==> 0 <= e.now <= MAX_INT64
    ensures Inv(interval, Next(interval, s, e).value)
  {
    assert SoundCall(interval, s.calls[e.t]);
  }

  /** In every interleaving: the admitted times increase strictly, any two are at
      least one interval apart, and each admitted call's time is among them. */
  lemma {:induction false} AdmittedTimesAreSpaced(interval: int, calls: nat, events: seq<Event>)
    requires interval > 0 && PastTheEpoch(events) && After(interval, calls, events).Some?
    ensures var s := After(interval, calls, events).value;
            && Inv(interval, s) && Spaced(interval, s.log)
            && (forall i, j :: 0 <= i < j < |s.log| ==> s.log[i] < s.log[j])
            && (forall t :: 0 <= t < |s.calls| && s.calls[t].Admitted? ==> s.calls[t].now in s.log)
    decreases |events|
  {
    hide Next;
    if events != [] {
      var n := |events| - 1;
      assert forall i :: 0 <= i < n ==> events[..n][i] == events[i];
      AdmittedTimesAreSpaced(interval, calls, events[..n]);
      StepKeepsInv(interval, After(interval, calls, events[..n]).value, events[n]);
    }
  }

  /** Admission by the wrapped difference means what it says but for a
      reading so far back that the difference wraps; no reading past the epoch is. */
  lemma ComparisonIsTrueIff(interval: int, now: int, last: int)
    requires 0 < interval <= MAX_INT64 && MIN_INT64 <= now <= MAX_INT64 && 0 <= last <= MAX_INT64
    ensures Sub64(now, last) >= interval <==>
      now - last >= interval || interval - 0x1_0000_0000_0000_0000 <= now - last < MIN_INT64
    ensures now >= 0 ==> (Sub64(now, last) >= interval <==> now - last >= interval)
  {
  }

  lemma Extended(interval: int, calls: nat, events: seq<Event>, e: Event)
    requires After(interval, calls, events).Some?
    ensures After(interval, calls, events + [e]) == Next(interval, After(interval, calls, events).value, e)
  {
    assert (events + [e])[..|events|] == events;
  }

  function Steps(t: nat, now: int): seq<Event> {
    [ReadClock(t, now), Load(t), Compare(t), Swap(t)]
  }

  /** A call nobody interrupts is admitted when its comparison passes. */
  lemma UninterruptedCall(interval: int, calls: nat, events: seq<Event>, s: State, t: nat, now: int)
    requires After(interval, calls, events) == Some(s) && t < |s.calls| && s.calls[t].Arrived?
    requires Sub64(now, s.lastNano) >= interval
    ensures After(interval, calls, events + Steps(t, now)) ==
      Some(With(s, t, Admitted(now)).(lastNano := now, log := s.log + [now]))
  {
    hide After, Sub64;
    var one := events + [ReadClock(t, now)];
    Extended(interval, calls, events, ReadClock(t, now));
    Extended(interval, calls, one, Load(t));
    assert With(With(s, t, HasClock(now)), t, HasLast(now, s.lastNano)) == With(s, t, HasLast(now, s.lastNano));
    var two := one + [Load(t)];
    Extended(interval, calls, two, Compare(t));
    assert With(With(s, t, HasLast(now, s.lastNano)), t, Swapping(now, s.lastNano)) == With(s, t, Swapping(now, s.lastNano));
    var three := two + [Compare(t)];
    Extended(interval, calls, three, Swap(t));
    assert With(With(s, t, Swapping(now, s.lastNano)), t, Admitted(now)) == With(s, t, Admitted(now));
    assert events + Steps(t, now) == three + [Swap(t)];
  }

  /** With a clock before the epoch the order is lost: one, then the earliest time. */
  lemma ClockBeforeTheEpochBreaksTheOrder()
    ensures var s := After(1, 2, Steps(0, 1) + Steps(1, MIN_INT64));
            s.Some? && s.value.log == [1, MIN_INT64]
  {
    hide Next;
    var start := State(0, seq(2, i => Arrived), []);
    assert After(1, 2, []) == Some(start);
    assert Sub64(1, 0) == 1 && Sub64(MIN_INT64, 1) == MAX_INT64;
    UninterruptedCall(1, 2, [], start, 0, 1);
    assert [] + Steps(0, 1) == Steps(0, 1);
    var admitted := With(start, 0, Admitted(1)).(lastNano := 1, log := start.log + [1]);
    assert admitted.log == [1];
    UninterruptedCall(1, 2, Steps(0, 1), admitted, 1, MIN_INT64);
  }

  /** One limiter, its calls running one at a time. */
  class MethodRateLimit {
    const interval: int
    var lastNano: int

    constructor (interval: int)
      ensures this.interval == interval && lastNano == 0
    {
      this.interval, lastNano := interval, 0;
    }

    method CompareAndSwap(expected: int, next: int) returns (swapped: bool)
      modifies this
      ensures swapped <==> old(lastNano) == expected
      ensures lastNano == if swapped then next else old(lastNano)
    {
      swapped := lastNano == expected;
      if swapped {
        lastNano := next;
      }
    }

    method Allow(now: int) returns (allowed: bool)
      modifies this
      ensures allowed <==> Sub64(now, old(lastNano)) >= interval
      ensures lastNano == if allowed then now else old(lastNano)
    {
      var last := lastNano;
      if Sub64(now, last) < interval {
        return false;
      }
      allowed := CompareAndSwap(last, now);
    }
  }
}
