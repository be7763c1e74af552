/** One refcounted, reconnecting server stream of the web client. Handlers, runs
    and timers are numbers; a run is one connection and the controller that can
    abort it. */
module StreamClient {
  import opened Options

  datatype Status = Connecting | Open | Closed

  const RECONNECT_BASE_DELAY := 1000
  const RECONNECT_MAX_DELAY := 30000

  /** A pending timeout: the generation its callback compares, and its delay. */
  datatype Timer = Timer(generation: nat, delay: int)

  /** The object's fields, then what the browser holds for it: the timeouts still
      pending, the runs not yet finished, the controllers aborted. */
  datatype State = State(
    subscribers: set<nat>, status: Status, controller: Option<nat>, attempts: nat, timer: Option<nat>, generation: nat,
    timers: map<nat, Timer>, runs: map<nat, nat>, aborted: set<nat>, next: nat)

  const FRESH := State({}, Closed, None, 0, None, 0, map[], map[], {}, 0)

  datatype Event =
    | Subscribe(handler: nat) | Unsubscribe(handler: nat) | Reset
    | Frame(run: nat) | End(run: nat) | Fire(timeout: nat)

  function Power(n: nat): (r: nat)
    ensures r >= 1
  {
    if n == 0 then 1 else 2 * Power(n - 1)
  }

  function Delay(attempts: nat): (r: int)
    ensures RECONNECT_BASE_DELAY <= r <= RECONNECT_MAX_DELAY
  {
    if RECONNECT_BASE_DELAY * Power(attempts) < RECONNECT_MAX_DELAY then RECONNECT_BASE_DELAY * Power(attempts)
    else RECONNECT_MAX_DELAY
  }

  /** The first retry waits a second, each next one twice as long, up to half a
      minute. */
  lemma DelayDoubles(attempts: nat)
    ensures Delay(0) == 1000
    ensures Delay(attempts + 1) == if 2 * Delay(attempts) < 30000 then 2 * Delay(attempts) else 30000
  {
    assert Power(0) == 1 && Power(attempts + 1) == 2 * Power(attempts);
  }

  // ---------------------------------------------------------------------
  // What one event does
  // ---------------------------------------------------------------------

  function Running(s: State, generation: nat): State {
    s.(controller := Some(s.next), status := Connecting, runs := s.runs[s.next := generation], next := s.next + 1)
  }

  function Started(s: State): State {
    if s.controller.Some? then s else Running(s.(generation := s.generation + 1), s.generation + 1)
  }

  function Stopped(s: State): State {
    s.(generation := s.generation + 1, attempts := 0, status := Closed, controller := None, timer := None,
       timers := if s.timer.Some? then s.timers - {s.timer.value} else s.timers,
       aborted := if s.controller.Some? then s.aborted + {s.controller.value} else s.aborted)
  }

  function Scheduled(s: State, generation: nat): State {
    if s.subscribers == {} then s
    else s.(timer := Some(s.next), timers := s.timers[s.next := Timer(generation, Delay(s.attempts))],
            attempts := s.attempts + 1, next := s.next + 1)
  }

  function Step(s: State, e: Event): State {
    match e
    case Subscribe(h) =>
      var joined := s.(subscribers := s.subscribers + {h});
      if |joined.subscribers| == 1 then Started(joined) else joined
    case Unsubscribe(h) =>
      var left := s.(subscribers := s.subscribers - {h});
      if |left.subscribers| == 0 then Stopped(left) else left
    case Reset => Stopped(s.(subscribers := {}))
    case Frame(r) =>
      if r !in s.runs then s
      else if s.runs[r] != s.generation then s.(runs := s.runs - {r})
      else s.(attempts := 0, status := Open)
    case End(r) =>
      if r !in s.runs then s
      else
        var over := s.(runs := s.runs - {r});
        if s.runs[r] != s.generation || r in s.aborted then over
        else Scheduled(over.(controller := None, status := Closed), s.runs[r])
    case Fire(t) =>
      if t !in s.timers then s
      else
        var fired := s.(timers := s.timers - {t}, timer := None);
        if s.timers[t].generation == s.generation then Running(fired, s.generation) else fired
  }

  /** The handlers a frame of a run reaches. */
  function Delivered(s: State, run: nat): set<nat> {
    if run in s.runs && s.runs[run] == s.generation then s.subscribers else {}
  }

  function After(events: seq<Event>): State
    decreases |events|
  {
    if events == [] then FRESH else Step(After(events[..|events| - 1]), events[|events| - 1])
  }

  // ---------------------------------------------------------------------
  // What holds in every history
  // ---------------------------------------------------------------------

  /** A pending timeout whose callback would still reconnect. */
  predicate Due(s: State, t: nat) {
    t in s.timers && s.timers[t].generation == s.generation
  }

  predicate Connected(s: State) {
    s.controller.Some?
  }

  ghost predicate Reconnecting(s: State) {
    exists t :: Due(s, t)
  }

  /** The controller's run is the one run of this generation, and the only one
      not aborted. */
  ghost predicate OneConnection(s: State) {
    && (forall r :: r in s.runs ==> r < s.next && s.runs[r] <= s.generation)
    && (forall r :: r in s.runs && s.runs[r] == s.generation ==> s.controller == Some(r))
    && (forall r :: r in s.runs && r !in s.aborted ==> s.controller == Some(r))
    && (s.controller.Some? ==>
          s.controller.value in s.runs && s.runs[s.controller.value] == s.generation && s.controller.value !in s.aborted)
    && (forall r :: r in s.aborted ==> r < s.next)
    && (s.status == Closed <==> s.controller.None?)
  }

  /** At most one timeout is due, and none while connected. */
  ghost predicate OneTimer(s: State) {
    && (forall t :: t in s.timers ==> t < s.next && s.timers[t].generation <= s.generation)
    && (forall t :: t in s.timers ==> RECONNECT_BASE_DELAY <= s.timers[t].delay <= RECONNECT_MAX_DELAY)
    && (forall t, u :: Due(s, t) && Due(s, u) ==> t == u)
    && (Connected(s) ==> !Reconnecting(s))
  }

  /** Somebody listens exactly when a connection is up or a reconnect is due. */
  ghost predicate Refcounted(s: State) {
    s.subscribers != {} <==> Connected(s) || Reconnecting(s)
  }

  ghost predicate Inv(s: State) {
    OneConnection(s) && OneTimer(s) && Refcounted(s)
  }

  lemma SizeOne(s: set<nat>, h: nat)
    ensures |s + {h}| == 1 <==> s <= {h}
    ensures |s - {h}| == 0 <==> s <= {h}
  {
    if s <= {h} {
      assert s + {h} == {h} && s - {h} == {};
    } else {
      var x :| x in s && x != h;
      assert {x, h} <= s + {h} && x in s - {h};
      SubsetSize({x, h}, s + {h});
    }
  }

  lemma SubsetSize(a: set<nat>, b: set<nat>)
    requires a <= b
    ensures |a| <= |b|
  {
    assert b == a + (b - a);
  }

  lemma Unmoved(s: State, s': State)
    requires OneConnection(s) && OneTimer(s)
    requires s' == s.(subscribers := s'.subscribers)
    ensures OneConnection(s') && OneTimer(s') && (Reconnecting(s') <==> Reconnecting(s))
  {
    assert forall t :: Due(s', t) <==> Due(s, t);
  }

  lemma StopKeepsInv(s: State)
    requires OneConnection(s) && OneTimer(s) && s.subscribers == {}
    ensures Inv(Stopped(s))
  {
    var s' := Stopped(s);
    assert forall t :: t in s'.timers ==> t in s.timers;
  }

  lemma RunKeepsInv(s: State, g: nat)
    requires OneConnection(s) && OneTimer(s) && s.controller.None? && g <= s.generation && s.subscribers != {}
    requires g == s.generation && (forall t :: !Due(s, t)) && forall r :: r in s.runs ==> s.runs[r] < g
    ensures Inv(Running(s, g))
  {
    var s' := Running(s, g);
    assert forall t :: Due(s', t) ==> Due(s, t);
  }

  lemma SubscribeKeepsInv(s: State, h: nat)
    requires Inv(s)
    ensures Inv(Step(s, Subscribe(h)))
  {
    SizeOne(s.subscribers, h);
    var joined := s.(subscribers := s.subscribers + {h});
    assert forall t :: Due(joined, t) <==> Due(s, t);
    if s.subscribers <= {h} && s.controller.None? {
      var moved := joined.(generation := s.generation + 1);
      RunKeepsInv(moved, s.generation + 1);
    }
  }

  lemma EndKeepsInv(s: State, r: nat)
    requires Inv(s) && r in s.runs
    ensures Inv(Step(s, End(r)))
  {
    var s' := Step(s, End(r));
    if s.runs[r] == s.generation && r !in s.aborted {
      assert s.controller == Some(r) && !Reconnecting(s);
      assert forall t :: Due(s', t) ==> t == s.next || Due(s, t);
      if s.subscribers != {} {
        assert Due(s', s.next);
      }
    } else {
      assert s.controller != Some(r);
      assert forall t :: Due(s', t) <==> Due(s, t);
    }
  }

  lemma FireKeepsInv(s: State, t: nat)
    requires Inv(s) && t in s.timers
    ensures Inv(Step(s, Fire(t)))
  {
    var fired := s.(timers := s.timers - {t}, timer := None);
    assert forall u :: Due(fired, u) <==> Due(s, u) && u != t;
    if Due(s, t) {
      RunKeepsInv(fired, s.generation);
    }
  }

  lemma FrameKeepsInv(s: State, r: nat)
    requires Inv(s)
    ensures Inv(Step(s, Frame(r)))
  {
    var s' := Step(s, Frame(r));
    assert forall t :: Due(s', t) <==> Due(s, t);
  }

  lemma StepKeepsInv(s: State, e: Event)
    requires Inv(s)
    ensures Inv(Step(s, e))
  {
    match e {
      case Subscribe(h) => SubscribeKeepsInv(s, h);
      case Unsubscribe(h) =>
        SizeOne(s.subscribers, h);
        var left := s.(subscribers := s.subscribers - {h});
        Unmoved(s, left);
        if left.subscribers == {} {
          StopKeepsInv(left);
        }
      case Reset =>
        Unmoved(s, s.(subscribers := {}));
        StopKeepsInv(s.(subscribers := {}));
      case Frame(r) => FrameKeepsInv(s, r);
      case End(r) =>
        if r in s.runs {
          EndKeepsInv(s, r);
        }
      case Fire(t) =>
        if t in s.timers {
          FireKeepsInv(s, t);
        }
    }
  }

  /** Every history: at most one connection is not aborted; somebody listens
      exactly when one of a connection and a due reconnect exists, never both; and
      a superseded run delivers to nobody. */
  lemma {:induction false} EveryHistory(events: seq<Event>)
    ensures var s := After(events);
            && Inv(s)
            && (forall q, r :: q in s.runs && r in s.runs && q !in s.aborted && r !in s.aborted ==> q == r)
            && !(Connected(s) && Reconnecting(s))
            && (forall r: nat :: Delivered(s, r) == if s.controller == Some(r) then s.subscribers else {})
    decreases |events|
  {
    if events != [] {
      EveryHistory(events[..|events| - 1]);
      StepKeepsInv(After(events[..|events| - 1]), events[|events| - 1]);
    }
  }

  /** A loss in any history waits for as long as the losses since the last frame
      have made it, and the retry after it counts one more; a frame starts over. */
  lemma LossesBackOff(s: State, r: nat)
    requires Inv(s) && s.controller == Some(r)
    ensures var lost := Step(s, End(r));
      && lost.timer.Some? && lost.timer.value in lost.timers
      && lost.timers[lost.timer.value].delay == Delay(s.attempts)
      && lost.status == Closed && lost.attempts == s.attempts + 1
      && var again := Step(lost, Fire(lost.timer.value));
         && again.controller.Some? && again.controller != s.controller && again.status == Connecting
         && again.attempts == s.attempts + 1 && again.subscribers == s.subscribers
    ensures Step(s, Frame(r)).attempts == 0 && Step(s, Frame(r)).status == Open
  {
    assert s.subscribers != {};
  }

  /** The first subscriber connects; the last one to leave closes for good: what was
      up is aborted, nothing is due, and the backing off starts over. */
  lemma FirstInLastOut(s: State, h: nat)
    requires Inv(s) && s.subscribers <= {h}
    ensures var joined := Step(s, Subscribe(h));
      && joined.subscribers == {h} && joined.controller.Some?
      && (s.subscribers == {} ==> joined.status == Connecting && joined.attempts == s.attempts)
    ensures forall e :: e == Unsubscribe(h) || e == Reset ==>
      var left := Step(s, e);
      && left.subscribers == {} && left.controller.None? && left.status == Closed && left.attempts == 0
      && !Reconnecting(left) && (s.controller.Some? ==> left.aborted == s.aborted + {s.controller.value})
  {
    SizeOne(s.subscribers, h);
    assert s.subscribers + {h} == {h} && s.subscribers - {h} == {};
    StepKeepsInv(s, Unsubscribe(h));
    StepKeepsInv(s, Reset);
  }

  // ---------------------------------------------------------------------
  // Timeouts that fire for nothing
  // ---------------------------------------------------------------------

  /** The stricter reading: the timer field names the only timeout pending, and
      that one is due. */
  predicate NoStrayTimer(s: State) {
    match s.timer
    case None => s.timers == map[]
    case Some(t) => s.timers.Keys == {t} && Due(s, t)
  }

  lemma TimerIsDue(s: State)
    requires NoStrayTimer(s)
    ensures (s.timer.Some? <==> Reconnecting(s)) && (s.timer.None? <==> s.timers == map[])
  {
    if s.timer.Some? {
      assert Due(s, s.timer.value);
    }
  }

  lemma StopClearsTimers(s: State)
    requires NoStrayTimer(s)
    ensures Stopped(s).timers == map[]
  {
    if s.timer.Some? {
      assert forall t :: t !in s.timers - {s.timer.value};
    }
  }

  /** Subscribing a handler that is already the only one, while disconnected. */
  predicate Resubscribes(s: State, e: Event) {
    e.Subscribe? && s.subscribers == {e.handler} && s.controller.None?
  }

  lemma StrayTimerAfterSubscribe(s: State, h: nat)
    requires Inv(s) && NoStrayTimer(s)
    ensures NoStrayTimer(Step(s, Subscribe(h))) <==> !Resubscribes(s, Subscribe(h))
  {
    SizeOne(s.subscribers, h);
    TimerIsDue(s);
    if s.subscribers == {h} && s.controller.None? {
      var t :| Due(s, t);
    }
  }

  /** From a state without stray timeouts exactly one kind of step leaves one. */
  lemma StrayTimerIff(s: State, e: Event)
    requires Inv(s) && NoStrayTimer(s)
    ensures NoStrayTimer(Step(s, e)) <==> !Resubscribes(s, e)
  {
    match e {
      case Subscribe(h) => StrayTimerAfterSubscribe(s, h);
      case Unsubscribe(h) => StopClearsTimers(s.(subscribers := s.subscribers - {h}));
      case Reset => StopClearsTimers(s.(subscribers := {}));
      case Frame(r) =>
      case End(r) =>
        if r in s.runs && s.runs[r] == s.generation && r !in s.aborted {
          assert s.controller == Some(r) && !Reconnecting(s);
          TimerIsDue(s);
        }
      case Fire(t) =>
        if t in s.timers {
          assert s.timers - {t} == map[];
        }
    }
  }

  predicate NeverResubscribes(events: seq<Event>) {
    forall i :: 0 <= i < |events| ==> !Resubscribes(After(events[..i]), events[i])
  }

  /** While no handler is subscribed twice like that: no subscriber, then neither
      connection nor any pending timeout; any subscriber, then exactly one of both. */
  lemma {:induction false} OneConnectionOrTimeout(events: seq<Event>)
    requires NeverResubscribes(events)
    ensures var s := After(events);
            && NoStrayTimer(s)
            && (s.subscribers == {} ==> s.controller.None? && s.timers == map[])
            && (s.subscribers != {} ==> (s.controller.Some? <==> s.timers == map[]))
    decreases |events|
  {
    EveryHistory(events);
    if events != [] {
      var init := events[..|events| - 1];
      assert forall i :: 0 <= i < |init| ==> init[..i] == events[..i] && init[i] == events[i];
      OneConnectionOrTimeout(init);
      EveryHistory(init);
      assert !Resubscribes(After(init), events[|events| - 1]);
      StrayTimerIff(After(init), events[|events| - 1]);
    }
    TimerIsDue(After(events));
  }

  /** Subscribe, lose the connection, subscribe the same handler again: connected,
      and the old timeout is still pending. */
  lemma ResubscribingLeavesATimer()
    ensures var s := After([Subscribe(7), End(0), Subscribe(7)]);
            s.controller == Some(2) && s.timers == map[1 := Timer(1, 1000)]
  {
    var one, two, three := [Subscribe(7)], [Subscribe(7), End(0)], [Subscribe(7), End(0), Subscribe(7)];
    assert one[..0] == [] && two[..1] == one && three[..2] == two;
    assert {} + {7} == {7} && {7} + {7} == {7};
    var first := After(one);
    assert first == Running(FRESH.(subscribers := {7}, generation := 1), 1);
    var second := After(two);
    assert first.runs - {0} == map[];
    assert Power(0) == 1;
    assert second.timers == map[1 := Timer(1, 1000)];
  }

  // ---------------------------------------------------------------------
  // The object
  // ---------------------------------------------------------------------

  class Stream {
    var subscribers: set<nat>
    var status: Status
    var controller: Option<nat>
    var reconnectAttempts: nat
    var reconnectTimer: Option<nat>
    var generation: nat
    var timers: map<nat, Timer>
    var runs: map<nat, nat>
    var aborted: set<nat>
    var next: nat

    function View(): State
      reads this
    {
      State(subscribers, status, controller, reconnectAttempts, reconnectTimer, generation, timers, runs, aborted, next)
    }

    constructor ()
      ensures View() == FRESH
    {
      subscribers, status, controller, reconnectAttempts, reconnectTimer, generation := {}, Closed, None, 0, None, 0;
      timers, runs, aborted, next := map[], map[], {}, 0;
    }

    method Add(handler: nat)
      modifies this
      ensures View() == Step(old(View()), Subscribe(handler))
    {
      subscribers := subscribers + {handler};
      if |subscribers| == 1 {
        Start();
      }
    }

    method Remove(handler: nat)
      modifies this
      ensures View() == Step(old(View()), Unsubscribe(handler))
    {
      subscribers := subscribers - {handler};
      if |subscribers| == 0 {
        Stop();
      }
    }

    method Clear()
      modifies this
      ensures View() == Step(old(View()), Reset)
    {
      subscribers := {};
      Stop();
    }

    method Start()
      modifies this
      ensures View() == Started(old(View()))
    {
      if controller.Some? {
        return;
      }
      generation := generation + 1;
      Run(generation);
    }

    // The run up to its first await.
    method Run(g: nat)
      modifies this
      ensures View() == Running(old(View()), g)
    {
      controller := Some(next);
      runs := runs[next := g];
      next := next + 1;
      status := Connecting;
    }

    method OnFrame(run: nat) returns (delivered: set<nat>)
      requires run in runs
      modifies this
      ensures View() == Step(old(View()), Frame(run)) && delivered == Delivered(old(View()), run)
    {
      if runs[run] != generation {
        runs := runs - {run};
        return {};
      }
      reconnectAttempts := 0;
      status := Open;
      delivered := subscribers;
    }

    method OnEnd(run: nat)
      requires run in runs
      modifies this
      ensures View() == Step(old(View()), End(run))
    {
      var g := runs[run];
      runs := runs - {run};
      if g != generation || run in aborted {
        return;
      }
      controller := None;
      status := Closed;
      ScheduleReconnect(g);
    }

    method ScheduleReconnect(g: nat)
      modifies this
      ensures View() == Scheduled(old(View()), g)
    {
      if |subscribers| == 0 {
        return;
      }
      var delay := Delay(reconnectAttempts);
      reconnectAttempts := reconnectAttempts + 1;
      timers := timers[next := Timer(g, delay)];
      reconnectTimer := Some(next);
      next := next + 1;
    }

    method OnTimeout(t: nat)
      requires t in timers
      modifies this
      ensures View() == Step(old(View()), Fire(t))
    {
      var g := timers[t].generation;
      timers := timers - {t};
      reconnectTimer := None;
      if g == generation {
        Run(g);
      }
    }

    method Stop()
      modifies this
      ensures View() == Stopped(old(View()))
    {
      generation := generation + 1;
      if reconnectTimer.Some? {
        timers := timers - {reconnectTimer.value};
        reconnectTimer := None;
      }
      reconnectAttempts := 0;
      if controller.Some? {
        aborted := aborted + {controller.value};
      }
      controller := None;
      status := Closed;
    }
  }
}
