/** The one path every config change takes: lock, read, apply, write, propagate,
    unlock. Any number of calls run at once; each event is one step of one call. */
module ConfigStore {
  import opened Options
  import opened ConfigModel
  import opened SidecarTable
  import opened ConfigOps
  import opened ConfigDocument

  /** Where a call stands; the copy it works on is its own. */
  datatype Stage =
    | Waiting
    | Locked
    | HasRead(copy: Config)
    | HasApplied(copy: Config)
    | HasWritten(copy: Config)
    | Leaving(ok: bool)
    | Done(ok: bool)

  datatype Call = Call(op: Op, stage: Stage)

  /** stored is the database's document, live the process-wide one, registry the
      table the scanner classifies with. log lists the calls in commit order. */
  datatype State = State(
    holder: Option<nat>, stored: Config, live: Config, registry: seq<SidecarEntry>, calls: seq<Call>, log: seq<nat>)

  datatype Event =
    | Acquire(t: nat) | Read(t: nat, ok: bool) | Apply(t: nat) | Write(t: nat, ok: bool) | Propagate(t: nat) | Release(t: nat)

  function Moved(s: State, t: nat, stage: Stage): State
    requires t < |s.calls|
  {
    s.(calls := s.calls[t := s.calls[t].(stage := stage)])
  }

  /** The state after one event, or None when the event cannot happen there. */
  function Next(env: Env, s: State, e: Event): Option<State> {
    if e.t >= |s.calls| then None
    else
      var stage := s.calls[e.t].stage;
      match e
      case Acquire(t) =>
        if s.holder.None? && stage.Waiting? then Some(Moved(s, t, Locked).(holder := Some(t))) else None
      case Read(t, ok) =>
        if !stage.Locked? then None
        else Some(Moved(s, t, if ok then HasRead(Normalize(s.stored)) else Leaving(false)))
      case Apply(t) =>
        if !stage.HasRead? then None
        else
          var outcome := Applied(env, s.calls[t].op, stage.copy);
          Some(Moved(s, t, if outcome.Ok? then HasApplied(outcome.value) else Leaving(false)))
      case Write(t, ok) =>
        if !stage.HasApplied? then None
        else if ok then Some(Moved(s, t, HasWritten(stage.copy)).(stored := stage.copy, log := s.log + [t]))
        else Some(Moved(s, t, Leaving(false)))
      case Propagate(t) =>
        if !stage.HasWritten? then None
        else
          var doc := Normalize(stage.copy);
          Some(Moved(s, t, Leaving(true)).(
            live := doc, registry := if Accepted(env, doc.sidecarTypes) then doc.sidecarTypes else s.registry))
      case Release(t) =>
        if stage.Leaving? && s.holder == Some(t) then Some(Moved(s, t, Done(stage.ok)).(holder := None)) else None
  }

  function After(env: Env, s: State, events: seq<Event>): Option<State>
    decreases |events|
  {
    if events == [] then Some(s)
    else
      match After(env, s, events[..|events| - 1])
      case None => None
      case Some(mid) => Next(env, mid, events[|events| - 1])
  }

  // ---------------------------------------------------------------------
  // What holds in every state
  // ---------------------------------------------------------------------

  predicate Inside(stage: Stage) {
    !stage.Waiting? && !stage.Done?
  }

  predicate Committed(stage: Stage) {
    stage.HasWritten? || stage == Leaving(true) || stage == Done(true)
  }

  predicate OneInside(s: State) {
    forall t :: 0 <= t < |s.calls| ==> (Inside(s.calls[t].stage) <==> s.holder == Some(t))
  }

  /** The holder's copy is the stored document, or what its call makes of it. */
  ghost predicate CopyIsFresh(env: Env, s: State, t: nat)
    requires t < |s.calls|
  {
    match s.calls[t].stage
    case HasRead(copy) => copy == Normalize(s.stored)
    case HasApplied(copy) => Applied(env, s.calls[t].op, Normalize(s.stored)) == Ok(copy)
    case HasWritten(copy) => copy == s.stored
    case _ => true
  }

  predicate InRange(log: seq<nat>, n: nat) {
    forall i :: 0 <= i < |log| ==> log[i] < n
  }

  ghost predicate LogIsExact(s: State) {
    && (forall t :: 0 <= t < |s.calls| ==> (Committed(s.calls[t].stage) <==> t in s.log))
    && InRange(s.log, |s.calls|)
    && (forall i, j :: 0 <= i < j < |s.log| ==> s.log[i] != s.log[j])
  }

  /** Running the logged calls one after another, each on the whole result of the last. */
  function Replayed(env: Env, first: Config, calls: seq<Call>, log: seq<nat>): Outcome
    requires InRange(log, |calls|)
    decreases |log|
  {
    if log == [] then Ok(first)
    else
      match Replayed(env, first, calls, log[..|log| - 1])
      case Err(status) => Err(status)
      case Ok(before) => Applied(env, calls[log[|log| - 1]].op, Normalize(before))
  }

  ghost predicate LiveIsStored(s: State) {
    s.log != [] && (forall t :: 0 <= t < |s.calls| ==> !s.calls[t].stage.HasWritten?) ==>
      s.live == s.stored && s.registry == s.stored.sidecarTypes
  }

  ghost predicate Inv(env: Env, first: Config, s: State) {
    && OneInside(s)
    && (forall t :: 0 <= t < |s.calls| ==> CopyIsFresh(env, s, t))
    && LogIsExact(s)
    && Replayed(env, first, s.calls, s.log) == Ok(s.stored)
    && LiveIsStored(s)
    && Valid(env, s.stored) && (s.log != [] ==> Normal(s.stored))
  }

  lemma {:induction false} ReplayReadsOnlyOps(env: Env, first: Config, a: seq<Call>, b: seq<Call>, log: seq<nat>)
    requires |a| == |b| && forall t :: 0 <= t < |a| ==> a[t].op == b[t].op
    requires InRange(log, |a|)
    ensures Replayed(env, first, a, log) == Replayed(env, first, b, log)
    decreases |log|
  {
    hide Applied, Normalize;
    if log != [] {
      ReplayReadsOnlyOps(env, first, a, b, log[..|log| - 1]);
    }
  }

  // Who is inside, and the log, after any step but a propagation.
  lemma StepKeepsLog(env: Env, first: Config, s: State, e: Event)
    requires Inv(env, first, s) && Next(env, s, e).Some? && !e.Propagate?
    ensures OneInside(Next(env, s, e).value) && LogIsExact(Next(env, s, e).value)
  {
    hide Applied, Normalize, Valid, Normal, Replayed, Accepted, CopyIsFresh, LiveIsStored;
  }

  lemma StepKeepsCopies(env: Env, first: Config, s: State, e: Event)
    requires Inv(env, first, s) && Next(env, s, e).Some? && !e.Propagate?
    ensures var s' := Next(env, s, e).value; forall t :: 0 <= t < |s'.calls| ==> CopyIsFresh(env, s', t)
  {
    hide Applied, Normalize, Valid, Normal, Replayed, Accepted, LogIsExact, LiveIsStored;
    var s' := Next(env, s, e).value;
    forall t | 0 <= t < |s'.calls| ensures CopyIsFresh(env, s', t) {
      assert CopyIsFresh(env, s, t);
    }
  }

  lemma QuietStepKeepsInv(env: Env, first: Config, s: State, e: Event)
    requires Inv(env, first, s) && Next(env, s, e).Some?
    requires !e.Write? && !e.Propagate?
    ensures Inv(env, first, Next(env, s, e).value)
  {
    StepKeepsLog(env, first, s, e);
    StepKeepsCopies(env, first, s, e);
    hide Applied, Normalize, Valid, Normal, CopyIsFresh, Accepted, OneInside, LogIsExact;
    var s' := Next(env, s, e).value;
    assert LogIsExact(s);
    ReplayReadsOnlyOps(env, first, s.calls, s'.calls, s.log);
    assert LiveIsStored(s') by {
      assert forall t :: 0 <= t < |s.calls| && s.calls[t].stage.HasWritten? ==> t < |s'.calls| && s'.calls[t].stage.HasWritten?;
    }
  }

  lemma WriteKeepsInv(env: Env, first: Config, s: State, e: Event)
    requires Inv(env, first, s) && Next(env, s, e).Some? && e.Write? && Compilable(env.lang, env.defaults)
    ensures Inv(env, first, Next(env, s, e).value)
  {
    StepKeepsLog(env, first, s, e);
    StepKeepsCopies(env, first, s, e);
    hide Applied, Normalize, Valid, Normal, Accepted, OneInside;
    var s' := Next(env, s, e).value;
    ReplayReadsOnlyOps(env, first, s.calls, s'.calls, s.log);
    assert CopyIsFresh(env, s, e.t);
    if e.ok {
      NormalizeKeepsValid(env, s.stored);
      EveryCallKeepsValid(env, s.calls[e.t].op, Normalize(s.stored));
      EveryCallKeepsNormal(env, s.calls[e.t].op, Normalize(s.stored));
      assert s'.log[..|s'.log| - 1] == s.log;
      assert s'.calls[e.t].stage.HasWritten?;
    }
  }

  lemma PropagateKeepsInv(env: Env, first: Config, s: State, e: Event)
    requires Inv(env, first, s) && Next(env, s, e).Some? && e.Propagate?
    ensures Inv(env, first, Next(env, s, e).value)
  {
    hide Applied, Normalize, Normal;
    var s' := Next(env, s, e).value;
    ReplayReadsOnlyOps(env, first, s.calls, s'.calls, s.log);
    assert CopyIsFresh(env, s, e.t);
    NormalizeIsStable(s.stored);
    forall t | 0 <= t < |s'.calls| ensures CopyIsFresh(env, s', t) {
      assert CopyIsFresh(env, s, t);
    }
  }

  lemma {:induction false} InvAlways(env: Env, s: State, events: seq<Event>)
    requires Compilable(env.lang, env.defaults) && Valid(env, s.stored) && s.log == [] && s.holder.None?
    requires forall t :: 0 <= t < |s.calls| ==> s.calls[t].stage.Waiting?
    ensures After(env, s, events).Some? ==> Inv(env, s.stored, After(env, s, events).value)
    decreases |events|
  {
    hide Next, Valid, Applied;
    if events != [] {
      var init, last := events[..|events| - 1], events[|events| - 1];
      InvAlways(env, s, init);
      if After(env, s, init).Some? && Next(env, After(env, s, init).value, last).Some? {
        var mid := After(env, s, init).value;
        if last.Write? {
          WriteKeepsInv(env, s.stored, mid, last);
        } else if last.Propagate? {
          PropagateKeepsInv(env, s.stored, mid, last);
        } else {
          QuietStepKeepsInv(env, s.stored, mid, last);
        }
      }
    }
  }

  /** In every interleaving: the stored document obeys the rules; it is the outcome
      of the committed calls one after another, so none is lost; a call answers ok
      exactly when it committed, and commits once; and whenever the lock is free
      after a write, live config and the active table are the stored ones. */
  lemma EveryInterleavingIsSerial(env: Env, s: State, events: seq<Event>)
    requires Compilable(env.lang, env.defaults) && Valid(env, s.stored) && s.log == [] && s.holder.None?
    requires forall t :: 0 <= t < |s.calls| ==> s.calls[t].stage.Waiting?
    requires After(env, s, events).Some?
    ensures var end := After(env, s, events).value;
            && Valid(env, end.stored) && LogIsExact(end)
            && Replayed(env, s.stored, end.calls, end.log) == Ok(end.stored)
            && (forall t :: 0 <= t < |end.calls| && end.calls[t].stage.Done? ==>
                  (end.calls[t].stage.ok <==> t in end.log))
            && (end.holder.None? && end.log != [] ==>
                  end.live == end.stored && end.registry == end.stored.sidecarTypes)
  {
    hide Next, Valid, Applied;
    InvAlways(env, s, events);
  }

  // ---------------------------------------------------------------------
  // One call as the code runs it
  // ---------------------------------------------------------------------

  class Store {
    var stored: Config
    var live: Config
    var registry: seq<SidecarEntry>

    constructor (stored: Config, live: Config, registry: seq<SidecarEntry>)
      ensures this.stored == stored && this.live == live && this.registry == registry
    {
      this.stored, this.live, this.registry := stored, live, registry;
    }

    /** The closure edits a fresh copy in place. A refused or failed call changes
        nothing; a successful one stores the edited copy and makes it live. */
    method MutateSync(env: Env, op: Op, readOk: bool, writeOk: bool) returns (ok: bool)
      modifies this
      ensures (stored, live, registry, ok) ==
        Called(env, op, old(stored), old(live), old(registry), readOk, writeOk)
    {
      if !readOk {
        return false;
      }
      hide Applied, Normalize, Accepted;
      var document := new Document(Normalize(stored));
      var fault := document.Apply(env, op);
      if fault.Some? || !writeOk {
        return false;
      }
      stored := document.config;
      PropagateInProcess(env, stored);
      ok := true;
    }

    /** The singleton swap and the registry swap; a table that does not compile
        leaves the registry alone. */
    method PropagateInProcess(env: Env, doc: Config)
      modifies this`live, this`registry
      ensures live == Normalize(doc)
      ensures registry == if Accepted(env, doc.sidecarTypes) then doc.sidecarTypes else old(registry)
    {
      var cfg := Normalize(doc);
      live := cfg;
      var compiled := NewSidecarRegistry(env.lang, env.defaults, cfg.sidecarTypes);
      if compiled.Ok? {
        registry := cfg.sidecarTypes;
      }
    }
  }

  function Called(env: Env, op: Op, stored: Config, live: Config, registry: seq<SidecarEntry>, readOk: bool, writeOk: bool)
    : (Config, Config, seq<SidecarEntry>, bool)
  {
    var outcome := Applied(env, op, Normalize(stored));
    if !readOk || outcome.Err? || !writeOk then (stored, live, registry, false)
    else
      var doc := outcome.value;
      (doc, Normalize(doc), if Accepted(env, doc.sidecarTypes) then doc.sidecarTypes else registry, true)
  }

  function Steps(env: Env, op: Op, stored: Config, t: nat, readOk: bool, writeOk: bool): seq<Event> {
    if !readOk then [Acquire(t), Read(t, false), Release(t)]
    else if Applied(env, op, Normalize(stored)).Err? then [Acquire(t), Read(t, true), Apply(t), Release(t)]
    else if !writeOk then [Acquire(t), Read(t, true), Apply(t), Write(t, false), Release(t)]
    else [Acquire(t), Read(t, true), Apply(t), Write(t, true), Propagate(t), Release(t)]
  }

  lemma Extended(env: Env, s: State, events: seq<Event>, e: Event)
    requires After(env, s, events).Some?
    ensures After(env, s, events + [e]) == Next(env, After(env, s, events).value, e)
  {
    assert (events + [e])[..|events|] == events;
  }

  lemma NormalizeKeepsTheTable(cfg: Config)
    ensures Normalize(cfg).sidecarTypes == cfg.sidecarTypes
  {
  }

  /** The steps a call takes by itself do what MutateSync does. */
  lemma UninterruptedCall(env: Env, s: State, t: nat, readOk: bool, writeOk: bool)
    requires s.holder.None? && t < |s.calls| && s.calls[t].stage.Waiting?
    ensures var op := s.calls[t].op;
            var end := After(env, s, Steps(env, op, s.stored, t, readOk, writeOk));
            && end.Some? && end.value.holder.None? && end.value.calls[t].stage.Done?
            && (end.value.stored, end.value.live, end.value.registry, end.value.calls[t].stage.ok) ==
               Called(env, op, s.stored, s.live, s.registry, readOk, writeOk)
  {
    hide Applied, Normalize, Accepted;
    var outcome := Applied(env, s.calls[t].op, Normalize(s.stored));
    var locked, started := [Acquire(t)], [Acquire(t), Read(t, readOk)];
    assert After(env, s, locked[..0]) == Some(s);
    Extended(env, s, locked, Read(t, readOk));
    assert locked + [Read(t, readOk)] == started;
    if !readOk {
      Extended(env, s, started, Release(t));
      assert started + [Release(t)] == [Acquire(t), Read(t, false), Release(t)];
    } else {
      Extended(env, s, started, Apply(t));
      var applied := started + [Apply(t)];
      if outcome.Err? {
        Extended(env, s, applied, Release(t));
        assert applied + [Release(t)] == [Acquire(t), Read(t, true), Apply(t), Release(t)];
      } else {
        Extended(env, s, applied, Write(t, writeOk));
        var written := applied + [Write(t, writeOk)];
        if !writeOk {
          Extended(env, s, written, Release(t));
          assert written + [Release(t)] == [Acquire(t), Read(t, true), Apply(t), Write(t, false), Release(t)];
        } else {
          NormalizeKeepsTheTable(outcome.value);
          Extended(env, s, written, Propagate(t));
          Extended(env, s, written + [Propagate(t)], Release(t));
          assert written + [Propagate(t)] + [Release(t)] ==
            [Acquire(t), Read(t, true), Apply(t), Write(t, true), Propagate(t), Release(t)];
        }
      }
    }
  }
}
