/** Using a correlation id that is not free: exactly when, and by which steps, a
    call can then be handed another call's reply. */
module ReplyHazard {
  import opened Options
  import opened RequestReply

  // ---------------------------------------------------------------------
  // What holds however ids are used
  // ---------------------------------------------------------------------

  predicate ActiveAt(x: State, v: int) {
    0 <= v < |x.callers| && Active(x.callers[v].stage)
  }

  function BoxOf(x: State, v: int): seq<Message>
    requires ActiveAt(x, v)
  {
    Box(x.broker, x.callers[v].stage.sub)
  }

  /** Every active caller has a subscription of its own on its reply channel. */
  ghost predicate OwnSubs(x: State) {
    && (forall v :: ActiveAt(x, v) ==>
          HasSub(x.broker, ReplyChannel(x.callers[v].correlationId), x.callers[v].stage.sub))
    && (forall v, w :: ActiveAt(x, v) && ActiveAt(x, w) && v != w ==> x.callers[v].stage.sub != x.callers[w].stage.sub)
  }

  predicate IsRequest(x: State, topic: string, m: Message) {
    && m.origin < |x.callers| && x.callers[m.origin].topic == topic
    && m == RequestOf(x.callers[m.origin], m.origin)
  }

  ghost predicate OwnRequests(x: State) {
    forall topic: string, m :: m in InFlight(x, topic) ==> IsRequest(x, topic, m)
  }

  ghost predicate Sound(x: State) {
    Wiring(x) && OwnSubs(x) && OwnRequests(x)
  }

  lemma SubIsApart(x: State, v: nat)
    requires Wiring(x) && OwnSubs(x) && ActiveAt(x, v)
    ensures var sub := x.callers[v].stage.sub;
            && sub in x.broker.boxes
            && (forall c: string :: HasSub(x.broker, c, sub) <==> c == ReplyChannel(x.callers[v].correlationId))
            && (forall topic :: topic in x.responders ==> x.responders[topic] != sub)
  {
    var sub := x.callers[v].stage.sub;
    assert HasSub(x.broker, ReplyChannel(x.callers[v].correlationId), sub);
    forall topic | topic in x.responders ensures x.responders[topic] != sub {
      assert IsWired(x, topic);
      assert HasSub(x.broker, topic, x.responders[topic]);
      assert IsReplyChannel(ReplyChannel(x.callers[v].correlationId));
    }
  }

  // A fan-out reaches an active caller only on its own reply channel.
  lemma FanReaches(x: State, channel: string, m: Message, v: nat)
    requires Wiring(x) && OwnSubs(x) && ActiveAt(x, v)
    ensures Box(Fanned(x.broker, channel, m), x.callers[v].stage.sub) ==
      if channel == ReplyChannel(x.callers[v].correlationId) then Delivered(BoxOf(x, v), m) else BoxOf(x, v)
  {
    SubIsApart(x, v);
    FanLeavesSubs(x.broker, channel, m);
    assert HasSub(x.broker, channel, x.callers[v].stage.sub) <==> x.callers[v].stage.sub in SubsOf(x.broker, channel);
  }

  // A fan-out reaches a responder only on its own topic.
  lemma FanQueues(x: State, channel: string, m: Message, topic: string)
    requires Wiring(x) && topic in x.responders
    ensures Box(Fanned(x.broker, channel, m), x.responders[topic]) ==
      if channel == topic then Delivered(Queue(x, topic), m) else Queue(x, topic)
  {
    assert IsWired(x, topic);
    assert HasSub(x.broker, topic, x.responders[topic]);
    FanLeavesSubs(x.broker, channel, m);
    assert HasSub(x.broker, channel, x.responders[topic]) <==> x.responders[topic] in SubsOf(x.broker, channel);
  }

  // ---------------------------------------------------------------------
  // What each step does to boxes and queues
  // ---------------------------------------------------------------------

  lemma TakeEffect(env: Env, x: State, topic: string, x': State)
    requires Sound(x) && ResponderStep(env, x, Take(topic)) == Some(x')
    ensures Sound(x') && x'.callers == x.callers && topic in x'.busy
    ensures forall other: string :: InFlight(x', other) == InFlight(x, other)
    ensures forall v :: ActiveAt(x, v) ==> BoxOf(x', v) == BoxOf(x, v)
  {
    assert IsWired(x, topic) && HasSub(x.broker, topic, x.responders[topic]);
    forall other: string ensures InFlight(x', other) == InFlight(x, other) {
      if other in x.responders && other != topic {
        assert IsWired(x, other) && HasSub(x.broker, other, x.responders[other]);
      }
    }
    forall v | ActiveAt(x, v) ensures BoxOf(x', v) == BoxOf(x, v) {
      SubIsApart(x, v);
    }
    WiringStays(x, x');
  }

  /** A caller's box once a responder has answered one request. */
  function BoxAnswered(x: State, v: int, m: Message, reply: Option<Message>): seq<Message>
    requires ActiveAt(x, v)
  {
    if reply.Some? && x.callers[v].correlationId == m.correlationId then Delivered(BoxOf(x, v), reply.value)
    else BoxOf(x, v)
  }

  function QueueAnswered(x: State, topic: string, other: string): seq<Message>
    requires topic in x.busy
  {
    if other == topic then InFlight(x, other)[1..] else InFlight(x, other)
  }

  lemma AnswerEffect(env: Env, x: State, topic: string, x': State)
    requires Sound(x) && topic in x.busy && ResponderStep(env, x, Answer(topic)) == Some(x')
    ensures x'.callers == x.callers && x'.responders == x.responders && x'.busy == x.busy - {topic}
    ensures InFlight(x, topic) != [] && InFlight(x, topic)[0] == x.busy[topic]
    ensures forall other: string :: InFlight(x', other) == QueueAnswered(x, topic, other)
    ensures forall v :: ActiveAt(x, v) ==> BoxOf(x', v) == BoxAnswered(x, v, x.busy[topic], ReplyTo(env, topic, x.busy[topic]))
  {
    var m := x.busy[topic];
    var channel, reply := ReplyChannel(m.correlationId), ReplyTo(env, topic, m);
    hide ReplyTo, Fanned;
    forall v | ActiveAt(x, v) ensures BoxOf(x', v) == BoxAnswered(x, v, m, reply) {
      ReplyChannelsAreScoped(m.correlationId, x.callers[v].correlationId);
      if reply.Some? {
        FanReaches(x, channel, reply.value, v);
      }
    }
    forall other: string ensures InFlight(x', other) == QueueAnswered(x, topic, other) {
      if other in x.responders {
        assert IsWired(x, other) && IsReplyChannel(channel);
        if reply.Some? {
          FanQueues(x, channel, reply.value, other);
        }
      }
    }
  }

  lemma AnswerKeepsSound(env: Env, x: State, topic: string, x': State)
    requires Sound(x) && topic in x.busy && ResponderStep(env, x, Answer(topic)) == Some(x')
    ensures Sound(x')
  {
    AnswerEffect(env, x, topic, x');
    var m := x.busy[topic];
    var reply := ReplyTo(env, topic, m);
    if reply.Some? {
      FanLeavesSubs(x.broker, ReplyChannel(m.correlationId), reply.value);
    }
    hide ReplyTo, Fanned, InFlight;
    WiringStays(x, x');
    hide Wiring;
    forall v | ActiveAt(x', v)
      ensures HasSub(x'.broker, ReplyChannel(x'.callers[v].correlationId), x'.callers[v].stage.sub) {
      assert ActiveAt(x, v);
    }
    forall other: string, n | n in InFlight(x', other) ensures IsRequest(x', other, n) {
      assert IsRequest(x, other, n);
    }
  }

  function QueueSent(x: State, w: nat, topic: string): seq<Message>
    requires w < |x.callers|
  {
    var c := x.callers[w];
    if topic == c.topic && topic in x.responders && |Queue(x, topic)| < CAPACITY then InFlight(x, topic) + [RequestOf(c, w)]
    else InFlight(x, topic)
  }

  lemma SendEffect(env: Env, x: State, w: nat, x': State)
    requires Sound(x) && w < |x.callers| && CallerStep(x, Send(w)) == Some(x')
    ensures x.callers[w].stage.Listening? && x'.responders == x.responders && x'.busy == x.busy
    ensures x'.callers == x.callers[w := x.callers[w].(stage := Waiting(x.callers[w].stage.sub))]
    ensures forall topic: string :: InFlight(x', topic) == QueueSent(x, w, topic)
    ensures forall v :: ActiveAt(x, v) ==> ActiveAt(x', v) && BoxOf(x', v) == BoxOf(x, v)
  {
    var c := x.callers[w];
    var m := RequestOf(c, w);
    hide Fanned, RequestOf, OwnRequests;
    assert !IsReplyChannel(c.topic);
    forall v | ActiveAt(x, v) ensures ActiveAt(x', v) && BoxOf(x', v) == BoxOf(x, v) {
      FanReaches(x, c.topic, m, v);
      assert IsReplyChannel(ReplyChannel(x.callers[v].correlationId));
    }
    forall topic: string ensures InFlight(x', topic) == QueueSent(x, w, topic) {
      if topic in x.responders {
        FanQueues(x, c.topic, m, topic);
      }
    }
  }

  lemma SendKeepsSound(env: Env, x: State, w: nat, x': State)
    requires Sound(x) && w < |x.callers| && CallerStep(x, Send(w)) == Some(x')
    ensures Sound(x')
  {
    SendEffect(env, x, w, x');
    FanLeavesSubs(x.broker, x.callers[w].topic, RequestOf(x.callers[w], w));
    hide Fanned, InFlight;
    assert SameCalls(x, x');
    WiringStays(x, x');
    hide Wiring;
    forall v | ActiveAt(x', v)
      ensures ActiveAt(x, v) && x'.callers[v].stage.sub == x.callers[v].stage.sub
      ensures HasSub(x'.broker, ReplyChannel(x'.callers[v].correlationId), x'.callers[v].stage.sub) {
      assert x'.callers[v].correlationId == x.callers[v].correlationId;
    }
    forall topic: string, m | m in InFlight(x', topic) ensures IsRequest(x', topic, m) {
      assert m in InFlight(x, topic) ==> IsRequest(x, topic, m);
    }
  }

  lemma LeaveEffect(env: Env, x: State, w: nat, x': State)
    requires Sound(x) && w < |x.callers| && (CallerStep(x, Receive(w)) == Some(x') || CallerStep(x, Expire(w)) == Some(x'))
    ensures ActiveAt(x, w) && |x'.callers| == |x.callers| && !Active(x'.callers[w].stage)
    ensures x'.responders == x.responders && x'.busy == x.busy && SameCalls(x, x')
    ensures x'.callers[w].stage == GaveUp || (BoxOf(x, w) != [] && x'.callers[w].stage == Answered(BoxOf(x, w)[0]))
    ensures forall topic: string :: InFlight(x', topic) == InFlight(x, topic)
    ensures forall v :: 0 <= v < |x.callers| && v != w ==> x'.callers[v] == x.callers[v]
    ensures forall v :: ActiveAt(x, v) && v != w ==> BoxOf(x', v) == BoxOf(x, v)
    ensures x'.broker == Shut(x.broker, ReplyChannel(x.callers[w].correlationId), x.callers[w].stage.sub)
  {
    SubIsApart(x, w);
    assert forall topic: string :: InFlight(x', topic) == InFlight(x, topic);
  }

  lemma LeaveKeepsSound(env: Env, x: State, w: nat, x': State)
    requires Sound(x) && w < |x.callers| && (CallerStep(x, Receive(w)) == Some(x') || CallerStep(x, Expire(w)) == Some(x'))
    ensures Sound(x')
  {
    LeaveEffect(env, x, w, x');
    SubIsApart(x, w);
    hide CallerStep, InFlight;
    var channel, sub := ReplyChannel(x.callers[w].correlationId), x.callers[w].stage.sub;
    forall topic | topic in x.responders ensures topic != channel {
      assert IsWired(x, topic) && IsReplyChannel(channel);
    }
    WiringStays(x, x');
    forall v | ActiveAt(x', v)
      ensures ActiveAt(x, v) && v != w && x'.callers[v] == x.callers[v]
      ensures HasSub(x'.broker, ReplyChannel(x'.callers[v].correlationId), x'.callers[v].stage.sub) {
      assert v != w;
      assert HasSub(x.broker, ReplyChannel(x.callers[v].correlationId), x.callers[v].stage.sub);
      assert x.callers[v].stage.sub in SubsOf(x.broker, ReplyChannel(x.callers[v].correlationId)) - {sub};
    }
    forall topic: string, m | m in InFlight(x', topic) ensures IsRequest(x', topic, m) {
      assert IsRequest(x, topic, m);
    }
  }

  // ---------------------------------------------------------------------
  // Exposure: an empty box that somebody else's reply can still reach
  // ---------------------------------------------------------------------

  predicate Answerable(env: Env, topic: string, m: Message) {
    ReplyTo(env, topic, m).Some?
  }

  /** Another call's request under the caller's id is in flight. */
  ghost predicate Pending(env: Env, x: State, v: int)
    requires ActiveAt(x, v)
  {
    exists topic: string, m :: m in InFlight(x, topic) && m.origin != v &&
      m.correlationId == x.callers[v].correlationId && Answerable(env, topic, m)
  }

  predicate WillAsk(env: Env, x: State, w: int) {
    && ActiveAt(x, w) && x.callers[w].stage.Listening? && x.callers[w].topic in x.responders
    && Answerable(env, x.callers[w].topic, RequestOf(x.callers[w], w))
  }

  /** Another call under the caller's id has yet to send its request. */
  ghost predicate Coming(env: Env, x: State, v: int)
    requires ActiveAt(x, v)
  {
    exists w :: WillAsk(env, x, w) && w != v && x.callers[w].correlationId == x.callers[v].correlationId
  }

  ghost predicate ExposedAt(env: Env, x: State, v: int) {
    ActiveAt(x, v) && BoxOf(x, v) == [] && (Pending(env, x, v) || Coming(env, x, v))
  }

  ghost predicate Exposed(env: Env, x: State) {
    exists v :: ExposedAt(env, x, v)
  }

  /** What every caller reads next, and every answer given, is its own. */
  ghost predicate OwnMail(x: State) {
    && (forall v :: ActiveAt(x, v) && BoxOf(x, v) != [] ==> BoxOf(x, v)[0].origin == v)
    && (forall v :: 0 <= v < |x.callers| && x.callers[v].stage.Answered? ==> x.callers[v].stage.reply.origin == v)
  }

  ghost predicate Calm(env: Env, x: State) {
    Sound(x) && OwnMail(x) && !Exposed(env, x)
  }

  lemma TakeStaysCalm(env: Env, x: State, topic: string, x': State)
    requires Calm(env, x) && ResponderStep(env, x, Take(topic)) == Some(x')
    ensures Calm(env, x')
  {
    TakeEffect(env, x, topic, x');
    assert x'.responders == x.responders;
    hide Sound, ResponderStep, InFlight, Box, Answerable;
    forall v | ExposedAt(env, x', v) ensures ExposedAt(env, x, v) {
      if !Pending(env, x', v) {
        var w :| WillAsk(env, x', w) && w != v && x'.callers[w].correlationId == x'.callers[v].correlationId;
        assert WillAsk(env, x, w);
      }
    }
  }

  // Another call's request about to be answered is exposure.
  lemma AnotherExposes(env: Env, x: State, topic: string, v: int)
    requires topic in x.busy && ActiveAt(x, v) && BoxOf(x, v) == [] && x.busy[topic].origin != v
    requires x.busy[topic].correlationId == x.callers[v].correlationId && Answerable(env, topic, x.busy[topic])
    ensures ExposedAt(env, x, v)
  {
    assert InFlight(x, topic)[0] == x.busy[topic] && x.busy[topic] in InFlight(x, topic);
  }

  // The reply goes to an empty box only if it is that caller's own.
  lemma AnswerIsOwn(env: Env, x: State, topic: string, v: int)
    requires Calm(env, x) && topic in x.busy && ActiveAt(x, v) && BoxOf(x, v) == []
    requires x.busy[topic].correlationId == x.callers[v].correlationId && Answerable(env, topic, x.busy[topic])
    ensures ReplyTo(env, topic, x.busy[topic]).value.origin == v
  {
    hide InFlight, Sound;
    if x.busy[topic].origin != v {
      AnotherExposes(env, x, topic, v);
    }
  }

  lemma AnswerStaysCalm(env: Env, x: State, topic: string, x': State)
    requires Calm(env, x) && topic in x.busy && ResponderStep(env, x, Answer(topic)) == Some(x')
    ensures Calm(env, x')
  {
    AnswerEffect(env, x, topic, x');
    AnswerKeepsSound(env, x, topic, x');
    var m := x.busy[topic];
    hide Sound, ResponderStep, InFlight, Box, ReplyTo;
    forall v | ActiveAt(x', v) && BoxOf(x', v) != [] ensures BoxOf(x', v)[0].origin == v {
      assert ActiveAt(x, v);
      if BoxOf(x, v) == [] {
        AnswerIsOwn(env, x, topic, v);
      }
    }
    forall v | ExposedAt(env, x', v) ensures ExposedAt(env, x, v) {
      assert ActiveAt(x, v) && BoxOf(x, v) == [];
      if Pending(env, x', v) {
        var other: string, n :| n in InFlight(x', other) && n.origin != v &&
          n.correlationId == x'.callers[v].correlationId && Answerable(env, other, n);
        assert n in InFlight(x, other);
      } else {
        var w :| WillAsk(env, x', w) && w != v && x'.callers[w].correlationId == x'.callers[v].correlationId;
        assert WillAsk(env, x, w);
      }
    }
  }

  lemma SendStaysCalm(env: Env, x: State, w: nat, x': State)
    requires Calm(env, x) && w < |x.callers| && CallerStep(x, Send(w)) == Some(x')
    ensures Calm(env, x')
  {
    SendEffect(env, x, w, x');
    SendKeepsSound(env, x, w, x');
    var c := x.callers[w];
    hide Sound, CallerStep, InFlight, Box, Answerable;
    forall v | ActiveAt(x', v) ensures ActiveAt(x, v) && x'.callers[v].correlationId == x.callers[v].correlationId {
    }
    forall v | ExposedAt(env, x', v) ensures ExposedAt(env, x, v) {
      if Pending(env, x', v) {
        var topic: string, m :| m in InFlight(x', topic) && m.origin != v &&
          m.correlationId == x'.callers[v].correlationId && Answerable(env, topic, m);
        if m !in InFlight(x, topic) {
          assert m == RequestOf(c, w) && WillAsk(env, x, w);
        }
      } else {
        var u :| WillAsk(env, x', u) && u != v && x'.callers[u].correlationId == x'.callers[v].correlationId;
        assert WillAsk(env, x, u);
      }
    }
  }

  lemma LeaveStaysCalm(env: Env, x: State, w: nat, x': State)
    requires Calm(env, x) && w < |x.callers| && (CallerStep(x, Receive(w)) == Some(x') || CallerStep(x, Expire(w)) == Some(x'))
    ensures Calm(env, x')
  {
    LeaveEffect(env, x, w, x');
    LeaveKeepsSound(env, x, w, x');
    hide Sound, CallerStep, InFlight, Box, Answerable, Shut, SameCalls;
    forall v | ActiveAt(x', v) ensures ActiveAt(x, v) && v != w {
    }
    forall v | ExposedAt(env, x', v) ensures ExposedAt(env, x, v) {
      if !Pending(env, x', v) {
        var u :| WillAsk(env, x', u) && u != v && x'.callers[u].correlationId == x'.callers[v].correlationId;
        assert WillAsk(env, x, u);
      }
    }
  }

  /** No step but a subscription brings exposure about. */
  lemma QuietStaysCalm(env: Env, x: State, e: Event, x': State)
    requires Calm(env, x) && !e.Subscribe? && Next(env, x, e) == Some(x')
    ensures Calm(env, x')
  {
    hide Calm;
    match e {
      case Send(t) => SendStaysCalm(env, x, t, x');
      case Receive(t) => LeaveStaysCalm(env, x, t, x');
      case Expire(t) => LeaveStaysCalm(env, x, t, x');
      case Take(topic) => TakeStaysCalm(env, x, topic, x');
      case Answer(topic) => AnswerStaysCalm(env, x, topic, x');
    }
  }

  predicate Quiet(events: seq<Event>) {
    forall i :: 0 <= i < |events| ==> !events[i].Subscribe?
  }

  lemma {:induction false} CalmAlways(env: Env, x: State, events: seq<Event>)
    requires Calm(env, x) && Quiet(events) && After(env, x, events).Some?
    ensures Calm(env, After(env, x, events).value)
    decreases |events|
  {
    hide Calm, Next;
    if events != [] {
      var init := events[..|events| - 1];
      CalmAlways(env, x, init);
      QuietStaysCalm(env, After(env, x, init).value, events[|events| - 1], After(env, x, events).value);
    }
  }

  // ---------------------------------------------------------------------
  // From exposure to a wrong reply
  // ---------------------------------------------------------------------

  ghost predicate Leads(env: Env, x: State, y: State) {
    exists events :: Quiet(events) && After(env, x, events) == Some(y)
  }

  lemma LeadsHere(env: Env, x: State)
    ensures Leads(env, x, x)
  {
    assert Quiet([]) && After(env, x, []) == Some(x);
  }

  lemma LeadsOn(env: Env, x: State, y: State, e: Event, z: State)
    requires Leads(env, x, y) && !e.Subscribe? && Next(env, y, e) == Some(z)
    ensures Leads(env, x, z)
  {
    hide Next;
    var events :| Quiet(events) && After(env, x, events) == Some(y);
    assert (events + [e])[..|events|] == events;
    assert Quiet(events + [e]) && After(env, x, events + [e]) == Some(z);
  }

  /** Somebody else's reply is the next thing the caller reads. */
  predicate Misled(x: State, v: int) {
    ActiveAt(x, v) && BoxOf(x, v) != [] && BoxOf(x, v)[0].origin != v
  }

  /** The caller's own requests on a topic, if any are in flight, get no reply. */
  ghost predicate Unanswered(env: Env, x: State, topic: string, v: int) {
    forall m :: m in InFlight(x, topic) && m.origin == v ==> !Answerable(env, topic, m)
  }

  lemma NextAnswer(env: Env, x: State, topic: string) returns (y: State)
    requires Sound(x) && InFlight(x, topic) != []
    ensures Leads(env, x, y) && Sound(y) && y.callers == x.callers && y.responders == x.responders
    ensures InFlight(y, topic) == InFlight(x, topic)[1..]
    ensures forall v :: ActiveAt(x, v) ==>
      BoxOf(y, v) == BoxAnswered(x, v, InFlight(x, topic)[0], ReplyTo(env, topic, InFlight(x, topic)[0]))
  {
    var mid := x;
    LeadsHere(env, x);
    if topic !in x.busy {
      mid := ResponderStep(env, x, Take(topic)).value;
      TakeEffect(env, x, topic, mid);
      LeadsOn(env, x, x, Take(topic), mid);
    }
    y := ResponderStep(env, mid, Answer(topic)).value;
    hide InFlight, Sound, Box, ReplyTo;
    AnswerEffect(env, mid, topic, y);
    AnswerKeepsSound(env, mid, topic, y);
    LeadsOn(env, x, mid, Answer(topic), y);
  }

  /** Working off one topic's queue either misleads the caller or empties it. */
  lemma {:induction false} Drain(env: Env, x: State, from: State, topic: string, v: int) returns (y: State)
    requires Leads(env, from, x)
    requires Sound(x) && ActiveAt(x, v) && BoxOf(x, v) == [] && Unanswered(env, x, topic, v)
    ensures Leads(env, from, y) && Sound(y) && y.callers == x.callers && y.responders == x.responders
    ensures Misled(y, v) ||
      (BoxOf(y, v) == [] && InFlight(y, topic) == [] &&
       forall m :: m in InFlight(x, topic) && m.correlationId == x.callers[v].correlationId ==> !Answerable(env, topic, m))
    decreases |InFlight(x, topic)|
  {
    y := x;
    if InFlight(x, topic) != [] {
      y := NextAnswer(env, x, topic);
      LeadsThrough(env, from, x, y);
      hide Sound, InFlight, Box;
      var m := InFlight(x, topic)[0];
      if BoxOf(y, v) == [] {
        y := Drain(env, y, from, topic, v);
        forall n | n in InFlight(x, topic) && n != m ensures n in InFlight(x, topic)[1..] {
        }
      } else {
        assert m in InFlight(x, topic);
      }
    }
  }

  lemma LeadsThrough(env: Env, x: State, y: State, z: State)
    requires Leads(env, x, y) && Leads(env, y, z)
    ensures Leads(env, x, z)
  {
    var a :| Quiet(a) && After(env, x, a) == Some(y);
    var b :| Quiet(b) && After(env, y, b) == Some(z);
    AfterConcat(env, x, a, b);
    assert Quiet(a + b);
  }

  lemma {:induction false} AfterConcat(env: Env, x: State, a: seq<Event>, b: seq<Event>)
    requires After(env, x, a).Some?
    ensures After(env, x, a + b) == After(env, After(env, x, a).value, b)
    decreases |b|
  {
    hide Next;
    if b == [] {
      assert a + b == a;
    } else {
      AfterConcat(env, x, a, b[..|b| - 1]);
      assert (a + b)[..|a + b| - 1] == a + b[..|b| - 1];
    }
  }

  predicate Wronged(y: State, v: int) {
    0 <= v < |y.callers| && y.callers[v].stage.Answered? && y.callers[v].stage.reply.origin != v
  }

  ghost predicate Harmful(env: Env, x: State) {
    exists y, v :: Leads(env, x, y) && Wronged(y, v)
  }

  lemma MisledIsWronged(env: Env, from: State, x: State, v: nat)
    requires Leads(env, from, x) && Sound(x) && Misled(x, v)
    ensures Harmful(env, from)
  {
    var mid := x;
    if x.callers[v].stage.Listening? {
      mid := CallerStep(x, Send(v)).value;
      SendEffect(env, x, v, mid);
      LeadsOn(env, from, x, Send(v), mid);
    }
    var y := CallerStep(mid, Receive(v)).value;
    LeadsOn(env, from, mid, Receive(v), y);
    assert Wronged(y, v);
  }

  lemma PendingIsHarmful(env: Env, x: State, v: nat)
    requires Sound(x) && ActiveAt(x, v) && BoxOf(x, v) == [] && Pending(env, x, v)
    requires forall topic: string :: Unanswered(env, x, topic, v)
    ensures Harmful(env, x)
  {
    hide Sound, InFlight, Box;
    var topic: string, m :| m in InFlight(x, topic) && m.origin != v &&
      m.correlationId == x.callers[v].correlationId && Answerable(env, topic, m);
    LeadsHere(env, x);
    var y := Drain(env, x, x, topic, v);
    MisledIsWronged(env, x, y, v);
  }

  lemma ComingIsHarmful(env: Env, x: State, v: nat, w: nat)
    requires Sound(x) && ActiveAt(x, v) && BoxOf(x, v) == [] && WillAsk(env, x, w) && w != v
    requires x.callers[w].correlationId == x.callers[v].correlationId
    requires Unanswered(env, x, x.callers[w].topic, v)
    ensures Harmful(env, x)
  {
    var topic := x.callers[w].topic;
    LeadsHere(env, x);
    var y := Drain(env, x, x, topic, v);
    if !Misled(y, v) {
      var sent := CallerStep(y, Send(w)).value;
      assert |Queue(y, topic)| == 0 by {
        assert |Queue(y, topic)| <= |InFlight(y, topic)|;
      }
      hide Sound, InFlight, Box, Queue;
      SendEffect(env, y, w, sent);
      SendKeepsSound(env, y, w, sent);
      LeadsOn(env, x, y, Send(w), sent);
      var asked := RequestOf(y.callers[w], w);
      assert InFlight(sent, topic) == [asked];
      assert asked in InFlight(sent, topic);
      y := Drain(env, sent, x, topic, v);
    }
    MisledIsWronged(env, x, y, v);
  }

  // ---------------------------------------------------------------------
  // The one subscription that matters
  // ---------------------------------------------------------------------

  /** A call subscribes, in a state reached with free ids; its own id may be any. */
  ghost predicate Subscribing(env: Env, s: State, t: nat, s': State) {
    Inv(env, s) && t < |s.callers| && CallerStep(s, Subscribe(t)) == Some(s')
  }

  lemma SubscribeEffect(env: Env, s: State, t: nat, s': State)
    requires Subscribing(env, s, t, s')
    ensures SameCalls(s, s') && s'.responders == s.responders && s'.busy == s.busy
    ensures s.callers[t].stage.Idle? && s'.callers[t].stage.Listening? && BoxOf(s', t) == []
    ensures forall v :: 0 <= v < |s.callers| && v != t ==> s'.callers[v] == s.callers[v]
    ensures forall v :: ActiveAt(s, v) ==> ActiveAt(s', v) && v != t && BoxOf(s', v) == BoxOf(s, v)
    ensures forall topic: string :: InFlight(s', topic) == InFlight(s, topic)
  {
    hide Requests, Mail, RequestOf;
    forall topic: string ensures InFlight(s', topic) == InFlight(s, topic) {
      if topic in s.responders {
        assert IsWired(s, topic) && HasSub(s.broker, topic, s.responders[topic]);
      }
    }
    forall v | ActiveAt(s, v) ensures ActiveAt(s', v) && v != t && BoxOf(s', v) == BoxOf(s, v) {
      SubsAreApart(s, v);
    }
  }

  lemma InvIsSound(env: Env, s: State)
    requires Inv(env, s)
    ensures Sound(s) && OwnMail(s)
  {
    forall v | ActiveAt(s, v)
      ensures HasSub(s.broker, ReplyChannel(s.callers[v].correlationId), s.callers[v].stage.sub)
      ensures forall w :: ActiveAt(s, w) && w != v ==> s.callers[w].stage.sub != s.callers[v].stage.sub {
      SubsAreApart(s, v);
    }
    hide Wiring, Scoped;
    forall topic: string, m | m in InFlight(s, topic) ensures IsRequest(s, topic, m) {
      assert Genuine(s, topic, m);
    }
    forall v | 0 <= v < |s.callers|
      ensures ActiveAt(s, v) && BoxOf(s, v) != [] ==> BoxOf(s, v)[0].origin == v
      ensures s.callers[v].stage.Answered? ==> s.callers[v].stage.reply.origin == v {
      assert Mail(env, s, v);
    }
  }

  lemma SubscribingWires(env: Env, s: State, t: nat, s': State)
    requires Subscribing(env, s, t, s')
    ensures Wiring(s')
    ensures forall c: string, i :: HasSub(s'.broker, c, i) <==>
      (c == ReplyChannel(s.callers[t].correlationId) && i == s.broker.next) || HasSub(s.broker, c, i)
  {
    hide Requests, Mail, Scoped;
    var channel := ReplyChannel(s.callers[t].correlationId);
    assert forall c: string, i :: HasSub(s'.broker, c, i) <==> (c == channel && i == s.broker.next) || HasSub(s.broker, c, i);
    forall topic | topic in s'.responders ensures IsWired(s', topic) {
      assert IsWired(s, topic) && IsReplyChannel(channel);
    }
  }

  lemma SubscribingOwnsSubs(env: Env, s: State, t: nat, s': State)
    requires Subscribing(env, s, t, s')
    ensures OwnSubs(s')
  {
    InvIsSound(env, s);
    SubscribingWires(env, s, t, s');
    hide Requests, Mail, Scoped, OwnRequests, OwnMail, HasSub;
    forall v | ActiveAt(s', v)
      ensures HasSub(s'.broker, ReplyChannel(s'.callers[v].correlationId), s'.callers[v].stage.sub)
      ensures v != t ==> ActiveAt(s, v) && s'.callers[v] == s.callers[v] && s'.callers[v].stage.sub < s.broker.next {
      if v != t {
        assert ActiveAt(s, v) && HasSub(s.broker, ReplyChannel(s.callers[v].correlationId), s.callers[v].stage.sub);
      }
    }
  }

  lemma SubscribingIsSound(env: Env, s: State, t: nat, s': State)
    requires Subscribing(env, s, t, s')
    ensures Sound(s') && OwnMail(s')
    ensures forall topic: string :: Unanswered(env, s', topic, t)
  {
    SubscribingWires(env, s, t, s');
    SubscribingOwnsSubs(env, s, t, s');
    SubscribeEffect(env, s, t, s');
    InvIsSound(env, s);
    hide Wiring, OwnSubs, Scoped, Mail, CallerStep, InFlight, Box;
    forall topic: string, m | m in InFlight(s', topic) ensures IsRequest(s', topic, m) && m.origin != t {
      assert Genuine(s, topic, m) && IsRequest(s, topic, m);
    }
    forall v | ActiveAt(s', v) && BoxOf(s', v) != [] ensures BoxOf(s', v)[0].origin == v {
      assert ActiveAt(s, v);
    }
  }

  /** What makes an id dangerous to subscribe under: a request already bearing it
      that will be answered; another call under it that has yet to ask something a
      responder answers; or another call under it with nothing to read yet, when
      this one's own request will be answered. */
  ghost predicate Hazard(env: Env, s: State, t: nat)
    requires t < |s.callers|
  {
    var c := s.callers[t];
    || (exists topic: string, m :: m in InFlight(s, topic) && m.correlationId == c.correlationId && Answerable(env, topic, m))
    || (exists u :: WillAsk(env, s, u) && s.callers[u].correlationId == c.correlationId)
    || (c.topic in s.responders && Answerable(env, c.topic, RequestOf(c, t)) &&
        exists u :: ActiveAt(s, u) && s.callers[u].correlationId == c.correlationId && BoxOf(s, u) == [])
  }

  lemma FreeIsNoHazard(env: Env, s: State, t: nat)
    requires t < |s.callers| && IdIsFree(s, t)
    ensures !Hazard(env, s, t)
  {
  }

  // What is in flight under an earlier caller's id is that caller's own.
  lemma OnlyItsOwnIsPending(env: Env, s: State, t: nat, s': State, v: int)
    requires Subscribing(env, s, t, s') && ActiveAt(s', v) && v != t
    ensures ActiveAt(s, v) && !Pending(env, s', v)
  {
    SubscribeEffect(env, s, t, s');
    hide Wiring, Mail, CallerStep, InFlight, Box, Answerable;
    forall topic: string, m | m in InFlight(s', topic) && m.correlationId == s.callers[v].correlationId
      ensures m.origin == v {
      assert Genuine(s, topic, m) && Uses(s.callers[v], m.correlationId);
    }
  }

  lemma ExposureIsHazard(env: Env, s: State, t: nat, s': State)
    requires Subscribing(env, s, t, s') && Exposed(env, s')
    ensures Hazard(env, s, t)
  {
    SubscribeEffect(env, s, t, s');
    hide Wiring, Mail, CallerStep, InFlight, Box, Answerable;
    var v :| ExposedAt(env, s', v);
    if v != t {
      OnlyItsOwnIsPending(env, s, t, s', v);
    }
    if Pending(env, s', v) {
      var topic: string, m :| m in InFlight(s', topic) && m.origin != v &&
        m.correlationId == s'.callers[v].correlationId && Answerable(env, topic, m);
      assert m in InFlight(s, topic);
    } else {
      var w :| WillAsk(env, s', w) && w != v && s'.callers[w].correlationId == s'.callers[v].correlationId;
      if w != t {
        assert WillAsk(env, s, w);
      }
    }
  }

  lemma QueuedIsHarmful(env: Env, s: State, t: nat, s': State, topic: string, m: Message)
    requires Subscribing(env, s, t, s') && m in InFlight(s, topic)
    requires m.correlationId == s.callers[t].correlationId && Answerable(env, topic, m)
    ensures Harmful(env, s')
  {
    SubscribeEffect(env, s, t, s');
    SubscribingIsSound(env, s, t, s');
    hide Inv, Sound, OwnMail, CallerStep, InFlight, Box, Answerable;
    assert m in InFlight(s', topic) && Unanswered(env, s', topic, t);
    PendingIsHarmful(env, s', t);
  }

  lemma HazardIsHarmful(env: Env, s: State, t: nat, s': State)
    requires Subscribing(env, s, t, s') && Hazard(env, s, t)
    ensures Harmful(env, s')
  {
    SubscribeEffect(env, s, t, s');
    SubscribingIsSound(env, s, t, s');
    hide Inv, Sound, OwnMail, CallerStep, InFlight, Box, Answerable, ReplyTo;
    var c := s.callers[t];
    if topic: string, m :| m in InFlight(s, topic) && m.correlationId == c.correlationId && Answerable(env, topic, m) {
      QueuedIsHarmful(env, s, t, s', topic, m);
    } else if u :| WillAsk(env, s, u) && s.callers[u].correlationId == c.correlationId {
      assert WillAsk(env, s', u);
      ComingIsHarmful(env, s', t, u);
    } else {
      var u :| ActiveAt(s, u) && s.callers[u].correlationId == c.correlationId && BoxOf(s, u) == [];
      InFlightIsOwn(env, s, s', c.topic, u);
      assert WillAsk(env, s', t);
      ComingIsHarmful(env, s', u, t);
    }
  }

  // A caller's own requests bear its id.
  lemma InFlightIsOwn(env: Env, s: State, s': State, topic: string, u: int)
    requires Sound(s') && ActiveAt(s, u) && |s'.callers| == |s.callers| && s'.callers[u] == s.callers[u]
    requires InFlight(s', topic) == InFlight(s, topic)
    requires forall m :: m in InFlight(s, topic) && m.correlationId == s.callers[u].correlationId ==> !Answerable(env, topic, m)
    ensures Unanswered(env, s', topic, u)
  {
    hide Wiring, OwnSubs, InFlight, Answerable;
    forall m | m in InFlight(s', topic) && m.origin == u ensures !Answerable(env, topic, m) {
      assert IsRequest(s', topic, m);
    }
  }

  /** After some events a call holds another call's reply. */
  predicate WrongedAfter(env: Env, x: State, events: seq<Event>, v: int) {
    After(env, x, events).Some? && Wronged(After(env, x, events).value, v)
  }

  /** Subscribing under an id can end with some call being handed another call's
      reply exactly when the id is hazardous: then some steps, no other call
      subscribing, do it, and otherwise none do, however the steps interleave. */
  lemma WrongReplyIff(env: Env, s: State, t: nat, s': State)
    requires Inv(env, s) && t < |s.callers| && CallerStep(s, Subscribe(t)) == Some(s')
    ensures (exists events, v :: Quiet(events) && WrongedAfter(env, s', events, v)) <==> Hazard(env, s, t)
    ensures IdIsFree(s, t) ==> !Hazard(env, s, t)
  {
    hide Inv, CallerStep, IdIsFree, Hazard, Exposed, Sound, OwnMail;
    assert Subscribing(env, s, t, s');
    if IdIsFree(s, t) {
      FreeIsNoHazard(env, s, t);
    }
    SubscribingIsSound(env, s, t, s');
    if Hazard(env, s, t) {
      HazardIsHarmful(env, s, t, s');
      var y, v :| Leads(env, s', y) && Wronged(y, v);
      var events :| Quiet(events) && After(env, s', events) == Some(y);
      assert WrongedAfter(env, s', events, v);
    } else {
      assert !Exposed(env, s') by {
        if Exposed(env, s') {
          ExposureIsHazard(env, s, t, s');
        }
      }
      forall events, v | Quiet(events) && After(env, s', events).Some? ensures !WrongedAfter(env, s', events, v) {
        CalmAlways(env, s', events);
        CalmWrongsNobody(env, After(env, s', events).value, v);
      }
    }
  }

  lemma CalmWrongsNobody(env: Env, x: State, v: int)
    requires Calm(env, x)
    ensures !Wronged(x, v)
  {
  }

  /** Every topic has a responder and every request an answer. */
  ghost predicate AllServed(env: Env, s: State) {
    && (forall t :: 0 <= t < |s.callers| ==> s.callers[t].topic in s.responders)
    && (forall topic, name, payload :: env.handler(topic, name, payload).Some?)
  }

  /** Where everything is answered, an id that is not free is a hazard unless all
      that is left of it is a call whose own reply already waits to be read. */
  lemma ServedHazard(env: Env, s: State, t: nat)
    requires Inv(env, s) && t < |s.callers| && AllServed(env, s)
    ensures Hazard(env, s, t) <==>
      || (exists topic: string, m :: m in InFlight(s, topic) && m.correlationId == s.callers[t].correlationId)
      || (exists u :: ActiveAt(s, u) && s.callers[u].correlationId == s.callers[t].correlationId && BoxOf(s, u) == [])
    ensures !IdIsFree(s, t) && !Hazard(env, s, t) ==>
      exists u :: ActiveAt(s, u) && s.callers[u].correlationId == s.callers[t].correlationId && BoxOf(s, u) != []
  {
    hide Wiring, Scoped, Requests, InFlight, Box;
    forall u | WillAsk(env, s, u) ensures BoxOf(s, u) == [] {
      assert Mail(env, s, u);
    }
    if !IdIsFree(s, t) {
      if u :| 0 <= u < |s.callers| && Active(s.callers[u].stage) && s.callers[u].correlationId == s.callers[t].correlationId {
        assert ActiveAt(s, u);
      }
    }
  }

  // The first caller has been answered and has not read it yet.
  function Unread(): State {
    Midway(map["t" := {0}, ReplyChannel("x") := {1}], map[0 := [], 1 := [Message(0, "reply", "x", "first")]], 2,
           Waiting(1), Idle)
  }

  lemma AnsweredUnread()
    ensures Inv(ECHO, Unread())
  {
    hide Inv, Next, Started;
    var taken := Sent().(busy := map["t" := Asked()], broker := Broker(Sent().broker.subs, map[0 := [], 1 := []], 2));
    TakesAsked(taken);
    AnswersAsked(taken);
    NobodyHasCalled();
    StartHolds(ECHO, Before());
    FirstIsFree();
    FirstSubscribes();
    NextKeepsInv(ECHO, Before(), Subscribe(0));
    FirstSends();
    NextKeepsInv(ECHO, Subscribed(), Send(0));
    NextKeepsInv(ECHO, Sent(), Take("t"));
    NextKeepsInv(ECHO, taken, Answer("t"));
  }

  lemma FirstIsFree()
    ensures IdIsFree(Before(), 0)
  {
    assert forall topic: string :: InFlight(Before(), topic) == [];
  }

  lemma TakesAsked(taken: State)
    requires taken == Sent().(busy := map["t" := Asked()], broker := Broker(Sent().broker.subs, map[0 := [], 1 := []], 2))
    ensures Next(ECHO, Sent(), Take("t")) == Some(taken)
  {
    assert Queue(Sent(), "t") == [Asked()] && [Asked()][1..] == [];
    assert Sent().broker.boxes[0 := []] == taken.broker.boxes;
    assert Sent().busy["t" := Asked()] == taken.busy;
    assert ResponderStep(ECHO, Sent(), Take("t")).value.broker == taken.broker;
  }

  lemma AnswersAsked(taken: State)
    requires taken == Sent().(busy := map["t" := Asked()], broker := Broker(Sent().broker.subs, map[0 := [], 1 := []], 2))
    ensures Next(ECHO, taken, Answer("t")) == Some(Unread())
  {
    var reply := Message(0, "reply", "x", "first");
    assert ReplyTo(ECHO, "t", Asked()) == Some(reply);
    assert ReplyChannel("x")[0] == 'r';
    assert SubsOf(taken.broker, ReplyChannel("x")) == {1};
    assert Delivered([], reply) == [reply] && 0 !in SubsOf(taken.broker, ReplyChannel("x"));
    assert Fanned(taken.broker, ReplyChannel("x"), reply).boxes.Keys == {0, 1};
    assert Fanned(taken.broker, ReplyChannel("x"), reply).boxes == Unread().broker.boxes;
    assert taken.busy - {"t"} == map[];
  }

  /** An id in use is not always a hazard: here its one call has its reply in hand,
      so subscribing under it harms nobody. */
  lemma UsedIdCanBeHarmless()
    ensures var s := Unread(); Inv(ECHO, s) && !IdIsFree(s, 1) && !Hazard(ECHO, s, 1)
  {
    var s := Unread();
    AnsweredUnread();
    hide Inv;
    assert Active(s.callers[0].stage);
    assert forall topic: string :: InFlight(s, topic) == [];
    assert BoxOf(s, 0) == [Message(0, "reply", "x", "first")];
  }
}
