/** Request and reply over the in-memory broker: callers subscribe to their own
    reply channel, publish, and wait; one responder per topic answers in turn. */
module RequestReply {
  import opened Options

  const CAPACITY := 256

  /** An envelope. origin is the caller a request came from; it is not on the
      wire, and only lets the properties speak of "its own request". */
  datatype Message = Message(origin: nat, name: string, correlationId: string, payload: string)

  function ReplyChannel(correlationId: string): string {
    "reply." + correlationId
  }

  lemma ReplyChannelsAreScoped(a: string, b: string)
    ensures ReplyChannel(a) == ReplyChannel(b) <==> a == b
  {
    assert ReplyChannel(a)[6..] == a && ReplyChannel(b)[6..] == b;
  }

  predicate IsReplyChannel(channel: string) {
    "reply." <= channel
  }

  // ---------------------------------------------------------------------
  // The broker
  // ---------------------------------------------------------------------

  /** Subscriptions by channel, and what each has been sent and not yet read. */
  datatype Broker = Broker(subs: map<string, set<nat>>, boxes: map<nat, seq<Message>>, next: nat)

  function SubsOf(b: Broker, channel: string): set<nat> {
    if channel in b.subs then b.subs[channel] else {}
  }

  function Opened(b: Broker, channel: string): Broker {
    Broker(b.subs[channel := SubsOf(b, channel) + {b.next}], b.boxes[b.next := []], b.next + 1)
  }

  function Delivered(box: seq<Message>, m: Message): seq<Message> {
    if |box| < CAPACITY then box + [m] else box
  }

  /** One payload to every subscriber; a full one misses it. */
  function Fanned(b: Broker, channel: string, m: Message): Broker {
    b.(boxes := map i | i in b.boxes :: if i in SubsOf(b, channel) then Delivered(b.boxes[i], m) else b.boxes[i])
  }

  function Shut(b: Broker, channel: string, sub: nat): Broker {
    var left := SubsOf(b, channel) - {sub};
    b.(subs := if left == {} then b.subs - {channel} else b.subs[channel := left], boxes := b.boxes - {sub})
  }

  class InMemoryPubSub {
    var subs: map<string, set<nat>>
    var boxes: map<nat, seq<Message>>
    var next: nat

    function View(): Broker
      reads this
    {
      Broker(subs, boxes, next)
    }

    predicate Wired()
      reads this
    {
      forall c :: c in subs ==> subs[c] != {} && forall i :: i in subs[c] ==> i in boxes
    }

    constructor ()
      ensures View() == Broker(map[], map[], 0) && Wired()
    {
      subs, boxes, next := map[], map[], 0;
    }

    method Subscribe(channel: string) returns (sub: nat)
      requires Wired()
      modifies this
      ensures View() == Opened(old(View()), channel) && sub == old(next) && Wired()
    {
      if channel !in subs {
        subs := subs[channel := {}];
      }
      sub := next;
      subs := subs[channel := subs[channel] + {sub}];
      boxes := boxes[sub := []];
      next := next + 1;
    }

    /** The fan-out, subscriber by subscriber in whatever order the set gives. */
    method Publish(channel: string, m: Message)
      requires Wired()
      modifies this`boxes
      ensures View() == Fanned(old(View()), channel, m) && Wired()
    {
      var remaining := if channel in subs then subs[channel] else {};
      ghost var all := remaining;
      while remaining != {}
        invariant remaining <= all && boxes.Keys == old(boxes).Keys && all <= boxes.Keys
        invariant forall i :: i in boxes ==>
          boxes[i] == if i in all - remaining then Delivered(old(boxes)[i], m) else old(boxes)[i]
      {
        ghost var _ := ASub(remaining);
        var sub :| sub in remaining;
        remaining := remaining - {sub};
        if |boxes[sub]| < CAPACITY {
          boxes := boxes[sub := boxes[sub] + [m]];
        }
      }
    }

    method Close(channel: string, sub: nat)
      requires Wired() && channel in subs && sub in subs[channel]
      requires forall c :: c in subs && c != channel ==> sub !in subs[c]
      modifies this
      ensures View() == Shut(old(View()), channel, sub) && Wired()
    {
      subs := subs[channel := subs[channel] - {sub}];
      if |subs[channel]| == 0 {
        subs := subs - {channel};
      }
      boxes := boxes - {sub};
    }
  }

  lemma ASub(subs: set<nat>) returns (i: nat)
    requires subs != {}
    ensures i in subs
  {
    i :| i in subs;
  }

  // ---------------------------------------------------------------------
  // Callers and responders
  // ---------------------------------------------------------------------

  datatype Stage = Idle | Listening(sub: nat) | Waiting(sub: nat) | Answered(reply: Message) | GaveUp

  /** One Request call. */
  datatype Caller = Caller(topic: string, name: string, correlationId: string, payload: string, stage: Stage)

  /** What each topic's responder makes of a request, and the name on its replies. */
  datatype Env = Env(handler: (string, string, string) -> Option<string>, replyName: string -> string)

  /** busy holds the request a responder has taken and not yet answered. */
  datatype State = State(broker: Broker, responders: map<string, nat>, busy: map<string, Message>, callers: seq<Caller>)

  datatype Event =
    | Subscribe(t: nat) | Send(t: nat) | Receive(t: nat) | Expire(t: nat) | Take(topic: string) | Answer(topic: string)

  function RequestOf(c: Caller, t: nat): Message {
    Message(t, c.name, c.correlationId, c.payload)
  }

  /** The reply a responder publishes for one request, if any. */
  function ReplyTo(env: Env, topic: string, m: Message): Option<Message> {
    match env.handler(topic, m.name, m.payload)
    case None => None
    case Some(payload) => Some(Message(m.origin, env.replyName(topic), m.correlationId, payload))
  }

  function Box(b: Broker, sub: nat): seq<Message> {
    if sub in b.boxes then b.boxes[sub] else []
  }

  function Queue(s: State, topic: string): seq<Message> {
    if topic in s.responders then Box(s.broker, s.responders[topic]) else []
  }

  function WithStage(s: State, t: nat, stage: Stage): State
    requires t < |s.callers|
  {
    s.(callers := s.callers[t := s.callers[t].(stage := stage)])
  }

  function CallerStep(s: State, e: Event): Option<State>
    requires e.Subscribe? || e.Send? || e.Receive? || e.Expire?
  {
    if e.t >= |s.callers| then None
    else
      var c := s.callers[e.t];
      var channel := ReplyChannel(c.correlationId);
      match e
      case Subscribe(t) =>
        if !c.stage.Idle? then None
        else Some(WithStage(s, t, Listening(s.broker.next)).(broker := Opened(s.broker, channel)))
      case Send(t) =>
        if !c.stage.Listening? then None
        else Some(WithStage(s, t, Waiting(c.stage.sub)).(broker := Fanned(s.broker, c.topic, RequestOf(c, t))))
      case Receive(t) =>
        if !c.stage.Waiting? || Box(s.broker, c.stage.sub) == [] then None
        else
          Some(WithStage(s, t, Answered(Box(s.broker, c.stage.sub)[0])).(broker := Shut(s.broker, channel, c.stage.sub)))
      case Expire(t) =>
        if !c.stage.Waiting? && !c.stage.Listening? then None
        else Some(WithStage(s, t, GaveUp).(broker := Shut(s.broker, channel, c.stage.sub)))
  }

  function ResponderStep(env: Env, s: State, e: Event): Option<State>
    requires e.Take? || e.Answer?
  {
    match e
    case Take(topic) =>
      if topic in s.busy || Queue(s, topic) == [] then None
      else
        var sub := s.responders[topic];
        Some(s.(busy := s.busy[topic := Queue(s, topic)[0]],
                broker := s.broker.(boxes := s.broker.boxes[sub := Queue(s, topic)[1..]])))
    case Answer(topic) =>
      if topic !in s.busy then None
      else
        var m := s.busy[topic];
        var done := s.(busy := s.busy - {topic});
        match ReplyTo(env, topic, m)
        case None => Some(done)
        case Some(reply) => Some(done.(broker := Fanned(s.broker, ReplyChannel(m.correlationId), reply)))
  }

  function Next(env: Env, s: State, e: Event): Option<State> {
    if e.Take? || e.Answer? then ResponderStep(env, s, e) else CallerStep(s, e)
  }

  // ---------------------------------------------------------------------
  // What holds while correlation ids are not reused in flight
  // ---------------------------------------------------------------------

  predicate Active(stage: Stage) {
    stage.Listening? || stage.Waiting?
  }

  predicate Uses(c: Caller, correlationId: string) {
    Active(c.stage) && c.correlationId == correlationId
  }

  /** The unanswered requests of one topic: the one being handled, then the queue. */
  function InFlight(s: State, topic: string): seq<Message> {
    (if topic in s.busy then [s.busy[topic]] else []) + Queue(s, topic)
  }

  /** Nobody else is using the id, and no request bearing it is still unanswered. */
  ghost predicate IdIsFree(s: State, t: nat)
    requires t < |s.callers|
  {
    && (forall u :: 0 <= u < |s.callers| && Active(s.callers[u].stage) ==>
          s.callers[u].correlationId != s.callers[t].correlationId)
    && (forall topic: string, m :: m in InFlight(s, topic) ==> m.correlationId != s.callers[t].correlationId)
  }

  predicate HasSub(b: Broker, channel: string, sub: nat) {
    channel in b.subs && sub in b.subs[channel]
  }

  predicate IsWired(s: State, topic: string)
    requires topic in s.responders
  {
    !IsReplyChannel(topic) && SubsOf(s.broker, topic) == {s.responders[topic]}
  }

  /** A reply channel somebody is waiting on. */
  ghost predicate HasCaller(s: State, channel: string) {
    exists t :: 0 <= t < |s.callers| && Active(s.callers[t].stage) && channel == ReplyChannel(s.callers[t].correlationId)
  }

  ghost predicate Wiring(s: State) {
    && (forall c: string, i :: HasSub(s.broker, c, i) ==> i in s.broker.boxes)
    && (forall i :: i in s.broker.boxes ==> i < s.broker.next)
    && (forall c: string, d: string, i :: HasSub(s.broker, c, i) && HasSub(s.broker, d, i) ==> c == d)
    && (forall topic :: topic in s.responders ==> IsWired(s, topic))
    && (forall topic :: topic in s.busy ==> topic in s.responders)
    && (forall t :: 0 <= t < |s.callers| ==> !IsReplyChannel(s.callers[t].topic))
  }

  /** Each caller alone listens on its channel. */
  ghost predicate Scoped(s: State) {
    && (forall c :: c in s.broker.subs && c !in s.responders ==> HasCaller(s, c))
    && (forall t :: 0 <= t < |s.callers| && Active(s.callers[t].stage) ==>
          SubsOf(s.broker, ReplyChannel(s.callers[t].correlationId)) == {s.callers[t].stage.sub})
    && (forall t, u :: 0 <= t < u < |s.callers| && Active(s.callers[t].stage) && Active(s.callers[u].stage) ==>
          s.callers[t].correlationId != s.callers[u].correlationId)
  }

  /** An unanswered request is its sender's own, sent once, and no active caller
      but its sender has its id. */
  ghost predicate Genuine(s: State, topic: string, m: Message) {
    && m.origin < |s.callers| && s.callers[m.origin].topic == topic
    && !s.callers[m.origin].stage.Idle? && !s.callers[m.origin].stage.Listening? && !s.callers[m.origin].stage.Answered?
    && m == RequestOf(s.callers[m.origin], m.origin)
    && (forall t :: 0 <= t < |s.callers| && Uses(s.callers[t], m.correlationId) ==> t == m.origin)
  }

  ghost predicate Requests(s: State) {
    && (forall topic: string, m :: m in InFlight(s, topic) ==> Genuine(s, topic, m))
    && (forall topic: string, i, j :: 0 <= i < j < |InFlight(s, topic)| ==>
          InFlight(s, topic)[i].origin != InFlight(s, topic)[j].origin)
  }

  /** What an active caller has been sent: nothing, or the one reply to its own
      request, which then is no longer in flight. */
  ghost predicate Mail(env: Env, s: State, t: nat)
    requires t < |s.callers|
  {
    var c := s.callers[t];
    match c.stage
    case Listening(sub) => Box(s.broker, sub) == []
    case Waiting(sub) =>
      var box := Box(s.broker, sub);
      box == [] ||
      (|box| == 1 && ReplyTo(env, c.topic, RequestOf(c, t)) == Some(box[0]) &&
       forall m :: m in InFlight(s, c.topic) ==> m.origin != t)
    case Answered(reply) => ReplyTo(env, c.topic, RequestOf(c, t)) == Some(reply)
    case _ => true
  }

  ghost predicate Inv(env: Env, s: State) {
    && Wiring(s) && Scoped(s) && Requests(s)
    && forall t :: 0 <= t < |s.callers| ==> Mail(env, s, t)
  }

  // A caller's subscription is no responder's, and no other caller's.
  lemma SubsAreApart(s: State, t: nat)
    requires Wiring(s) && Scoped(s) && t < |s.callers| && Active(s.callers[t].stage)
    ensures var sub := s.callers[t].stage.sub;
            && sub in s.broker.boxes
            && (forall c: string :: HasSub(s.broker, c, sub) ==> c == ReplyChannel(s.callers[t].correlationId))
            && (forall topic :: topic in s.responders ==> s.responders[topic] != sub)
            && (forall u :: 0 <= u < |s.callers| && u != t && Active(s.callers[u].stage) ==> s.callers[u].stage.sub != sub)
  {
    var c, sub := s.callers[t], s.callers[t].stage.sub;
    var channel := ReplyChannel(c.correlationId);
    assert HasSub(s.broker, channel, sub);
    forall topic | topic in s.responders ensures s.responders[topic] != sub {
      assert IsWired(s, topic);
      assert HasSub(s.broker, topic, s.responders[topic]);
      assert IsReplyChannel(channel);
    }
    forall u | 0 <= u < |s.callers| && u != t && Active(s.callers[u].stage) ensures s.callers[u].stage.sub != sub {
      ReplyChannelsAreScoped(s.callers[u].correlationId, c.correlationId);
      assert HasSub(s.broker, ReplyChannel(s.callers[u].correlationId), s.callers[u].stage.sub);
    }
  }

  // ---------------------------------------------------------------------
  // Frames: what a step leaves alone
  // ---------------------------------------------------------------------

  /** Only stages change: the calls themselves stay what they were. */
  predicate SameCalls(s: State, s': State) {
    && |s'.callers| == |s.callers|
    && (forall u :: 0 <= u < |s.callers| ==> s'.callers[u] == s.callers[u].(stage := s'.callers[u].stage))
  }

  /** An unanswered request stays one its sender has sent and not had answered. */
  predicate StillSent(s: State, m: Message) {
    && m.origin < |s.callers|
    && !s.callers[m.origin].stage.Idle? && !s.callers[m.origin].stage.Listening? && !s.callers[m.origin].stage.Answered?
  }

  lemma GenuineStays(s: State, s': State, topic: string, m: Message)
    requires Genuine(s, topic, m) && SameCalls(s, s') && StillSent(s', m)
    requires forall u :: 0 <= u < |s.callers| && Uses(s'.callers[u], m.correlationId) ==> Uses(s.callers[u], m.correlationId)
    ensures Genuine(s', topic, m)
  {
    assert s'.callers[m.origin] == s.callers[m.origin].(stage := s'.callers[m.origin].stage);
  }

  lemma WiringStays(s: State, s': State)
    requires Wiring(s) && SameCalls(s, s') && s'.responders == s.responders && s'.broker.next == s.broker.next
    requires forall c: string, i :: HasSub(s'.broker, c, i) ==> HasSub(s.broker, c, i) && i in s'.broker.boxes
    requires forall i :: i in s'.broker.boxes ==> i in s.broker.boxes
    requires forall topic :: topic in s'.busy ==> topic in s.responders
    requires forall topic :: topic in s.responders ==> SubsOf(s'.broker, topic) == SubsOf(s.broker, topic)
    ensures Wiring(s')
  {
    forall topic | topic in s'.responders ensures IsWired(s', topic) {
      assert IsWired(s, topic);
    }
    forall t | 0 <= t < |s'.callers| ensures !IsReplyChannel(s'.callers[t].topic) {
      assert s'.callers[t] == s.callers[t].(stage := s'.callers[t].stage);
    }
  }

  function BoxAfter(b: Broker, channel: string, m: Message, i: nat): seq<Message> {
    if i in SubsOf(b, channel) && i in b.boxes then Delivered(Box(b, i), m) else Box(b, i)
  }

  // A fan-out touches boxes only.
  lemma FanLeavesSubs(b: Broker, channel: string, m: Message)
    ensures forall c: string, i :: HasSub(Fanned(b, channel, m), c, i) <==> HasSub(b, c, i)
    ensures forall c: string :: SubsOf(Fanned(b, channel, m), c) == SubsOf(b, c)
    ensures forall i :: i in Fanned(b, channel, m).boxes <==> i in b.boxes
    ensures forall i: nat :: Box(Fanned(b, channel, m), i) == BoxAfter(b, channel, m, i)
  {
  }

  // ---------------------------------------------------------------------
  // Subscribe
  // ---------------------------------------------------------------------

  ghost predicate Subscribes(env: Env, s: State, t: nat, s': State) {
    Inv(env, s) && t < |s.callers| && IdIsFree(s, t) && CallerStep(s, Subscribe(t)) == Some(s')
  }

  // With the id free, nobody listens on its reply channel.
  lemma ChannelIsFree(s: State, t: nat)
    requires Wiring(s) && Scoped(s) && t < |s.callers| && IdIsFree(s, t)
    ensures ReplyChannel(s.callers[t].correlationId) !in s.broker.subs
    ensures ReplyChannel(s.callers[t].correlationId) !in s.responders
  {
    var channel := ReplyChannel(s.callers[t].correlationId);
    assert IsReplyChannel(channel);
    assert channel in s.responders ==> IsWired(s, channel);
    if channel in s.broker.subs {
      assert HasCaller(s, channel);
      var u :| 0 <= u < |s.callers| && Active(s.callers[u].stage) && channel == ReplyChannel(s.callers[u].correlationId);
      ReplyChannelsAreScoped(s.callers[u].correlationId, s.callers[t].correlationId);
      assert false;
    }
  }

  lemma SubscribeWires(env: Env, s: State, t: nat, s': State)
    requires Subscribes(env, s, t, s')
    ensures Wiring(s') && forall topic: string :: InFlight(s', topic) == InFlight(s, topic)
  {
    hide Mail, Requests, Scoped, IdIsFree;
    assert Scoped(s);
    ChannelIsFree(s, t);
    var channel := ReplyChannel(s.callers[t].correlationId);
    assert forall c: string, i :: HasSub(s'.broker, c, i) ==> (c == channel && i == s.broker.next) || HasSub(s.broker, c, i);
    forall topic | topic in s'.responders ensures IsWired(s', topic) {
      assert IsWired(s, topic) && topic != channel;
    }
    assert Wiring(s');
    forall topic: string ensures InFlight(s', topic) == InFlight(s, topic) {
      if topic in s.responders {
        assert IsWired(s, topic) && HasSub(s.broker, topic, s.responders[topic]);
      }
    }
  }

  lemma SubscribeScopes(env: Env, s: State, t: nat, s': State)
    requires Subscribes(env, s, t, s')
    ensures Scoped(s')
  {
    hide Mail, Requests;
    ChannelIsFree(s, t);
    var channel := ReplyChannel(s.callers[t].correlationId);
    forall c | c in s'.broker.subs && c !in s'.responders ensures HasCaller(s', c) {
      if c == channel {
        assert Active(s'.callers[t].stage);
      } else {
        assert HasCaller(s, c);
        var u :| 0 <= u < |s.callers| && Active(s.callers[u].stage) && c == ReplyChannel(s.callers[u].correlationId);
        assert s'.callers[u] == s.callers[u];
      }
    }
    forall u | 0 <= u < |s'.callers| && Active(s'.callers[u].stage)
      ensures SubsOf(s'.broker, ReplyChannel(s'.callers[u].correlationId)) == {s'.callers[u].stage.sub}
    {
      ReplyChannelsAreScoped(s.callers[u].correlationId, s.callers[t].correlationId);
    }
  }

  lemma SubscribeKeepsRequests(env: Env, s: State, t: nat, s': State)
    requires Subscribes(env, s, t, s')
    ensures Requests(s')
  {
    SubscribeWires(env, s, t, s');
    hide Wiring, Scoped, Mail, InFlight;
    forall topic: string, m | m in InFlight(s', topic) ensures Genuine(s', topic, m) {
      assert Genuine(s, topic, m);
    }
  }

  lemma SubscribeKeepsInv(env: Env, s: State, t: nat, s': State)
    requires Subscribes(env, s, t, s')
    ensures Inv(env, s')
  {
    SubscribeWires(env, s, t, s');
    SubscribeScopes(env, s, t, s');
    SubscribeKeepsRequests(env, s, t, s');
    hide Wiring, Scoped, Requests, InFlight, IdIsFree;
    forall u | 0 <= u < |s'.callers| ensures Mail(env, s', u) {
      if u != t {
        NewBoxIsApart(env, s, t, s', u);
      }
    }
  }

  // A subscription under an id somebody else is using, or that a request still
  // bears, breaks what holds.
  lemma SharedIdBreaksInv(env: Env, s: State, t: nat, s': State)
    requires Inv(env, s) && t < |s.callers| && CallerStep(s, Subscribe(t)) == Some(s')
    requires !IdIsFree(s, t)
    ensures !Inv(env, s')
  {
    hide Mail;
    assert Active(s'.callers[t].stage) && s'.callers[t].correlationId == s.callers[t].correlationId;
    if u :| 0 <= u < |s.callers| && Active(s.callers[u].stage) && s.callers[u].correlationId == s.callers[t].correlationId {
      assert u != t && s'.callers[u] == s.callers[u];
      assert !Scoped(s');
    } else {
      var topic: string, m :| m in InFlight(s, topic) && m.correlationId == s.callers[t].correlationId;
      assert Genuine(s, topic, m);
      if topic in s.responders {
        assert IsWired(s, topic) && HasSub(s.broker, topic, s.responders[topic]);
      }
      assert InFlight(s', topic) == InFlight(s, topic);
      assert Uses(s'.callers[t], m.correlationId);
      assert !Genuine(s', topic, m);
    }
  }

  /** A subscription keeps what holds exactly when its id is free, which the
      caller's side can tell before it subscribes. */
  lemma FreeIdsExactly(env: Env, s: State, t: nat, s': State)
    requires Inv(env, s) && t < |s.callers| && CallerStep(s, Subscribe(t)) == Some(s')
    ensures Inv(env, s') <==> IdIsFree(s, t)
  {
    hide Inv, CallerStep, IdIsFree;
    if IdIsFree(s, t) {
      SubscribeKeepsInv(env, s, t, s');
    } else {
      SharedIdBreaksInv(env, s, t, s');
    }
  }

  lemma NewBoxIsApart(env: Env, s: State, t: nat, s': State, u: nat)
    requires Subscribes(env, s, t, s') && u < |s.callers| && u != t
    ensures Mail(env, s, u)
    ensures Active(s.callers[u].stage) ==> Box(s'.broker, s.callers[u].stage.sub) == Box(s.broker, s.callers[u].stage.sub)
  {
    if Active(s.callers[u].stage) {
      SubsAreApart(s, u);
    }
  }

  // ---------------------------------------------------------------------
  // Send
  // ---------------------------------------------------------------------

  ghost predicate Sends(env: Env, s: State, t: nat, s': State) {
    Inv(env, s) && t < |s.callers| && CallerStep(s, Send(t)) == Some(s')
  }

  lemma OnlyReplyChannelsHaveCallers(s: State, channel: string)
    ensures HasCaller(s, channel) ==> IsReplyChannel(channel)
  {
  }

  // Publishing on a request channel reaches its responder and nobody else.
  lemma FanOnTopic(s: State, topic: string, m: Message)
    requires Wiring(s) && Scoped(s) && !IsReplyChannel(topic)
    ensures SubsOf(s.broker, topic) == if topic in s.responders then {s.responders[topic]} else {}
    ensures topic in s.responders ==> s.responders[topic] in s.broker.boxes
    ensures forall other :: other in s.responders && other != topic ==> s.responders[other] !in SubsOf(s.broker, topic)
  {
    OnlyReplyChannelsHaveCallers(s, topic);
    if topic in s.responders {
      assert IsWired(s, topic);
      assert HasSub(s.broker, topic, s.responders[topic]);
    }
    forall other | other in s.responders && other != topic ensures s.responders[other] !in SubsOf(s.broker, topic) {
      assert IsWired(s, other);
      assert HasSub(s.broker, other, s.responders[other]);
    }
  }

  lemma SendEffect(env: Env, s: State, t: nat, s': State)
    requires Sends(env, s, t, s')
    ensures s.callers[t].stage.Listening? && s' == s.(callers := s'.callers, broker := s'.broker)
    ensures s'.callers == s.callers[t := s.callers[t].(stage := Waiting(s.callers[t].stage.sub))]
    ensures s'.broker == Fanned(s.broker, s.callers[t].topic, RequestOf(s.callers[t], t))
  {
    hide Inv, Fanned;
  }

  lemma SendWires(env: Env, s: State, t: nat, s': State)
    requires Sends(env, s, t, s')
    ensures Wiring(s') && Scoped(s')
  {
    SendEffect(env, s, t, s');
    hide Mail, Requests, RequestOf, CallerStep;
    FanLeavesSubs(s.broker, s.callers[t].topic, RequestOf(s.callers[t], t));
    hide Fanned;
    WiringStays(s, s');
    hide Wiring;
    forall channel | channel in s'.broker.subs && channel !in s'.responders ensures HasCaller(s', channel) {
      assert HasCaller(s, channel);
      var u :| 0 <= u < |s.callers| && Active(s.callers[u].stage) && channel == ReplyChannel(s.callers[u].correlationId);
      assert Active(s'.callers[u].stage);
    }
  }

  lemma SendQueues(env: Env, s: State, t: nat, s': State)
    requires Sends(env, s, t, s')
    ensures var c := s.callers[t];
            forall topic: string :: InFlight(s', topic) == InFlight(s, topic) ||
              (topic == c.topic && InFlight(s', topic) == InFlight(s, topic) + [RequestOf(c, t)])
  {
    SendEffect(env, s, t, s');
    hide Mail, Requests, RequestOf, CallerStep;
    var c := s.callers[t];
    FanOnTopic(s, c.topic, RequestOf(c, t));
    FanLeavesSubs(s.broker, c.topic, RequestOf(c, t));
    hide Fanned, Wiring, Scoped;
    forall topic: string ensures InFlight(s', topic) == InFlight(s, topic) ||
      (topic == c.topic && InFlight(s', topic) == InFlight(s, topic) + [RequestOf(c, t)])
    {
    }
  }

  lemma SendKeepsRequests(env: Env, s: State, t: nat, s': State)
    requires Sends(env, s, t, s')
    ensures Requests(s')
  {
    SendQueues(env, s, t, s');
    SendIsApart(env, s, t, s');
    SendEffect(env, s, t, s');
    assert Mail(env, s, t);
    hide Wiring, Scoped, ReplyTo, CallerStep, InFlight, Fanned, Mail;
    forall topic: string, m | m in InFlight(s', topic) ensures Genuine(s', topic, m) {
      if m in InFlight(s, topic) {
        assert Genuine(s, topic, m);
      }
    }
    forall topic: string, i, j | 0 <= i < j < |InFlight(s', topic)|
      ensures InFlight(s', topic)[i].origin != InFlight(s', topic)[j].origin
    {
      if j >= |InFlight(s, topic)| {
        assert InFlight(s, topic)[i] in InFlight(s, topic);
        assert Genuine(s, topic, InFlight(s, topic)[i]);
      }
    }
  }

  lemma SendKeepsInv(env: Env, s: State, t: nat, s': State)
    requires Sends(env, s, t, s')
    ensures Inv(env, s')
  {
    SendWires(env, s, t, s');
    SendQueues(env, s, t, s');
    SendKeepsRequests(env, s, t, s');
    SendIsApart(env, s, t, s');
    SendEffect(env, s, t, s');
    hide Wiring, Scoped, Requests, ReplyTo, CallerStep, InFlight, Fanned;
    assert Mail(env, s, t);
    forall u | 0 <= u < |s'.callers| ensures Mail(env, s', u) {
      assert Mail(env, s, u);
    }
  }

  // A request reaches no caller's box, and its sender alone is active under its id.
  lemma SendIsApart(env: Env, s: State, t: nat, s': State)
    requires Sends(env, s, t, s')
    ensures forall u :: 0 <= u < |s.callers| && Active(s.callers[u].stage) ==>
      Box(s'.broker, s.callers[u].stage.sub) == Box(s.broker, s.callers[u].stage.sub)
    ensures forall u :: 0 <= u < |s.callers| && Uses(s'.callers[u], s.callers[t].correlationId) ==> u == t
  {
    hide Mail, Requests, RequestOf;
    FanOnTopic(s, s.callers[t].topic, RequestOf(s.callers[t], t));
    FanLeavesSubs(s.broker, s.callers[t].topic, RequestOf(s.callers[t], t));
    hide Fanned;
    forall u | 0 <= u < |s.callers| && Active(s.callers[u].stage)
      ensures Box(s'.broker, s.callers[u].stage.sub) == Box(s.broker, s.callers[u].stage.sub)
    {
      SubsAreApart(s, u);
    }
  }

  // ---------------------------------------------------------------------
  // Receive and expire
  // ---------------------------------------------------------------------

  ghost predicate Leaves(env: Env, s: State, t: nat, s': State) {
    Inv(env, s) && t < |s.callers| && (CallerStep(s, Receive(t)) == Some(s') || CallerStep(s, Expire(t)) == Some(s'))
  }

  lemma LeavingEffect(env: Env, s: State, t: nat, s': State)
    requires Leaves(env, s, t, s')
    ensures SameCalls(s, s') && s'.responders == s.responders && s'.busy == s.busy && Active(s.callers[t].stage)
    ensures s'.broker == Shut(s.broker, ReplyChannel(s.callers[t].correlationId), s.callers[t].stage.sub)
    ensures forall u :: 0 <= u < |s.callers| && u != t ==> s'.callers[u] == s.callers[u]
    ensures s'.callers[t].stage == GaveUp ||
      (s.callers[t].stage.Waiting? && Box(s.broker, s.callers[t].stage.sub) != [] &&
       s'.callers[t].stage == Answered(Box(s.broker, s.callers[t].stage.sub)[0]))
  {
    hide Inv, Shut;
  }

  lemma LeavingWires(env: Env, s: State, t: nat, s': State)
    requires Leaves(env, s, t, s')
    ensures Wiring(s') && forall topic: string :: InFlight(s', topic) == InFlight(s, topic)
    ensures forall u :: 0 <= u < |s.callers| && u != t && Active(s.callers[u].stage) ==>
      Box(s'.broker, s.callers[u].stage.sub) == Box(s.broker, s.callers[u].stage.sub)
  {
    LeavingEffect(env, s, t, s');
    hide Mail, Requests, CallerStep;
    SubsAreApart(s, t);
    var channel := ReplyChannel(s.callers[t].correlationId);
    forall topic | topic in s.responders ensures topic != channel {
      assert IsWired(s, topic);
    }
    WiringStays(s, s');
    forall topic: string ensures InFlight(s', topic) == InFlight(s, topic) {
    }
  }

  lemma LeavingScopes(env: Env, s: State, t: nat, s': State)
    requires Leaves(env, s, t, s')
    ensures Scoped(s')
  {
    LeavingEffect(env, s, t, s');
    hide Mail, Requests, CallerStep;
    SubsAreApart(s, t);
    var channel := ReplyChannel(s.callers[t].correlationId);
    assert SubsOf(s.broker, channel) == {s.callers[t].stage.sub};
    forall c | c in s'.broker.subs && c !in s'.responders ensures HasCaller(s', c) {
      assert HasCaller(s, c);
      var u :| 0 <= u < |s.callers| && Active(s.callers[u].stage) && c == ReplyChannel(s.callers[u].correlationId);
      assert u != t && s'.callers[u] == s.callers[u];
    }
    forall u | 0 <= u < |s'.callers| && Active(s'.callers[u].stage)
      ensures SubsOf(s'.broker, ReplyChannel(s'.callers[u].correlationId)) == {s'.callers[u].stage.sub}
    {
      ReplyChannelsAreScoped(s.callers[u].correlationId, s.callers[t].correlationId);
    }
  }

  // A caller that has its reply has no request in flight any more.
  lemma AnsweredIsSettled(env: Env, s: State, t: nat, s': State)
    requires Leaves(env, s, t, s') && s'.callers[t].stage.Answered?
    ensures forall topic: string, m :: m in InFlight(s, topic) ==> m.origin != t
  {
    LeavingEffect(env, s, t, s');
    hide Wiring, Scoped, ReplyTo, CallerStep, InFlight, Shut;
    assert Mail(env, s, t);
    forall topic: string, m | m in InFlight(s, topic) ensures m.origin != t {
      assert Genuine(s, topic, m);
    }
  }

  lemma LeavingKeepsRequests(env: Env, s: State, t: nat, s': State)
    requires Leaves(env, s, t, s')
    ensures Requests(s')
  {
    LeavingWires(env, s, t, s');
    LeavingEffect(env, s, t, s');
    if s'.callers[t].stage.Answered? {
      AnsweredIsSettled(env, s, t, s');
    }
    hide Wiring, Scoped, Mail, CallerStep, InFlight, Shut;
    forall topic: string, m | m in InFlight(s', topic) ensures Genuine(s', topic, m) {
      assert Genuine(s, topic, m);
      GenuineStays(s, s', topic, m);
    }
  }

  lemma LeavingKeepsInv(env: Env, s: State, t: nat, s': State)
    requires Leaves(env, s, t, s')
    ensures Inv(env, s')
  {
    LeavingWires(env, s, t, s');
    LeavingScopes(env, s, t, s');
    LeavingKeepsRequests(env, s, t, s');
    LeavingEffect(env, s, t, s');
    hide Wiring, Scoped, Requests, ReplyTo, CallerStep, InFlight, Shut;
    forall u | 0 <= u < |s'.callers| ensures Mail(env, s', u) {
      assert Mail(env, s, u);
    }
  }

  // ---------------------------------------------------------------------
  // Take and answer
  // ---------------------------------------------------------------------

  ghost predicate Takes(env: Env, s: State, topic: string, s': State) {
    Inv(env, s) && ResponderStep(env, s, Take(topic)) == Some(s')
  }

  lemma TakeKeepsInv(env: Env, s: State, topic: string, s': State)
    requires Takes(env, s, topic, s')
    ensures Inv(env, s')
  {
    TakeMovesNothing(env, s, topic, s');
    hide Scoped, ReplyTo;
    WiringStays(s, s');
    hide Wiring;
    TakeScopes(env, s, topic, s');
    forall other: string, m | m in InFlight(s', other) ensures Genuine(s', other, m) {
      assert Genuine(s, other, m);
    }
    forall u | 0 <= u < |s'.callers| ensures Mail(env, s', u) {
      assert Mail(env, s, u);
    }
  }

  lemma TakeScopes(env: Env, s: State, topic: string, s': State)
    requires Takes(env, s, topic, s')
    ensures Scoped(s')
  {
    hide Mail, Requests, Wiring;
    forall c | c in s'.broker.subs && c !in s'.responders ensures HasCaller(s', c) {
      assert HasCaller(s, c);
    }
  }

  lemma TakeMovesNothing(env: Env, s: State, topic: string, s': State)
    requires Takes(env, s, topic, s')
    ensures forall other: string :: InFlight(s', other) == InFlight(s, other)
    ensures forall u :: 0 <= u < |s.callers| && Active(s.callers[u].stage) ==>
      Box(s'.broker, s.callers[u].stage.sub) == Box(s.broker, s.callers[u].stage.sub)
  {
    hide Mail, Requests;
    forall other: string ensures InFlight(s', other) == InFlight(s, other) {
      if other in s.responders && other != topic {
        assert IsWired(s, other) && IsWired(s, topic);
        assert HasSub(s.broker, other, s.responders[other]) && HasSub(s.broker, topic, s.responders[topic]);
      }
    }
    forall u | 0 <= u < |s.callers| && Active(s.callers[u].stage)
      ensures Box(s'.broker, s.callers[u].stage.sub) == Box(s.broker, s.callers[u].stage.sub)
    {
      SubsAreApart(s, u);
    }
  }

  ghost predicate Answers(env: Env, s: State, topic: string, s': State) {
    Inv(env, s) && topic in s.busy && ResponderStep(env, s, Answer(topic)) == Some(s')
  }

  lemma AnswerWires(env: Env, s: State, topic: string, s': State)
    requires Answers(env, s, topic, s')
    ensures Wiring(s') && Scoped(s') && InFlight(s', topic) == InFlight(s, topic)[1..]
    ensures forall other: string :: other != topic ==> InFlight(s', other) == InFlight(s, other)
  {
    hide Mail, Requests, ReplyTo;
    var channel := ReplyChannel(s.busy[topic].correlationId);
    var reply := ReplyTo(env, topic, s.busy[topic]);
    if reply.Some? {
      FanLeavesSubs(s.broker, channel, reply.value);
    }
    hide Fanned;
    WiringStays(s, s');
    forall c | c in s'.broker.subs && c !in s'.responders ensures HasCaller(s', c) {
      assert HasCaller(s, c);
    }
    forall other: string ensures InFlight(s', other) == if other == topic then InFlight(s, other)[1..] else InFlight(s, other) {
      if other in s.responders {
        assert IsWired(s, other) && IsReplyChannel(channel);
        assert HasSub(s.broker, other, s.responders[other]);
        assert !HasSub(s.broker, channel, s.responders[other]);
      }
    }
  }

  /** A reply published while its caller waits is the only thing in that caller's
      box, and reaches nobody else. */
  lemma NoReplyIsLost(env: Env, s: State, topic: string, s': State, u: nat)
    requires Answers(env, s, topic, s') && u < |s.callers| && Active(s.callers[u].stage)
    ensures var m := s.busy[topic];
            Box(s'.broker, s.callers[u].stage.sub) ==
              if u == m.origin && ReplyTo(env, topic, m).Some? then [ReplyTo(env, topic, m).value]
              else Box(s.broker, s.callers[u].stage.sub)
    ensures u == s.busy[topic].origin ==> Box(s.broker, s.callers[u].stage.sub) == []
  {
    hide ReplyTo, RequestOf;
    var m := s.busy[topic];
    assert InFlight(s, topic)[0] == m && m in InFlight(s, topic);
    assert Genuine(s, topic, m) && Mail(env, s, u);
    SubsAreApart(s, u);
    ReplyChannelsAreScoped(s.callers[u].correlationId, m.correlationId);
    assert s.callers[u].stage.sub in SubsOf(s.broker, ReplyChannel(s.callers[u].correlationId));
    if u == m.origin {
      OwnIdIsOnTheRequest(s, topic, m);
    }
  }

  lemma OwnIdIsOnTheRequest(s: State, topic: string, m: Message)
    requires Genuine(s, topic, m)
    ensures m.correlationId == s.callers[m.origin].correlationId && s.callers[m.origin].topic == topic
  {
  }

  lemma AnswerKeepsRequests(env: Env, s: State, topic: string, s': State)
    requires Answers(env, s, topic, s')
    ensures Requests(s')
  {
    AnswerWires(env, s, topic, s');
    assert s'.callers == s.callers;
    hide Wiring, Scoped, ReplyTo, Mail, ResponderStep, InFlight;
    forall other: string, n | n in InFlight(s', other) ensures Genuine(s', other, n) {
      assert Genuine(s, other, n);
    }
    forall other: string, i, j | 0 <= i < j < |InFlight(s', other)|
      ensures InFlight(s', other)[i].origin != InFlight(s', other)[j].origin
    {
      var k := if other == topic then 1 else 0;
      assert InFlight(s, other)[i + k].origin != InFlight(s, other)[j + k].origin;
    }
  }

  lemma AnswerKeepsInv(env: Env, s: State, topic: string, s': State)
    requires Answers(env, s, topic, s')
    ensures Inv(env, s')
  {
    AnswerWires(env, s, topic, s');
    AnswerKeepsRequests(env, s, topic, s');
    assert s'.callers == s.callers;
    hide Wiring, Scoped, Requests, Mail, ReplyTo;
    forall u | 0 <= u < |s'.callers| ensures Mail(env, s', u) {
      AnswerDelivers(env, s, topic, s', u);
    }
  }

  lemma AnswerDelivers(env: Env, s: State, topic: string, s': State, u: nat)
    requires Answers(env, s, topic, s') && u < |s.callers|
    ensures Mail(env, s', u)
  {
    AnswerWires(env, s, topic, s');
    var m := s.busy[topic];
    assert Mail(env, s, u) && s'.callers == s.callers;
    if Active(s.callers[u].stage) {
      NoReplyIsLost(env, s, topic, s', u);
    }
    if u == m.origin && ReplyTo(env, topic, m).Some? && Active(s.callers[u].stage) {
      AnsweredIsGone(env, s, topic, s');
    } else {
      hide Wiring, Scoped, Requests, ReplyTo;
    }
  }

  // The answered request is no longer in flight, and it was its sender's only one.
  lemma AnsweredIsGone(env: Env, s: State, topic: string, s': State)
    requires Answers(env, s, topic, s')
    ensures var m := s.busy[topic];
            && Genuine(s, topic, m)
            && forall n :: n in InFlight(s', topic) ==> n.origin != m.origin
  {
    AnswerWires(env, s, topic, s');
    hide Wiring, Scoped, ReplyTo, Mail;
    var m := s.busy[topic];
    assert InFlight(s, topic)[0] == m && m in InFlight(s, topic);
    forall n | n in InFlight(s', topic) ensures n.origin != m.origin {
      var i :| 0 <= i < |InFlight(s', topic)| && InFlight(s', topic)[i] == n;
      assert InFlight(s, topic)[0].origin != InFlight(s, topic)[i + 1].origin;
    }
  }

  // ---------------------------------------------------------------------
  // Whole runs
  // ---------------------------------------------------------------------

  function After(env: Env, s: State, events: seq<Event>): Option<State>
    decreases |events|
  {
    if events == [] then Some(s)
    else
      match After(env, s, events[..|events| - 1])
      case None => None
      case Some(mid) => Next(env, mid, events[|events| - 1])
  }

  /** Responders subscribed, nobody has called yet. */
  ghost predicate Started(s: State) {
    && Wiring(s) && s.busy == map[]
    && (forall c :: c in s.broker.subs ==> c in s.responders)
    && (forall i :: i in s.broker.boxes ==> s.broker.boxes[i] == [])
    && (forall t :: 0 <= t < |s.callers| ==> s.callers[t].stage.Idle?)
  }

  /** Every call opens its subscription under an id nobody has in flight. */
  ghost predicate IdsAreFree(env: Env, s: State, events: seq<Event>) {
    forall i :: 0 <= i < |events| && events[i].Subscribe? ==> OpensFree(env, s, events, i)
  }

  ghost predicate OpensFree(env: Env, s: State, events: seq<Event>, i: nat)
    requires i < |events| && events[i].Subscribe?
  {
    var before := After(env, s, events[..i]);
    before.Some? && events[i].t < |before.value.callers| ==> IdIsFree(before.value, events[i].t)
  }

  lemma NextKeepsInv(env: Env, s: State, e: Event)
    requires Inv(env, s) && Next(env, s, e).Some?
    requires e.Subscribe? && e.t < |s.callers| ==> IdIsFree(s, e.t)
    ensures Inv(env, Next(env, s, e).value)
  {
    var s' := Next(env, s, e).value;
    hide Inv;
    match e {
      case Subscribe(t) => SubscribeKeepsInv(env, s, t, s');
      case Send(t) => SendKeepsInv(env, s, t, s');
      case Receive(t) => LeavingKeepsInv(env, s, t, s');
      case Expire(t) => LeavingKeepsInv(env, s, t, s');
      case Take(topic) => TakeKeepsInv(env, s, topic, s');
      case Answer(topic) => AnswerKeepsInv(env, s, topic, s');
    }
  }

  lemma EarlierIdsAreFree(env: Env, s: State, events: seq<Event>)
    requires events != [] && IdsAreFree(env, s, events)
    ensures IdsAreFree(env, s, events[..|events| - 1])
    ensures events[|events| - 1].Subscribe? ==> OpensFree(env, s, events, |events| - 1)
  {
    var init := events[..|events| - 1];
    forall i | 0 <= i < |init| && init[i].Subscribe? ensures OpensFree(env, s, init, i) {
      assert init[..i] == events[..i] && OpensFree(env, s, events, i);
    }
  }

  lemma StartHolds(env: Env, s: State)
    requires Started(s)
    ensures Inv(env, s)
  {
    assert forall topic: string :: InFlight(s, topic) == [];
  }

  lemma {:induction false} InvAlways(env: Env, s: State, events: seq<Event>)
    requires Started(s) && IdsAreFree(env, s, events) && After(env, s, events).Some?
    ensures Inv(env, After(env, s, events).value)
    decreases |events|
  {
    if events == [] {
      StartHolds(env, s);
    } else {
      hide Inv, Next, IdIsFree, Started;
      var init, last := events[..|events| - 1], events[|events| - 1];
      EarlierIdsAreFree(env, s, events);
      InvAlways(env, s, init);
      NextKeepsInv(env, After(env, s, init).value, last);
    }
  }

  /** In every interleaving, a call that returns got the reply made from its own
      request, under its own correlation id; and a call still waiting has at most
      that reply to read. */
  lemma EveryAnswerIsItsOwn(env: Env, s: State, events: seq<Event>, t: nat)
    requires Started(s) && IdsAreFree(env, s, events) && After(env, s, events).Some?
    requires t < |After(env, s, events).value.callers|
    ensures var end := After(env, s, events).value;
            var c := end.callers[t];
            && (c.stage.Answered? ==>
                  ReplyTo(env, c.topic, RequestOf(c, t)) == Some(c.stage.reply) &&
                  Some(c.stage.reply.payload) == env.handler(c.topic, c.name, c.payload) &&
                  c.stage.reply.name == env.replyName(c.topic) &&
                  c.stage.reply.correlationId == c.correlationId && c.stage.reply.origin == t)
            && (c.stage.Waiting? && Box(end.broker, c.stage.sub) != [] ==>
                  ReplyTo(env, c.topic, RequestOf(c, t)) == Some(Box(end.broker, c.stage.sub)[0]))
  {
    InvAlways(env, s, events);
    assert Mail(env, After(env, s, events).value, t);
  }

  // ---------------------------------------------------------------------
  // Reusing an id while its request is still queued
  // ---------------------------------------------------------------------

  const ECHO := Env((topic: string, name: string, payload: string) => Some(payload), topic => "reply")

  // A caller that gave up, its request still queued, and a second caller that has
  // subscribed and sent under the same id.
  function Reused(): State {
    var gone := Caller("t", "ask", "x", "first", GaveUp);
    var waiting := Caller("t", "ask", "x", "second", Waiting(2));
    State(
      Broker(map["t" := {0}, ReplyChannel("x") := {2}], map[0 := [RequestOf(gone, 0), RequestOf(waiting, 1)], 2 := []], 3),
      map["t" := 0], map[], [gone, waiting])
  }

  function Before(): State {
    State(Broker(map["t" := {0}], map[0 := []], 1), map["t" := 0], map[],
          [Caller("t", "ask", "x", "first", Idle), Caller("t", "ask", "x", "second", Idle)])
  }

  const FIRST := Caller("t", "ask", "x", "first", Idle)
  const SECOND := Caller("t", "ask", "x", "second", Idle)

  function Midway(subs: map<string, set<nat>>, boxes: map<nat, seq<Message>>, next: nat, one: Stage, two: Stage): State {
    State(Broker(subs, boxes, next), map["t" := 0], map[], [FIRST.(stage := one), SECOND.(stage := two)])
  }

  function Asked(): Message {
    RequestOf(FIRST, 0)
  }

  function Subscribed(): State {
    Midway(map["t" := {0}, ReplyChannel("x") := {1}], map[0 := [], 1 := []], 2, Listening(1), Idle)
  }

  function Sent(): State {
    Midway(map["t" := {0}, ReplyChannel("x") := {1}], map[0 := [Asked()], 1 := []], 2, Waiting(1), Idle)
  }

  function Expired(): State {
    Midway(map["t" := {0}], map[0 := [Asked()]], 2, GaveUp, Idle)
  }

  function Resubscribed(): State {
    Midway(map["t" := {0}, ReplyChannel("x") := {2}], map[0 := [Asked()], 2 := []], 3, GaveUp, Listening(2))
  }

  lemma FirstSubscribes()
    ensures Next(ECHO, Before(), Subscribe(0)) == Some(Subscribed())
  {
    var x, s := ReplyChannel("x"), Before();
    assert x[0] == 'r';
    assert SubsOf(s.broker, x) == {};
    assert Opened(s.broker, x).subs[x] == {1};
    assert Opened(s.broker, x).subs == Subscribed().broker.subs && Opened(s.broker, x).boxes == Subscribed().broker.boxes;
    assert WithStage(s, 0, Listening(1)).callers == Subscribed().callers;
  }

  lemma FirstSends()
    ensures Next(ECHO, Subscribed(), Send(0)) == Some(Sent())
  {
    var s := Subscribed();
    assert ReplyChannel("x")[0] == 'r';
    assert SubsOf(s.broker, "t") == {0} && Delivered([], Asked()) == [Asked()];
    assert Fanned(s.broker, "t", Asked()).boxes == Sent().broker.boxes;
    assert WithStage(s, 0, Waiting(1)).callers == Sent().callers;
  }

  lemma FirstExpires()
    ensures Next(ECHO, Sent(), Expire(0)) == Some(Expired())
  {
    var x, s := ReplyChannel("x"), Sent();
    assert x[0] == 'r';
    assert SubsOf(s.broker, x) - {1} == {};
    assert s.broker.subs - {x} == Expired().broker.subs && s.broker.boxes - {1} == Expired().broker.boxes;
    assert WithStage(s, 0, GaveUp).callers == Expired().callers;
  }

  lemma SecondSubscribes()
    ensures Next(ECHO, Expired(), Subscribe(1)) == Some(Resubscribed())
  {
    var x, s := ReplyChannel("x"), Expired();
    assert x[0] == 'r';
    assert SubsOf(s.broker, x) == {};
    assert Opened(s.broker, x).subs[x] == {2};
    assert Opened(s.broker, x).subs == Resubscribed().broker.subs && Opened(s.broker, x).boxes == Resubscribed().broker.boxes;
    assert WithStage(s, 1, Listening(2)).callers == Resubscribed().callers;
  }

  lemma SecondSends()
    ensures Next(ECHO, Resubscribed(), Send(1)) == Some(Reused())
  {
    var s := Resubscribed();
    assert ReplyChannel("x")[0] == 'r';
    assert SubsOf(s.broker, "t") == {0} && Delivered([Asked()], RequestOf(SECOND, 1)) == [Asked(), RequestOf(SECOND, 1)];
    assert Fanned(s.broker, "t", RequestOf(SECOND, 1)).boxes == Reused().broker.boxes;
    assert WithStage(s, 1, Waiting(2)).callers == Reused().callers;
  }

  lemma NobodyHasCalled()
    ensures Started(Before())
  {
    assert IsWired(Before(), "t");
  }

  lemma ReuseIsReachable()
    ensures Started(Before())
    ensures After(ECHO, Before(), [Subscribe(0), Send(0), Expire(0), Subscribe(1), Send(1)]) == Some(Reused())
  {
    hide *;
    NobodyHasCalled();
    FirstSubscribes();
    FirstSends();
    FirstExpires();
    SecondSubscribes();
    SecondSends();
    FiveSteps(ECHO, Before(), Subscribed(), Sent(), Expired(), Resubscribed(), Reused(),
              Subscribe(0), Send(0), Expire(0), Subscribe(1), Send(1));
  }

  lemma FiveSteps(env: Env, s0: State, s1: State, s2: State, s3: State, s4: State, s5: State,
                  a: Event, b: Event, c: Event, d: Event, e: Event)
    requires Next(env, s0, a) == Some(s1) && Next(env, s1, b) == Some(s2) && Next(env, s2, c) == Some(s3)
    requires Next(env, s3, d) == Some(s4) && Next(env, s4, e) == Some(s5)
    ensures After(env, s0, [a, b, c, d, e]) == Some(s5)
  {
    hide Next;
    assert [a, b, c, d, e][..4] == [a, b, c, d] && [a, b, c, d][..3] == [a, b, c] && [a, b, c][..2] == [a, b];
    assert [a, b][..1] == [a] && [a][..0] == [];
    assert After(env, s0, [a]) == Some(s1);
    assert After(env, s0, [a, b]) == Some(s2);
    assert After(env, s0, [a, b, c]) == Some(s3);
    assert After(env, s0, [a, b, c, d]) == Some(s4);
  }

  /** From there the second caller is handed the answer to the first one's request. */
  lemma ReusedIdGetsTheWrongReply()
    ensures var s := Reused();
            && !Genuine(s, "t", RequestOf(s.callers[0], 0))
            && var end := After(ECHO, s, [Take("t"), Answer("t"), Receive(1)]);
            && end.Some? && end.value.callers[1].stage == Answered(Message(0, "reply", "x", "first"))
            && ReplyTo(ECHO, "t", RequestOf(s.callers[1], 1)).value.payload == "second"
  {
    var s := Reused();
    assert Uses(s.callers[1], "x");
    var taken := ResponderStep(ECHO, s, Take("t")).value;
    assert taken.busy == map["t" := RequestOf(s.callers[0], 0)];
    var reply := Message(0, "reply", "x", "first");
    var answered := ResponderStep(ECHO, taken, Answer("t")).value;
    ReplyChannelsAreScoped("x", "x");
    assert answered.broker == Fanned(taken.broker, ReplyChannel("x"), reply);
    assert Box(answered.broker, 2) == [reply];
    var one, two, three := [Take("t")], [Take("t"), Answer("t")], [Take("t"), Answer("t"), Receive(1)];
    assert one[..0] == [] && two[..1] == one && three[..2] == two;
    assert After(ECHO, s, one) == Some(taken);
    assert After(ECHO, s, two) == Some(answered);
  }
}
