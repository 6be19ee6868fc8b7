/** Request and reply over a queue, for any number of concurrent callers
    (internal/infrastructure/adapters/queue/rabbitmq/adapter.go:107-196, 286-346 and
    internal/infrastructure/adapters/queue/redis/adapter.go:122-182, 268-322).

    RabbitMQ gives each caller an exclusive reply queue with a name of its own and checks the
    correlation id; Redis derives the reply list from the correlation id and checks nothing.
    Requests may be delivered late, more than once or never; replies may arrive after their
    caller gave up. */
module RequestReply {
  import opened Wrappers

  datatype Transport = Rabbit | Redis

  /** Where replies go: an auto-named queue, or a list under a key. */
  datatype Address = Queue(number: nat) | List(key: string)

  /** A published request. `caller` and `request` say whose it is. */
  datatype Message = Message(corr: string, replyTo: Address, caller: nat, request: string)

  /** A reply, with the message it answers. */
  datatype Reply = Reply(corr: string, result: string, about: Message)

  datatype Phase =
    | Preparing
    | Publishing(address: Address, corr: string)
    | Waiting(address: Address, corr: string)
    | Returned(reply: Reply)
    | Failed

  datatype Caller = Caller(request: string, phase: Phase)

  /** `addresses` and `corrs` remember what each caller was given. */
  datatype State = State(
    nextQueue: nat,
    callers: map<nat, Caller>,
    addresses: map<nat, Address>,
    corrs: map<nat, string>,
    sent: seq<Message>,
    replies: map<Address, seq<Reply>>)

  /** A publish that fails may have stored the request all the same. */
  datatype Step =
    | Call(id: nat, request: string)
    | Prepare(id: nat, corr: string)
    | Publish(id: nat, fails: bool, stored: bool)
    | Handle(message: nat, result: string, lost: bool)
    | Receive(id: nat)
    | GiveUp(id: nat)
    | Discard(address: Address)

  const RESPONSES: string := "wallet:responses:"

  function RepliesAt(s: State, address: Address): seq<Reply> {
    if address in s.replies then s.replies[address] else []
  }

  function SetPhase(s: State, id: nat, phase: Phase): State
    requires id in s.callers
  {
    s.(callers := s.callers[id := s.callers[id].(phase := phase)])
  }

  function ReplyAddress(t: Transport, s: State, corr: string): Address {
    if t == Rabbit then Queue(s.nextQueue) else List(RESPONSES + corr)
  }

  /** Over Redis the reply list is named after the correlation id. */
  lemma ReplyListReads(s: State, corr: string)
    ensures ReplyAddress(Redis, s, corr) == List("wallet:responses" + (":" + corr))
  {}

  function Apply(t: Transport, s: State, step: Step): Option<State> {
    match step
    case Call(id, request) =>
      if id in s.callers then None
      else Some(s.(callers := s.callers[id := Caller(request, Preparing)]))
    case Prepare(id, corr) =>
      if id !in s.callers || s.callers[id].phase != Preparing then None
      else
        var address := ReplyAddress(t, s, corr);
        Some(SetPhase(s, id, Publishing(address, corr)).(
          nextQueue := s.nextQueue + 1,
          addresses := s.addresses[id := address], corrs := s.corrs[id := corr]))
    case Publish(id, fails, stored) =>
      if id !in s.callers || !s.callers[id].phase.Publishing? then None
      else if fails && !stored then Some(SetPhase(s, id, Failed))
      else
        var Publishing(address, corr) := s.callers[id].phase;
        Some(SetPhase(s, id, if fails then Failed else Waiting(address, corr)).(
          sent := s.sent + [Message(corr, address, id, s.callers[id].request)]))
    case Handle(message, result, lost) =>
      if message >= |s.sent| then None
      else
        var m := s.sent[message];
        if lost then Some(s)
        else Some(s.(replies := s.replies[m.replyTo := RepliesAt(s, m.replyTo) + [Reply(m.corr, result, m)]]))
    case Receive(id) =>
      if id !in s.callers || !s.callers[id].phase.Waiting? then None
      else
        var Waiting(address, corr) := s.callers[id].phase;
        var waiting := RepliesAt(s, address);
        if waiting == [] then None
        else
          var accepted := t == Redis || waiting[0].corr == corr;
          Some(SetPhase(s, id, if accepted then Returned(waiting[0]) else Failed).(
            replies := s.replies[address := waiting[1..]]))
    case GiveUp(id) =>
      if id !in s.callers || !s.callers[id].phase.Waiting? then None
      else Some(SetPhase(s, id, Failed))
    case Discard(address) => Some(s.(replies := s.replies[address := []]))
  }

  function Run(t: Transport, steps: seq<Step>): Option<State> {
    if steps == [] then Some(State(0, map[], map[], map[], [], map[]))
    else
      match Run(t, steps[..|steps| - 1])
      case None => None
      case Some(s) => Apply(t, s, steps[|steps| - 1])
  }

  /** The correlation id has not been given to another caller. */
  predicate FreshCorr(s: State, step: Step) {
    step.Prepare? ==> forall id | id in s.corrs :: s.corrs[id] != step.corr
  }

  /** Over Redis, every correlation id is fresh. */
  ghost predicate FreshRun(steps: seq<Step>) {
    steps == [] ||
    (var front := steps[..|steps| - 1];
     && FreshRun(front)
     && (Run(Redis, front).Some? ==> FreshCorr(Run(Redis, front).value, steps[|steps| - 1])))
  }

  // ----- invariant -----

  predicate Addressed(t: Transport, s: State) {
    && s.addresses.Keys == s.corrs.Keys
    && (forall id | id in s.addresses :: id in s.callers)
    && (forall id | id in s.addresses ::
          if t == Rabbit then s.addresses[id].Queue? && s.addresses[id].number < s.nextQueue
          else s.addresses[id] == List(RESPONSES + s.corrs[id]))
    && (forall a, b | a in s.addresses && b in s.addresses && a != b :: s.addresses[a] != s.addresses[b])
  }

  predicate WasGiven(s: State, id: nat, address: Address, corr: string) {
    id in s.addresses && id in s.corrs && s.addresses[id] == address && s.corrs[id] == corr
  }

  predicate PhaseOk(s: State, id: nat)
    requires id in s.callers
  {
    match s.callers[id].phase
    case Preparing => id !in s.addresses
    case Publishing(address, corr) => WasGiven(s, id, address, corr)
    case Waiting(address, corr) => WasGiven(s, id, address, corr)
    case Returned(reply) => OwnMessage(s, reply.about) && reply.about.caller == id
    case Failed => true
  }

  /** The message is its caller's: with its request, its correlation id, its reply address. */
  predicate OwnMessage(s: State, m: Message) {
    && m in s.sent && m.caller in s.callers && m.caller in s.addresses && m.caller in s.corrs
    && m.request == s.callers[m.caller].request
    && m.replyTo == s.addresses[m.caller] && m.corr == s.corrs[m.caller]
  }

  ghost predicate Inv(t: Transport, s: State) {
    && Addressed(t, s)
    && (forall id | id in s.callers :: PhaseOk(s, id))
    && (forall i | 0 <= i < |s.sent| :: OwnMessage(s, s.sent[i]))
    && (forall address, i | address in s.replies && 0 <= i < |s.replies[address]| ::
          ReplyOk(s, address, s.replies[address][i]))
  }

  predicate ReplyOk(s: State, address: Address, reply: Reply) {
    OwnMessage(s, reply.about) && reply.about.replyTo == address && reply.corr == reply.about.corr
  }

  lemma KeyInjective(a: string, b: string)
    requires RESPONSES + a == RESPONSES + b
    ensures a == b
  {
    assert (RESPONSES + a)[|RESPONSES|..] == a;
    assert (RESPONSES + b)[|RESPONSES|..] == b;
  }

  lemma PrepareKeeps(t: Transport, s: State, id: nat, corr: string)
    requires Inv(t, s) && Apply(t, s, Prepare(id, corr)).Some?
    requires t == Redis ==> FreshCorr(s, Prepare(id, corr))
    ensures Inv(t, Apply(t, s, Prepare(id, corr)).value)
  {
    var s' := Apply(t, s, Prepare(id, corr)).value;
    assert PhaseOk(s, id);
    forall a | a in s.addresses
      ensures s.addresses[a] != ReplyAddress(t, s, corr)
    {
      if t == Redis && s.addresses[a] == ReplyAddress(t, s, corr) {
        KeyInjective(s.corrs[a], corr);
      }
    }
    forall m | OwnMessage(s, m)
      ensures OwnMessage(s', m)
    {}
    forall c | c in s'.callers
      ensures PhaseOk(s', c)
    {
      assert c != id ==> PhaseOk(s, c);
    }
  }

  /** The reply at the head of a caller's address is its own, correlation id included. */
  lemma HeadIsOwn(t: Transport, s: State, id: nat)
    requires Inv(t, s) && id in s.callers && s.callers[id].phase.Waiting?
    requires RepliesAt(s, s.callers[id].phase.address) != []
    ensures var head := RepliesAt(s, s.callers[id].phase.address)[0];
      head.about.caller == id && OwnMessage(s, head.about) && head.corr == s.callers[id].phase.corr
  {
    var address := s.callers[id].phase.address;
    assert PhaseOk(s, id);
    assert ReplyOk(s, address, s.replies[address][0]);
  }

  /** Requests sent, callers known and what they were given stay. */
  predicate Remembers(s: State, s': State) {
    && s.sent <= s'.sent && s'.addresses == s.addresses && s'.corrs == s.corrs
    && forall id | id in s.callers :: id in s'.callers && s'.callers[id].request == s.callers[id].request
  }

  lemma MessageKeeps(s: State, s': State, m: Message)
    requires Remembers(s, s') && OwnMessage(s, m)
    ensures OwnMessage(s', m)
  {}

  /** A step that remembers keeps the invariant if what it changed is in order. */
  lemma KeepsIfChangesOk(t: Transport, s: State, s': State, id: nat)
    requires Inv(t, s) && Remembers(s, s') && Addressed(t, s')
    requires forall c | c in s'.callers && c != id :: c in s.callers && s'.callers[c] == s.callers[c]
    requires id in s'.callers ==> PhaseOk(s', id)
    requires forall i | |s.sent| <= i < |s'.sent| :: OwnMessage(s', s'.sent[i])
    requires forall address, i | address in s'.replies && 0 <= i < |s'.replies[address]| ::
      ReplyOk(s, address, s'.replies[address][i])
    ensures Inv(t, s')
  {
    hide Addressed;
    forall c | c in s'.callers
      ensures PhaseOk(s', c)
    {
      if c != id {
        assert PhaseOk(s, c);
        if s.callers[c].phase.Returned? {
          MessageKeeps(s, s', s.callers[c].phase.reply.about);
        }
      }
    }
    forall i | 0 <= i < |s'.sent|
      ensures OwnMessage(s', s'.sent[i])
    {
      if i < |s.sent| {
        MessageKeeps(s, s', s.sent[i]);
      }
    }
    forall address, i | address in s'.replies && 0 <= i < |s'.replies[address]|
      ensures ReplyOk(s', address, s'.replies[address][i])
    {
      MessageKeeps(s, s', s'.replies[address][i].about);
    }
  }

  lemma CallKeeps(t: Transport, s: State, id: nat, request: string)
    requires Inv(t, s) && Apply(t, s, Call(id, request)).Some?
    ensures Inv(t, Apply(t, s, Call(id, request)).value)
  {
    var s' := Apply(t, s, Call(id, request)).value;
    assert forall address, i | address in s.replies && 0 <= i < |s.replies[address]| ::
      ReplyOk(s, address, s.replies[address][i]);
    hide Inv;
    KeepsIfChangesOk(t, s, s', id);
  }

  lemma PublishKeeps(t: Transport, s: State, id: nat, fails: bool, stored: bool)
    requires Inv(t, s) && Apply(t, s, Publish(id, fails, stored)).Some?
    ensures Inv(t, Apply(t, s, Publish(id, fails, stored)).value)
  {
    hide Inv;
    var s' := Apply(t, s, Publish(id, fails, stored)).value;
    PublishSends(t, s, id, fails, stored);
    hide Apply, PhaseOk, ReplyOk, Addressed, OwnMessage;
    RepliesOk(t, s, s');
    IsAddressed(t, s);
    StaysAddressed(t, s, s');
    KeepsIfChangesOk(t, s, s', id);
  }

  lemma IsAddressed(t: Transport, s: State)
    requires Inv(t, s)
    ensures Addressed(t, s)
  {}

  /** What publishing changes: the caller's phase, and one more message sent, its own. */
  lemma PublishSends(t: Transport, s: State, id: nat, fails: bool, stored: bool)
    requires Inv(t, s) && Apply(t, s, Publish(id, fails, stored)).Some?
    ensures var s' := Apply(t, s, Publish(id, fails, stored)).value;
      && Remembers(s, s') && s'.nextQueue == s.nextQueue && s'.replies == s.replies
      && id in s.callers && s'.callers.Keys == s.callers.Keys
      && (forall c | c in s'.callers && c != id :: s'.callers[c] == s.callers[c])
      && PhaseOk(s', id)
      && forall i | |s.sent| <= i < |s'.sent| :: OwnMessage(s', s'.sent[i])
  {
    PublishIs(t, s, id, fails, stored);
    WasPublishing(t, s, id);
    hide Inv, ReplyOk, Addressed, Apply;
  }

  lemma PublishIs(t: Transport, s: State, id: nat, fails: bool, stored: bool)
    requires Apply(t, s, Publish(id, fails, stored)).Some?
    ensures id in s.callers && s.callers[id].phase.Publishing?
    ensures var Publishing(address, corr) := s.callers[id].phase;
      var message := Message(corr, address, id, s.callers[id].request);
      Apply(t, s, Publish(id, fails, stored)).value
      == s.(callers := s.callers[id := s.callers[id].(phase := if fails then Failed else Waiting(address, corr))],
            sent := if fails && !stored then s.sent else s.sent + [message])
  {}

  lemma WasPublishing(t: Transport, s: State, id: nat)
    requires Inv(t, s) && id in s.callers && s.callers[id].phase.Publishing?
    ensures WasGiven(s, id, s.callers[id].phase.address, s.callers[id].phase.corr)
  {
    assert PhaseOk(s, id);
  }

  lemma RepliesOk(t: Transport, s: State, s': State)
    requires Inv(t, s) && s'.replies == s.replies
    ensures forall address, i | address in s'.replies && 0 <= i < |s'.replies[address]| ::
      ReplyOk(s, address, s'.replies[address][i])
  {
    hide Addressed, PhaseOk, OwnMessage, ReplyOk;
  }

  lemma StaysAddressed(t: Transport, s: State, s': State)
    requires Addressed(t, s) && s'.nextQueue == s.nextQueue && s'.addresses == s.addresses && s'.corrs == s.corrs
    requires forall id | id in s.callers :: id in s'.callers
    ensures Addressed(t, s')
  {}

  lemma GiveUpKeeps(t: Transport, s: State, id: nat)
    requires Inv(t, s) && Apply(t, s, GiveUp(id)).Some?
    ensures Inv(t, Apply(t, s, GiveUp(id)).value)
  {
    var s' := Apply(t, s, GiveUp(id)).value;
    assert forall address, i | address in s.replies && 0 <= i < |s.replies[address]| ::
      ReplyOk(s, address, s.replies[address][i]);
    StaysAddressed(t, s, s');
    hide Inv, ReplyOk, Addressed;
    KeepsIfChangesOk(t, s, s', id);
  }

  lemma ReceiveKeeps(t: Transport, s: State, id: nat)
    requires Inv(t, s) && Apply(t, s, Receive(id)).Some?
    ensures Inv(t, Apply(t, s, Receive(id)).value)
  {
    var s' := Apply(t, s, Receive(id)).value;
    var address := s.callers[id].phase.address;
    HeadIsOwn(t, s, id);
    MessageKeeps(s, s', RepliesAt(s, address)[0].about);
    forall a, i | a in s'.replies && 0 <= i < |s'.replies[a]|
      ensures ReplyOk(s, a, s'.replies[a][i])
    {
      if a == address {
        assert s'.replies[a][i] == s.replies[a][i + 1];
      }
    }
    KeepsIfChangesOk(t, s, s', id);
  }

  lemma HandleKeeps(t: Transport, s: State, message: nat, result: string, lost: bool)
    requires Inv(t, s) && Apply(t, s, Handle(message, result, lost)).Some?
    ensures Inv(t, Apply(t, s, Handle(message, result, lost)).value)
  {
    var s' := Apply(t, s, Handle(message, result, lost)).value;
    if !lost {
      var m := s.sent[message];
      var id := m.caller;
      assert OwnMessage(s, m);
      assert PhaseOk(s, id);
      assert ReplyOk(s, m.replyTo, Reply(m.corr, result, m));
      KeepsIfChangesOk(t, s, s', id);
    }
  }

  lemma DiscardKeeps(t: Transport, s: State, address: Address)
    requires Inv(t, s)
    ensures Inv(t, Apply(t, s, Discard(address)).value)
  {
    var s' := Apply(t, s, Discard(address)).value;
    forall id | id in s'.callers
      ensures PhaseOk(s', id)
    {
      assert PhaseOk(s, id);
    }
    forall i | 0 <= i < |s'.sent|
      ensures OwnMessage(s', s'.sent[i])
    {
      assert OwnMessage(s, s.sent[i]);
    }
    forall a, i | a in s'.replies && 0 <= i < |s'.replies[a]|
      ensures ReplyOk(s', a, s'.replies[a][i])
    {
      assert ReplyOk(s, a, s.replies[a][i]);
    }
  }

  lemma ApplyKeeps(t: Transport, s: State, step: Step)
    requires Inv(t, s) && Apply(t, s, step).Some? && (t == Redis ==> FreshCorr(s, step))
    ensures Inv(t, Apply(t, s, step).value)
  {
    hide Inv, Apply;
    match step
    case Prepare(id, corr) => PrepareKeeps(t, s, id, corr);
    case Receive(id) => ReceiveKeeps(t, s, id);
    case Handle(message, result, lost) => HandleKeeps(t, s, message, result, lost);
    case Discard(address) => DiscardKeeps(t, s, address);
    case Call(id, request) => CallKeeps(t, s, id, request);
    case Publish(id, fails, stored) => PublishKeeps(t, s, id, fails, stored);
    case GiveUp(id) => GiveUpKeeps(t, s, id);
  }

  lemma {:induction false} RunKeeps(t: Transport, steps: seq<Step>)
    requires Run(t, steps).Some? && (t == Redis ==> FreshRun(steps))
    ensures Inv(t, Run(t, steps).value)
  {
    if steps != [] {
      var front, step := steps[..|steps| - 1], steps[|steps| - 1];
      RunKeeps(t, front);
      ApplyKeeps(t, Run(t, front).value, step);
    }
  }

  // ----- matching -----

  /** A call that returns a reply returns one made for its own message: the one that carries
      its request.  Only Redis needs fresh correlation ids for it. */
  lemma ReturnsOwnReply(t: Transport, steps: seq<Step>, id: nat)
    requires Run(t, steps).Some? && (t == Redis ==> FreshRun(steps))
    requires id in Run(t, steps).value.callers && Run(t, steps).value.callers[id].phase.Returned?
    ensures var s := Run(t, steps).value;
      var about := s.callers[id].phase.reply.about;
      about.caller == id && about in s.sent && about.request == s.callers[id].request
  {
    RunKeeps(t, steps);
    assert PhaseOk(Run(t, steps).value, id);
  }

  // ----- whose result it is -----

  /** At step `n` a handler answered message `i` of those sent by then with this reply. */
  ghost predicate HandledAt(t: Transport, steps: seq<Step>, n: nat, i: nat, reply: Reply) {
    && n < |steps| && Run(t, steps[..n]).Some? && steps[n] == Handle(i, reply.result, false)
    && i < |Run(t, steps[..n]).value.sent| && Run(t, steps[..n]).value.sent[i] == reply.about
  }

  ghost predicate Produced(t: Transport, steps: seq<Step>, reply: Reply) {
    exists n: nat, i: nat :: HandledAt(t, steps, n, i, reply)
  }

  /** Every reply waiting or returned was produced by a handler. */
  ghost predicate AllProduced(t: Transport, steps: seq<Step>, s: State) {
    && (forall address, k | address in s.replies && 0 <= k < |s.replies[address]| ::
          Produced(t, steps, s.replies[address][k]))
    && (forall id | id in s.callers && s.callers[id].phase.Returned? :: Produced(t, steps, s.callers[id].phase.reply))
  }

  lemma ProducedBefore(t: Transport, steps: seq<Step>, reply: Reply)
    requires steps != [] && Produced(t, steps[..|steps| - 1], reply)
    ensures Produced(t, steps, reply)
  {
    var front := steps[..|steps| - 1];
    var n: nat, i: nat :| HandledAt(t, front, n, i, reply);
    assert front[..n] == steps[..n];
    assert HandledAt(t, steps, n, i, reply);
  }

  /** Where a reply after a step comes from: it was there before, or the step produced it. */
  lemma ReplyBefore(t: Transport, s: State, step: Step, address: Address, k: nat)
    requires Apply(t, s, step).Some? && address in Apply(t, s, step).value.replies
    requires k < |Apply(t, s, step).value.replies[address]|
    ensures var reply := Apply(t, s, step).value.replies[address][k];
      || (address in s.replies && reply in s.replies[address])
      || (step.Handle? && step == Handle(step.message, reply.result, false)
          && step.message < |s.sent| && s.sent[step.message] == reply.about)
  {}

  lemma ReturnedBefore(t: Transport, s: State, step: Step, id: nat)
    requires Apply(t, s, step).Some? && id in Apply(t, s, step).value.callers
    requires Apply(t, s, step).value.callers[id].phase.Returned?
    ensures var reply := Apply(t, s, step).value.callers[id].phase.reply;
      || (id in s.callers && s.callers[id].phase == Returned(reply))
      || exists address | address in s.replies :: reply in s.replies[address]
  {
    if step == Receive(id) && s.callers[id].phase.Waiting? {
      assert RepliesAt(s, s.callers[id].phase.address)[0] in s.replies[s.callers[id].phase.address];
    }
  }

  lemma {:induction false} RunProduces(t: Transport, steps: seq<Step>)
    requires Run(t, steps).Some?
    ensures AllProduced(t, steps, Run(t, steps).value)
  {
    if steps != [] {
      var last := |steps| - 1;
      var s, s' := Run(t, steps[..last]).value, Run(t, steps).value;
      RunProduces(t, steps[..last]);
      hide Produced, Run, Apply;
      forall reply, address | address in s.replies && reply in s.replies[address]
        ensures Produced(t, steps, reply)
      {
        ProducedBefore(t, steps, reply);
      }
      forall address, k | address in s'.replies && 0 <= k < |s'.replies[address]|
        ensures Produced(t, steps, s'.replies[address][k])
      {
        ReplyBefore(t, s, steps[last], address, k);
        if !(address in s.replies && s'.replies[address][k] in s.replies[address]) {
          ProducedNow(t, steps, s, s'.replies[address][k]);
        }
      }
      forall id | id in s'.callers && s'.callers[id].phase.Returned?
        ensures Produced(t, steps, s'.callers[id].phase.reply)
      {
        ReturnedBefore(t, s, steps[last], id);
        if id in s.callers && s.callers[id].phase == s'.callers[id].phase {
          ProducedBefore(t, steps, s'.callers[id].phase.reply);
        }
      }
    }
  }

  lemma ProducedNow(t: Transport, steps: seq<Step>, s: State, reply: Reply)
    requires steps != [] && Run(t, steps[..|steps| - 1]) == Some(s) && steps[|steps| - 1].Handle?
    requires steps[|steps| - 1] == Handle(steps[|steps| - 1].message, reply.result, false)
    requires steps[|steps| - 1].message < |s.sent| && s.sent[steps[|steps| - 1].message] == reply.about
    ensures Produced(t, steps, reply)
  {
    assert HandledAt(t, steps, |steps| - 1, steps[|steps| - 1].message, reply);
  }

  /** What a call returns is the result some handler gave for a message that was the caller's
      own and carried its request. */
  lemma ReturnsOwnResult(t: Transport, steps: seq<Step>, id: nat) returns (n: nat, i: nat)
    requires Run(t, steps).Some? && (t == Redis ==> FreshRun(steps))
    requires id in Run(t, steps).value.callers && Run(t, steps).value.callers[id].phase.Returned?
    ensures var caller := Run(t, steps).value.callers[id];
      && n < |steps| && steps[n] == Handle(i, caller.phase.reply.result, false)
      && Run(t, steps[..n]).Some? && i < |Run(t, steps[..n]).value.sent|
      && Run(t, steps[..n]).value.sent[i].caller == id
      && Run(t, steps[..n]).value.sent[i].request == caller.request
  {
    ReturnsOwnReply(t, steps, id);
    RunProduces(t, steps);
    var reply := Run(t, steps).value.callers[id].phase.reply;
    hide Run, Apply;
    n, i :| HandledAt(t, steps, n, i, reply);
  }

  /** Over RabbitMQ, what arrives at a caller's queue always passes the correlation check. */
  lemma CorrelationAlwaysMatches(steps: seq<Step>, id: nat)
    requires Run(Rabbit, steps).Some?
    requires Apply(Rabbit, Run(Rabbit, steps).value, Receive(id)).Some?
    ensures Apply(Rabbit, Run(Rabbit, steps).value, Receive(id)).value.callers[id].phase.Returned?
  {
    RunKeeps(Rabbit, steps);
    HeadIsOwn(Rabbit, Run(Rabbit, steps).value, id);
  }

  /** Two callers given the same correlation id. */
  datatype Collision = Collision(a: nat, b: nat, corr: string, requestA: string, requestB: string, result: string)

  /** Over Redis freshness is needed: any two callers given the same correlation id can be
      served each other's reply. */
  function CollidingRun(c: Collision): seq<Step> {
    [Call(c.a, c.requestA), Call(c.b, c.requestB), Prepare(c.a, c.corr), Prepare(c.b, c.corr),
     Publish(c.a, false, true), Publish(c.b, false, true), Handle(1, c.result, false), Receive(c.a)]
  }

  function Both(c: Collision, pa: Phase, pb: Phase): map<nat, Caller> {
    map[c.a := Caller(c.requestA, pa), c.b := Caller(c.requestB, pb)]
  }

  function ReplyToB(c: Collision): Reply {
    Reply(c.corr, c.result, Message(c.corr, List(RESPONSES + c.corr), c.b, c.requestB))
  }

  /** The states of that run. */
  function Collided(c: Collision, n: nat): State {
    var address := List(RESPONSES + c.corr);
    var ma, mb := Message(c.corr, address, c.a, c.requestA), Message(c.corr, address, c.b, c.requestB);
    var none := State(0, map[], map[], map[], [], map[]);
    var given := State(2, map[], map[c.a := address, c.b := address], map[c.a := c.corr, c.b := c.corr], [], map[]);
    var publishing, waiting := Publishing(address, c.corr), Waiting(address, c.corr);
    match n
    case 0 => none
    case 1 => none.(callers := map[c.a := Caller(c.requestA, Preparing)])
    case 2 => none.(callers := Both(c, Preparing, Preparing))
    case 3 => State(1, Both(c, publishing, Preparing), map[c.a := address], map[c.a := c.corr], [], map[])
    case 4 => given.(callers := Both(c, publishing, publishing))
    case 5 => given.(callers := Both(c, waiting, publishing), sent := [ma])
    case 6 => given.(callers := Both(c, waiting, waiting), sent := [ma, mb])
    case 7 => given.(callers := Both(c, waiting, waiting), sent := [ma, mb], replies := map[address := [ReplyToB(c)]])
    case _ =>
      given.(callers := Both(c, Returned(ReplyToB(c)), waiting), sent := [ma, mb], replies := map[address := []])
  }

  lemma PreparedStep(c: Collision, n: nat)
    requires c.a != c.b && n < 4
    ensures Apply(Redis, Collided(c, n), CollidingRun(c)[n]) == Some(Collided(c, n + 1))
  {
    var s, s' := Collided(c, n), Collided(c, n + 1);
    var id := if n % 2 == 0 then c.a else c.b;
    assert s.callers[id := s'.callers[id]] == s'.callers;
    if n >= 2 {
      assert s.addresses[id := List(RESPONSES + c.corr)] == s'.addresses && s.corrs[id := c.corr] == s'.corrs;
    }
  }

  lemma PublishedStep(c: Collision, n: nat)
    requires c.a != c.b && 4 <= n < 6
    ensures Apply(Redis, Collided(c, n), CollidingRun(c)[n]) == Some(Collided(c, n + 1))
  {
    var s, s' := Collided(c, n), Collided(c, n + 1);
    var id := if n == 4 then c.a else c.b;
    assert s.callers[id := s'.callers[id]] == s'.callers;
    assert s.sent + [s'.sent[n - 4]] == s'.sent;
  }

  lemma ServedStep(c: Collision, n: nat)
    requires c.a != c.b && 6 <= n < 8
    ensures Apply(Redis, Collided(c, n), CollidingRun(c)[n]) == Some(Collided(c, n + 1))
  {
    var s, s' := Collided(c, n), Collided(c, n + 1);
    var address := List(RESPONSES + c.corr);
    if n == 6 {
      assert RepliesAt(s, address) + [ReplyToB(c)] == s'.replies[address];
      assert s.replies[address := s'.replies[address]] == s'.replies;
    } else {
      assert s.callers[c.a := s'.callers[c.a]] == s'.callers;
      assert s.replies[address][1..] == [];
      assert s.replies[address := []] == s'.replies;
    }
  }

  lemma {:induction false} CollidedRun(c: Collision, n: nat)
    requires c.a != c.b && n <= 8
    ensures Run(Redis, CollidingRun(c)[..n]) == Some(Collided(c, n))
  {
    var steps := CollidingRun(c);
    if n > 0 {
      hide Apply, Collided;
      CollidedRun(c, n - 1);
      if n <= 4 {
        PreparedStep(c, n - 1);
      } else if n <= 6 {
        PublishedStep(c, n - 1);
      } else {
        ServedStep(c, n - 1);
      }
      assert steps[..n][..n - 1] == steps[..n - 1];
    }
  }

  lemma CollisionCrossesReplies(c: Collision)
    requires c.a != c.b
    ensures var end := Run(Redis, CollidingRun(c));
      && end.Some? && c.a in end.value.callers && end.value.callers[c.a].phase.Returned?
      && end.value.callers[c.a].phase.reply.about.caller == c.b
  {
    CollidedRun(c, 8);
    assert CollidingRun(c)[..8] == CollidingRun(c);
  }

  // ----- a call that is answered -----

  function AnsweredRun(id: nat, request: string, corr: string, result: string): seq<Step> {
    [Call(id, request), Prepare(id, corr), Publish(id, false, true), Handle(0, result, false), Receive(id)]
  }

  /** The states of that run. */
  function AnsweredSoFar(t: Transport, id: nat, request: string, corr: string, result: string, n: nat): State {
    var address := if t == Rabbit then Queue(0) else List(RESPONSES + corr);
    var m := Message(corr, address, id, request);
    var none := State(0, map[], map[], map[], [], map[]);
    var given := State(1, map[], map[id := address], map[id := corr], [], map[]);
    match n
    case 0 => none
    case 1 => none.(callers := map[id := Caller(request, Preparing)])
    case 2 => given.(callers := map[id := Caller(request, Publishing(address, corr))])
    case 3 => given.(callers := map[id := Caller(request, Waiting(address, corr))], sent := [m])
    case 4 =>
      given.(callers := map[id := Caller(request, Waiting(address, corr))], sent := [m],
             replies := map[address := [Reply(corr, result, m)]])
    case _ =>
      given.(callers := map[id := Caller(request, Returned(Reply(corr, result, m)))], sent := [m],
             replies := map[address := []])
  }

  lemma SentStep(t: Transport, id: nat, request: string, corr: string, result: string, n: nat)
    requires n < 3
    ensures Apply(t, AnsweredSoFar(t, id, request, corr, result, n), AnsweredRun(id, request, corr, result)[n])
         == Some(AnsweredSoFar(t, id, request, corr, result, n + 1))
  {
    var s, s' := AnsweredSoFar(t, id, request, corr, result, n), AnsweredSoFar(t, id, request, corr, result, n + 1);
    assert s.callers[id := s'.callers[id]] == s'.callers;
    if n == 1 {
      assert map[][id := s'.addresses[id]] == s'.addresses && map[][id := corr] == s'.corrs;
    } else if n == 2 {
      assert s.sent + [s'.sent[0]] == s'.sent;
    }
  }

  lemma HandledStep(t: Transport, id: nat, request: string, corr: string, result: string, n: nat)
    requires 3 <= n < 5
    ensures Apply(t, AnsweredSoFar(t, id, request, corr, result, n), AnsweredRun(id, request, corr, result)[n])
         == Some(AnsweredSoFar(t, id, request, corr, result, n + 1))
  {
    var s, s' := AnsweredSoFar(t, id, request, corr, result, n), AnsweredSoFar(t, id, request, corr, result, n + 1);
    var address := s.sent[0].replyTo;
    if n == 3 {
      assert RepliesAt(s, address) + [Reply(corr, result, s.sent[0])] == s'.replies[address];
    } else {
      assert s.callers[id := s'.callers[id]] == s'.callers;
      assert s.replies[address][1..] == [];
      assert s.replies[address := []] == s'.replies;
    }
  }

  /** Over both transports a call that nothing disturbs returns what its handler answered. */
  lemma CallIsAnswered(t: Transport, id: nat, request: string, corr: string, result: string)
    ensures var end := Run(t, AnsweredRun(id, request, corr, result));
      && end.Some? && id in end.value.callers && end.value.callers[id].phase.Returned?
      && end.value.callers[id].phase.reply.result == result
  {
    var steps := AnsweredRun(id, request, corr, result);
    for n: nat := 0 to 5
      invariant Run(t, steps[..n]) == Some(AnsweredSoFar(t, id, request, corr, result, n))
    {
      hide Apply, AnsweredSoFar, AnsweredRun;
      if n < 3 {
        SentStep(t, id, request, corr, result, n);
      } else {
        HandledStep(t, id, request, corr, result, n);
      }
      assert steps[..n + 1][..n] == steps[..n];
    }
    assert steps[..5] == steps;
  }

  // ----- when Redis matches -----

  /** Each caller prepares with the correlation id it is given here. */
  predicate Uses(steps: seq<Step>, ids: nat -> string) {
    forall i | 0 <= i < |steps| :: steps[i].Prepare? ==> steps[i].corr == ids(steps[i].id)
  }

  ghost predicate Distinct(ids: nat -> string) {
    forall a: nat, b: nat | a != b :: ids(a) != ids(b)
  }

  /** Over Redis no run with these ids returns a caller another one's reply. */
  ghost predicate AlwaysMatches(ids: nat -> string) {
    forall steps: seq<Step>, id: nat | Uses(steps, ids) && Returns(steps, id) :: ReturnedOwn(steps, id)
  }

  predicate Returns(steps: seq<Step>, id: nat) {
    && Run(Redis, steps).Some? && id in Run(Redis, steps).value.callers
    && Run(Redis, steps).value.callers[id].phase.Returned?
  }

  predicate ReturnedOwn(steps: seq<Step>, id: nat)
    requires Returns(steps, id)
  {
    Run(Redis, steps).value.callers[id].phase.reply.about.caller == id
  }

  /** Distinct ids are fresh whenever they are used. */
  lemma {:induction false} DistinctIsFresh(steps: seq<Step>, ids: nat -> string)
    requires Uses(steps, ids) && Distinct(ids) && Run(Redis, steps).Some?
    ensures FreshRun(steps) && Inv(Redis, Run(Redis, steps).value)
    ensures forall id | id in Run(Redis, steps).value.corrs :: Run(Redis, steps).value.corrs[id] == ids(id)
  {
    if steps != [] {
      var front, step := steps[..|steps| - 1], steps[|steps| - 1];
      DistinctIsFresh(front, ids);
      var s := Run(Redis, front).value;
      PreparedIsFresh(s, step, ids);
      ApplyKeeps(Redis, s, step);
    }
  }

  lemma PreparedIsFresh(s: State, step: Step, ids: nat -> string)
    requires Inv(Redis, s) && Distinct(ids) && Apply(Redis, s, step).Some?
    requires forall id | id in s.corrs :: s.corrs[id] == ids(id)
    requires step.Prepare? ==> step.corr == ids(step.id)
    ensures FreshCorr(s, step)
    ensures forall id | id in Apply(Redis, s, step).value.corrs :: Apply(Redis, s, step).value.corrs[id] == ids(id)
  {
    if step.Prepare? {
      assert PhaseOk(s, step.id);
    }
  }

  /** Over Redis replies are matched in every run exactly when no two callers are given the
      same correlation id. */
  lemma MatchesExactly(ids: nat -> string)
    ensures AlwaysMatches(ids) <==> Distinct(ids)
  {
    if Distinct(ids) {
      forall steps: seq<Step>, id: nat | Uses(steps, ids) && Returns(steps, id)
        ensures ReturnedOwn(steps, id)
      {
        DistinctIsFresh(steps, ids);
        ReturnsOwnReply(Redis, steps, id);
      }
    } else {
      var a: nat, b: nat :| a != b && ids(a) == ids(b);
      var c := Collision(a, b, ids(a), "", "", "");
      CollisionCrossesReplies(c);
      assert Uses(CollidingRun(c), ids) && Returns(CollidingRun(c), a);
      assert !ReturnedOwn(CollidingRun(c), a);
    }
  }
}
