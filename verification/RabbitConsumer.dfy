/** Receive, handle, acknowledge
    (internal/infrastructure/adapters/queue/rabbitmq/adapter.go:86-105, 255-322): one message
    at a time per consumer.  A crash returns what was not acknowledged to the queue, unless it
    leaves the queue without consumers: declared to be deleted when unused, it then goes with
    everything in it, and what is published before the next declaration is dropped. */
module RabbitConsumer {
  import opened Wrappers

  datatype Kind = Malformed | Deposit | Withdraw | AddMember | Unknown

  /** What `handleMessage` did: the handler it called, or a 400 of its own. */
  datatype Outcome = CalledDeposit | CalledWithdraw | CalledAddMember | RefusedFormat | RefusedType

  function Dispatch(kind: Kind): Outcome {
    match kind
    case Malformed => RefusedFormat
    case Deposit => CalledDeposit
    case Withdraw => CalledWithdraw
    case AddMember => CalledAddMember
    case Unknown => RefusedType
  }

  /** This is what becomes of a message of that kind: its type's handler is called, or it is
      refused as malformed or of unknown type. */
  predicate Fits(kind: Kind, outcome: Outcome) {
    && (outcome == CalledDeposit <==> kind == Deposit)
    && (outcome == CalledWithdraw <==> kind == Withdraw)
    && (outcome == CalledAddMember <==> kind == AddMember)
    && (outcome == RefusedFormat <==> kind == Malformed)
    && (outcome == RefusedType <==> kind == Unknown)
  }

  datatype Consumer = Idle | Received(message: nat) | Handled(message: nat)

  datatype Handling = Handling(message: nat, outcome: Outcome)

  /** Messages are numbered as published; `kinds` says what each is. */
  datatype Queue = Queue(
    declared: bool,
    kinds: seq<Kind>,
    ready: seq<nat>,
    consumers: map<nat, Consumer>,
    handled: seq<Handling>,
    acked: set<nat>,
    expired: set<nat>,
    dropped: set<nat>)

  datatype Step =
    | Declare
    | Publish(kind: Kind)
    | Join(id: nat)
    | Deliver(id: nat)
    | Handle(id: nat)
    | Ack(id: nat)
    | Crash(id: nat)
    | Expire

  /** The message this consumer has received and not acknowledged. */
  function Unacked(c: Consumer): seq<nat> {
    if c.Idle? then [] else [c.message]
  }

  function Messages(messages: seq<nat>): set<nat> {
    set m | m in messages
  }

  function Apply(q: Queue, step: Step): Option<Queue> {
    match step
    case Declare => Some(q.(declared := true))
    case Publish(kind) =>
      var m := |q.kinds|;
      Some(if q.declared then q.(kinds := q.kinds + [kind], ready := q.ready + [m])
           else q.(kinds := q.kinds + [kind], dropped := q.dropped + {m}))
    case Expire =>
      if q.ready == [] then None
      else Some(q.(ready := q.ready[1..], expired := q.expired + {q.ready[0]}))
    case Join(id) =>
      if id in q.consumers || !q.declared then None else Some(q.(consumers := q.consumers[id := Idle]))
    case Deliver(id) =>
      if id !in q.consumers || !q.consumers[id].Idle? || q.ready == [] then None
      else Some(q.(consumers := q.consumers[id := Received(q.ready[0])], ready := q.ready[1..]))
    case Handle(id) =>
      if id !in q.consumers || !q.consumers[id].Received? then None
      else
        var m := q.consumers[id].message;
        if m >= |q.kinds| then None
        else Some(q.(consumers := q.consumers[id := Handled(m)],
                     handled := q.handled + [Handling(m, Dispatch(q.kinds[m]))]))
    case Ack(id) =>
      if id !in q.consumers || !q.consumers[id].Handled? then None
      else Some(q.(consumers := q.consumers[id := Idle], acked := q.acked + {q.consumers[id].message}))
    case Crash(id) =>
      if id !in q.consumers then None
      else
        var rest := q.consumers - {id};
        var back := Unacked(q.consumers[id]) + q.ready;
        if rest == map[] then
          Some(q.(declared := false, consumers := rest, ready := [], dropped := q.dropped + Messages(back)))
        else Some(q.(consumers := rest, ready := back))
  }

  const EMPTY: Queue := Queue(false, [], [], map[], [], {}, {}, {})

  function Run(steps: seq<Step>): Option<Queue> {
    if steps == [] then Some(EMPTY)
    else
      match Run(steps[..|steps| - 1])
      case None => None
      case Some(q) => Apply(q, steps[|steps| - 1])
  }

  // ----- where each message is -----

  predicate InHand(q: Queue, id: nat, m: nat) {
    id in q.consumers && !q.consumers[id].Idle? && q.consumers[id].message == m
  }

  /** Every message is in at most one place: ready, in one consumer's hands, acknowledged,
      expired or dropped.  Without the queue there is nothing to hold. */
  ghost predicate Placed(q: Queue) {
    && ReadyOnce(q)
    && HandsFull(q)
    && HandsApart(q)
    && q.acked !! q.expired && q.acked !! q.dropped && q.expired !! q.dropped
    && (forall m | m in q.acked || m in q.expired || m in q.dropped :: m < |q.kinds|)
    && (!q.declared ==> q.ready == [] && q.consumers == map[])
  }

  predicate Waiting(q: Queue, m: nat) {
    m < |q.kinds| && m !in q.acked && m !in q.expired && m !in q.dropped
  }

  predicate ReadyOnce(q: Queue) {
    && (forall m | m in q.ready :: Waiting(q, m))
    && (forall i, j | 0 <= i < j < |q.ready| :: q.ready[i] != q.ready[j])
  }

  predicate HandsFull(q: Queue) {
    forall id | id in q.consumers && !q.consumers[id].Idle? ::
      Waiting(q, q.consumers[id].message) && q.consumers[id].message !in q.ready
  }

  predicate HandsApart(q: Queue) {
    forall a, b | a in q.consumers && b in q.consumers && a != b && !q.consumers[a].Idle? && !q.consumers[b].Idle? ::
      q.consumers[a].message != q.consumers[b].message
  }

  /** And in one of them it is. */
  ghost predicate NoneUnplaced(q: Queue) {
    forall m: nat | m < |q.kinds| ::
      m in q.ready || m in q.acked || m in q.expired || m in q.dropped || SomeoneHolds(q, m)
  }

  ghost predicate SomeoneHolds(q: Queue, m: nat) {
    exists id :: InHand(q, id, m)
  }

  predicate WasHandled(q: Queue, m: nat) {
    m < |q.kinds| && Handling(m, Dispatch(q.kinds[m])) in q.handled
  }

  predicate AcksHandled(q: Queue) {
    && (forall m | m in q.acked :: WasHandled(q, m))
    && (forall id | id in q.consumers && q.consumers[id].Handled? :: WasHandled(q, q.consumers[id].message))
  }

  lemma ApplyPlaces(q: Queue, step: Step)
    requires Placed(q) && Apply(q, step).Some?
    ensures Placed(Apply(q, step).value)
  {
    var q' := Apply(q, step).value;
    ReadyStaysOnce(q, q', step);
    HandsStayFull(q, q', step);
    HandsStayApart(q, q', step);
    AsideStaysApart(q, q', step);
    hide ReadyOnce, HandsFull, HandsApart, Apply;
    assert Placed(q');
  }

  /** Acknowledged, expired and dropped messages stay apart. */
  lemma AsideStaysApart(q: Queue, q': Queue, step: Step)
    requires Placed(q) && Apply(q, step) == Some(q')
    ensures q'.acked !! q'.expired && q'.acked !! q'.dropped && q'.expired !! q'.dropped
    ensures forall m | m in q'.acked || m in q'.expired || m in q'.dropped :: m < |q'.kinds|
    ensures !q'.declared ==> q'.ready == [] && q'.consumers == map[]
  {
    match step
    case Ack(id) => HandWaits(q, id);
    case Expire => ReadyWaits(q);
    case Crash(id) =>
      forall m | m in Unacked(q.consumers[id]) + q.ready
        ensures Waiting(q, m)
      {
        if m !in q.ready {
          HandWaits(q, id);
        }
      }
      hide ReadyOnce, HandsFull, HandsApart;
    case _ => hide ReadyOnce, HandsFull, HandsApart;
  }

  lemma ReadyWaits(q: Queue)
    requires ReadyOnce(q) && q.ready != []
    ensures Waiting(q, q.ready[0]) && q.ready[0] !in q.ready[1..]
  {}

  lemma AppendKeepsOnce(q: Queue, q': Queue)
    requires ReadyOnce(q) && q'.ready == q.ready + [|q.kinds|] && |q'.kinds| == |q.kinds| + 1
    requires q'.acked == q.acked && q'.expired == q.expired && q'.dropped == q.dropped && Waiting(q', |q.kinds|)
    ensures ReadyOnce(q')
  {
    forall m | m in q'.ready
      ensures Waiting(q', m)
    {
      assert m in q.ready || m == |q.kinds|;
    }
    forall i, j | 0 <= i < j < |q'.ready|
      ensures q'.ready[i] != q'.ready[j]
    {
      assert q.ready[i] in q.ready;
    }
  }

  lemma HandWaits(q: Queue, id: nat)
    requires HandsFull(q) && id in q.consumers && !q.consumers[id].Idle?
    ensures Waiting(q, q.consumers[id].message) && q.consumers[id].message !in q.ready
  {}

  lemma ReadyStaysOnce(q: Queue, q': Queue, step: Step)
    requires Placed(q) && Apply(q, step) == Some(q')
    ensures ReadyOnce(q')
  {
    hide HandsFull, HandsApart;
    match step
    case Publish(_) =>
      if q.declared {
        AppendKeepsOnce(q, q');
      }
    case Crash(id) =>
      if !q.consumers[id].Idle? {
        HandWaits(q, id);
      }
    case Ack(id) => HandWaits(q, id);
    case Deliver(_) | Expire =>
      ReadyWaits(q);
      assert forall m | m in q'.ready :: m in q.ready;
    case _ =>
  }

  lemma HandsStayFull(q: Queue, q': Queue, step: Step)
    requires Placed(q) && Apply(q, step) == Some(q')
    ensures HandsFull(q')
  {
    hide ReadyOnce;
    if step.Deliver? || step.Expire? {
      ReadyWaits(q);
      assert forall m | m in q'.ready :: m in q.ready;
    }
    forall id | id in q'.consumers && !q'.consumers[id].Idle?
      ensures Waiting(q', q'.consumers[id].message) && q'.consumers[id].message !in q'.ready
    {
      if id in q.consumers && !q.consumers[id].Idle? {
        HandWaits(q, id);
        assert step.Expire? ==> q.consumers[id].message != q.ready[0];
      }
    }
  }

  lemma HandsStayApart(q: Queue, q': Queue, step: Step)
    requires HandsApart(q) && HandsFull(q) && Apply(q, step) == Some(q')
    ensures HandsApart(q')
  {
    if step.Deliver? {
      assert q.ready[0] in q.ready;
    }
  }

  lemma StillHeld(q: Queue, q': Queue, step: Step, m: nat)
    requires Apply(q, step) == Some(q') && SomeoneHolds(q, m)
    ensures SomeoneHolds(q', m) || m in q'.acked || m in q'.ready || m in q'.dropped
  {
    var id :| InHand(q, id, m);
    if step.Crash? && step.id == id {
      assert (Unacked(q.consumers[id]) + q.ready)[0] == m;
    } else if !(step.Ack? && step.id == id) {
      assert InHand(q', id, m);
    }
  }

  lemma ApplyLosesTrackOfNone(q: Queue, step: Step)
    requires NoneUnplaced(q) && Apply(q, step).Some?
    ensures NoneUnplaced(Apply(q, step).value)
  {
    var q' := Apply(q, step).value;
    forall m: nat | m < |q'.kinds|
      ensures m in q'.ready || m in q'.acked || m in q'.expired || m in q'.dropped || SomeoneHolds(q', m)
    {
      if m == |q.kinds| {
        assert q.declared ==> q'.ready[|q.ready|] == m;
      } else if SomeoneHolds(q, m) {
        StillHeld(q, q', step, m);
      } else if m in q.ready {
        ReadyGoesOn(q, q', step, m);
      }
    }
  }

  lemma ReadyGoesOn(q: Queue, q': Queue, step: Step, m: nat)
    requires Apply(q, step) == Some(q') && m in q.ready
    ensures m in q'.ready || m in q'.expired || m in q'.dropped || SomeoneHolds(q', m)
  {
    var i :| 0 <= i < |q.ready| && q.ready[i] == m;
    match step
    case Publish(_) => assert m in q'.ready;
    case Crash(id) => assert m in Unacked(q.consumers[id]) + q.ready;
    case Deliver(id) =>
      if i == 0 {
        assert InHand(q', id, m);
      } else {
        assert q'.ready[i - 1] == m;
      }
    case Expire =>
      if i > 0 {
        assert q'.ready[i - 1] == m;
      }
    case _ =>
  }

  lemma ApplyAcksHandled(q: Queue, step: Step)
    requires AcksHandled(q) && Apply(q, step).Some?
    ensures AcksHandled(Apply(q, step).value)
  {
    var q' := Apply(q, step).value;
    forall m: nat | WasHandled(q, m)
      ensures WasHandled(q', m)
    {
      assert q'.kinds[m] == q.kinds[m];
    }
    if step.Handle? {
      var m := q.consumers[step.id].message;
      assert q'.handled[|q.handled|] == Handling(m, Dispatch(q.kinds[m]));
    }
  }

  /** Across crashes: a message that was acknowledged had been dispatched to the handler its
      type names, or refused as malformed or of unknown type; and every message is in exactly
      one place. */
  lemma {:induction false} AckedIsHandled(steps: seq<Step>)
    requires Run(steps).Some?
    ensures AcksHandled(Run(steps).value) && Placed(Run(steps).value) && NoneUnplaced(Run(steps).value)
  {
    if steps != [] {
      var q := Run(steps[..|steps| - 1]).value;
      AckedIsHandled(steps[..|steps| - 1]);
      ApplyPlaces(q, steps[|steps| - 1]);
      ApplyLosesTrackOfNone(q, steps[|steps| - 1]);
      ApplyAcksHandled(q, steps[|steps| - 1]);
    }
  }

  predicate EachFits(q: Queue) {
    forall i | 0 <= i < |q.handled| ::
      q.handled[i].message < |q.kinds| && Fits(q.kinds[q.handled[i].message], q.handled[i].outcome)
  }

  lemma ApplyFits(q: Queue, step: Step)
    requires EachFits(q) && Apply(q, step).Some?
    ensures EachFits(Apply(q, step).value)
  {}

  /** In every run each handling is the one the message's type calls for, and each acknowledged
      message has been handled so. */
  lemma {:induction false} HandledAsTyped(steps: seq<Step>)
    requires Run(steps).Some?
    ensures var q := Run(steps).value;
      && (forall i | 0 <= i < |q.handled| ::
            q.handled[i].message < |q.kinds| && Fits(q.kinds[q.handled[i].message], q.handled[i].outcome))
      && (forall m | m in q.acked :: exists i | 0 <= i < |q.handled| :: q.handled[i].message == m)
  {
    if steps != [] {
      var front := steps[..|steps| - 1];
      HandledAsTyped(front);
      ApplyFits(Run(front).value, steps[|steps| - 1]);
    }
    AckedIsHandled(steps);
    var q := Run(steps).value;
    forall m | m in q.acked
      ensures exists i | 0 <= i < |q.handled| :: q.handled[i].message == m
    {
      assert WasHandled(q, m);
      var i :| 0 <= i < |q.handled| && q.handled[i] == Handling(m, Dispatch(q.kinds[m]));
      assert q.handled[i].message == m;
    }
  }

  // ----- which messages are lost -----

  /** Published, never acknowledged, and nowhere to be delivered from. */
  ghost predicate Lost(q: Queue, m: nat) {
    m < |q.kinds| && m !in q.ready && m !in q.acked && !SomeoneHolds(q, m)
  }

  /** This step loses the message: it expires, it was in the queue or in hand when the last
      consumer left, or it is published while there is no queue. */
  predicate LosesAt(q: Queue, step: Step, m: nat) {
    match step
    case Expire => q.ready != [] && q.ready[0] == m
    case Crash(id) => id in q.consumers && q.consumers - {id} == map[] && (m in q.ready || InHand(q, id, m))
    case Publish(_) => !q.declared && m == |q.kinds|
    case _ => false
  }

  ghost predicate LosingStep(steps: seq<Step>, n: nat, m: nat) {
    n < |steps| && Run(steps[..n]).Some? && LosesAt(Run(steps[..n]).value, steps[n], m)
  }

  lemma LostIsAside(q: Queue, m: nat)
    requires Placed(q) && NoneUnplaced(q) && m < |q.kinds|
    ensures Lost(q, m) <==> m in q.expired || m in q.dropped
  {
    if SomeoneHolds(q, m) {
      var id :| InHand(q, id, m);
      HandWaits(q, id);
    }
    if m in q.ready {
      assert Waiting(q, m);
    }
  }

  lemma {:induction false} AsideExactly(steps: seq<Step>, m: nat)
    requires Run(steps).Some?
    ensures m in Run(steps).value.expired || m in Run(steps).value.dropped <==>
      exists n: nat :: LosingStep(steps, n, m)
  {
    if steps != [] {
      var last := |steps| - 1;
      var front, q := steps[..last], Run(steps[..last]).value;
      AsideExactly(front, m);
      forall n: nat | n < last
        ensures LosingStep(front, n, m) == LosingStep(steps, n, m)
      {
        assert front[..n] == steps[..n];
      }
      if exists n: nat :: LosingStep(front, n, m) {
        var n: nat :| LosingStep(front, n, m);
        assert LosingStep(steps, n, m);
      }
      assert LosingStep(steps, last, m) == LosesAt(q, steps[last], m);
      AsideStep(q, steps[last], m);
    }
  }

  lemma AsideStep(q: Queue, step: Step, m: nat)
    requires Apply(q, step).Some?
    ensures m in Apply(q, step).value.expired || m in Apply(q, step).value.dropped <==>
      m in q.expired || m in q.dropped || LosesAt(q, step, m)
  {}

  /** In every run the messages lost are exactly those that expired, were in the queue or in
      hand when its last consumer left, or were published while there was no queue. */
  lemma LostExactly(steps: seq<Step>, m: nat)
    requires Run(steps).Some? && m < |Run(steps).value.kinds|
    ensures Lost(Run(steps).value, m) <==> exists n: nat :: LosingStep(steps, n, m)
  {
    AckedIsHandled(steps);
    LostIsAside(Run(steps).value, m);
    AsideExactly(steps, m);
  }

  /** A consumer that is alone and crashes with the first message in hand. */
  function LosingRun(id: nat, kind: Kind): seq<Step> {
    [Declare, Join(id), Publish(kind), Deliver(id), Crash(id)]
  }

  function Milestone(id: nat, kind: Kind, n: nat): Queue {
    match n
    case 0 => EMPTY
    case 1 => EMPTY.(declared := true)
    case 2 => EMPTY.(declared := true, consumers := map[id := Idle])
    case 3 => EMPTY.(declared := true, consumers := map[id := Idle], kinds := [kind], ready := [0])
    case 4 => EMPTY.(declared := true, consumers := map[id := Received(0)], kinds := [kind])
    case _ => EMPTY.(kinds := [kind], dropped := {0})
  }

  lemma MilestoneStep(id: nat, kind: Kind, n: nat)
    requires n < 5
    ensures Apply(Milestone(id, kind, n), LosingRun(id, kind)[n]) == Some(Milestone(id, kind, n + 1))
  {
    var q, next := Milestone(id, kind, n), Milestone(id, kind, n + 1);
    if n == 3 {
      assert q.ready[1..] == [] && q.consumers[id := Received(0)] == next.consumers;
    } else if n == 4 {
      assert q.consumers - {id} == map[];
      assert Unacked(q.consumers[id]) + q.ready == [0];
      assert q.dropped + Messages([0]) == {0};
    } else if n > 0 {
      assert map[][id := Idle] == map[id := Idle];
      assert q.kinds + [kind] == [kind] && q.ready + [0] == [0];
    }
  }

  /** It takes the message with it: never handled, and lost. */
  lemma LastCrashLoses(id: nat, kind: Kind)
    ensures var end := Run(LosingRun(id, kind));
      end.Some? && end.value.handled == [] && Lost(end.value, 0)
  {
    var steps := LosingRun(id, kind);
    for n: nat := 0 to 5
      invariant Run(steps[..n]) == Some(Milestone(id, kind, n))
    {
      MilestoneStep(id, kind, n);
      assert steps[..n + 1][..n] == steps[..n];
    }
    assert steps[..5] == steps;
  }

  // ----- when a message is handled twice -----

  predicate WasSeen(q: Queue, m: nat) {
    exists i | 0 <= i < |q.handled| :: q.handled[i].message == m
  }

  predicate HandledTwice(q: Queue) {
    exists i, j | 0 <= i < j < |q.handled| :: q.handled[i].message == q.handled[j].message
  }

  predicate AboutToAck(q: Queue, m: nat) {
    exists id | id in q.consumers :: q.consumers[id] == Handled(m)
  }

  /** At step `i` a consumer crashes between handling the message and acknowledging it. */
  ghost predicate CrashedAfter(steps: seq<Step>, i: nat, m: nat) {
    && i < |steps| && steps[i].Crash? && Run(steps[..i]).Some?
    && var q := Run(steps[..i]).value;
       steps[i].id in q.consumers && q.consumers[steps[i].id] == Handled(m)
  }

  ghost predicate HandlesAt(steps: seq<Step>, j: nat, m: nat) {
    && j < |steps| && steps[j].Handle? && Run(steps[..j]).Some?
    && var q := Run(steps[..j]).value;
       steps[j].id in q.consumers && q.consumers[steps[j].id] == Received(m)
  }

  /** Some message is handled after a consumer crashed between handling and acknowledging it. */
  ghost predicate Redelivered(steps: seq<Step>) {
    exists m: nat, i: nat, j: nat :: i < j && CrashedAfter(steps, i, m) && HandlesAt(steps, j, m)
  }

  ghost predicate EverCrashedAfter(steps: seq<Step>, m: nat) {
    exists i: nat :: CrashedAfter(steps, i, m)
  }

  /** Where a handled message can be, and what a crash after handling has handled. */
  ghost predicate Traced(steps: seq<Step>, q: Queue) {
    && (forall m: nat | WasSeen(q, m) :: m in q.acked || AboutToAck(q, m) || EverCrashedAfter(steps, m))
    && (forall m: nat | EverCrashedAfter(steps, m) :: WasSeen(q, m))
  }

  lemma SameInFront(steps: seq<Step>, n: nat, m: nat)
    requires n < |steps| - 1
    ensures CrashedAfter(steps, n, m) == CrashedAfter(steps[..|steps| - 1], n, m)
    ensures HandlesAt(steps, n, m) == HandlesAt(steps[..|steps| - 1], n, m)
  {
    assert steps[..|steps| - 1][..n] == steps[..n];
  }

  lemma EverCrashedStep(steps: seq<Step>, m: nat)
    requires steps != []
    ensures EverCrashedAfter(steps, m) <==>
      EverCrashedAfter(steps[..|steps| - 1], m) || CrashedAfter(steps, |steps| - 1, m)
  {
    hide CrashedAfter;
    var front := steps[..|steps| - 1];
    if i: nat :| CrashedAfter(steps, i, m) && i < |steps| - 1 {
      SameInFront(steps, i, m);
    }
    if i: nat :| CrashedAfter(front, i, m) {
      assert i < |front| by {
        CrashedInside(front, i, m);
      }
      SameInFront(steps, i, m);
    }
    if i: nat :| CrashedAfter(steps, i, m) {
      CrashedInside(steps, i, m);
    }
  }

  lemma CrashedInside(steps: seq<Step>, i: nat, m: nat)
    requires CrashedAfter(steps, i, m)
    ensures i < |steps|
  {}

  lemma SeenStep(q: Queue, step: Step, m: nat)
    requires Apply(q, step).Some?
    ensures WasSeen(Apply(q, step).value, m) <==>
      WasSeen(q, m) || (step.Handle? && q.consumers[step.id] == Received(m))
  {
    var q' := Apply(q, step).value;
    if i :| 0 <= i < |q.handled| && q.handled[i].message == m {
      assert q'.handled[i].message == m;
    }
    if step.Handle? {
      assert q'.handled[|q.handled|].message == q.consumers[step.id].message;
    }
  }

  lemma TwiceStep(q: Queue, step: Step)
    requires Apply(q, step).Some?
    ensures HandledTwice(Apply(q, step).value) <==>
      HandledTwice(q) || (step.Handle? && WasSeen(q, q.consumers[step.id].message))
  {
    var q' := Apply(q, step).value;
    if step.Handle? {
      var n := |q.handled|;
      assert q'.handled[n].message == q.consumers[step.id].message;
      if i, j :| 0 <= i < j < n && q.handled[i].message == q.handled[j].message {
        assert q'.handled[i].message == q'.handled[j].message;
      }
      if i :| 0 <= i < n && q.handled[i].message == q'.handled[n].message {
        assert q'.handled[i].message == q'.handled[n].message;
      }
    }
  }

  lemma TracedStep(steps: seq<Step>, q: Queue, q': Queue)
    requires steps != [] && Run(steps[..|steps| - 1]) == Some(q) && Apply(q, steps[|steps| - 1]) == Some(q')
    requires Traced(steps[..|steps| - 1], q) && AcksHandled(q)
    ensures Traced(steps, q')
  {
    hide EverCrashedAfter, WasSeen;
    var n := |steps| - 1;
    var step := steps[n];
    forall m: nat
      ensures WasSeen(q', m) ==> m in q'.acked || AboutToAck(q', m) || EverCrashedAfter(steps, m)
      ensures EverCrashedAfter(steps, m) ==> WasSeen(q', m)
    {
      SeenStep(q, step, m);
      EverCrashedStep(steps, m);
      if AboutToAck(q, m) {
        var id :| id in q.consumers && q.consumers[id] == Handled(m);
        assert step == Crash(id) || step == Ack(id) || (id in q'.consumers && q'.consumers[id] == Handled(m));
      }
      if step.Handle? && q.consumers[step.id] == Received(m) {
        assert q'.consumers[step.id] == Handled(m);
      }
      if CrashedAfter(steps, n, m) {
        HandledIsSeen(q, step.id);
      }
    }
  }

  lemma HandledIsSeen(q: Queue, id: nat)
    requires AcksHandled(q) && id in q.consumers && q.consumers[id].Handled?
    ensures WasSeen(q, q.consumers[id].message)
  {
    var m := q.consumers[id].message;
    var i :| 0 <= i < |q.handled| && q.handled[i] == Handling(m, Dispatch(q.kinds[m]));
    assert q.handled[i].message == m;
  }

  /** What is in hand has been neither acknowledged nor handled by another still to acknowledge. */
  lemma ReceivedIsFree(q: Queue, id: nat)
    requires Placed(q) && id in q.consumers && q.consumers[id].Received?
    ensures q.consumers[id].message !in q.acked && !AboutToAck(q, q.consumers[id].message)
  {
    HandWaits(q, id);
  }

  /** The last step handles a message that a crash had returned after it was handled. */
  ghost predicate HandlesAgain(steps: seq<Step>, m: nat) {
    steps != [] && EverCrashedAfter(steps[..|steps| - 1], m) && HandlesAt(steps, |steps| - 1, m)
  }

  lemma RedeliveredStep(steps: seq<Step>)
    requires steps != []
    ensures Redelivered(steps) <==>
      Redelivered(steps[..|steps| - 1])
      || exists m: nat :: HandlesAgain(steps, m)
  {
    var n := |steps| - 1;
    var front := steps[..n];
    if Redelivered(steps) {
      var m: nat, i: nat, j: nat :| i < j && CrashedAfter(steps, i, m) && HandlesAt(steps, j, m);
      SameInFront(steps, i, m);
      if j < n {
        SameInFront(steps, j, m);
      } else {
        assert HandlesAgain(steps, m);
      }
    }
    if Redelivered(front) {
      var m: nat, i: nat, j: nat :| i < j && CrashedAfter(front, i, m) && HandlesAt(front, j, m);
      SameInFront(steps, i, m);
      SameInFront(steps, j, m);
    }
    if m: nat :| HandlesAgain(steps, m) {
      var i: nat :| CrashedAfter(front, i, m);
      SameInFront(steps, i, m);
    }
  }

  lemma {:induction false} RunTraced(steps: seq<Step>)
    requires Run(steps).Some?
    ensures Traced(steps, Run(steps).value)
    ensures HandledTwice(Run(steps).value) <==> Redelivered(steps)
  {
    if steps != [] {
      var n := |steps| - 1;
      var front, step := steps[..n], steps[n];
      var q, q' := Run(front).value, Run(steps).value;
      RunTraced(front);
      AckedIsHandled(front);
      TracedStep(steps, q, q');
      TwiceStep(q, step);
      RedeliveredStep(steps);
      if step.Handle? {
        ReceivedIsFree(q, step.id);
        var m := q.consumers[step.id].message;
        assert HandlesAt(steps, n, m);
        assert WasSeen(q, m) ==> HandlesAgain(steps, m);
      }
    }
  }

  /** With any number of consumers, some message is handled twice exactly when one is handled
      again after a consumer crashed between handling and acknowledging it. */
  lemma HandledTwiceExactly(steps: seq<Step>)
    requires Run(steps).Some?
    ensures HandledTwice(Run(steps).value) <==> Redelivered(steps)
  {
    RunTraced(steps);
  }

  /** In a run without crashes no message is handled twice, and what was handled is
      acknowledged or about to be. */
  lemma CrashFreeHandlesOnce(steps: seq<Step>)
    requires Run(steps).Some? && forall i | 0 <= i < |steps| :: !steps[i].Crash?
    ensures !HandledTwice(Run(steps).value)
    ensures forall m: nat | WasSeen(Run(steps).value, m) ::
      m in Run(steps).value.acked || AboutToAck(Run(steps).value, m)
  {
    RunTraced(steps);
  }

  // ----- the consumer's loop -----

  /** Where a message wants its answer; no answer is wanted at the empty address. */
  datatype Envelope = Envelope(replyTo: string, corr: string)

  datatype Answer = Answer(to: string, corr: string, outcome: Outcome)

  /** What a message is answered. A malformed one is answered even at the empty address. */
  function Answers(envelope: Envelope, kind: Kind): seq<Answer> {
    if kind.Malformed? || envelope.replyTo != "" then [Answer(envelope.replyTo, envelope.corr, Dispatch(kind))] else []
  }

  predicate Known(q: Queue, messages: seq<nat>) {
    forall i | 0 <= i < |messages| :: messages[i] < |q.kinds|
  }

  /** The answers to some messages, in order. */
  function AllAnswers(envelopes: seq<Envelope>, q: Queue, messages: seq<nat>): seq<Answer>
    requires Known(q, messages) && |q.kinds| == |envelopes|
  {
    if messages == [] then []
    else
      var m := messages[|messages| - 1];
      AllAnswers(envelopes, q, messages[..|messages| - 1]) + Answers(envelopes[m], q.kinds[m])
  }

  /** How some messages are handled, in order. */
  function Handlings(q: Queue, messages: seq<nat>): seq<Handling>
    requires Known(q, messages)
  {
    if messages == [] then []
    else
      var m := messages[|messages| - 1];
      Handlings(q, messages[..|messages| - 1]) + [Handling(m, Dispatch(q.kinds[m]))]
  }

  /** The queue after its first `n` waiting messages were served. */
  ghost predicate Served(was: Queue, q: Queue, n: nat)
    requires n <= |was.ready| && Known(was, was.ready)
  {
    && Placed(q) && q.ready == was.ready[n..] && q.kinds == was.kinds
    && q.expired == was.expired && q.dropped == was.dropped && q.declared == was.declared
    && q.acked == was.acked + Messages(was.ready[..n])
    && q.handled == was.handled + Handlings(was, was.ready[..n])
  }

  lemma PlacedKnown(q: Queue)
    requires Placed(q)
    ensures Known(q, q.ready)
  {
    forall i | 0 <= i < |q.ready|
      ensures q.ready[i] < |q.kinds|
    {
      assert q.ready[i] in q.ready && Waiting(q, q.ready[i]);
    }
  }

  /** Serving one message is a delivery, a handling and an acknowledgement. */
  function Serve(q: Queue, id: nat): Option<Queue> {
    match Apply(q, Deliver(id))
    case None => None
    case Some(delivered) =>
      match Apply(delivered, Handle(id))
      case None => None
      case Some(done) => Apply(done, Ack(id))
  }

  lemma ServeDoes(q: Queue, end: Queue, id: nat)
    requires Serve(q, id) == Some(end)
    ensures q.ready != [] && q.ready[0] < |q.kinds| && end.ready == q.ready[1..] && end.kinds == q.kinds
    ensures end.expired == q.expired && end.dropped == q.dropped && end.declared == q.declared
    ensures end.acked == q.acked + {q.ready[0]}
    ensures end.handled == q.handled + [Handling(q.ready[0], Dispatch(q.kinds[q.ready[0]]))]
    ensures id in end.consumers && end.consumers[id].Idle?
  {}

  lemma ServeOne(was: Queue, q: Queue, n: nat, end: Queue, id: nat)
    requires n < |was.ready| && Known(was, was.ready) && Served(was, q, n)
    requires Serve(q, id) == Some(end)
    ensures Served(was, end, n + 1)
    ensures id in end.consumers && end.consumers[id].Idle?
  {
    hide Placed, Serve;
    KeepsPlaced(q, end, id);
    ServeDoes(q, end, id);
    assert was.ready[..n + 1][..n] == was.ready[..n];
    assert was.ready[n..][1..] == was.ready[n + 1..];
    MessagesOneMore(was.ready, n);
  }

  lemma MessagesOneMore(messages: seq<nat>, n: nat)
    requires n < |messages|
    ensures Messages(messages[..n + 1]) == Messages(messages[..n]) + {messages[n]}
  {
    assert messages[..n + 1] == messages[..n] + [messages[n]];
  }

  lemma NoneServed(was: Queue)
    requires Placed(was) && Known(was, was.ready)
    ensures Served(was, was, 0) && was.ready[..0] == []
  {
    hide Placed;
    assert Messages(was.ready[..0]) == {};
  }

  lemma AllServed(was: Queue, q: Queue)
    requires Known(was, was.ready) && Served(was, q, |was.ready|)
    ensures Placed(q)
    ensures q.acked == was.acked + Messages(was.ready) && q.handled == was.handled + Handlings(was, was.ready)
  {
    hide Placed;
    assert was.ready[..|was.ready|] == was.ready;
  }

  /** One consumer of the queue. */
  class Adapter {
    const id: nat
    var queue: Queue
    var answers: seq<Answer>

    constructor (id: nat, queue: Queue)
      ensures this.id == id && this.queue == queue && answers == []
    {
      this.id, this.queue, answers := id, queue, [];
    }

    /** Handling ends in the acknowledgement, whatever the handler answered. */
    method HandleMessage(envelope: Envelope)
      requires id in queue.consumers && queue.consumers[id].Received?
      requires queue.consumers[id].message < |queue.kinds|
      modifies this
      ensures Apply(old(queue), Handle(id)).Some?
      ensures Apply(Apply(old(queue), Handle(id)).value, Ack(id)) == Some(queue)
      ensures answers == old(answers) + Answers(envelope, old(queue.kinds[queue.consumers[id].message]))
      ensures |queue.handled| == |old(queue.handled)| + 1 && old(queue.handled) <= queue.handled
      ensures var m, last := old(queue.consumers[id].message), queue.handled[|old(queue.handled)|];
        && last.message == m && Fits(old(queue.kinds)[m], last.outcome) && m in queue.acked
        && (if old(queue.kinds)[m].Malformed? || envelope.replyTo != ""
            then answers == old(answers) + [Answer(envelope.replyTo, envelope.corr, last.outcome)]
            else answers == old(answers))
    {
      var m := queue.consumers[id].message;
      var kind := queue.kinds[m];
      var outcome := RefusedFormat;
      if kind.Malformed? {
        answers := answers + [Answer(envelope.replyTo, envelope.corr, RefusedFormat)];
      } else {
        match kind {
          case Deposit => outcome := CalledDeposit;
          case Withdraw => outcome := CalledWithdraw;
          case AddMember => outcome := CalledAddMember;
          case _ => outcome := RefusedType;
        }
        if envelope.replyTo != "" {
          answers := answers + [Answer(envelope.replyTo, envelope.corr, outcome)];
        }
      }
      queue := queue.(consumers := queue.consumers[id := Handled(m)],
                      handled := queue.handled + [Handling(m, outcome)]);
      queue := queue.(consumers := queue.consumers[id := Idle], acked := queue.acked + {m});
    }

    /** One turn of the loop: the next message is received, handled and acknowledged. */
    method ServeNext(envelopes: seq<Envelope>)
      requires id in queue.consumers && queue.consumers[id].Idle?
      requires queue.ready != [] && queue.ready[0] < |queue.kinds| == |envelopes|
      modifies this
      ensures Serve(old(queue), id) == Some(queue)
      ensures answers == old(answers)
                         + Answers(envelopes[old(queue).ready[0]], old(queue).kinds[old(queue).ready[0]])
    {
      var m := queue.ready[0];
      queue := queue.(consumers := queue.consumers[id := Received(m)], ready := queue.ready[1..]);
      HandleMessage(envelopes[m]);
    }

    /** Left alone, the loop empties the queue first come first served: each message waiting is
        handled once, answered and acknowledged. */
    method Consume(envelopes: seq<Envelope>)
      requires id in queue.consumers && queue.consumers[id].Idle? && Placed(queue)
      requires |envelopes| == |queue.kinds|
      modifies this
      ensures Known(old(queue), old(queue).ready)
      ensures Placed(queue) && queue.ready == [] && queue.kinds == old(queue).kinds
      ensures queue.acked == old(queue).acked + Messages(old(queue).ready)
      ensures queue.handled == old(queue).handled + Handlings(old(queue), old(queue).ready)
      ensures answers == old(answers) + AllAnswers(envelopes, old(queue), old(queue).ready)
    {
      hide Placed, Served, Serve, Handlings, Messages, Answers;
      ghost var was := queue;
      ghost var n := 0;
      PlacedKnown(was);
      NoneServed(was);
      ServedReady(was, queue, 0);
      while queue.ready != []
        invariant n <= |was.ready| && queue.ready == was.ready[n..] && queue.kinds == was.kinds
        invariant queue.ready != [] ==> queue.ready[0] == was.ready[n] < |queue.kinds|
        invariant id in queue.consumers && queue.consumers[id].Idle?
        invariant Served(was, queue, n)
        invariant answers == old(answers) + AllAnswers(envelopes, was, was.ready[..n])
        decreases |queue.ready|
      {
        ghost var before := queue;
        ServeNext(envelopes);
        ServeOne(was, before, n, queue, id);
        KnownPrefix(was, n + 1);
        n := n + 1;
        ServedReady(was, queue, n);
      }
      AllServed(was, queue);
      assert was.ready[..n] == was.ready;
    }
  }

  lemma KnownPrefix(q: Queue, n: nat)
    requires Known(q, q.ready) && 0 < n <= |q.ready|
    ensures Known(q, q.ready[..n]) && q.ready[..n][..n - 1] == q.ready[..n - 1]
    ensures q.ready[..n][n - 1] == q.ready[n - 1]
  {}

  lemma KeepsPlaced(q: Queue, end: Queue, id: nat)
    requires Placed(q) && Serve(q, id) == Some(end)
    ensures Placed(end)
  {
    hide Placed, Apply;
    var delivered := Apply(q, Deliver(id)).value;
    ApplyPlaces(q, Deliver(id));
    ApplyPlaces(delivered, Handle(id));
    ApplyPlaces(Apply(delivered, Handle(id)).value, Ack(id));
  }

  lemma ServedReady(was: Queue, q: Queue, n: nat)
    requires n <= |was.ready| && Known(was, was.ready) && Served(was, q, n)
    ensures q.ready == was.ready[n..] && q.kinds == was.kinds
    ensures q.ready != [] ==> n < |was.ready| && q.ready[0] == was.ready[n] < |q.kinds|
  {}
}
