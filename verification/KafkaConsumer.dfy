/** Fetch, handle, commit
    (internal/infrastructure/adapters/queue/kafka/adapter.go:299-374): any number of consumers
    of one partition, crashes, restarts and failed commits. */
module KafkaConsumer {
  import opened Sequences
  import opened Wrappers

  datatype Doing =
    | Fetching
    | Handling(offset: nat)
    | Committing(offset: nat)

  /** `position` is the next offset the reader will fetch. */
  datatype Consumer = Consumer(position: nat, doing: Doing)

  /** `handled` lists the offsets that went through `handleMessage`, in order. */
  datatype Partition = Partition(logEnd: nat, committed: nat, consumers: map<nat, Consumer>, handled: seq<nat>)

  datatype Step =
    | Produce
    | Join(id: nat)
    | Fetch(id: nat, fails: bool)
    | Handle(id: nat)
    | Commit(id: nat, fails: bool)
    | Crash(id: nat)

  /** A consumer starts at the committed offset. A commit may come late and move it back. */
  function Apply(p: Partition, step: Step): Option<Partition> {
    match step
    case Produce => Some(p.(logEnd := p.logEnd + 1))
    case Join(id) =>
      if id in p.consumers then None
      else Some(p.(consumers := p.consumers[id := Consumer(p.committed, Fetching)]))
    case Crash(id) => if id !in p.consumers then None else Some(p.(consumers := p.consumers - {id}))
    case Fetch(id, fails) =>
      if id !in p.consumers || !p.consumers[id].doing.Fetching? then None
      else if fails then Some(p)
      else
        var c := p.consumers[id];
        if c.position >= p.logEnd then None
        else Some(p.(consumers := p.consumers[id := Consumer(c.position + 1, Handling(c.position))]))
    case Handle(id) =>
      if id !in p.consumers || !p.consumers[id].doing.Handling? then None
      else
        var offset := p.consumers[id].doing.offset;
        Some(p.(consumers := p.consumers[id := p.consumers[id].(doing := Committing(offset))],
                handled := p.handled + [offset]))
    case Commit(id, fails) =>
      if id !in p.consumers || !p.consumers[id].doing.Committing? then None
      else
        var offset := p.consumers[id].doing.offset;
        Some(p.(consumers := p.consumers[id := p.consumers[id].(doing := Fetching)],
                committed := if fails then p.committed else offset + 1))
  }

  function Run(steps: seq<Step>): Option<Partition> {
    if steps == [] then Some(Partition(0, 0, map[], []))
    else
      match Run(steps[..|steps| - 1])
      case None => None
      case Some(p) => Apply(p, steps[|steps| - 1])
  }

  // ----- at least once -----

  predicate HandledBelow(p: Partition, n: nat) {
    forall offset | 0 <= offset < n :: offset in p.handled
  }

  /** Everything the consumer has gone past has been handled, by it or by an earlier one. */
  predicate ConsumerOk(p: Partition, c: Consumer) {
    match c.doing
    case Fetching => HandledBelow(p, c.position)
    case Handling(offset) => c.position == offset + 1 && HandledBelow(p, offset)
    case Committing(offset) => c.position == offset + 1 && HandledBelow(p, offset + 1)
  }

  predicate Inv(p: Partition) {
    && HandledBelow(p, p.committed)
    && forall id | id in p.consumers :: ConsumerOk(p, p.consumers[id])
  }

  lemma ApplyKeeps(p: Partition, step: Step)
    requires Inv(p) && Apply(p, step).Some?
    ensures Inv(Apply(p, step).value)
  {
    var p' := Apply(p, step).value;
    assert forall offset | offset in p.handled :: offset in p'.handled;
    forall id | id in p'.consumers
      ensures ConsumerOk(p', p'.consumers[id])
    {
      assert id in p.consumers ==> ConsumerOk(p, p.consumers[id]);
    }
  }

  /** Across restarts and failed commits, every offset below the committed one has been through
      `handleMessage`. */
  lemma {:induction false} CommittedIsHandled(steps: seq<Step>)
    requires Run(steps).Some?
    ensures Inv(Run(steps).value)
    ensures forall offset | 0 <= offset < Run(steps).value.committed :: offset in Run(steps).value.handled
  {
    if steps != [] {
      CommittedIsHandled(steps[..|steps| - 1]);
      ApplyKeeps(Run(steps[..|steps| - 1]).value, steps[|steps| - 1]);
    }
  }

  /** A commit that succeeds moves the committed offset to where its consumer goes on, just past
      the message it handled; one that fails leaves it. */
  lemma CommitStands(steps: seq<Step>, id: nat, fails: bool)
    requires Run(steps).Some? && Apply(Run(steps).value, Commit(id, fails)).Some?
    ensures var p, p' := Run(steps).value, Apply(Run(steps).value, Commit(id, fails)).value;
      && id in p'.consumers && p'.consumers[id].doing == Fetching
      && p'.consumers[id].position == p.consumers[id].position > 0
      && p'.consumers[id].position - 1 in p'.handled
      && p'.committed == if fails then p.committed else p'.consumers[id].position
  {
    CommittedIsHandled(steps);
    assert ConsumerOk(Run(steps).value, Run(steps).value.consumers[id]);
  }

  // ----- exactly once, without crashes -----

  predicate Undisturbed(steps: seq<Step>) {
    && (forall i | 0 <= i < |steps| :: !steps[i].Crash?)
    && (forall i, j | 0 <= i < j < |steps| :: steps[i].Join? ==> !steps[j].Join?)
  }

  /** One consumer that has not crashed has handled each offset once, in order. */
  predicate InStep(p: Partition, joined: bool) {
    if !joined then p.consumers == map[] && p.handled == [] && p.committed == 0
    else
      && |p.consumers| == 1
      && forall id | id in p.consumers ::
           var c := p.consumers[id];
           && p.handled == FirstNumbers(if c.doing.Handling? then c.doing.offset else c.position)
           && (!c.doing.Fetching? ==> c.position == c.doing.offset + 1)
  }

  predicate HasJoined(steps: seq<Step>) {
    exists i | 0 <= i < |steps| :: steps[i].Join?
  }

  lemma OnlyOne(consumers: map<nat, Consumer>, id: nat, c: Consumer)
    requires id in consumers && |consumers| == 1
    ensures |consumers[id := c]| == 1 && forall other | other in consumers :: other == id
  {
    var others := consumers.Keys - {id};
    assert consumers.Keys == others + {id};
    assert |others| == 0;
    assert forall other | other in consumers :: other == id || other in others;
    assert consumers[id := c].Keys == consumers.Keys;
    assert |consumers[id := c].Keys| == 1;
  }

  lemma ApplyInStep(p: Partition, joined: bool, step: Step)
    requires InStep(p, joined) && Apply(p, step).Some? && !step.Crash? && !(joined && step.Join?)
    ensures InStep(Apply(p, step).value, joined || step.Join?)
  {
    if step.Join? {
      assert map[][step.id := Consumer(0, Fetching)].Keys == {step.id};
    } else if !step.Produce? {
      OnlyOne(p.consumers, step.id, Apply(p, step).value.consumers[step.id]);
    }
  }

  /** In a run with one consumer and no crash each message is handled exactly once, in order,
      whether commits succeed or not. */
  lemma {:induction false} UndisturbedHandlesOnce(steps: seq<Step>)
    requires Run(steps).Some? && Undisturbed(steps)
    ensures InStep(Run(steps).value, HasJoined(steps))
    ensures Run(steps).value.handled == FirstNumbers(|Run(steps).value.handled|)
  {
    if steps != [] {
      var n := |steps| - 1;
      UndisturbedHandlesOnce(steps[..n]);
      ApplyInStep(Run(steps[..n]).value, HasJoined(steps[..n]), steps[n]);
      assert HasJoined(steps) == (HasJoined(steps[..n]) || steps[n].Join?) by {
        if i :| 0 <= i < n && steps[i].Join? {
          assert steps[..n][i].Join?;
        }
        if steps[n].Join? {
          assert HasJoined(steps);
        }
      }
    }
    OffsetsLength(Run(steps).value, HasJoined(steps));
  }

  lemma OffsetsLength(p: Partition, joined: bool)
    requires InStep(p, joined)
    ensures p.handled == FirstNumbers(|p.handled|)
  {
    if joined {
      var id :| id in p.consumers;
      var c := p.consumers[id];
      RangeIs(0, if c.doing.Handling? then c.doing.offset else c.position);
    }
  }

  /** With a crash between handling and committing the same message is handled again. */
  lemma CrashHandlesTwice(id: nat)
    ensures Run(CrashRun(id)) == Some(Milestone(id, 8)) && Milestone(id, 8).handled == [0, 0]
  {
    for n: nat := 0 to 8
      invariant Run(CrashRun(id)[..n]) == Some(Milestone(id, n))
    {
      MilestoneStep(id, n);
      Extend(CrashRun(id), n);
    }
    assert CrashRun(id)[..8] == CrashRun(id);
  }

  function CrashRun(id: nat): seq<Step> {
    [Produce, Join(id), Fetch(id, false), Handle(id), Crash(id), Join(id), Fetch(id, false), Handle(id)]
  }

  function Milestone(id: nat, n: nat): Partition {
    if n == 0 then Partition(0, 0, map[], [])
    else if n == 1 then Partition(1, 0, map[], [])
    else if n == 2 then Partition(1, 0, map[id := Consumer(0, Fetching)], [])
    else if n == 3 then Partition(1, 0, map[id := Consumer(1, Handling(0))], [])
    else if n == 4 then Partition(1, 0, map[id := Consumer(1, Committing(0))], [0])
    else if n == 5 then Partition(1, 0, map[], [0])
    else if n == 6 then Partition(1, 0, map[id := Consumer(0, Fetching)], [0])
    else if n == 7 then Partition(1, 0, map[id := Consumer(1, Handling(0))], [0])
    else Partition(1, 0, map[id := Consumer(1, Committing(0))], [0, 0])
  }

  lemma MilestoneStep(id: nat, n: nat)
    requires n < 8
    ensures Apply(Milestone(id, n), CrashRun(id)[n]) == Some(Milestone(id, n + 1))
  {
    var next := Apply(Milestone(id, n), CrashRun(id)[n]);
    assert next.Some?;
    assert next.value.consumers == Milestone(id, n + 1).consumers;
    assert next.value.handled == Milestone(id, n + 1).handled;
  }

  lemma Extend(steps: seq<Step>, n: nat)
    requires n < |steps| && Run(steps[..n]).Some?
    ensures Run(steps[..n + 1]) == Apply(Run(steps[..n]).value, steps[n])
  {
    assert steps[..n + 1][..n] == steps[..n];
  }

  // ----- when a message is handled twice -----

  /** At most one consumer is in the group at a time. */
  predicate Solo(steps: seq<Step>) {
    steps == [] ||
    (var front := steps[..|steps| - 1];
     && Solo(front)
     && (steps[|steps| - 1].Join? && Run(front).Some? ==> Run(front).value.consumers == map[]))
  }

  predicate HandledTwice(p: Partition) {
    exists i, j | 0 <= i < j < |p.handled| :: p.handled[i] == p.handled[j]
  }

  /** The consumer that joined at step `i` handles something at step `j`. */
  predicate HandlesAfter(steps: seq<Step>, i: nat, j: nat) {
    && i < j < |steps| && steps[i].Join? && steps[j].Handle?
    && forall k | i < k < j :: !steps[k].Join? && !steps[k].Crash?
  }

  /** Before step `i` the committed offset had been handled: its commit had failed or never come. */
  predicate Stale(steps: seq<Step>, i: nat)
    requires i <= |steps|
  {
    Run(steps[..i]).Some? && Run(steps[..i]).value.committed in Run(steps[..i]).value.handled
  }

  /** Some consumer joined at a committed offset that had been handled, and went on to handle. */
  ghost predicate Resumes(steps: seq<Step>) {
    exists i: nat, j: nat :: HandlesAfter(steps, i, j) && Stale(steps, i)
  }

  /** When the current consumer joined. */
  function Session(steps: seq<Step>): Option<nat> {
    if steps == [] then None
    else
      match steps[|steps| - 1]
      case Join(_) => Some(|steps| - 1)
      case Crash(_) => None
      case _ => Session(steps[..|steps| - 1])
  }

  lemma {:induction false} SessionIs(steps: seq<Step>, i: nat)
    requires i < |steps| && steps[i].Join?
    requires forall k | i < k < |steps| :: !steps[k].Join? && !steps[k].Crash?
    ensures Session(steps) == Some(i)
  {
    if i < |steps| - 1 {
      SessionIs(steps[..|steps| - 1], i);
    }
  }

  lemma {:induction false} SessionJoined(steps: seq<Step>)
    ensures Session(steps).Some? ==>
      var i := Session(steps).value;
      && i < |steps| && steps[i].Join?
      && forall k | i < k < |steps| :: !steps[k].Join? && !steps[k].Crash?
  {
    if steps != [] {
      SessionJoined(steps[..|steps| - 1]);
    }
  }

  /** The offset this consumer handles next. */
  function Next(c: Consumer): nat {
    if c.doing.Handling? then c.doing.offset else c.position
  }

  /** A consumer that resumed late has a handled offset before it until it handles one; any
      other has none before it. */
  ghost predicate SessionOk(steps: seq<Step>, p: Partition) {
    match Session(steps)
    case None => p.consumers == map[]
    case Some(i) =>
      && i < |steps| && steps[i].Join? && p.consumers.Keys == {steps[i].id}
      && NextOk(p, p.consumers[steps[i].id], Stale(steps, i), Resumes(steps))
  }

  predicate NextOk(p: Partition, c: Consumer, stale: bool, resumes: bool) {
    if stale then resumes || (!c.doing.Committing? && Next(c) in p.handled) else Next(c) !in p.handled
  }

  predicate NoGaps(p: Partition) {
    forall offset | offset in p.handled :: HandledBelow(p, offset)
  }

  lemma StaleInFront(steps: seq<Step>, i: nat)
    requires i < |steps|
    ensures Stale(steps, i) == Stale(steps[..|steps| - 1], i)
  {
    assert steps[..|steps| - 1][..i] == steps[..i];
  }

  lemma ResumesStep(steps: seq<Step>)
    requires steps != []
    ensures var front := steps[..|steps| - 1];
      Resumes(steps) <==>
        Resumes(front)
        || (steps[|steps| - 1].Handle? && Session(front).Some? && Session(front).value <= |front|
            && Stale(front, Session(front).value))
  {
    hide Stale;
    var n := |steps| - 1;
    var front := steps[..n];
    if Resumes(front) {
      var i: nat, j: nat :| HandlesAfter(front, i, j) && Stale(front, i);
      StaleInFront(steps, i);
      assert HandlesAfter(steps, i, j);
    }
    SessionJoined(front);
    if steps[n].Handle? && Session(front).Some? && Stale(front, Session(front).value) {
      StaleInFront(steps, Session(front).value);
      assert HandlesAfter(steps, Session(front).value, n);
    }
    if Resumes(steps) {
      var i: nat, j: nat :| HandlesAfter(steps, i, j) && Stale(steps, i);
      StaleInFront(steps, i);
      if j < n {
        assert HandlesAfter(front, i, j);
      } else {
        SessionIs(front, i);
      }
    }
  }

  lemma TwiceStep(p: Partition, step: Step)
    requires Apply(p, step).Some?
    ensures HandledTwice(Apply(p, step).value) <==>
      HandledTwice(p) || (step.Handle? && p.consumers[step.id].doing.offset in p.handled)
  {
    var p' := Apply(p, step).value;
    if step.Handle? {
      var offset := p.consumers[step.id].doing.offset;
      var n := |p.handled|;
      if HandledTwice(p) {
        var i, j :| 0 <= i < j < n && p.handled[i] == p.handled[j];
        assert p'.handled[i] == p'.handled[j];
      }
      if offset in p.handled {
        var i :| 0 <= i < n && p.handled[i] == offset;
        assert p'.handled[i] == p'.handled[n];
      }
    }
  }

  lemma KeepsNoGaps(p: Partition, step: Step)
    requires Inv(p) && NoGaps(p) && Apply(p, step).Some?
    ensures NoGaps(Apply(p, step).value)
  {
    if step.Handle? {
      assert ConsumerOk(p, p.consumers[step.id]);
    }
  }

  /** One step of the current consumer that is neither a join nor a crash. */
  lemma NextStep(p: Partition, step: Step, stale: bool, resumes: bool)
    requires Inv(p) && NoGaps(p) && Apply(p, step).Some?
    requires step.Fetch? || step.Handle? || step.Commit?
    requires NextOk(p, p.consumers[step.id], stale, resumes)
    ensures NextOk(Apply(p, step).value, Apply(p, step).value.consumers[step.id], stale, resumes || step.Handle?)
    ensures Apply(p, step).value.consumers.Keys == p.consumers.Keys
  {
    assert ConsumerOk(p, p.consumers[step.id]);
  }

  lemma SessionStep(steps: seq<Step>, p: Partition, p': Partition)
    requires steps != [] && Run(steps[..|steps| - 1]) == Some(p) && Apply(p, steps[|steps| - 1]) == Some(p')
    requires Solo(steps) && Inv(p) && NoGaps(p) && SessionOk(steps[..|steps| - 1], p)
    ensures SessionOk(steps, p')
  {
    var n := |steps| - 1;
    var front, step := steps[..n], steps[n];
    assert step.Join? ==> p.consumers == map[];
    hide Inv, Resumes, NoGaps, Run, Solo;
    if step.Join? {
      assert p'.consumers == map[step.id := Consumer(p.committed, Fetching)];
      JoinOk(steps, p);
    } else if step.Crash? {
      assert p'.consumers.Keys == p.consumers.Keys - {step.id};
    } else if Session(front).Some? {
      var i := Session(front).value;
      StaleInFront(steps, i);
      ResumesStep(steps);
      if !step.Produce? {
        NextStep(p, step, Stale(steps, i), Resumes(front));
      }
    }
  }

  lemma JoinOk(steps: seq<Step>, p: Partition)
    requires steps != [] && steps[|steps| - 1].Join? && Run(steps[..|steps| - 1]) == Some(p)
    ensures NextOk(p, Consumer(p.committed, Fetching), Stale(steps, |steps| - 1), Resumes(steps))
  {}

  lemma {:induction false} SoloKeeps(steps: seq<Step>)
    requires Run(steps).Some? && Solo(steps)
    ensures var p := Run(steps).value;
      Inv(p) && NoGaps(p) && SessionOk(steps, p) && (HandledTwice(p) <==> Resumes(steps))
  {
    if steps == [] {
      assert !Resumes(steps);
    } else {
      var front, step := steps[..|steps| - 1], steps[|steps| - 1];
      var p, p' := Run(front).value, Run(steps).value;
      SoloKeeps(front);
      ApplyKeeps(p, step);
      KeepsNoGaps(p, step);
      SessionStep(steps, p, p');
      TwiceStep(p, step);
      ResumesStep(steps);
      SessionJoined(front);
      hide Inv, NoGaps, Resumes, HandledTwice, Solo, Run, Stale;
      assert step.Handle? ==> Session(front).Some?;
    }
  }

  /** With one consumer in the group at a time, some message is handled twice exactly when
      some consumer joined at a committed offset that had been handled, and handled something:
      a crash after handling and before the commit, or after a commit that failed. */
  lemma HandledTwiceExactly(steps: seq<Step>)
    requires Run(steps).Some? && Solo(steps)
    ensures HandledTwice(Run(steps).value) <==> Resumes(steps)
  {
    SoloKeeps(steps);
  }

  // ----- the loop, and the header scan -----

  datatype Poll = FetchFails | Fetched(commitFails: bool) | Cancelled

  /** One run of the consumer's loop, between a start and a crash or a stop. */
  class Reader {
    var position: nat
    var committed: nat
    var handled: seq<nat>

    constructor (committed: nat)
      ensures position == committed && this.committed == committed && handled == []
    {
      position, this.committed, handled := committed, committed, [];
    }

    /** `polls` is how each turn of the loop goes, and the loop ends with the first that finds
        it cancelled: failed fetches and failed commits do not end it.  Each message fetched is
        handled, and the last commit that succeeds stands. */
    method ConsumeMessages(polls: seq<Poll>) returns (ghost turns: nat)
      requires handled == [] && committed == position
      modifies this
      ensures turns <= |polls| && forall i | 0 <= i < turns :: !polls[i].Cancelled?
      ensures turns < |polls| ==> polls[turns].Cancelled?
      ensures position == old(position) + |handled| && |handled| == CountFetched(polls[..turns])
      ensures forall i | 0 <= i < |handled| :: handled[i] == old(position) + i
      ensures LastCommit(polls[..turns], old(committed), committed)
      ensures old(committed) <= committed <= position
      ensures (forall poll | poll in polls :: poll == Fetched(false)) ==>
                committed == position && |handled| == |polls|
    {
      turns := 0;
      var turn := 0;
      assert polls[..0] == [];
      while turn < |polls|
        invariant turns == turn <= |polls| && forall i | 0 <= i < turn :: !polls[i].Cancelled?
        invariant position == old(position) + |handled| && |handled| == CountFetched(polls[..turn])
        invariant forall i | 0 <= i < |handled| :: handled[i] == old(position) + i
        invariant LastCommit(polls[..turn], old(committed), committed)
        invariant old(committed) <= committed <= position
        invariant (forall poll | poll in polls :: poll == Fetched(false)) ==>
                    committed == position && |handled| == turn
      {
        var poll := polls[turn];
        assert poll in polls;
        if poll.Cancelled? {
          return;
        }
        OneMorePoll(polls, turn, old(committed), committed);
        if poll.Fetched? {
          var offset := position;
          position := position + 1;
          handled := handled + [offset];
          if !poll.commitFails {
            committed := offset + 1;
          }
        }
        turn := turn + 1;
        turns := turn;
      }
      assert polls[..turn] == polls;
    }
  }

  function CountFetched(polls: seq<Poll>): nat {
    if polls == [] then 0
    else CountFetched(polls[..|polls| - 1]) + if polls[|polls| - 1].Fetched? then 1 else 0
  }

  /** The committed offset is where it was before any commit succeeded, or one past the message
      of the last commit that did. */
  predicate LastCommit(polls: seq<Poll>, start: nat, committed: nat) {
    || (committed == start && forall i | 0 <= i < |polls| :: polls[i] != Fetched(false))
    || exists i | 0 <= i < |polls| :: LastCommitAt(polls, i, start, committed)
  }

  predicate LastCommitAt(polls: seq<Poll>, i: nat, start: nat, committed: nat)
    requires i < |polls|
  {
    && polls[i] == Fetched(false) && committed == start + CountFetched(polls[..i + 1])
    && forall j | i < j < |polls| :: polls[j] != Fetched(false)
  }

  lemma OneMorePoll(polls: seq<Poll>, n: nat, start: nat, committed: nat)
    requires n < |polls| && LastCommit(polls[..n], start, committed)
    ensures CountFetched(polls[..n + 1]) == CountFetched(polls[..n]) + if polls[n].Fetched? then 1 else 0
    ensures LastCommit(polls[..n + 1], start,
                       if polls[n] == Fetched(false) then start + CountFetched(polls[..n + 1]) else committed)
  {
    var front, longer := polls[..n], polls[..n + 1];
    assert longer[..n] == front && longer[..n + 1] == longer;
    if polls[n] == Fetched(false) {
      assert LastCommitAt(longer, n, start, start + CountFetched(longer));
    } else if i :| 0 <= i < n && LastCommitAt(front, i, start, committed) {
      assert longer[..i + 1] == front[..i + 1];
      assert LastCommitAt(longer, i, start, committed);
    }
  }

  datatype Header = Header(key: string, value: string)

  /** The value of the first header with that key, or the empty string. */
  method FindHeader(headers: seq<Header>, key: string) returns (value: string)
    ensures (forall h | h in headers :: h.key != key) ==> value == ""
    ensures forall i | 0 <= i < |headers| && headers[i].key == key ::
      (forall j | 0 <= j < i :: headers[j].key != key) ==> value == headers[i].value
  {
    value := "";
    var i := 0;
    while i < |headers|
      invariant 0 <= i <= |headers| && value == ""
      invariant forall j | 0 <= j < i :: headers[j].key != key
    {
      if headers[i].key == key {
        value := headers[i].value;
        break;
      }
      i := i + 1;
    }
  }
}
