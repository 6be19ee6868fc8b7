/** Reading a stream through a consumer group
    (internal/infrastructure/adapters/queue/redis/adapter.go:229-305): consumers ask for new
    entries only and never reclaim what was given out, to another or to themselves. */
module RedisConsumer {
  import opened Sequences
  import opened Wrappers

  datatype Consumer = Reading | Given(entry: nat) | Done(entry: nat)

  /** Entries are numbered as added; the group has given out those below `next`. */
  datatype Stream = Stream(entries: nat, next: nat, consumers: map<nat, Consumer>, handled: seq<nat>, acked: set<nat>)

  /** How a read ends: with nothing, with an entry, or with an entry given out whose reply was
      lost on the way back. */
  datatype ReadResult = Nothing | Received | LostReply

  datatype Step =
    | Add
    | Join(id: nat)
    | Read(id: nat, result: ReadResult)
    | Handle(id: nat)
    | Ack(id: nat, fails: bool)
    | Crash(id: nat)

  function Apply(s: Stream, step: Step): Option<Stream> {
    match step
    case Add => Some(s.(entries := s.entries + 1))
    case Join(id) => if id in s.consumers then None else Some(s.(consumers := s.consumers[id := Reading]))
    case Read(id, result) =>
      if id !in s.consumers || !s.consumers[id].Reading? then None
      else if result.Nothing? then Some(s)
      else if s.next >= s.entries then None
      else if result.LostReply? then Some(s.(next := s.next + 1))
      else Some(s.(next := s.next + 1, consumers := s.consumers[id := Given(s.next)]))
    case Handle(id) =>
      if id !in s.consumers || !s.consumers[id].Given? then None
      else
        var entry := s.consumers[id].entry;
        Some(s.(consumers := s.consumers[id := Done(entry)], handled := s.handled + [entry]))
    case Ack(id, fails) =>
      if id !in s.consumers || !s.consumers[id].Done? then None
      else Some(s.(consumers := s.consumers[id := Reading],
                   acked := if fails then s.acked else s.acked + {s.consumers[id].entry}))
    case Crash(id) => if id !in s.consumers then None else Some(s.(consumers := s.consumers - {id}))
  }

  function RunFrom(s: Stream, steps: seq<Step>): Option<Stream> {
    if steps == [] then Some(s)
    else
      match RunFrom(s, steps[..|steps| - 1])
      case None => None
      case Some(before) => Apply(before, steps[|steps| - 1])
  }

  const EMPTY: Stream := Stream(0, 0, map[], [], {})

  predicate HandledOnce(s: Stream) {
    && (forall entry | entry in s.handled :: entry < s.next)
    && (forall i, j | 0 <= i < j < |s.handled| :: s.handled[i] != s.handled[j])
  }

  predicate GivenFresh(s: Stream) {
    forall id | id in s.consumers && s.consumers[id].Given? ::
      s.consumers[id].entry < s.next && s.consumers[id].entry !in s.handled
  }

  predicate GivenApart(s: Stream) {
    forall a, b | a in s.consumers && b in s.consumers && a != b && s.consumers[a].Given? && s.consumers[b].Given? ::
      s.consumers[a].entry != s.consumers[b].entry
  }

  predicate AcksHandled(s: Stream) {
    && (forall id | id in s.consumers && s.consumers[id].Done? :: s.consumers[id].entry in s.handled)
    && (forall entry | entry in s.acked :: entry in s.handled)
  }

  predicate Inv(s: Stream) {
    s.next <= s.entries && HandledOnce(s) && GivenFresh(s) && GivenApart(s) && AcksHandled(s)
  }

  lemma ApplyKeeps(s: Stream, step: Step)
    requires Inv(s) && Apply(s, step).Some?
    ensures Inv(Apply(s, step).value)
  {
    hide HandledOnce, GivenFresh, GivenApart, AcksHandled;
    var s' := Apply(s, step).value;
    StaysOnce(s, s', step);
    StaysFresh(s, s', step);
    StaysApart(s, s', step);
    AcksStayHandled(s, s', step);
  }

  lemma StaysOnce(s: Stream, s': Stream, step: Step)
    requires HandledOnce(s) && GivenFresh(s) && Apply(s, step) == Some(s')
    ensures HandledOnce(s')
  {}

  lemma StaysFresh(s: Stream, s': Stream, step: Step)
    requires GivenFresh(s) && GivenApart(s) && HandledOnce(s) && Apply(s, step) == Some(s')
    ensures GivenFresh(s')
  {}

  lemma StaysApart(s: Stream, s': Stream, step: Step)
    requires GivenFresh(s) && GivenApart(s) && Apply(s, step) == Some(s')
    ensures GivenApart(s')
  {}

  lemma AcksStayHandled(s: Stream, s': Stream, step: Step)
    requires AcksHandled(s) && Apply(s, step) == Some(s')
    ensures AcksHandled(s')
  {
    assert forall entry | entry in s.handled :: entry in s'.handled;
    if step.Handle? {
      assert s'.handled[|s.handled|] == s.consumers[step.id].entry;
    }
  }

  /** With any number of consumers, crashes and restarts, no entry is handled twice and every
      acknowledged entry has been handled. */
  lemma {:induction false} HandledAtMostOnce(steps: seq<Step>)
    requires RunFrom(EMPTY, steps).Some?
    ensures Inv(RunFrom(EMPTY, steps).value)
    ensures var s := RunFrom(EMPTY, steps).value;
      && (forall i, j | 0 <= i < j < |s.handled| :: s.handled[i] != s.handled[j])
      && (forall entry | entry in s.acked :: entry in s.handled)
  {
    if steps != [] {
      HandledAtMostOnce(steps[..|steps| - 1]);
      ApplyKeeps(RunFrom(EMPTY, steps[..|steps| - 1]).value, steps[|steps| - 1]);
    }
  }

  // ----- which entries are lost -----

  /** The entry was given out, was not handled, and no consumer has it. */
  predicate Orphaned(s: Stream, entry: nat) {
    && entry < s.next && entry !in s.handled
    && forall id | id in s.consumers :: s.consumers[id] != Given(entry)
  }

  /** What was orphaned is never handled, whatever happens later. */
  lemma {:induction false} OrphanStaysLost(s: Stream, steps: seq<Step>, entry: nat)
    requires Orphaned(s, entry) && RunFrom(s, steps).Some?
    ensures Orphaned(RunFrom(s, steps).value, entry)
  {
    if steps != [] {
      OrphanStaysLost(s, steps[..|steps| - 1], entry);
      OrphanStep(RunFrom(s, steps[..|steps| - 1]).value, steps[|steps| - 1], entry);
    }
  }

  lemma OrphanStep(s: Stream, step: Step, entry: nat)
    requires Orphaned(s, entry) && Apply(s, step).Some?
    ensures Orphaned(Apply(s, step).value, entry)
  {}

  /** This step orphans the entry: its consumer crashes with it in hand, or the reply that
      carried it is lost. */
  predicate OrphansAt(s: Stream, step: Step, entry: nat) {
    match step
    case Crash(id) => id in s.consumers && s.consumers[id] == Given(entry)
    case Read(_, result) => result.LostReply? && entry == s.next
    case _ => false
  }

  lemma OrphansExactly(s: Stream, step: Step, entry: nat)
    requires Inv(s) && Apply(s, step).Some?
    ensures Orphaned(Apply(s, step).value, entry) <==> Orphaned(s, entry) || OrphansAt(s, step, entry)
  {
    hide HandledOnce, AcksHandled;
    var s' := Apply(s, step).value;
    HandledBelow(s);
    if Orphaned(s, entry) {
      OrphanStep(s, step, entry);
    } else if id :| id in s.consumers && s.consumers[id] == Given(entry) {
      if step == Handle(id) {
        assert s'.handled[|s.handled|] == entry;
      } else if step != Crash(id) {
        assert s'.consumers[id] == Given(entry);
      }
    } else if entry in s.handled {
      assert s.handled <= s'.handled;
    } else if step.Read? && step.result.Received? && entry == s.next {
      assert s'.consumers[step.id] == Given(entry);
    }
  }

  lemma HandledBelow(s: Stream)
    requires HandledOnce(s)
    ensures forall entry | entry in s.handled :: entry < s.next
  {}

  ghost predicate OrphaningStep(steps: seq<Step>, n: nat, entry: nat) {
    && n < |steps| && RunFrom(EMPTY, steps[..n]).Some?
    && OrphansAt(RunFrom(EMPTY, steps[..n]).value, steps[n], entry)
  }

  /** In every run the entries given out and never to be handled are exactly those whose
      consumer crashed with them in hand or whose reply was lost. */
  lemma {:induction false} LostExactly(steps: seq<Step>, entry: nat)
    requires RunFrom(EMPTY, steps).Some?
    ensures Orphaned(RunFrom(EMPTY, steps).value, entry) <==> exists n: nat :: OrphaningStep(steps, n, entry)
  {
    if steps != [] {
      var last := |steps| - 1;
      var front, s := steps[..last], RunFrom(EMPTY, steps[..last]).value;
      LostExactly(front, entry);
      HandledAtMostOnce(front);
      hide Inv, Orphaned, OrphansAt;
      OrphansExactly(s, steps[last], entry);
      forall n: nat | n < last
        ensures OrphaningStep(front, n, entry) == OrphaningStep(steps, n, entry)
      {
        assert front[..n] == steps[..n];
      }
      if n: nat :| OrphaningStep(front, n, entry) {
        assert OrphaningStep(steps, n, entry);
      }
      assert OrphaningStep(steps, last, entry) == OrphansAt(s, steps[last], entry);
    }
  }

  // ----- the consumer's loop -----

  /** How one turn of the loop goes: the stop is seen first, or the read ends one way or
      another. */
  datatype Poll = Cancelled | ReadFails | ReplyLost | Got(ackFails: bool)

  /** The stream after one consumer alone has read on: what is new was given out since, and
      handled in order. */
  predicate ReadOn(was: Stream, s: Stream) {
    && Inv(s) && s.entries == was.entries && was.next <= s.next <= s.entries
    && was.handled <= s.handled
    && (forall i | |was.handled| <= i < |s.handled| :: was.next <= s.handled[i] < s.next)
    && (forall i, j | |was.handled| <= i < j < |s.handled| :: s.handled[i] < s.handled[j])
    && (forall entry | entry in s.acked :: entry in was.acked || was.next <= entry < s.next)
  }

  predicate AllHandled(was: Stream, s: Stream)
    requires was.next <= s.next
  {
    s.handled == was.handled + Range(was.next, s.next)
  }

  predicate AllAcked(was: Stream, s: Stream) {
    forall entry | was.next <= entry < s.next :: entry in s.acked
  }

  /** A read, the handling and the acknowledgement of what it gave. */
  function ReadHandleAck(s: Stream, id: nat, ackFails: bool): Option<Stream> {
    match Apply(s, Read(id, Received))
    case None => None
    case Some(given) =>
      match Apply(given, Handle(id))
      case None => None
      case Some(done) => Apply(done, Ack(id, ackFails))
  }

  lemma ReadHandleAckDoes(s: Stream, s': Stream, id: nat, ackFails: bool)
    requires ReadHandleAck(s, id, ackFails) == Some(s')
    ensures s'.entries == s.entries && s.next < s.entries && s'.next == s.next + 1
    ensures s'.handled == s.handled + [s.next]
    ensures s'.acked == if ackFails then s.acked else s.acked + {s.next}
  {}

  lemma ReadOne(was: Stream, s: Stream, s': Stream, id: nat, ackFails: bool)
    requires ReadOn(was, s) && ReadHandleAck(s, id, ackFails) == Some(s')
    ensures ReadOn(was, s') && s'.next == s.next + 1
    ensures AllHandled(was, s) ==> AllHandled(was, s')
    ensures AllAcked(was, s) && !ackFails ==> AllAcked(was, s')
  {
    hide Inv, ReadHandleAck;
    ReadHandleAckDoes(s, s', id, ackFails);
    KeepsInv(s, s', id, ackFails);
  }

  lemma LoseOne(was: Stream, s: Stream, id: nat)
    requires ReadOn(was, s) && Apply(s, Read(id, LostReply)).Some?
    ensures ReadOn(was, Apply(s, Read(id, LostReply)).value)
  {
    ApplyKeeps(s, Read(id, LostReply));
    hide Inv;
  }

  function Least(a: nat, b: nat): nat {
    if a < b then a else b
  }

  /** How many turns would be given an entry if there were enough. */
  function CountServed(polls: seq<Poll>): nat {
    if polls == [] then 0
    else
      var last := polls[|polls| - 1];
      CountServed(polls[..|polls| - 1]) + if last.Got? || last.ReplyLost? then 1 else 0
  }

  lemma NoneServedYet(polls: seq<Poll>)
    ensures CountServed(polls[..0]) == 0
  {}

  lemma ServedOneMore(polls: seq<Poll>, n: nat)
    requires n < |polls|
    ensures CountServed(polls[..n + 1])
         == CountServed(polls[..n]) + if polls[n].Got? || polls[n].ReplyLost? then 1 else 0
  {
    assert polls[..n + 1][..n] == polls[..n];
  }

  /** One consumer of the group, under a name of its own. */
  class Adapter {
    const id: nat
    var stream: Stream

    constructor (id: nat, stream: Stream)
      ensures this.id == id && this.stream == stream
    {
      this.id, this.stream := id, stream;
    }

    /** Left alone, the loop handles new entries in order, once each, and all of them unless a
        reply is lost; an entry whose acknowledgement was lost is not seen again.  The loop ends
        with the first turn that finds it cancelled: failed reads do not end it. */
    method ConsumeMessages(polls: seq<Poll>) returns (ghost turns: nat)
      requires id in stream.consumers && stream.consumers[id].Reading? && Inv(stream)
      modifies this
      ensures turns <= |polls| && forall i | 0 <= i < turns :: !polls[i].Cancelled?
      ensures turns < |polls| ==> polls[turns].Cancelled?
      ensures ReadOn(old(stream), stream)
      ensures stream.next == Least(old(stream.next) + CountServed(polls[..turns]), stream.entries)
      ensures ReplyLost !in polls ==> AllHandled(old(stream), stream)
      ensures (forall poll | poll in polls :: poll == Got(false)) ==>
                && AllAcked(old(stream), stream)
                && (stream.next == stream.entries || stream.next == old(stream.next) + |polls|)
    {
      hide Inv, AllAcked, AllHandled, CountServed, Range, ReadHandleAck;
      ghost var was := stream;
      turns := 0;
      var turn := 0;
      NoneRead(was);
      NoneServedYet(polls);
      while turn < |polls|
        invariant turns == turn <= |polls| && forall i | 0 <= i < turn :: !polls[i].Cancelled?
        invariant stream.next == Least(was.next + CountServed(polls[..turn]), stream.entries)
        invariant id in stream.consumers && stream.consumers[id].Reading? && ReadOn(was, stream)
        invariant ReplyLost !in polls ==> AllHandled(was, stream)
        invariant (forall i | 0 <= i < turn :: polls[i] == Got(false)) ==>
                    && AllAcked(was, stream)
                    && (stream.next == stream.entries || stream.next == was.next + turn)
      {
        var poll := polls[turn];
        assert poll in polls;
        if poll.Cancelled? {
          assert poll != Got(false);
          return;
        }
        if stream.next < stream.entries {
          ghost var before := stream;
          if poll.ReplyLost? {
            stream := stream.(next := stream.next + 1);
            LoseOne(was, before, id);
          } else if poll.Got? {
            HandleNext(poll.ackFails);
            ReadOne(was, before, stream, id, poll.ackFails);
          }
        }
        ServedOneMore(polls, turn);
        turn := turn + 1;
        turns := turn;
      }
      assert polls[..turn] == polls;
      assert forall i | 0 <= i < |polls| :: polls[i] in polls;
    }

    /** The next entry is read, handled and acknowledged. */
    method HandleNext(ackFails: bool)
      requires id in stream.consumers && stream.consumers[id].Reading? && stream.next < stream.entries
      modifies this
      ensures ReadHandleAck(old(stream), id, ackFails) == Some(stream)
      ensures id in stream.consumers && stream.consumers[id].Reading?
    {
      var entry := stream.next;
      stream := stream.(next := entry + 1, consumers := stream.consumers[id := Given(entry)]);
      HandleMessage(entry);
      Acknowledge(entry, ackFails);
    }

    method HandleMessage(entry: nat)
      requires id in stream.consumers && stream.consumers[id] == Given(entry)
      modifies this
      ensures Apply(old(stream), Handle(id)) == Some(stream)
    {
      stream := stream.(consumers := stream.consumers[id := Done(entry)], handled := stream.handled + [entry]);
    }

    method Acknowledge(entry: nat, fails: bool)
      requires id in stream.consumers && stream.consumers[id] == Done(entry)
      modifies this
      ensures Apply(old(stream), Ack(id, fails)) == Some(stream)
    {
      stream := stream.(consumers := stream.consumers[id := Reading],
                        acked := if fails then stream.acked else stream.acked + {entry});
    }
  }

  lemma KeepsInv(s: Stream, s': Stream, id: nat, ackFails: bool)
    requires Inv(s) && ReadHandleAck(s, id, ackFails) == Some(s')
    ensures Inv(s')
  {
    hide Inv, Apply;
    var given := Apply(s, Read(id, Received)).value;
    ApplyKeeps(s, Read(id, Received));
    ApplyKeeps(given, Handle(id));
    ApplyKeeps(Apply(given, Handle(id)).value, Ack(id, ackFails));
  }

  lemma NoneRead(was: Stream)
    requires Inv(was)
    ensures ReadOn(was, was) && AllHandled(was, was) && AllAcked(was, was) && was.next <= was.entries
  {}
}
