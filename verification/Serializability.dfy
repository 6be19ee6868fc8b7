/** Every concurrent run is a serial one in commit order. */
module Serializability {
  import opened ConcurrentWallet
  import opened LedgerProofs
  import opened Models
  import opened MongoStore
  import opened SerialWallet
  import opened Wrappers

  /** Event `e` is the commit of client `id`. */
  predicate CommitOf(e: Event, id: nat) {
    e.Committed? && e.id == id
  }

  /** A client that has an event is a transfer with that request, answered with the receipt
      the event records, or told that the outcome of the commit is unknown. */
  predicate Answers(c: Client, e: Event)
    requires e.Committed?
  {
    && c.Transfer? && c.action == e.action && c.req == e.req
    && (c.phase == Finished(e.reply) || c.phase == Finished(CommitFailed))
  }

  predicate ToldOfSuccess(c: Client) {
    c.Transfer? && c.phase.Finished? && c.phase.reply.Done?
  }

  /** The history holds a commit of the client with this receipt. */
  predicate HasReceipt(history: seq<Event>, id: nat, reply: Reply) {
    exists i | 0 <= i < |history| :: CommitOf(history[i], id) && history[i].reply == reply
  }

  /** The history holds one commit for each client that was told of success, and none for a
      client still at work, turned down, failed before its commit, or vanished. */
  predicate Recorded(s: State) {
    EachAnswered(s) && NoneTwice(s.history) && SuccessRecorded(s)
  }

  predicate EachAnswered(s: State) {
    forall i | 0 <= i < |s.history| && s.history[i].Committed? ::
      s.history[i].id in s.clients && Answers(s.clients[s.history[i].id], s.history[i])
  }

  predicate NoneTwice(history: seq<Event>) {
    forall i, j | 0 <= i < j < |history| && history[i].Committed? :: !CommitOf(history[j], history[i].id)
  }

  predicate SuccessRecorded(s: State) {
    forall id | id in s.clients && ToldOfSuccess(s.clients[id]) ::
      HasReceipt(s.history, id, s.clients[id].phase.reply)
  }

  /** A client that has not finished has no commit in the history. */
  lemma UnrecordedWhileWorking(s: State, id: nat)
    requires EachAnswered(s) && (id !in s.clients || !(s.clients[id].Transfer? && s.clients[id].phase.Finished?))
    ensures forall i | 0 <= i < |s.history| :: !CommitOf(s.history[i], id)
  {}

  /** A finished transfer takes no more steps. */
  lemma FinishedIsFinal(s: State, step: Step, id: nat)
    requires Apply(s, step).Some? && id in s.clients && s.clients[id].Transfer? && s.clients[id].phase.Finished?
    ensures id in Apply(s, step).value.clients && Apply(s, step).value.clients[id] == s.clients[id]
  {}

  /** A step shows at most one commit, its own, with the receipt it answers. */
  lemma StepEvents(s: State, id: nat, env: Env)
    requires id in s.clients && ClientStep(s, id, env).Some?
    ensures var e := ClientStep(s, id, env).value;
      && |e.events| <= 1
      && (e.events != [] && e.events[0].Committed? ==>
            && e.events[0].id == id && Answers(e.client, e.events[0])
            && s.clients[id].Transfer? && !s.clients[id].phase.Finished?)
      && (ToldOfSuccess(e.client) ==>
            (s.clients[id].Transfer? && s.clients[id].phase == Aborting(e.client.phase.reply))
            || (e.events != [] && e.events[0].Committed? && e.events[0].reply == e.client.phase.reply))
  {}

  /** No abort carries a receipt. */
  predicate AbortsFail(c: Client) {
    c.Transfer? && c.phase.Aborting? ==> !c.phase.reply.Done?
  }

  lemma AbortsFailStep(s: State, id: nat, env: Env)
    requires id in s.clients && ClientStep(s, id, env).Some?
    ensures AbortsFail(ClientStep(s, id, env).value.client)
  {}

  lemma AnswersKeep(s: State, step: Step, s': State)
    requires EachAnswered(s) && Apply(s, step) == Some(s')
    ensures EachAnswered(s')
  {
    hide ClientStep, Begin, Left;
    if step.Go? {
      StepEvents(s, step.id, step.env);
    }
    forall i | 0 <= i < |s.history| && s.history[i].Committed?
      ensures s.history[i].id in s'.clients && Answers(s'.clients[s.history[i].id], s.history[i])
    {
      FinishedIsFinal(s, step, s.history[i].id);
    }
  }

  lemma NoneTwiceKeeps(s: State, step: Step, s': State)
    requires EachAnswered(s) && NoneTwice(s.history) && Apply(s, step) == Some(s')
    ensures NoneTwice(s'.history)
  {
    hide EachAnswered, ClientStep, Begin, Left;
    if step.Go? {
      StepEvents(s, step.id, step.env);
      if s'.history != s.history && s'.history[|s.history|].Committed? {
        UnrecordedWhileWorking(s, step.id);
      }
    }
  }

  lemma SuccessKeeps(s: State, step: Step, s': State)
    requires SuccessRecorded(s) && (forall id | id in s.clients :: AbortsFail(s.clients[id]))
    requires Apply(s, step) == Some(s')
    ensures SuccessRecorded(s')
  {
    hide ClientStep;
    if step.Go? {
      StepEvents(s, step.id, step.env);
    }
    forall other | other in s'.clients && ToldOfSuccess(s'.clients[other])
      ensures HasReceipt(s'.history, other, s'.clients[other].phase.reply)
    {
      if other in s.clients && s.clients[other] == s'.clients[other] {
        var i :| 0 <= i < |s.history| && CommitOf(s.history[i], other)
                 && s.history[i].reply == s.clients[other].phase.reply;
        assert s'.history[i] == s.history[i];
      } else {
        assert CommitOf(s'.history[|s.history|], other);
      }
    }
  }

  lemma AbortsKeepFailing(s: State, step: Step, s': State)
    requires (forall id | id in s.clients :: AbortsFail(s.clients[id])) && Apply(s, step) == Some(s')
    ensures forall id | id in s'.clients :: AbortsFail(s'.clients[id])
  {
    hide ClientStep;
    if step.Go? {
      AbortsFailStep(s, step.id, step.env);
    }
  }

  lemma ApplyRecords(s: State, step: Step)
    requires Recorded(s) && (forall id | id in s.clients :: AbortsFail(s.clients[id])) && Apply(s, step).Some?
    ensures Recorded(Apply(s, step).value)
    ensures forall id | id in Apply(s, step).value.clients :: AbortsFail(Apply(s, step).value.clients[id])
  {
    hide Apply, EachAnswered, NoneTwice, SuccessRecorded, AbortsFail;
    var s' := Apply(s, step).value;
    AnswersKeep(s, step, s');
    NoneTwiceKeeps(s, step, s');
    SuccessKeeps(s, step, s');
    AbortsKeepFailing(s, step, s');
  }

  lemma {:induction false} RunRecords(init: Db, steps: seq<Step>)
    requires Run(init, steps).Some?
    ensures Recorded(Run(init, steps).value)
    ensures forall id | id in Run(init, steps).value.clients :: AbortsFail(Run(init, steps).value.clients[id])
  {
    if steps != [] {
      RunRecords(init, steps[..|steps| - 1]);
      ApplyRecords(Run(init, steps[..|steps| - 1]).value, steps[|steps| - 1]);
    }
  }

  /** Serial equivalence: whatever the interleaving, errors and vanished clients, running the
      committed bodies one at a time in commit order, each alone on the database, gives the
      same database and the same receipts; and the committed bodies are those of the clients
      that were told of success, plus some that were told the outcome is unknown. */
  lemma {:induction false} RunIsSerial(init: Db, steps: seq<Step>)
    requires Consistent(init) && Run(init, steps).Some?
    ensures var s := Run(init, steps).value;
      Replay(init, s.history) == Some(s.db) && Recorded(s)
  {
    RunKeeps(init, steps);
    RunRecords(init, steps);
  }

  // ----- the steps of a client alone compose to the serial body -----

  /** `n` calls of one client in a row, nothing failing. */
  function Alone(s: State, id: nat, env: Env, n: nat): Option<State>
    decreases n
  {
    if n == 0 then Some(s)
    else
      match Apply(s, Go(id, env))
      case None => None
      case Some(next) => Alone(next, id, env, n - 1)
  }

  /** The transfer can go through at once: validated, its account free, its body writing `st`. */
  predicate Ready(db: Db, c: Client, env: Env, st: WalletStatement) {
    && c.Transfer? && c.phase == Starting && c.session == NoSession && !env.fails
    && LatestPick(LogOf(db, c.req.Account()), env.pick)
    && ProcessOutcome(db, c.action, c.req, env.pick, env.now) == Writes(st)
  }

  /** Where it stands after `n` calls. */
  function Milestone(db: Db, c: Client, env: Env, st: WalletStatement, n: nat): Client
    requires Ready(db, c, env, st)
  {
    var key := c.req.Account();
    var user := FindUser(db.users, key);
    match n
    case 0 => c
    case 1 => c.(session := Session(None, [], map[]), phase := ReadingUser)
    case 2 => c.(session := Session(Some(db), [], map[]), phase := ReadingBalance(user))
    case 3 => c.(session := Session(Some(db), [], map[]), phase := ReadingLast(user, db.rows[key]))
    case 4 => c.(session := Session(Some(db), [], map[]), phase := Inserting(st, env.pick, env.now))
    case 5 => c.(session := Session(Some(db), [st], map[]), phase := Updating(st, env.pick, env.now))
    case 6 => c.(session := Session(Some(db), [st], map[key := st.afterCredit]),
                 phase := Committing(st, env.pick, env.now))
    case _ => c.(phase := Finished(Receipt(st)))
  }

  lemma MilestoneStep(db: Db, id: nat, c: Client, env: Env, st: WalletStatement, n: nat)
    requires Ready(db, c, env, st) && n < 6
    ensures TransferStep(db, false, id, Milestone(db, c, env, st, n), env)
         == Some(Effect(db, Milestone(db, c, env, st, n + 1), []))
  {
    hide FindUser, Commit, LatestPick, LastCredit, LogOf;
    if n == 4 {
      assert [] + [st] == [st];
    }
  }

  function With(s: State, id: nat, c: Client): State {
    s.(clients := s.clients[id := c])
  }

  lemma {:induction false} AloneFrom(s: State, id: nat, c: Client, env: Env, st: WalletStatement, n: nat)
    requires Ready(s.db, c, env, st) && n <= 6 && !HeldByOther(s.clients, id, c.req.Account())
    ensures var done := Alone(With(s, id, Milestone(s.db, c, env, st, n)), id, env, 7 - n);
      && done.Some? && done.value.db == Commit(s.db, [st], map[c.req.Account() := st.afterCredit])
      && done.value.clients == s.clients[id := Milestone(s.db, c, env, st, 7)]
    decreases 7 - n
  {
    hide ProcessOutcome, LatestPick, Commit;
    var here := With(s, id, Milestone(s.db, c, env, st, n));
    HeldElsewhere(s, id, Milestone(s.db, c, env, st, n), c.req.Account());
    var c' := Milestone(s.db, c, env, st, n + 1);
    assert here.clients[id := c'] == s.clients[id := c'];
    if n < 6 {
      MilestoneStep(s.db, id, c, env, st, n);
      assert s.history + [] == s.history;
      assert Apply(here, Go(id, env)) == Some(With(s, id, Milestone(s.db, c, env, st, n + 1)));
      AloneFrom(s, id, c, env, st, n + 1);
    } else {
      var next := Apply(here, Go(id, env));
      assert Alone(here, id, env, 1) == Alone(next.value, id, env, 0);
    }
  }

  lemma HeldElsewhere(s: State, id: nat, c: Client, key: Key)
    ensures HeldByOther(With(s, id, c).clients, id, key) == HeldByOther(s.clients, id, key)
  {
    var clients' := With(s, id, c).clients;
    assert forall other | other in clients' && other != id :: clients'[other] == s.clients[other];
  }

  /** A validated client that nobody interferes with goes through: after its seven calls the
      database is the serial body's and the answer is its receipt. */
  lemma AloneDoesBody(s: State, id: nat, env: Env, st: WalletStatement)
    requires id in s.clients && Ready(s.db, s.clients[id], env, st)
    requires !HeldByOther(s.clients, id, s.clients[id].req.Account())
    ensures var c := s.clients[id];
      var done := Alone(s, id, env, 7);
      && done.Some? && done.value.db == AfterOutcome(s.db, c.req, Writes(st))
      && done.value.clients == s.clients[id := c.(phase := Finished(Receipt(st)))]
  {
    AloneFrom(s, id, s.clients[id], env, st, 0);
    hide Alone, Ready, ProcessOutcome, LatestPick, Commit, HeldByOther;
    assert With(s, id, s.clients[id]) == s;
  }
}
