/** Commit order, clock order and the balance consistency check.

    The chain needs no clock.  Passing the check does: it compares the balance with the
    statement of the largest `datetime`, which must be the last one committed. */
module ClockTheorem {
  import opened ConcurrentWallet
  import opened DecimalUtils
  import opened LedgerProofs
  import opened Models
  import opened MongoStore
  import opened SerialWallet
  import opened WalletService
  import opened Wrappers

  predicate NewerThanAll(now: int, log: seq<WalletStatement>) {
    forall i | 0 <= i < |log| :: log[i].datetime < now
  }

  /** The clock a statement is stamped with has advanced, in the precision it is stored with,
      since every statement of the account that the transaction can see. */
  predicate ClockAdvances(s: State, step: Step) {
    step.Go? && step.id in s.clients && s.clients[step.id].Transfer?
      && s.clients[step.id].phase.ReadingLast?
      && s.clients[step.id].session.Session? && s.clients[step.id].session.snapshot.Some?
    ==> NewerThanAll(step.env.now, LogOf(s.clients[step.id].session.snapshot.value, s.clients[step.id].req.Account()))
  }

  ghost predicate TimedRun(init: Db, steps: seq<Step>) {
    steps == [] ||
    (var front := steps[..|steps| - 1];
     TimedRun(init, front) && (Run(init, front).Some? ==> ClockAdvances(Run(init, front).value, steps[|steps| - 1])))
  }

  predicate NotInconsistent(phase: Phase) {
    && (phase.Aborting? ==> phase.reply != BalanceInconsistent)
    && (phase.Finished? ==> phase.reply != BalanceInconsistent)
  }

  predicate StampedLate(phase: Phase, log: seq<WalletStatement>) {
    match phase
    case Inserting(st, _, _) => NewerThanAll(st.datetime, log)
    case Updating(st, _, _) => NewerThanAll(st.datetime, log)
    case Committing(st, _, _) => NewerThanAll(st.datetime, log)
    case _ => true
  }

  predicate TimedClient(c: Client) {
    c.Transfer? ==>
      && NotInconsistent(c.phase)
      && (c.session.Session? && c.session.snapshot.Some? ==>
            var log := LogOf(c.session.snapshot.value, c.req.Account());
            Increasing(log) && StampedLate(c.phase, log))
  }

  ghost predicate Timed(s: State) {
    && (forall key: Key :: Increasing(LogOf(s.db, key)))
    && (forall id | id in s.clients :: TimedClient(s.clients[id]))
  }

  /** With commit order and clock order agreeing, the check compares the balance with itself. */
  lemma DecisionNotInconsistent(snapshot: Db, c: Client, env: Env)
    requires c.Transfer? && c.phase.ReadingLast? && c.req.Account() in snapshot.rows
    requires c.phase.row == snapshot.rows[c.req.Account()]
    requires c.phase.row.balance == CreditAfter(LogOf(snapshot, c.req.Account()), |LogOf(snapshot, c.req.Account())|)
    requires Increasing(LogOf(snapshot, c.req.Account())) && LatestPick(LogOf(snapshot, c.req.Account()), env.pick)
    ensures NotInconsistent(AfterReadLast(c, snapshot, env))
    ensures AfterReadLast(c, snapshot, env).Inserting? ==> AfterReadLast(c, snapshot, env).st.datetime == env.now
  {
    NewestIsPicked(LogOf(snapshot, c.req.Account()), c.phase.row.balance, env.pick);
    CompareAcceptsEqual(c.phase.row.balance);
  }

  lemma ReadLastIs(db: Db, held: bool, id: nat, c: Client, env: Env)
    requires c.Transfer? && c.phase.ReadingLast? && TransferStep(db, held, id, c, env).Some?
    ensures c.session.Session? && c.session.snapshot.Some?
    ensures env.fails ==>
      TransferStep(db, held, id, c, env).value == Effect(db, c.(phase := Aborting(StorageFailed)), [])
    ensures !env.fails ==>
      var snapshot := c.session.snapshot.value;
      && LatestPick(LogOf(snapshot, c.req.Account()), env.pick)
      && TransferStep(db, held, id, c, env).value == Effect(db, c.(phase := AfterReadLast(c, snapshot, env)), [])
  {
    hide LatestPick, Decide;
  }

  lemma TimedReadLast(db: Db, held: bool, id: nat, c: Client, env: Env)
    requires c.Transfer? && c.phase.ReadingLast? && TransferInv(db, c) && TimedClient(c)
    requires NewerThanAll(env.now, LogOf(c.session.snapshot.value, c.req.Account()))
    requires TransferStep(db, held, id, c, env).Some?
    ensures TimedClient(TransferStep(db, held, id, c, env).value.client)
    ensures TransferStep(db, held, id, c, env).value.db == db
  {
    var snapshot := c.session.snapshot.value;
    SnapshotTells(db, c);
    hide TransferInv, TransferStep, AfterReadLast, LatestPick, Increasing, NewerThanAll, LogOf, CreditAfter;
    ReadLastIs(db, held, id, c, env);
    if !env.fails {
      DecisionNotInconsistent(snapshot, c, env);
      AfterReadLastGoesOn(c, snapshot, env);
    }
  }

  /** In the snapshot of a transaction the balance is where the statements end. */
  lemma SnapshotTells(db: Db, c: Client)
    requires c.Transfer? && c.phase.ReadingLast? && TransferInv(db, c)
    ensures var snapshot := c.session.snapshot.value;
      var log := LogOf(snapshot, c.req.Account());
      && c.req.Account() in snapshot.rows && c.phase.row == snapshot.rows[c.req.Account()]
      && c.phase.row.balance == CreditAfter(log, |log|)
  {
    assert AccountConsistent(c.session.snapshot.value, c.req.Account());
  }

  lemma AfterReadLastGoesOn(c: Client, snapshot: Db, env: Env)
    requires c.Transfer? && c.phase.ReadingLast? && LatestPick(LogOf(snapshot, c.req.Account()), env.pick)
    ensures var next := AfterReadLast(c, snapshot, env);
      next.Aborting? || next.Panicked? || next.Inserting?
  {
    hide Decide, LatestPick;
  }

  lemma TimedOtherStep(db: Db, held: bool, id: nat, c: Client, env: Env)
    requires c.Transfer? && !c.phase.ReadingLast? && TimedClient(c)
    requires Increasing(LogOf(db, c.req.Account()))
    requires TransferStep(db, held, id, c, env).Some?
    ensures TimedClient(TransferStep(db, held, id, c, env).value.client)
    ensures !c.phase.Committing? ==> TransferStep(db, held, id, c, env).value.db == db
  {
    hide Decide, CreateStatement, FindUser, FindBalance, ValidateWithdrawRequest;
    hide SumDecimal128, ConvertFloatToDecimal128, ConvertDecimal128ToFloat;
  }

  lemma TimedTransferStep(s: State, id: nat, env: Env)
    requires id in s.clients && s.clients[id].Transfer? && TransferInv(s.db, s.clients[id])
    requires Timed(s) && ClockAdvances(s, Go(id, env)) && ClientStep(s, id, env).Some?
    ensures TimedClient(ClientStep(s, id, env).value.client)
    ensures forall key: Key :: Increasing(LogOf(ClientStep(s, id, env).value.db, key))
  {
    var c := s.clients[id];
    var held := HeldByOther(s.clients, id, c.req.Account());
    assert TimedClient(c);
    if c.phase.ReadingLast? {
      TimedReadLast(s.db, held, id, c, env);
    } else {
      assert Increasing(LogOf(s.db, c.req.Account()));
      TimedOtherStep(s.db, held, id, c, env);
      if c.phase.Committing? && ClientStep(s, id, env).value.events != [] {
        TimedCommit(s.db, c, ClientStep(s, id, env).value.db);
      }
    }
  }

  lemma TimedCommit(db: Db, c: Client, db': Db)
    requires c.Transfer? && c.phase.Committing? && TransferInv(db, c) && TimedClient(c)
    requires forall key: Key :: Increasing(LogOf(db, key))
    requires db' == Commit(db, c.session.inserts, c.session.updates)
    ensures forall key: Key :: Increasing(LogOf(db', key))
  {
    var key := c.req.Account();
    var st := c.phase.st;
    assert RowLater(c.session.snapshot.value, db, key);
    StatementFiledUnderRequest(c.session.snapshot.value, c.action, c.req, c.phase.pick, c.phase.now);
    assert AppendStatements(db.log, [st]) == db.log[key := LogOf(db, key) + [st]];
    forall k: Key
      ensures Increasing(LogOf(db', k))
    {
      assert Increasing(LogOf(db, k));
    }
  }

  lemma TimedMemberStep(db: Db, c: Client, env: Env)
    requires c.AddMember? && MemberStep(db, c, env).Some?
    ensures MemberStep(db, c, env).value.client.AddMember?
    ensures forall key: Key :: LogOf(MemberStep(db, c, env).value.db, key) == LogOf(db, key)
  {}

  lemma ApplyTimed(init: Db, s: State, step: Step)
    requires Inv(init, s) && Timed(s) && ClockAdvances(s, step) && Apply(s, step).Some?
    ensures Timed(Apply(s, step).value)
  {
    var s' := Apply(s, step).value;
    if step.Go? {
      assert ClientInv(s.db, s.clients[step.id]);
      if s.clients[step.id].Transfer? {
        TimedTransferStep(s, step.id, step.env);
      } else {
        TimedMemberStep(s.db, s.clients[step.id], step.env);
      }
    }
    forall id | id in s'.clients
      ensures TimedClient(s'.clients[id])
    {
      if id != step.id {
        assert TimedClient(s.clients[id]);
      }
    }
  }

  /** If the stored clock strictly advances from each visible statement of an account to the
      next one stamped on it, then under all interleavings clock order is commit order and no
      deposit or withdrawal is refused as inconsistent. */
  lemma {:induction false} RunNeverInconsistent(init: Db, steps: seq<Step>)
    requires Consistent(init) && (forall key: Key :: Increasing(LogOf(init, key)))
    requires Run(init, steps).Some? && TimedRun(init, steps)
    ensures Timed(Run(init, steps).value)
    ensures forall key: Key :: Increasing(LogOf(Run(init, steps).value.db, key))
    ensures forall id | id in Run(init, steps).value.clients ::
      var c := Run(init, steps).value.clients[id];
      c.Transfer? ==> c.phase != Finished(BalanceInconsistent)
  {
    if steps != [] {
      var front := steps[..|steps| - 1];
      RunNeverInconsistent(init, front);
      RunKeeps(init, front);
      ApplyTimed(init, Run(init, front).value, steps[|steps| - 1]);
    }
  }

  /** Without that assumption the check can lock an account out: after two deposits stamped in
      the same millisecond, the server may pick the first, and the next deposit is refused
      although nothing is wrong with the ledger. */
  lemma SameMillisecondLocksOut(key: Key, user: User, req: TransactionRequest, now: int)
    requires user.Account() == key && user.active && req.Account() == key
    ensures var first := WalletStatement(0, key.username, key.parentToken, 100000000, 0, 100000000, Deposit);
      var second := WalletStatement(0, key.username, key.parentToken, 100000000, 100000000, 200000000, Deposit);
      var db := Db([user], map[key := Row(user.token, 200000000, true, 2)], map[key := [first, second]]);
      && Consistent(db) && LatestPick(LogOf(db, key), 0)
      && ProcessOutcome(db, Deposit, req, 0, now) == Stops(BalanceInconsistent)
  {
    hide SumDecimal128, CompareDecimal128, CreateStatement;
    var first := WalletStatement(0, key.username, key.parentToken, 100000000, 0, 100000000, Deposit);
    var second := WalletStatement(0, key.username, key.parentToken, 100000000, 100000000, 200000000, Deposit);
    var db := Db([user], map[key := Row(user.token, 200000000, true, 2)], map[key := [first, second]]);
    SumExact(0, 100000000);
    SumExact(100000000, 100000000);
    assert AccountConsistent(db, key);
    CompareRejectsApart(200000000, 100000000);
  }
}
