/** What every run of the concurrent wallet keeps. */
module LedgerProofs {
  import opened ConcurrentWallet
  import opened DecimalUtils
  import opened Models
  import opened MongoStore
  import opened SerialWallet
  import opened WalletService
  import opened Wrappers

  // ----- the invariant of one client -----

  /** The session reads from an earlier, consistent state of the database. */
  ghost predicate ReadsFrom(db: Db, session: Session) {
    && session.Session? && session.snapshot.Some?
    && Consistent(session.snapshot.value) && Later(session.snapshot.value, db)
  }

  /** The statement is the one the serial body writes on the snapshot. */
  predicate Decided(c: Client, snapshot: Db, st: WalletStatement, pick: nat, now: int)
    requires c.Transfer?
  {
    && LatestPick(LogOf(snapshot, c.req.Account()), pick)
    && ProcessOutcome(snapshot, c.action, c.req, pick, now) == Writes(st)
  }

  /** The balance row is as the session read it. */
  predicate RowUnwritten(db: Db, session: Session, key: Key)
    requires session.Session? && session.snapshot.Some?
  {
    && key in db.rows && key in session.snapshot.value.rows
    && db.rows[key].version == session.snapshot.value.rows[key].version
  }

  predicate PastValidation(phase: Phase) {
    !phase.PreChecking? && !phase.Finished? && !phase.Vanished?
  }

  ghost predicate TransferInv(db: Db, c: Client)
    requires c.Transfer?
  {
    var key := c.req.Account();
    && (PastValidation(c.phase) ==> c.req.amount > 0.0)
    && match c.phase
       case PreChecking | Starting | Finished(_) | Vanished => c.session == NoSession
       case ReadingUser => c.session == Session(None, [], map[])
       case ReadingBalance(user) =>
         && ReadsFrom(db, c.session) && c.session.inserts == [] && c.session.updates == map[]
         && user == FindUser(c.session.snapshot.value.users, key)
       case ReadingLast(user, row) =>
         && ReadsFrom(db, c.session) && c.session.inserts == [] && c.session.updates == map[]
         && user == FindUser(c.session.snapshot.value.users, key)
         && FindBalance(c.session.snapshot.value, key) == Some(row)
       case Inserting(st, pick, now) =>
         && ReadsFrom(db, c.session) && c.session.inserts == [] && c.session.updates == map[]
         && Decided(c, c.session.snapshot.value, st, pick, now)
       case Updating(st, pick, now) =>
         && ReadsFrom(db, c.session) && c.session.inserts == [st] && c.session.updates == map[]
         && Decided(c, c.session.snapshot.value, st, pick, now)
       case Committing(st, pick, now) =>
         && ReadsFrom(db, c.session)
         && c.session.inserts == [st] && c.session.updates == map[key := st.afterCredit]
         && Decided(c, c.session.snapshot.value, st, pick, now)
         && RowUnwritten(db, c.session, key)
       case Aborting(_) => c.session.Session? && c.session.updates == map[]
       case Panicked => false
  }

  predicate MemberInv(db: Db, c: Client)
    requires c.AddMember?
  {
    match c.step
    case InsertingUser(parent) => parent in db.users && parent.token == c.req.parentToken
    case InsertingRow => FindUser(db.users, c.req.Account()).Some?
    case Answered(reply) =>
      reply == Created ==>
        && c.req.Account() in db.rows
        && db.rows[c.req.Account()].active && db.rows[c.req.Account()].token == c.req.token
    case _ => true
  }

  ghost predicate ClientInv(db: Db, c: Client) {
    if c.Transfer? then TransferInv(db, c) else MemberInv(db, c)
  }

  /** What another client's step may do to the database: grow it, and leave alone the rows
      this client holds. */
  ghost predicate Spares(db: Db, db': Db, c: Client) {
    && Later(db, db')
    && forall key: Key | Holds(c, key) && key in db.rows :: key in db'.rows && db'.rows[key] == db.rows[key]
  }

  lemma ClientUndisturbed(db: Db, db': Db, c: Client)
    requires ClientInv(db, c) && Spares(db, db', c)
    ensures ClientInv(db', c)
  {
    hide Consistent, ProcessOutcome;
    var key := c.req.Account();
    if c.Transfer? {
      if c.session.Session? && c.session.snapshot.Some? && Later(c.session.snapshot.value, db) {
        LaterTransitive(c.session.snapshot.value, db, db');
      }
      if c.phase.Committing? {
        assert Holds(c, key);
      }
    } else {
      if FindUser(db.users, key).Some? {
        FindUserKeeps(db.users, db'.users, key);
      }
      if key in db.rows {
        assert RowLater(db, db', key);
      }
    }
  }

  // ----- one step of one client -----

  /** The step keeps the client's invariant, changes only rows the client holds, takes no row
      another one holds, and shows in the history exactly what it did to the database. */
  ghost predicate StepOk(db: Db, heldByOther: bool, c: Client, e: Effect) {
    && e.client.req == c.req && e.client.Transfer? == c.Transfer?
    && ClientInv(e.db, e.client) && Consistent(e.db) && Later(db, e.db)
    && (forall key: Key | key in db.rows && !Holds(c, key) :: key in e.db.rows && e.db.rows[key] == db.rows[key])
    && (forall key: Key | Holds(e.client, key) && !Holds(c, key) :: key == c.req.Account() && !heldByOther)
    && |e.events| <= 1
    && (if e.events == [] then e.db == db else ReplayEvent(db, e.events[0]) == Some(e.db))
  }

  lemma LaterItself(db: Db)
    ensures Later(db, db)
  {}

  /** The heart of the ledger: at commit the account is as the snapshot showed it, so the
      body that ran on the snapshot does what it would do now. */
  lemma CommitStep(db: Db, held: bool, id: nat, c: Client, env: Env)
    requires c.Transfer? && c.phase.Committing? && TransferInv(db, c) && Consistent(db)
    requires TransferStep(db, held, id, c, env).Some?
    ensures StepOk(db, held, c, TransferStep(db, held, id, c, env).value)
  {
    hide Decide, Chain, LedgerLine, FindUser, FindBalance, AccountConsistent, ProcessOutcome, RowLater, CreateStatement;
    var e := TransferStep(db, held, id, c, env).value;
    var Committing(st, pick, now) := c.phase;
    LaterItself(db);
    if e.events != [] {
      ProcessReadsOwnAccount(c.session.snapshot.value, db, c.action, c.req, pick, now);
      ProcessKeepsConsistent(db, c.action, c.req, pick, now);
      assert e.db == AfterOutcome(db, c.req, Writes(st));
    }
  }

  lemma ReadLastStep(db: Db, held: bool, id: nat, c: Client, env: Env)
    requires c.Transfer? && c.phase.ReadingLast? && TransferInv(db, c) && Consistent(db)
    requires TransferStep(db, held, id, c, env).Some?
    ensures StepOk(db, held, c, TransferStep(db, held, id, c, env).value)
  {
    hide Chain, CreateStatement, CompareDecimal128;
    var snapshot := c.session.snapshot.value;
    assert AccountConsistent(snapshot, c.req.Account());
    LaterItself(db);
  }

  lemma UpdateStep(db: Db, held: bool, id: nat, c: Client, env: Env)
    requires c.Transfer? && c.phase.Updating? && TransferInv(db, c) && Consistent(db)
    requires TransferStep(db, held, id, c, env).Some?
    ensures StepOk(db, held, c, TransferStep(db, held, id, c, env).value)
  {
    hide Decide, Consistent;
    LaterItself(db);
  }

  lemma OtherTransferStep(db: Db, held: bool, id: nat, c: Client, env: Env)
    requires c.Transfer? && TransferInv(db, c) && Consistent(db)
    requires !c.phase.Committing? && !c.phase.ReadingLast? && !c.phase.Updating?
    requires TransferStep(db, held, id, c, env).Some?
    ensures StepOk(db, held, c, TransferStep(db, held, id, c, env).value)
  {
    hide Decide, AccountConsistent, ConvertDecimal128ToFloat, FindUser, CreateStatement, Later, ProcessOutcome;
    LaterItself(db);
  }

  lemma MemberStepKeeps(db: Db, held: bool, c: Client, env: Env)
    requires c.AddMember? && MemberInv(db, c) && Consistent(db)
    requires MemberStep(db, c, env).Some?
    ensures StepOk(db, held, c, MemberStep(db, c, env).value)
  {
    hide AccountConsistent, FindUser, FindUserByToken;
    LaterItself(db);
    match c.step
    case FindingParent =>
      FindUserByTokenSound(db.users, c.req.parentToken);
    case InsertingUser(parent) =>
      var user := User(c.req.username, parent.token, env.uuid, true);
      if InsertUser(db, user).Some? {
        InsertUserGrows(db, user);
        FindUserComplete(db.users + [user], user);
      }
    case InsertingRow =>
      var row := EmptyRow(c.req.token);
      if InsertRow(db, c.req.Account(), row).Some? {
        InsertRowGrows(db, c.req.Account(), row);
      }
    case _ =>
  }

  // ----- the invariant of the system -----

  ghost predicate Exclusive(clients: map<nat, Client>) {
    forall a, b, key: Key | a in clients && b in clients && a != b && Holds(clients[a], key) ::
      !Holds(clients[b], key)
  }

  ghost predicate Inv(init: Db, s: State) {
    && Consistent(s.db) && Later(init, s.db)
    && (forall id | id in s.clients :: ClientInv(s.db, s.clients[id]))
    && Exclusive(s.clients)
    && Replay(init, s.history) == Some(s.db)
  }

  lemma ClientStepOk(s: State, id: nat, env: Env)
    requires Consistent(s.db) && id in s.clients && ClientInv(s.db, s.clients[id])
    requires ClientStep(s, id, env).Some?
    ensures StepOk(s.db, HeldByOther(s.clients, id, s.clients[id].req.Account()), s.clients[id],
                   ClientStep(s, id, env).value)
  {
    var c := s.clients[id];
    var held := HeldByOther(s.clients, id, c.req.Account());
    if c.AddMember? {
      MemberStepKeeps(s.db, held, c, env);
    } else if c.phase.Committing? {
      CommitStep(s.db, held, id, c, env);
    } else if c.phase.ReadingLast? {
      ReadLastStep(s.db, held, id, c, env);
    } else if c.phase.Updating? {
      UpdateStep(s.db, held, id, c, env);
    } else {
      OtherTransferStep(s.db, held, id, c, env);
    }
  }

  lemma GoKeeps(init: Db, s: State, id: nat, env: Env)
    requires Inv(init, s) && Apply(s, Go(id, env)).Some?
    ensures Inv(init, Apply(s, Go(id, env)).value)
  {
    hide ClientStep, TransferInv, MemberInv, Consistent, ReplayEvent;
    var s' := Apply(s, Go(id, env)).value;
    var c := s.clients[id];
    var e := ClientStep(s, id, env).value;
    ClientStepOk(s, id, env);
    LaterTransitive(init, s.db, s'.db);
    forall other | other in s'.clients
      ensures ClientInv(s'.db, s'.clients[other])
    {
      if other != id {
        assert Spares(s.db, s'.db, s.clients[other]);
        ClientUndisturbed(s.db, s'.db, s.clients[other]);
      }
    }
    ExclusiveAfter(s.clients, id, e.client);
    if e.events == [] {
      assert s'.history == s.history;
    } else {
      assert e.events == [e.events[0]];
      ReplayAppend(init, s.history, s.db, e.events[0]);
    }
  }

  lemma ExclusiveAfter(clients: map<nat, Client>, id: nat, c': Client)
    requires Exclusive(clients) && id in clients
    requires forall key: Key | Holds(c', key) && !Holds(clients[id], key) :: !HeldByOther(clients, id, key)
    ensures Exclusive(clients[id := c'])
  {}

  lemma ApplyKeeps(init: Db, s: State, step: Step)
    requires Inv(init, s) && Apply(s, step).Some?
    ensures Inv(init, Apply(s, step).value)
  {
    hide ClientStep, Consistent, ReplayEvent;
    match step
    case Go(id, env) => GoKeeps(init, s, id, env);
    case _ =>
  }

  /** Every state of every run satisfies the invariant. */
  lemma {:induction false} RunKeeps(init: Db, steps: seq<Step>)
    requires Consistent(init) && Run(init, steps).Some?
    ensures Inv(init, Run(init, steps).value)
  {
    if steps == [] {
      LaterItself(init);
    } else {
      RunKeeps(init, steps[..|steps| - 1]);
      ApplyKeeps(init, Run(init, steps[..|steps| - 1]).value, steps[|steps| - 1]);
    }
  }
}
