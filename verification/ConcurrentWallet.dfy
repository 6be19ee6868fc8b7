/** Any number of deposits, withdrawals and member creations at work on one database
    (internal/application/usecases/wallet_usecase.go:46-227, 288-444).

    A client is one call of a use case.  `Apply` executes the next repository call of one
    client, the granularity at which calls interleave; `Env` is what the world answers: an
    error, an unknown outcome, the statement picked among equally new ones, the clock, a
    fresh token.  A client may also vanish at any point. */
module ConcurrentWallet {
  import opened DecimalUtils
  import opened Models
  import opened MongoStore
  import opened SerialWallet
  import opened StringUtils
  import opened WalletService
  import opened Wrappers

  datatype Env = Env(fails: bool, applied: bool, pick: nat, now: int, uuid: string)

  /** Where a deposit or withdrawal stands: named by the call it makes next. */
  datatype Phase =
    | PreChecking
    | Starting
    | ReadingUser
    | ReadingBalance(user: Option<User>)
    | ReadingLast(user: Option<User>, row: Row)
    | Inserting(st: WalletStatement, pick: nat, now: int)
    | Updating(st: WalletStatement, pick: nat, now: int)
    | Committing(st: WalletStatement, pick: nat, now: int)
    | Aborting(reply: Reply)
    | Finished(reply: Reply)
    | Panicked
    | Vanished

  datatype MemberPhase =
    | CheckingUser
    | FindingParent
    | InsertingUser(parent: User)
    | InsertingRow
    | Answered(reply: Reply)
    | Gone

  datatype Client =
    | Transfer(action: TypeAction, req: TransactionRequest, session: Session, phase: Phase)
    | AddMember(req: TransactionRequest, step: MemberPhase)

  /** What became visible in the database, in order. */
  datatype Event =
    | Committed(id: nat, action: TypeAction, req: TransactionRequest, pick: nat, now: int, reply: Reply)
    | UserInserted(user: User)
    | RowInserted(key: Key, token: string)

  datatype State = State(db: Db, clients: map<nat, Client>, history: seq<Event>)

  datatype Arrival = DepositCall | WithdrawCall | AddMemberCall

  datatype Step =
    | Arrive(id: nat, call: Arrival, req: TransactionRequest)
    | Go(id: nat, env: Env)
    | Vanish(id: nat)

  // ----- one call of one client -----

  datatype Effect = Effect(db: Db, client: Client, events: seq<Event>)

  function Begin(call: Arrival, req: TransactionRequest): Client {
    match call
    case DepositCall =>
      var invalid := ValidateDepositRequest(req);
      Transfer(Deposit, req, NoSession, if invalid.Some? then Finished(Rejected(invalid.value)) else Starting)
    case WithdrawCall => Transfer(Withdraw, req, NoSession, PreChecking)
    case AddMemberCall =>
      AddMember(req, if ValidateUsername(req.username) then CheckingUser else Answered(BadUsername))
  }

  /** The withdrawal's check against the balance outside the transaction. */
  function PreCheck(db: Db, req: TransactionRequest, env: Env): Phase {
    if env.fails then Finished(UserNotFound)
    else
      match FindBalance(db, req.Account())
      case None => Finished(UserNotFound)
      case Some(row) =>
        var invalid := ValidateWithdrawRequest(req, ConvertDecimal128ToFloat(row.balance));
        if invalid.Some? then Finished(Rejected(invalid.value)) else Starting
  }

  function AfterReadLast(c: Client, snapshot: Db, env: Env): Phase
    requires c.Transfer? && c.phase.ReadingLast? && LatestPick(LogOf(snapshot, c.req.Account()), env.pick)
  {
    var last := LastCredit(LogOf(snapshot, c.req.Account()), env.pick);
    match Decide(c.action, c.req, c.phase.user, c.phase.row, last, env.now)
    case Stops(reply) => Aborting(reply)
    case Panics => Panicked
    case Writes(st) => Inserting(st, env.pick, env.now)
  }

  function TransferStep(db: Db, heldByOther: bool, id: nat, c: Client, env: Env): Option<Effect>
    requires c.Transfer?
  {
    var key := c.req.Account();
    match c.phase
    case PreChecking => Some(Effect(db, c.(phase := PreCheck(db, c.req, env)), []))
    case Starting =>
      if env.fails then Some(Effect(db, c.(phase := Finished(StorageFailed)), []))
      else Some(Effect(db, c.(session := Session(None, [], map[]), phase := ReadingUser), []))
    case ReadingUser =>
      if env.fails then Some(Effect(db, c.(phase := Aborting(UserNotFound)), []))
      else Some(Effect(db, c.(session := Session(Some(db), [], map[]),
                              phase := ReadingBalance(FindUser(db.users, key))), []))
    case ReadingBalance(user) =>
      if !c.session.Session? || c.session.snapshot.None? then None
      else
        var found := FindBalance(c.session.snapshot.value, key);
        if env.fails || found.None? then Some(Effect(db, c.(phase := Aborting(BalanceNotFound)), []))
        else Some(Effect(db, c.(phase := ReadingLast(user, found.value)), []))
    case ReadingLast(user, row) =>
      if !c.session.Session? || c.session.snapshot.None? then None
      else if env.fails then Some(Effect(db, c.(phase := Aborting(StorageFailed)), []))
      else if !LatestPick(LogOf(c.session.snapshot.value, key), env.pick) then None
      else Some(Effect(db, c.(phase := AfterReadLast(c, c.session.snapshot.value, env)), []))
    case Inserting(st, pick, now) =>
      if !c.session.Session? then None
      else if env.fails then Some(Effect(db, c.(phase := Aborting(StorageFailed)), []))
      else Some(Effect(db, c.(session := c.session.(inserts := c.session.inserts + [st]),
                              phase := Updating(st, pick, now)), []))
    case Updating(st, pick, now) =>
      if !c.session.Session? || c.session.snapshot.None? then None
      else if env.fails || UpdateConflicts(db, c.session.snapshot.value, key, heldByOther)
      then Some(Effect(db, c.(phase := Aborting(StorageFailed)), []))
      else Some(Effect(db, c.(session := c.session.(updates := c.session.updates[key := st.afterCredit]),
                              phase := Committing(st, pick, now)), []))
    case Committing(st, pick, now) =>
      if !c.session.Session? then None
      else
        var reply := if env.fails then CommitFailed else Receipt(st);
        var c' := c.(session := NoSession, phase := Finished(reply));
        if env.fails && !env.applied then Some(Effect(db, c', []))
        else Some(Effect(Commit(db, c.session.inserts, c.session.updates), c',
                         [Committed(id, c.action, c.req, pick, now, Receipt(st))]))
    case Aborting(reply) => Some(Effect(db, c.(session := NoSession, phase := Finished(reply)), []))
    case _ => None
  }

  function MemberStep(db: Db, c: Client, env: Env): Option<Effect>
    requires c.AddMember?
  {
    var key := c.req.Account();
    match c.step
    case CheckingUser =>
      var known := !env.fails && FindUser(db.users, key).Some?;
      Some(Effect(db, c.(step := if known then Answered(UserExists) else FindingParent), []))
    case FindingParent =>
      var parent := FindUserByToken(db.users, c.req.parentToken);
      var next := if env.fails then Answered(StorageFailed)
                  else if parent.None? then Answered(ParentNotFound)
                  else InsertingUser(parent.value);
      Some(Effect(db, c.(step := next), []))
    case InsertingUser(parent) =>
      var user := User(c.req.username, parent.token, env.uuid, true);
      var inserted := InsertUser(db, user);
      if inserted.None? || (env.fails && !env.applied) then
        Some(Effect(db, c.(step := Answered(StorageFailed)), []))
      else
        var next := if env.fails then Answered(StorageFailed) else InsertingRow;
        Some(Effect(inserted.value, c.(step := next), [UserInserted(user)]))
    case InsertingRow =>
      var inserted := InsertRow(db, key, EmptyRow(c.req.token));
      if inserted.None? || (env.fails && !env.applied) then
        Some(Effect(db, c.(step := Answered(StorageFailed)), []))
      else
        var reply := if env.fails then StorageFailed else Created;
        Some(Effect(inserted.value, c.(step := Answered(reply)), [RowInserted(key, c.req.token)]))
    case _ => None
  }

  // ----- the system -----

  /** An open transaction of this client has written the balance row of `key`. */
  predicate Holds(c: Client, key: Key) {
    c.Transfer? && c.session.Session? && key in c.session.updates
  }

  predicate HeldByOther(clients: map<nat, Client>, id: nat, key: Key) {
    exists other | other in clients :: other != id && Holds(clients[other], key)
  }

  function ClientStep(s: State, id: nat, env: Env): Option<Effect>
    requires id in s.clients
  {
    var c := s.clients[id];
    if c.Transfer? then TransferStep(s.db, HeldByOther(s.clients, id, c.req.Account()), id, c, env)
    else MemberStep(s.db, c, env)
  }

  function Left(c: Client): Client {
    match c
    case Transfer(_, _, _, phase) =>
      if phase.Finished? then c else c.(session := NoSession, phase := Vanished)
    case AddMember(_, step) =>
      if step.Answered? then c else c.(step := Gone)
  }

  function Apply(s: State, step: Step): Option<State> {
    match step
    case Arrive(id, call, req) =>
      if id in s.clients then None
      else Some(s.(clients := s.clients[id := Begin(call, req)]))
    case Vanish(id) =>
      if id !in s.clients then None
      else Some(s.(clients := s.clients[id := Left(s.clients[id])]))
    case Go(id, env) =>
      if id !in s.clients then None
      else
        match ClientStep(s, id, env)
        case None => None
        case Some(e) =>
          Some(State(e.db, s.clients[id := e.client], s.history + e.events))
  }

  /** A run from a database with no client at work. */
  function Run(init: Db, steps: seq<Step>): Option<State> {
    if steps == [] then Some(State(init, map[], []))
    else
      match Run(init, steps[..|steps| - 1])
      case None => None
      case Some(s) => Apply(s, steps[|steps| - 1])
  }

  // ----- the serial replay of a history -----

  function ReplayEvent(db: Db, e: Event): Option<Db> {
    match e
    case Committed(_, action, req, pick, now, reply) =>
      if !LatestPick(LogOf(db, req.Account()), pick) then None
      else
        var outcome := ProcessOutcome(db, action, req, pick, now);
        if outcome.Writes? && Receipt(outcome.st) == reply then Some(AfterOutcome(db, req, outcome)) else None
    case UserInserted(user) => InsertUser(db, user)
    case RowInserted(key, token) => InsertRow(db, key, EmptyRow(token))
  }

  /** The visible events one at a time: each transaction runs its whole body alone, and must
      give the recorded reply. */
  function Replay(init: Db, history: seq<Event>): Option<Db> {
    if history == [] then Some(init)
    else
      match Replay(init, history[..|history| - 1])
      case None => None
      case Some(db) => ReplayEvent(db, history[|history| - 1])
  }

  lemma ReplayAppend(init: Db, history: seq<Event>, db: Db, e: Event)
    requires Replay(init, history) == Some(db)
    ensures Replay(init, history + [e]) == ReplayEvent(db, e)
  {
    assert (history + [e])[..|history|] == history;
  }
}
