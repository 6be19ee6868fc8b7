/** From the call that arrives to what its caller is told
    (internal/application/usecases/wallet_usecase.go:46-227): the concurrent system seen from
    outside. */
module Arrivals {
  import opened ConcurrentWallet
  import opened DecimalUtils
  import opened LedgerProofs
  import opened LedgerTheorems
  import opened Models
  import opened MongoStore
  import opened SerialWallet
  import opened Serializability
  import opened StringUtils
  import opened WalletService
  import opened Wrappers

  // ----- a client does what its call asked for -----

  /** This client serves that call. */
  predicate Serves(c: Client, call: Arrival, req: TransactionRequest) {
    match call
    case DepositCall => c.Transfer? && c.action == Deposit && c.req == req
    case WithdrawCall => c.Transfer? && c.action == Withdraw && c.req == req
    case AddMemberCall => c.AddMember? && c.req == req
  }

  lemma ServesOn(s: State, step: Step, id: nat, call: Arrival, req: TransactionRequest)
    requires Apply(s, step).Some? && id in s.clients && Serves(s.clients[id], call, req)
    ensures id in Apply(s, step).value.clients && Serves(Apply(s, step).value.clients[id], call, req)
  {
    hide Decide, FindUser, FindUserByToken, FindBalance, Commit, InsertUser, InsertRow, UpdateConflicts;
    hide ValidateWithdrawRequest, CreateStatement;
  }

  /** In every run a client that arrived with a deposit is a deposit of that request, and
      likewise for withdrawals and member creations. */
  lemma {:induction false} RunServes(init: Db, steps: seq<Step>, n: nat)
    requires Run(init, steps).Some? && n < |steps| && steps[n].Arrive?
    ensures var clients := Run(init, steps).value.clients;
      steps[n].id in clients && Serves(clients[steps[n].id], steps[n].call, steps[n].req)
  {
    var last := |steps| - 1;
    if n < last {
      RunServes(init, steps[..last], n);
      ServesOn(Run(init, steps[..last]).value, steps[last], steps[n].id, steps[n].call, steps[n].req);
    }
  }

  ghost predicate ArrivedAs(steps: seq<Step>, n: nat, id: nat, c: Client) {
    n < |steps| && steps[n].Arrive? && steps[n].id == id && Serves(c, steps[n].call, steps[n].req)
  }

  /** And every client arrived. */
  lemma {:induction false} RunArrived(init: Db, steps: seq<Step>, id: nat) returns (n: nat)
    requires Run(init, steps).Some? && id in Run(init, steps).value.clients
    ensures ArrivedAs(steps, n, id, Run(init, steps).value.clients[id])
  {
    var last := |steps| - 1;
    var s := Run(init, steps[..last]).value;
    if id in s.clients {
      n := RunArrived(init, steps[..last], id);
      ServesOn(s, steps[last], id, steps[n].call, steps[n].req);
    } else {
      n := last;
    }
  }

  /** Every committed transaction was asked for: its caller arrived with a deposit or a
      withdrawal, as the event says, of that request. */
  lemma CommitsWereAsked(init: Db, steps: seq<Step>, i: nat) returns (n: nat)
    requires Run(init, steps).Some?
    requires i < |Run(init, steps).value.history| && Run(init, steps).value.history[i].Committed?
    ensures n < |steps|
    ensures var e := Run(init, steps).value.history[i];
      steps[n] == Arrive(e.id, if e.action == Deposit then DepositCall else WithdrawCall, e.req)
  {
    RunRecords(init, steps);
    var s := Run(init, steps).value;
    var e := s.history[i];
    assert Answers(s.clients[e.id], e);
    n := RunArrived(init, steps, e.id);
  }

  // ----- what the replies tell -----

  lemma {:induction false} ReplayPrefix(init: Db, history: seq<Event>, n: nat)
    requires n <= |history| && Replay(init, history).Some?
    ensures Replay(init, history[..n]).Some?
  {
    if n < |history| {
      ReplayPrefix(init, history[..|history| - 1], n);
      assert history[..|history| - 1][..n] == history[..n];
    } else {
      assert history[..n] == history;
    }
  }

  /** In every run each committed transaction moves its amount between the state before it and
      the state after it in commit order, and its reply tells the account's balances there. */
  lemma RunTellsBalances(init: Db, steps: seq<Step>, i: nat)
    requires Consistent(init) && Run(init, steps).Some?
    requires i < |Run(init, steps).value.history| && Run(init, steps).value.history[i].Committed?
    ensures var history := Run(init, steps).value.history;
      var before, after := Replay(init, history[..i]), Replay(init, history[..i + 1]);
      && before.Some? && after.Some?
      && Moves(before.value, after.value, history[i].action, history[i].req, history[i].now, history[i].reply)
  {
    RunKeeps(init, steps);
    var history := Run(init, steps).value.history;
    ReplayPrefix(init, history, i);
    ReplayPrefix(init, history, i + 1);
    assert history[..i + 1][..i] == history[..i];
    var e := history[i];
    OutcomeMoves(Replay(init, history[..i]).value, e.action, e.req, e.pick, e.now);
  }

  // ----- a call that nobody interferes with -----

  /** Nobody else has written the account's row, the account is in good order, nothing fails. */
  predicate Undisturbed(s: State, id: nat, req: TransactionRequest, env: Env) {
    && id !in s.clients && !env.fails && !HeldByOther(s.clients, id, req.Account())
    && LatestPick(LogOf(s.db, req.Account()), env.pick) && InGoodOrder(s.db, req.Account(), env.pick)
  }

  /** The client is told that the money moved, and it did. */
  predicate GoneThrough(s: State, done: Option<State>, id: nat, action: TypeAction, req: TransactionRequest, env: Env) {
    && done.Some? && id in done.value.clients
    && done.value.clients[id].Transfer? && done.value.clients[id].phase.Finished?
    && Moves(s.db, done.value.db, action, req, env.now, done.value.clients[id].phase.reply)
  }

  /** A valid deposit arrives and goes through in seven calls. */
  lemma DepositGoesThrough(s: State, id: nat, req: TransactionRequest, env: Env)
    requires Consistent(s.db) && Undisturbed(s, id, req, env)
    requires req.amount > 0.0 && req.username != "" && req.parentToken != ""
    ensures var arrived := Apply(s, Arrive(id, DepositCall, req));
      arrived.Some? && GoneThrough(s, Alone(arrived.value, id, env, 7), id, Deposit, req, env)
  {
    var arrived := Apply(s, Arrive(id, DepositCall, req)).value;
    TransferGoesThrough(s, arrived, id, Deposit, req, env);
  }

  lemma TransferGoesThrough(
    s: State, ready: State, id: nat, action: TypeAction, req: TransactionRequest, env: Env)
    requires Consistent(s.db) && Undisturbed(s, id, req, env) && Covered(s.db, action, req)
    requires ready == s.(clients := s.clients[id := Transfer(action, req, NoSession, Starting)])
    ensures GoneThrough(s, Alone(ready, id, env, 7), id, action, req, env)
  {
    hide InGoodOrder, Covered, Alone, ProcessOutcome, Moves;
    OutcomeExactly(s.db, action, req, env.pick, env.now);
    OutcomeMoves(s.db, action, req, env.pick, env.now);
    var outcome := ProcessOutcome(s.db, action, req, env.pick, env.now);
    HeldElsewhere(s, id, Transfer(action, req, NoSession, Starting), req.Account());
    AloneDoesBody(ready, id, env, outcome.st);
  }

  /** A valid withdrawal the balance covers arrives and goes through in eight. */
  lemma WithdrawalGoesThrough(s: State, id: nat, req: TransactionRequest, env: Env)
    requires Consistent(s.db) && Undisturbed(s, id, req, env)
    requires 0.0 < req.amount <= ConvertDecimal128ToFloat(s.db.rows[req.Account()].balance)
    requires req.username != "" && req.parentToken != ""
    ensures var arrived := Apply(s, Arrive(id, WithdrawCall, req));
      arrived.Some? && GoneThrough(s, Alone(arrived.value, id, env, 8), id, Withdraw, req, env)
  {
    var arrived := Apply(s, Arrive(id, WithdrawCall, req)).value;
    var ready := s.(clients := s.clients[id := Transfer(Withdraw, req, NoSession, Starting)]);
    PrecheckedGoesOn(s, arrived, id, req, env, ready);
    CoveredIfPrechecked(s.db, req, env.now);
    hide Apply, InGoodOrder, Covered, ConvertDecimal128ToFloat, GoneThrough, LatestPick, HeldByOther;
    TransferGoesThrough(s, ready, id, Withdraw, req, env);
    assert Alone(arrived, id, env, 8) == Alone(ready, id, env, 7);
  }

  lemma PrecheckedGoesOn(s: State, arrived: State, id: nat, req: TransactionRequest, env: Env, ready: State)
    requires Undisturbed(s, id, req, env) && Apply(s, Arrive(id, WithdrawCall, req)) == Some(arrived)
    requires 0.0 < req.amount <= ConvertDecimal128ToFloat(s.db.rows[req.Account()].balance)
    requires req.username != "" && req.parentToken != ""
    requires ready == s.(clients := s.clients[id := Transfer(Withdraw, req, NoSession, Starting)])
    ensures Apply(arrived, Go(id, env)) == Some(ready)
  {
    hide ConvertDecimal128ToFloat, CompareDecimal128;
    assert arrived.clients[id := ready.clients[id]] == ready.clients;
    assert s.history + [] == s.history;
  }

  lemma CoveredIfPrechecked(db: Db, req: TransactionRequest, now: int)
    requires req.Account() in db.rows && req.username != "" && req.parentToken != ""
    requires 0.0 < req.amount <= ConvertDecimal128ToFloat(db.rows[req.Account()].balance)
    ensures Covered(db, Withdraw, req)
  {
    hide SumDecimal128, ConvertFloatToDecimal128, ConvertDecimal128ToFloat;
    var balance := db.rows[req.Account()].balance;
    GuardAfterPrecheck(req, balance, User(req.username, req.parentToken, "", true), now);
    ToFloatSign(SumDecimal128(balance, ConvertFloatToDecimal128(-req.amount)));
  }

  /** In range the row then holds exactly the amount more or less. */
  lemma MovedExactly(before: Db, after: Db, action: TypeAction, req: TransactionRequest, now: int, reply: Reply)
    requires Moves(before, after, action, req, now, reply)
    requires InRange(before.rows[req.Account()].balance) && InRange(ConvertFloatToDecimal128(req.amount))
    ensures after.rows[req.Account()].balance
         == before.rows[req.Account()].balance
            + if action == Deposit then ConvertFloatToDecimal128(req.amount) else -ConvertFloatToDecimal128(req.amount)
  {
    hide SumDecimal128, ConvertFloatToDecimal128, ConvertDecimal128ToFloat;
    FromFloatOdd(req.amount);
    SumExact(before.rows[req.Account()].balance,
             if action == Deposit then ConvertFloatToDecimal128(req.amount) else ConvertFloatToDecimal128(-req.amount));
  }

  // ----- accounts stay open -----

  predicate Open(db: Db, key: Key) {
    key in db.rows && db.rows[key].active
  }

  /** An open account stays open, under the same token, for the rest of the run. */
  lemma RunStaysOpen(init: Db, steps: seq<Step>, n: nat, key: Key)
    requires Consistent(init) && n <= |steps| && Run(init, steps).Some?
    requires Run(init, steps[..n]).Some? && Open(Run(init, steps[..n]).value.db, key)
    ensures Open(Run(init, steps).value.db, key)
    ensures Run(init, steps).value.db.rows[key].token == Run(init, steps[..n]).value.db.rows[key].token
  {
    RunOnlyGrows(init, steps, n);
    hide Run;
    assert RowLater(Run(init, steps[..n]).value.db, Run(init, steps).value.db, key);
  }

  lemma EventKeepsOpen(db: Db, e: Event, key: Key)
    requires ReplayEvent(db, e).Some? && (Open(db, key) || OfAccount(e, key))
    ensures Open(ReplayEvent(db, e).value, key)
  {
    hide Decide, FindUser, AppendStatements, UserCollides;
  }

  lemma {:induction false} ReplayLeavesOpen(init: Db, history: seq<Event>, i: nat, key: Key)
    requires Replay(init, history).Some? && i < |history| && OfAccount(history[i], key)
    ensures Open(Replay(init, history).value, key)
  {
    var last := |history| - 1;
    if i < last {
      ReplayLeavesOpen(init, history[..last], i, key);
    }
    EventKeepsOpen(Replay(init, history[..last]).value, history[last], key);
  }

  /** An account on which a transaction has committed is open, and its next valid deposit goes
      through if nobody interferes and the last statement is in order. */
  lemma NextDepositGoesThrough(init: Db, steps: seq<Step>, i: nat, id: nat, req: TransactionRequest, env: Env)
    requires Consistent(init) && Run(init, steps).Some?
    requires i < |Run(init, steps).value.history| && OfAccount(Run(init, steps).value.history[i], req.Account())
    requires req.amount > 0.0 && req.username != "" && req.parentToken != ""
    ensures var s := Run(init, steps).value;
      && Open(s.db, req.Account())
      && (&& id !in s.clients && !env.fails && !HeldByOther(s.clients, id, req.Account())
          && LatestPick(LogOf(s.db, req.Account()), env.pick)
          && CompareDecimal128(s.db.rows[req.Account()].balance, LastCredit(LogOf(s.db, req.Account()), env.pick))
          ==>
          var arrived := Apply(s, Arrive(id, DepositCall, req));
          arrived.Some? && GoneThrough(s, Alone(arrived.value, id, env, 7), id, Deposit, req, env))
  {
    RunKeeps(init, steps);
    var s := Run(init, steps).value;
    ReplayLeavesOpen(init, s.history, i, req.Account());
    hide Run, Replay, Apply, Consistent, GoneThrough, CompareDecimal128, Exclusive, HeldByOther;
    if Undisturbed(s, id, req, env) {
      DepositGoesThrough(s, id, req, env);
    }
  }

  /** A member whose creation answered 200 has an open account under the request's token. */
  lemma CreatedIsOpen(init: Db, steps: seq<Step>, id: nat)
    requires Consistent(init) && Run(init, steps).Some? && id in Run(init, steps).value.clients
    requires var c := Run(init, steps).value.clients[id]; c.AddMember? && c.step == Answered(Created)
    ensures var s := Run(init, steps).value;
      var req := s.clients[id].req;
      Open(s.db, req.Account()) && s.db.rows[req.Account()].token == req.token
  {
    RunKeeps(init, steps);
    assert ClientInv(Run(init, steps).value.db, Run(init, steps).value.clients[id]);
  }

  // ----- a creation that nothing disturbs -----

  /** The name is valid and new, the parent is there, the token is fresh, nothing fails. */
  predicate CanCreate(s: State, id: nat, req: TransactionRequest, env: Env) {
    && id !in s.clients && !env.fails && ValidateUsername(req.username)
    && !HasActive(s.db.users, req.Account()) && HasToken(s.db.users, req.parentToken)
    && (forall u | u in s.db.users :: u.Account() != req.Account() && u.token != env.uuid)
    && req.Account() !in s.db.rows
  }

  function CreatedDb(db: Db, req: TransactionRequest, uuid: string): Db {
    Db(db.users + [User(req.username, req.parentToken, uuid, true)],
       db.rows[req.Account() := Row(req.token, 0, true, 0)], db.log)
  }

  lemma CreationStep(s: State, id: nat, req: TransactionRequest, env: Env, n: nat, c: Client)
    requires CanCreate(s, id, req, env) && n < 4 && c.AddMember? && c.req == req
    requires n == 0 ==> c.step == CheckingUser
    requires n == 1 ==> c.step == FindingParent
    requires n == 2 ==> c.step.InsertingUser? && c.step.parent.token == req.parentToken
    requires n == 3 ==> c.step == InsertingRow
    ensures n < 3 ==> MemberStep(s.db, c, env).Some?
    ensures n == 0 ==> MemberStep(s.db, c, env).value == Effect(s.db, c.(step := FindingParent), [])
    ensures n == 1 ==>
      exists parent: User :: parent.token == req.parentToken
        && MemberStep(s.db, c, env).value == Effect(s.db, c.(step := InsertingUser(parent)), [])
    ensures n == 2 ==>
      var user := User(req.username, req.parentToken, env.uuid, true);
      MemberStep(s.db, c, env).value
      == Effect(s.db.(users := s.db.users + [user]), c.(step := InsertingRow), [UserInserted(user)])
    ensures n == 3 ==>
      var db := s.db.(users := s.db.users + [User(req.username, req.parentToken, env.uuid, true)]);
      var inserted := RowInserted(req.Account(), req.token);
      MemberStep(db, c, env)
      == Some(Effect(CreatedDb(s.db, req, env.uuid), c.(step := Answered(Created)), [inserted]))
  {
    LookupsExactly(s.db.users, req.Account(), req.parentToken);
    FindUserByTokenSound(s.db.users, req.parentToken);
    CollidesExactly(s.db, User(req.username, req.parentToken, env.uuid, true));
    hide FindUser, FindUserByToken, UserCollides, HasActive, HasToken, ValidateUsername;
  }

  /** One call of a creation at work. */
  lemma CreationGoes(s: State, id: nat, c: Client, env: Env, e: Effect)
    requires id in s.clients && s.clients[id] == c && c.AddMember? && MemberStep(s.db, c, env) == Some(e)
    ensures Apply(s, Go(id, env)) == Some(State(e.db, s.clients[id := e.client], s.history + e.events))
  {}

  /** It is answered 200 after four calls: the user is there under its parent, with an active
      row of zero under the request's token, and nothing else has changed. */
  lemma CreationGoesThrough(s: State, id: nat, req: TransactionRequest, env: Env)
    requires CanCreate(s, id, req, env)
    ensures var arrived := Apply(s, Arrive(id, AddMemberCall, req));
      && arrived.Some?
      && var done := Alone(arrived.value, id, env, 4);
         && done.Some? && done.value.db == CreatedDb(s.db, req, env.uuid)
         && id in done.value.clients && done.value.clients[id].AddMember?
         && done.value.clients[id].step.Answered? && done.value.clients[id].step.reply.Status() == 200
  {
    var c0 := AddMember(req, CheckingUser);
    var s0 := Apply(s, Arrive(id, AddMemberCall, req)).value;
    assert s0.clients[id] == c0;
    hide Apply, MemberStep, CanCreate;
    CreationStep(s, id, req, env, 0, c0);
    CreationGoes(s0, id, c0, env, MemberStep(s.db, c0, env).value);
    var s1 := Apply(s0, Go(id, env)).value;
    var c1 := s1.clients[id];
    CreationStep(s, id, req, env, 1, c1);
    CreationGoes(s1, id, c1, env, MemberStep(s.db, c1, env).value);
    var s2 := Apply(s1, Go(id, env)).value;
    var c2 := s2.clients[id];
    CreationStep(s, id, req, env, 2, c2);
    CreationGoes(s2, id, c2, env, MemberStep(s.db, c2, env).value);
    var s3 := Apply(s2, Go(id, env)).value;
    var c3 := s3.clients[id];
    CreationStep(s, id, req, env, 3, c3);
    CreationGoes(s3, id, c3, env, MemberStep(s3.db, c3, env).value);
    var s4 := Apply(s3, Go(id, env)).value;
    assert Alone(s3, id, env, 1) == Alone(s4, id, env, 0);
    assert Alone(s2, id, env, 2) == Alone(s3, id, env, 1);
    assert Alone(s1, id, env, 3) == Alone(s2, id, env, 2);
    assert Alone(s0, id, env, 4) == Alone(s1, id, env, 3);
  }

  /** The first deposit of a member just created finds its balance of zero and goes through. */
  lemma FirstDepositGoesThrough(
    before: State, create: TransactionRequest, created: Env, s: State, id: nat, req: TransactionRequest, env: Env)
    requires Consistent(before.db) && CanCreate(before, id, create, created)
    requires s.db == CreatedDb(before.db, create, created.uuid) && id !in s.clients && !env.fails
    requires !HeldByOther(s.clients, id, req.Account())
    requires req.Account() == create.Account() && req.amount > 0.0 && req.username != "" && req.parentToken != ""
    ensures var arrived := Apply(s, Arrive(id, DepositCall, req));
      && arrived.Some? && s.db.rows[req.Account()].balance == 0
      && GoneThrough(s, Alone(arrived.value, id, env, 7), id, Deposit, req, env)
  {
    CreatedConsistent(before.db, create, created.uuid);
    assert AccountConsistent(before.db, req.Account());
    CompareAcceptsEqual(0);
    DepositGoesThrough(s, id, req, env);
  }

  lemma CreatedConsistent(db: Db, req: TransactionRequest, uuid: string)
    requires Consistent(db) && req.Account() !in db.rows
    requires forall u | u in db.users :: u.Account() != req.Account() && u.token != uuid
    ensures Consistent(CreatedDb(db, req, uuid))
  {
    hide AccountConsistent;
    var user := User(req.username, req.parentToken, uuid, true);
    CollidesExactly(db, user);
    InsertUserGrows(db, user);
    var withUser := InsertUser(db, user).value;
    FindUserComplete(withUser.users, user);
    InsertRowGrows(withUser, req.Account(), EmptyRow(req.token));
  }

  // ----- what is refused -----

  /** A deposit without an amount, a name or a parent is refused with 400 as it arrives, any
      other starts its transaction; so with the name of a member to be created. */
  lemma ArrivalAnswers(s: State, id: nat, call: Arrival, req: TransactionRequest)
    requires id !in s.clients
    ensures Apply(s, Arrive(id, call, req)).Some?
    ensures var s' := Apply(s, Arrive(id, call, req)).value;
      && id in s'.clients && s'.db == s.db && s'.history == s.history
      && match call
         case DepositCall =>
           s'.clients[id].Transfer?
           && if req.amount > 0.0 && req.username != "" && req.parentToken != "" then s'.clients[id].phase == Starting
              else s'.clients[id].phase.Finished? && s'.clients[id].phase.reply.Status() == 400
         case WithdrawCall => s'.clients[id].Transfer? && s'.clients[id].phase == PreChecking
         case AddMemberCall =>
           s'.clients[id].AddMember?
           && if ValidateUsername(req.username) then s'.clients[id].step == CheckingUser
              else s'.clients[id].step.Answered? && s'.clients[id].step.reply.Status() == 400
  {
    hide ValidateUsername;
  }

  /** The check before a withdrawal: 404 without an open account, 400 for a request that is
      incomplete or asks for more than the balance, and on to the transaction otherwise. */
  lemma PreCheckAnswers(db: Db, held: bool, id: nat, c: Client, env: Env)
    requires c.Transfer? && c.phase.PreChecking?
    ensures TransferStep(db, held, id, c, env).Some?
    ensures var e := TransferStep(db, held, id, c, env).value;
      var req := c.req;
      && e.db == db && e.events == [] && e.client.Transfer?
      && if env.fails || !Open(db, req.Account()) then
           e.client.phase.Finished? && e.client.phase.reply.Status() == 404
         else if req.amount > 0.0 && req.username != "" && req.parentToken != ""
                 && req.amount <= ConvertDecimal128ToFloat(db.rows[req.Account()].balance) then
           e.client.phase == Starting
         else
           e.client.phase.Finished? && e.client.phase.reply.Status() == 400
  {
    hide ConvertDecimal128ToFloat;
  }

  // ----- what a failed call is answered -----

  /** A failed query for user or balance ends in 404, any other failed call in 500. */
  lemma FailureAnswers(db: Db, held: bool, id: nat, c: Client, env: Env)
    requires c.Transfer? && env.fails && TransferStep(db, held, id, c, env).Some? && !c.phase.Aborting?
    ensures var next := TransferStep(db, held, id, c, env).value.client;
      && next.Transfer? && (next.phase.Finished? || next.phase.Aborting?)
      && next.phase.reply.Status() ==
         if c.phase.PreChecking? || c.phase.ReadingUser? || c.phase.ReadingBalance? then 404 else 500
  {}

  /** A write that fails may have taken effect all the same: whole, if so, and shown in the
      history; not at all, if not. */
  lemma FailedCommitApplies(db: Db, held: bool, id: nat, c: Client, env: Env)
    requires c.Transfer? && c.phase.Committing? && TransferInv(db, c) && Consistent(db) && env.fails
    ensures TransferStep(db, held, id, c, env).Some?
    ensures var e := TransferStep(db, held, id, c, env).value;
      && (!env.applied ==> e.db == db && e.events == [])
      && (env.applied ==> |e.events| == 1 && e.events[0].Committed? && e.events[0].id == id
                          && Moves(db, e.db, c.action, c.req, c.phase.now, e.events[0].reply))
  {
    hide ProcessOutcome, Moves;
    var Committing(st, pick, now) := c.phase;
    assert RowUnwritten(db, c.session, c.req.Account());
    ProcessReadsOwnAccount(c.session.snapshot.value, db, c.action, c.req, pick, now);
    OutcomeMoves(db, c.action, c.req, pick, now);
    hide Decided, TransferInv, Consistent, Later, RowUnwritten, Commit;
  }

  lemma FailedInsertApplies(db: Db, c: Client, env: Env)
    requires c.AddMember? && MemberInv(db, c) && env.fails && (c.step.InsertingUser? || c.step.InsertingRow?)
    ensures MemberStep(db, c, env).Some?
    ensures var e := MemberStep(db, c, env).value;
      var user := User(c.req.username, c.req.parentToken, env.uuid, true);
      && (!env.applied ==> e.db == db && e.events == [])
      && (env.applied && c.step.InsertingUser?
          && (forall u | u in db.users :: u.Account() != user.Account() && u.token != user.token) ==>
            e.db == db.(users := db.users + [user]) && e.events == [UserInserted(user)])
      && (env.applied && c.step.InsertingRow? && c.req.Account() !in db.rows ==>
            e.db == db.(rows := db.rows[c.req.Account() := Row(c.req.token, 0, true, 0)])
            && e.events == [RowInserted(c.req.Account(), c.req.token)])
  {
    CollidesExactly(db, User(c.req.username, c.req.parentToken, env.uuid, true));
    hide UserCollides;
  }

  /** A member creation is answered 400, 409, 404 and 500 as its calls find things. */
  lemma CreationAnswers(db: Db, c: Client, env: Env)
    requires c.AddMember? && MemberStep(db, c, env).Some?
    ensures var next := MemberStep(db, c, env).value.client;
      && next.AddMember?
      && (c.step.CheckingUser? ==>
            if !env.fails && HasActive(db.users, c.req.Account())
            then next.step.Answered? && next.step.reply.Status() == 409 else next.step == FindingParent)
      && (c.step.FindingParent? && env.fails ==> next.step.Answered? && next.step.reply.Status() == 500)
      && (c.step.FindingParent? && !env.fails ==>
            if HasToken(db.users, c.req.parentToken)
            then next.step.InsertingUser? else next.step.Answered? && next.step.reply.Status() == 404)
      && (c.step.InsertingUser? && env.fails ==> next.step.Answered? && next.step.reply.Status() == 500)
      && (c.step.InsertingRow? ==>
            next.step.Answered?
            && next.step.reply.Status() == if env.fails || c.req.Account() in db.rows then 500 else 200)
  {
    LookupsExactly(db.users, c.req.Account(), c.req.parentToken);
  }

  // ----- only valid names -----

  predicate NameChecked(c: Client) {
    c.AddMember? && !c.step.Answered? && !c.step.Gone? ==> ValidateUsername(c.req.username)
  }

  predicate NamesValid(history: seq<Event>) {
    forall i | 0 <= i < |history| && history[i].UserInserted? :: ValidateUsername(history[i].user.username)
  }

  lemma StepKeepsNames(s: State, step: Step)
    requires Apply(s, step).Some? && NamesValid(s.history) && forall id | id in s.clients :: NameChecked(s.clients[id])
    ensures NamesValid(Apply(s, step).value.history)
    ensures forall id | id in Apply(s, step).value.clients :: NameChecked(Apply(s, step).value.clients[id])
  {
    hide ValidateUsername, TransferStep;
    if step.Go? && s.clients[step.id].Transfer? {
      TransferShowsNoUser(s.db, HeldByOther(s.clients, step.id, s.clients[step.id].req.Account()),
                          step.id, s.clients[step.id], step.env);
    }
  }

  lemma TransferShowsNoUser(db: Db, held: bool, id: nat, c: Client, env: Env)
    requires c.Transfer? && TransferStep(db, held, id, c, env).Some?
    ensures var e := TransferStep(db, held, id, c, env).value;
      e.client.Transfer? && forall i | 0 <= i < |e.events| :: e.events[i].Committed?
  {
    hide Decide, FindUser, FindBalance, Commit, UpdateConflicts;
  }

  /** Every user ever inserted has a valid name. */
  lemma {:induction false} RunInsertsValidNames(init: Db, steps: seq<Step>)
    requires Run(init, steps).Some?
    ensures NamesValid(Run(init, steps).value.history)
    ensures forall id | id in Run(init, steps).value.clients :: NameChecked(Run(init, steps).value.clients[id])
  {
    if steps != [] {
      RunInsertsValidNames(init, steps[..|steps| - 1]);
      StepKeepsNames(Run(init, steps[..|steps| - 1]).value, steps[|steps| - 1]);
    }
  }
}
