/** The use cases as they call the repository, one call after another
    (internal/application/usecases/wallet_usecase.go), proved to do what the serial bodies
    say.  The repository may fail any call unless it is `healthy`. */
module WalletUseCase {
  import opened DecimalUtils
  import opened Models
  import opened MongoStore
  import opened SerialWallet
  import opened StringUtils
  import opened WalletService
  import opened Wrappers

  datatype StorageError = StorageError

  /** The repository calls that can fail. */
  datatype Call =
    | Starting
    | FindingUser
    | FindingToken
    | FindingBalance
    | FindingLast
    | InsertingStatement
    | UpdatingBalance
    | Committing
    | InsertingUser
    | InsertingRow

  /** The collections with the one session this client may have open.  `failed` is the last
      call that failed. */
  class MongoAdapter {
    var db: Db
    var session: Session
    var failed: Option<Call>
    const healthy: bool
    const held: set<Key>

    /** `held` are the rows that open transactions of other clients have written. */
    constructor (db: Db, healthy: bool, held: set<Key>)
      ensures this.db == db && this.session == NoSession && this.healthy == healthy && this.held == held
      ensures failed == None
    {
      this.db, this.session, this.failed, this.healthy, this.held := db, NoSession, None, healthy, held;
    }

    /** What reads see: the snapshot inside a session that has one. */
    function View(): Db
      reads this
    {
      if session.Session? && session.snapshot.Some? then session.snapshot.value else db
    }

    /** The session as a read leaves it: with a snapshot. */
    function SessionAfterRead(): Session
      reads this
    {
      if session.Session? then session.(snapshot := Some(View())) else session
    }

    method Breaks(call: Call) returns (broken: bool)
      modifies this`failed
      ensures healthy ==> !broken
      ensures failed == if broken then Some(call) else old(failed)
    {
      if healthy {
        broken := false;
      } else {
        broken := *;
      }
      if broken {
        failed := Some(call);
      }
    }

    method StartTransaction() returns (started: bool)
      modifies this`session, this`failed
      ensures healthy ==> started
      ensures failed == if started then old(failed) else Some(Starting)
      ensures session == if started then Session(None, [], map[]) else NoSession
    {
      var broken := Breaks(Starting);
      started := !broken;
      session := if started then Session(None, [], map[]) else NoSession;
    }

    method GetUserByUsername(key: Key) returns (r: Result<Option<User>, StorageError>)
      modifies this`session, this`failed
      ensures session == old(SessionAfterRead())
      ensures healthy ==> r.Success?
      ensures failed == if r.Success? then old(failed) else Some(FindingUser)
      ensures r.Success? ==> r.value == FindUser(old(View()).users, key)
    {
      session := SessionAfterRead();
      var broken := Breaks(FindingUser);
      r := if broken then Failure(StorageError) else Success(FindUser(View().users, key));
    }

    method GetUserByToken(token: string) returns (r: Result<Option<User>, StorageError>)
      modifies this`session, this`failed
      ensures session == old(SessionAfterRead())
      ensures healthy ==> r.Success?
      ensures failed == if r.Success? then old(failed) else Some(FindingToken)
      ensures r.Success? ==> r.value == FindUserByToken(old(View()).users, token)
    {
      session := SessionAfterRead();
      var broken := Breaks(FindingToken);
      r := if broken then Failure(StorageError) else Success(FindUserByToken(View().users, token));
    }

    /** A missing balance is an error, as a failed query is. */
    method GetAccountBalance(key: Key) returns (r: Result<Row, StorageError>)
      modifies this`session, this`failed
      ensures session == old(SessionAfterRead())
      ensures healthy ==> (r.Success? <==> FindBalance(old(View()), key).Some?)
      ensures healthy || r.Success? ==> failed == old(failed)
      ensures failed == old(failed) || (failed == Some(FindingBalance) && r.Failure?)
      ensures failed == old(failed) == None ==> (r.Success? <==> FindBalance(old(View()), key).Some?)
      ensures r.Success? ==> FindBalance(old(View()), key) == Some(r.value)
    {
      session := SessionAfterRead();
      var broken := Breaks(FindingBalance);
      var found := FindBalance(View(), key);
      r := if broken || found.None? then Failure(StorageError) else Success(found.value);
    }

    /** Among equally new statements the server picks one; without any, the credit is zero. */
    method GetLastWalletStatement(key: Key) returns (r: Result<Decimal, StorageError>, ghost pick: nat)
      modifies this`session, this`failed
      ensures session == old(SessionAfterRead())
      ensures healthy ==> r.Success?
      ensures failed == if r.Success? then old(failed) else Some(FindingLast)
      ensures LatestPick(LogOf(old(View()), key), pick)
      ensures r.Success? ==> r.value == LastCredit(LogOf(old(View()), key), pick)
    {
      session := SessionAfterRead();
      var log := LogOf(View(), key);
      var newest: nat := 0;
      var i := 1;
      while i < |log|
        invariant log != [] ==> newest < i <= |log| && forall j | 0 <= j < i :: log[j].datetime <= log[newest].datetime
      {
        if log[newest].datetime < log[i].datetime {
          newest := i;
        } else if log[newest].datetime == log[i].datetime {
          var later: bool := *;
          newest := if later then i else newest;
        }
        i := i + 1;
      }
      pick := newest;
      var broken := Breaks(FindingLast);
      r := if broken then Failure(StorageError) else Success(LastCredit(log, newest));
    }

    method CreateWalletStatement(st: WalletStatement) returns (saved: bool)
      requires session.Session?
      modifies this`session, this`failed
      ensures healthy ==> saved
      ensures failed == if saved then old(failed) else Some(InsertingStatement)
      ensures session == if saved then old(session).(inserts := old(session).inserts + [st]) else old(session)
    {
      var broken := Breaks(InsertingStatement);
      saved := !broken;
      if saved {
        session := session.(inserts := session.inserts + [st]);
      }
    }

    /** Fails when no row matches, when the row changed since the snapshot, and when another
        open transaction has written it. */
    method UpdateAccountBalance(key: Key, newBalance: Decimal) returns (updated: bool)
      requires session.Session?
      modifies this`session, this`failed
      ensures failed == if updated then old(failed) else Some(UpdatingBalance)
      ensures updated ==> !UpdateConflicts(db, old(View()), key, key in held)
      ensures healthy ==> updated == !UpdateConflicts(db, old(View()), key, key in held)
      ensures session == if updated then old(session).(updates := old(session).updates[key := newBalance])
                         else old(session)
    {
      var broken := Breaks(UpdatingBalance);
      updated := !broken && !UpdateConflicts(db, View(), key, key in held);
      if updated {
        session := session.(updates := session.updates[key := newBalance]);
      } else {
        failed := Some(UpdatingBalance);
      }
    }

    /** A commit that reports an error may or may not have been applied. */
    method CommitTransaction() returns (committed: bool)
      requires session.Session?
      modifies this
      ensures healthy ==> committed
      ensures failed == if committed then old(failed) else Some(Committing)
      ensures session == NoSession
      ensures db == Commit(old(db), old(session).inserts, old(session).updates) || (!committed && db == old(db))
    {
      var broken := Breaks(Committing);
      committed := !broken;
      var applied: bool := *;
      if committed || applied {
        db := Commit(db, session.inserts, session.updates);
      }
      session := NoSession;
    }

    method AbortTransaction()
      modifies this`session
      ensures session == NoSession
    {
      session := NoSession;
    }

    method CreateUser(user: User) returns (created: bool)
      modifies this`db, this`failed
      ensures failed == if created then old(failed) else Some(InsertingUser)
      ensures created ==> Some(db) == InsertUser(old(db), user)
      ensures !created ==> db == old(db) || Some(db) == InsertUser(old(db), user)
      ensures healthy ==> created == InsertUser(old(db), user).Some? && (!created ==> db == old(db))
    {
      var inserted := InsertUser(db, user);
      var broken := Breaks(InsertingUser);
      var applied: bool := *;
      created := !broken && inserted.Some?;
      if inserted.Some? && (created || applied) {
        db := inserted.value;
      }
      if !created {
        failed := Some(InsertingUser);
      }
    }

    method CreateAccountBalance(key: Key, row: Row) returns (created: bool)
      modifies this`db, this`failed
      ensures failed == if created then old(failed) else Some(InsertingRow)
      ensures created ==> Some(db) == InsertRow(old(db), key, row)
      ensures !created ==> db == old(db) || Some(db) == InsertRow(old(db), key, row)
      ensures healthy ==> created == InsertRow(old(db), key, row).Some? && (!created ==> db == old(db))
    {
      var inserted := InsertRow(db, key, row);
      var broken := Breaks(InsertingRow);
      var applied: bool := *;
      created := !broken && inserted.Some?;
      if inserted.Some? && (created || applied) {
        db := inserted.value;
      }
      if !created {
        failed := Some(InsertingRow);
      }
    }
  }

  // ----- specification -----

  /** The reply of a transaction body, when no call fails. */
  function SerialReply(outcome: Outcome): Reply
    requires !outcome.Panics?
  {
    match outcome
    case Stops(reply) => reply
    case Writes(st) => Receipt(st)
  }

  /** A failed query for user or balance is answered 404, any other failed call 500. */
  predicate Answered(failed: Option<Call>, reply: Reply) {
    failed.Some? ==>
      reply.Status() == if failed.value.FindingUser? || failed.value.FindingBalance? then 404 else 500
  }

  /** What a caller with a valid request is told, and what has happened: a 200 means the money
      moved and tells both balances, after a failed commit it may have, and nothing happened
      otherwise.  When no call fails the account alone decides. */
  ghost predicate TransferTold(
    before: Db, after: Db, action: TypeAction, req: TransactionRequest, pick: nat, now: int,
    failed: Option<Call>, reply: Reply)
    requires LatestPick(LogOf(before, req.Account()), pick)
  {
    var key := req.Account();
    && (reply.Status() == 200 <==> reply.Done?)
    && (reply.Done? ==> Moves(before, after, action, req, now, reply))
    && (failed == Some(Committing) ==>
          after == before || exists told: Reply :: Moves(before, after, action, req, now, told))
    && (!reply.Done? && failed != Some(Committing) ==> after == before)
    && Answered(failed, reply)
    && (failed.None? ==>
          reply.Status() ==
          if !(key in before.rows && before.rows[key].active) then 404
          else if !InGoodOrder(before, key, pick) then 500
          else if !Covered(before, action, req) then 400
          else 200)
  }

  /** The same, told by the outcome of the serial body. */
  predicate FollowsOutcome(
    before: Db, after: Db, req: TransactionRequest, outcome: Outcome, failed: Option<Call>, reply: Reply)
  {
    && (reply.Done? ==> outcome.Writes? && reply == Receipt(outcome.st) && after == AfterOutcome(before, req, outcome))
    && (failed == Some(Committing) ==>
          outcome.Writes? && (after == before || after == AfterOutcome(before, req, outcome)))
    && (!reply.Done? && failed != Some(Committing) ==> after == before)
    && Answered(failed, reply) && reply != Created
    && (failed.None? ==> !outcome.Panics? && reply == SerialReply(outcome))
  }

  lemma OutcomeTells(
    before: Db, after: Db, action: TypeAction, req: TransactionRequest, pick: nat, now: int,
    failed: Option<Call>, reply: Reply)
    requires Consistent(before) && LatestPick(LogOf(before, req.Account()), pick)
    requires FollowsOutcome(before, after, req, ProcessOutcome(before, action, req, pick, now), failed, reply)
    ensures TransferTold(before, after, action, req, pick, now, failed, reply)
  {
    OutcomeExactly(before, action, req, pick, now);
    OutcomeIs(before, action, req, pick, now);
    hide ProcessOutcome, Consistent, Moves, InGoodOrder, Covered, AfterOutcome, LatestPick;
  }

  /** A transaction that writes nothing and does not panic stops for one of three reasons. */
  lemma OutcomeIs(db: Db, action: TypeAction, req: TransactionRequest, pick: nat, now: int)
    requires LatestPick(LogOf(db, req.Account()), pick)
    ensures var outcome := ProcessOutcome(db, action, req, pick, now);
      outcome.Stops? ==>
        outcome.reply in {BalanceNotFound, BalanceInconsistent, Rejected(NegativeBalance)}
  {
    hide CompareDecimal128, SumDecimal128, ConvertFloatToDecimal128, ConvertDecimal128ToFloat;
  }

  class WalletUseCase {
    const walletRepo: MongoAdapter

    constructor (walletRepo: MongoAdapter)
      ensures this.walletRepo == walletRepo
    {
      this.walletRepo := walletRepo;
    }

    /** The reads, the decision and the buffered writes of a transaction. */
    method ProcessTransaction(action: TypeAction, req: TransactionRequest, now: int)
      returns (reply: Reply, ghost pick: nat)
      requires walletRepo.session == Session(None, [], map[]) && walletRepo.failed.None?
      requires Consistent(walletRepo.db) && req.amount > 0.0
      modifies walletRepo
      ensures walletRepo.db == old(walletRepo.db) && walletRepo.session.Session?
      ensures LatestPick(LogOf(walletRepo.db, req.Account()), pick)
      ensures var outcome := ProcessOutcome(walletRepo.db, action, req, pick, now);
        && !outcome.Panics?
        && (reply.Done? ==>
              && outcome.Writes? && reply == Receipt(outcome.st)
              && walletRepo.session.inserts == [outcome.st]
              && walletRepo.session.updates == map[req.Account() := outcome.st.afterCredit])
        && reply != CommitFailed && reply != Created
        && match walletRepo.failed
           case None => reply == SerialReply(outcome)
           case Some(FindingUser) => reply == UserNotFound
           case Some(FindingBalance) => reply == BalanceNotFound
           case Some(call) => reply == StorageFailed && call in {FindingLast, InsertingStatement, UpdatingBalance}
      ensures walletRepo.healthy && req.Account() !in walletRepo.held ==> walletRepo.failed.None?
    {
      hide CreateStatement, CompareDecimal128, Consistent, LatestPick, LastCredit, FindUser, FindBalance, LogOf;
      ghost var db := walletRepo.db;
      ghost var somePick := AnyPick(LogOf(db, req.Account()));
      pick := somePick;
      ProcessKeepsConsistent(db, action, req, pick, now);
      BalanceExactly(db, req.Account());
      var user := walletRepo.GetUserByUsername(req.Account());
      if user.Failure? {
        return UserNotFound, pick;
      }
      var accountBalance := walletRepo.GetAccountBalance(req.Account());
      if accountBalance.Failure? {
        return BalanceNotFound, pick;
      }
      var last;
      last, pick := walletRepo.GetLastWalletStatement(req.Account());
      ProcessKeepsConsistent(db, action, req, pick, now);
      if last.Failure? {
        return StorageFailed, pick;
      }
      if ValidateBalanceConsistency(accountBalance.value.balance, last.value).Some? {
        return BalanceInconsistent, pick;
      }
      var statement := CreateStatement(action, req, accountBalance.value.balance, user.value.value, now);
      if statement.Failure? {
        return Rejected(statement.error), pick;
      }
      var saved := walletRepo.CreateWalletStatement(statement.value);
      if !saved {
        return StorageFailed, pick;
      }
      assert [] + [statement.value] == [statement.value];
      var updated := walletRepo.UpdateAccountBalance(req.Account(), statement.value.afterCredit);
      if !updated {
        return StorageFailed, pick;
      }
      reply := Done(ConvertDecimal128ToFloat(statement.value.beforeCredit),
                    ConvertDecimal128ToFloat(statement.value.afterCredit));
    }

    lemma AnyPick(log: seq<WalletStatement>) returns (pick: nat)
      ensures LatestPick(log, pick)
    {
      if log == [] {
        pick := 0;
      } else {
        pick := SomePick(log);
      }
    }

    /** Commit after success, abort otherwise. */
    method RunTransaction(action: TypeAction, req: TransactionRequest, now: int) returns (reply: Reply, ghost pick: nat)
      requires walletRepo.session == NoSession && walletRepo.failed.None?
      requires Consistent(walletRepo.db) && req.amount > 0.0
      modifies walletRepo
      ensures walletRepo.session == NoSession && Consistent(walletRepo.db)
      ensures LatestPick(LogOf(old(walletRepo.db), req.Account()), pick)
      ensures FollowsOutcome(old(walletRepo.db), walletRepo.db, req,
                             ProcessOutcome(old(walletRepo.db), action, req, pick, now), walletRepo.failed, reply)
      ensures walletRepo.healthy && req.Account() !in walletRepo.held ==> walletRepo.failed.None?
    {
      hide ProcessOutcome, Consistent;
      ghost var db := walletRepo.db;
      ghost var somePick := AnyPick(LogOf(db, req.Account()));
      pick := somePick;
      ProcessKeepsConsistent(db, action, req, pick, now);
      var started := walletRepo.StartTransaction();
      if !started {
        return StorageFailed, pick;
      }
      reply, pick := ProcessTransaction(action, req, now);
      ProcessKeepsConsistent(db, action, req, pick, now);
      if reply.Status() == 200 {
        ghost var outcome := ProcessOutcome(db, action, req, pick, now);
        var committed := walletRepo.CommitTransaction();
        assert walletRepo.db == db || walletRepo.db == AfterOutcome(db, req, outcome);
        if !committed {
          reply := CommitFailed;
        }
      } else {
        walletRepo.AbortTransaction();
      }
    }

    method HandleDeposit(req: TransactionRequest, now: int) returns (reply: Reply, ghost pick: nat)
      requires walletRepo.session == NoSession && walletRepo.failed.None? && Consistent(walletRepo.db)
      modifies walletRepo
      ensures walletRepo.session == NoSession && Consistent(walletRepo.db)
      ensures if req.amount > 0.0 && req.username != "" && req.parentToken != "" then
                && LatestPick(LogOf(old(walletRepo.db), req.Account()), pick)
                && TransferTold(old(walletRepo.db), walletRepo.db, Deposit, req, pick, now, walletRepo.failed, reply)
              else reply.Status() == 400 && walletRepo.db == old(walletRepo.db)
      ensures walletRepo.healthy && req.Account() !in walletRepo.held ==> walletRepo.failed.None?
    {
      hide TransferTold, FollowsOutcome, ProcessOutcome, Consistent;
      var invalid := ValidateDepositRequest(req);
      if invalid.Some? {
        return Rejected(invalid.value), 0;
      }
      ghost var db := walletRepo.db;
      reply, pick := RunTransaction(Deposit, req, now);
      OutcomeTells(db, walletRepo.db, Deposit, req, pick, now, walletRepo.failed, reply);
    }

    /** The balance is read and the request checked against it before the transaction, in which
        nobody else interferes here: a request past that check is covered. */
    method HandleWithdraw(req: TransactionRequest, now: int) returns (reply: Reply, ghost pick: nat)
      requires walletRepo.session == NoSession && walletRepo.failed.None? && Consistent(walletRepo.db)
      modifies walletRepo
      ensures walletRepo.session == NoSession && Consistent(walletRepo.db)
      ensures LatestPick(LogOf(old(walletRepo.db), req.Account()), pick)
      ensures var before, key := old(walletRepo.db), req.Account();
        if !(key in before.rows && before.rows[key].active) then
          reply.Status() == 404 && walletRepo.db == before
        else if req.amount > 0.0 && req.username != "" && req.parentToken != ""
                && req.amount <= ConvertDecimal128ToFloat(before.rows[key].balance) then
          && Covered(before, Withdraw, req)
          && TransferTold(before, walletRepo.db, Withdraw, req, pick, now, walletRepo.failed, reply)
        else
          && reply.Status() == (if walletRepo.failed.None? then 400 else 404)
          && walletRepo.db == before
      ensures walletRepo.healthy && req.Account() !in walletRepo.held ==> walletRepo.failed.None?
    {
      ghost var db := walletRepo.db;
      ghost var somePick := AnyPick(LogOf(db, req.Account()));
      pick := somePick;
      BalanceExactly(db, req.Account());
      var accountBalance := walletRepo.GetAccountBalance(req.Account());
      if accountBalance.Failure? {
        if PrecheckPasses(db, req) {
          PrecheckedIsCovered(db, req, now);
        }
        return UserNotFound, pick;
      }
      var currentBalance := ConvertDecimal128ToFloat(accountBalance.value.balance);
      var invalid := ValidateWithdrawRequest(req, currentBalance);
      if invalid.Some? {
        return Rejected(invalid.value), pick;
      }
      PrecheckedIsCovered(db, req, now);
      reply, pick := RunTransaction(Withdraw, req, now);
      OutcomeTells(db, walletRepo.db, Withdraw, req, pick, now, walletRepo.failed, reply);
    }

    lemma BalanceExactly(db: Db, key: Key)
      ensures FindBalance(db, key) == if key in db.rows && db.rows[key].active then Some(db.rows[key]) else None
    {}

    predicate PrecheckPasses(db: Db, req: TransactionRequest) {
      && req.Account() in db.rows
      && ValidateWithdrawRequest(req, ConvertDecimal128ToFloat(db.rows[req.Account()].balance)).None?
    }

    lemma PrecheckedIsCovered(db: Db, req: TransactionRequest, now: int)
      requires PrecheckPasses(db, req)
      ensures Covered(db, Withdraw, req)
    {
      hide SumDecimal128, ConvertFloatToDecimal128, ConvertDecimal128ToFloat;
      var balance := db.rows[req.Account()].balance;
      var somebody := User(req.username, req.parentToken, "", true);
      GuardAfterPrecheck(req, balance, somebody, now);
      ToFloatSign(SumDecimal128(balance, ConvertFloatToDecimal128(-req.amount)));
    }

    /** Only a failed call can leave the user without a balance, and then the answer is 500. */
    method HandleCreateMember(req: TransactionRequest, uuid: string) returns (reply: Reply)
      requires walletRepo.session == NoSession && walletRepo.failed.None? && Consistent(walletRepo.db)
      modifies walletRepo
      ensures walletRepo.session == NoSession && Consistent(walletRepo.db) && Later(old(walletRepo.db), walletRepo.db)
      ensures var before, after, key := old(walletRepo.db), walletRepo.db, req.Account();
        var withUser := before.users + [User(req.username, req.parentToken, uuid, true)];
        && after.log == before.log
        && (after == before
            || (after.users == withUser && after.rows == before.rows && reply.Status() == 500)
            || (after.users == withUser && key !in before.rows
                && after.rows == before.rows[key := Row(req.token, 0, true, 0)]))
        && (reply.Status() == 200 ==> after.users == withUser && key !in before.rows && key in after.rows)
        && (reply.Status() == 200 || reply.Status() == 500 || after == before)
      ensures walletRepo.healthy ==>
        var before, key := old(walletRepo.db), req.Account();
        reply.Status() ==
        if !ValidateUsername(req.username) then 400
        else if HasActive(before.users, key) then 409
        else if !HasToken(before.users, req.parentToken) then 404
        else if key in before.rows || (exists u | u in before.users :: u.Account() == key || u.token == uuid) then 500
        else 200
      ensures walletRepo.failed.Some? && walletRepo.failed != Some(FindingUser) ==> reply.Status() == 500
    {
      if !ValidateUsername(req.username) {
        return BadUsername;
      }
      LookupsExactly(walletRepo.db.users, req.Account(), req.parentToken);
      CollidesExactly(walletRepo.db, User(req.username, req.parentToken, uuid, true));
      hide UserCollides;
      var existing := walletRepo.GetUserByUsername(req.Account());
      if existing.Success? && existing.value.Some? {
        return UserExists;
      }
      var parent := walletRepo.GetUserByToken(req.parentToken);
      if parent.Failure? {
        return StorageFailed;
      }
      if parent.value.None? {
        return ParentNotFound;
      }
      ghost var db := walletRepo.db;
      FindUserByTokenSound(db.users, req.parentToken);
      var user := User(req.username, parent.value.value.token, uuid, true);
      if InsertUser(db, user).Some? {
        InsertUserGrows(db, user);
        FindUserComplete(db.users + [user], user);
      }
      var created := walletRepo.CreateUser(user);
      if !created {
        return StorageFailed;
      }
      ghost var withUser := walletRepo.db;
      var row := EmptyRow(req.token);
      if InsertRow(withUser, req.Account(), row).Some? {
        InsertRowGrows(withUser, req.Account(), row);
        LaterTransitive(db, withUser, InsertRow(withUser, req.Account(), row).value);
      }
      created := walletRepo.CreateAccountBalance(req.Account(), row);
      if !created {
        return StorageFailed;
      }
      reply := Created;
    }
  }
}
