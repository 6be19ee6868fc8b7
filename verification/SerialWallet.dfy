/** The transaction bodies with nobody else at work
    (internal/application/usecases/wallet_usecase.go:289-444): what a deposit or a withdrawal
    does to a database it has to itself.  The concurrent system is compared with this. */
module SerialWallet {
  import opened DecimalUtils
  import opened Models
  import opened MongoStore
  import opened WalletService
  import opened Wrappers

  datatype Outcome =
    | Stops(reply: Reply)
    | Panics
    | Writes(st: WalletStatement)

  /** Everything between the reads and the writes of a transaction, from what it read. */
  function Decide(
    action: TypeAction, req: TransactionRequest, user: Option<User>, row: Row, lastCredit: Decimal, now: int)
    : Outcome
  {
    if ValidateBalanceConsistency(row.balance, lastCredit).Some? then Stops(BalanceInconsistent)
    else if user.None? then Panics
    else
      match CreateStatement(action, req, row.balance, user.value, now)
      case Failure(e) => Stops(Rejected(e))
      case Success(st) => Writes(st)
  }

  function Receipt(st: WalletStatement): Reply {
    Done(ConvertDecimal128ToFloat(st.beforeCredit), ConvertDecimal128ToFloat(st.afterCredit))
  }

  function ProcessOutcome(db: Db, action: TypeAction, req: TransactionRequest, pick: nat, now: int): Outcome
    requires LatestPick(LogOf(db, req.Account()), pick)
  {
    match FindBalance(db, req.Account())
    case None => Stops(BalanceNotFound)
    case Some(row) =>
      Decide(action, req, FindUser(db.users, req.Account()), row, LastCredit(LogOf(db, req.Account()), pick), now)
  }

  function AfterOutcome(db: Db, req: TransactionRequest, outcome: Outcome): Db {
    match outcome
    case Writes(st) => Commit(db, [st], map[req.Account() := st.afterCredit])
    case _ => db
  }

  // ----- properties of the serial bodies -----

  /** A statement is filed under the account the request named. */
  lemma StatementFiledUnderRequest(db: Db, action: TypeAction, req: TransactionRequest, pick: nat, now: int)
    requires LatestPick(LogOf(db, req.Account()), pick)
    requires ProcessOutcome(db, action, req, pick, now).Writes?
    ensures ProcessOutcome(db, action, req, pick, now).st.Account() == req.Account()
  {
    hide CompareDecimal128, SumDecimal128, ConvertFloatToDecimal128, ConvertDecimal128ToFloat;
    FindUserSound(db.users, req.Account());
  }

  /** Money moves on one account: its row and its log go from `before` to `after` by the stored
      amount, nothing else changes, and the reply tells the two balances. */
  predicate Moves(before: Db, after: Db, action: TypeAction, req: TransactionRequest, now: int, reply: Reply) {
    var key := req.Account();
    && key in before.rows && before.rows[key].active
    && var row := before.rows[key];
       var units := ConvertFloatToDecimal128(if action == Deposit then req.amount else -req.amount);
       var ends := SumDecimal128(row.balance, units);
       var st := WalletStatement(now, key.username, key.parentToken, units, row.balance, ends, action);
       && after.users == before.users
       && after.rows == before.rows[key := row.(balance := ends, version := row.version + 1)]
       && after.log == before.log[key := LogOf(before, key) + [st]]
       && reply == Done(ConvertDecimal128ToFloat(row.balance), ConvertDecimal128ToFloat(ends))
  }

  /** A transaction that writes moves the money. */
  lemma OutcomeMoves(db: Db, action: TypeAction, req: TransactionRequest, pick: nat, now: int)
    requires LatestPick(LogOf(db, req.Account()), pick)
    requires ProcessOutcome(db, action, req, pick, now).Writes?
    ensures var outcome := ProcessOutcome(db, action, req, pick, now);
      Moves(db, AfterOutcome(db, req, outcome), action, req, now, Receipt(outcome.st))
  {
    hide CompareDecimal128, SumDecimal128, ConvertFloatToDecimal128, ConvertDecimal128ToFloat;
    FindUserSound(db.users, req.Account());
    CommitOne(db, req.Account(), ProcessOutcome(db, action, req, pick, now).st);
  }

  /** The row is there, active, and agrees with the last statement picked. */
  predicate InGoodOrder(db: Db, key: Key, pick: nat)
    requires LatestPick(LogOf(db, key), pick)
  {
    && key in db.rows && db.rows[key].active
    && CompareDecimal128(db.rows[key].balance, LastCredit(LogOf(db, key), pick))
  }

  /** The balance covers a withdrawal; a deposit needs no cover. */
  predicate Covered(db: Db, action: TypeAction, req: TransactionRequest)
    requires req.Account() in db.rows
  {
    action == Deposit || SumDecimal128(db.rows[req.Account()].balance, ConvertFloatToDecimal128(-req.amount)) >= 0
  }

  /** A transaction is accepted exactly when the account is in good order and covers it, and
      then money moves; otherwise the answer tells what was missing. */
  lemma OutcomeExactly(db: Db, action: TypeAction, req: TransactionRequest, pick: nat, now: int)
    requires Consistent(db) && LatestPick(LogOf(db, req.Account()), pick)
    ensures var outcome := ProcessOutcome(db, action, req, pick, now);
      var key := req.Account();
      && (outcome.Writes? <==> InGoodOrder(db, key, pick) && Covered(db, action, req))
      && (outcome.Writes? ==>
            Moves(db, AfterOutcome(db, req, outcome), action, req, now, Receipt(outcome.st)))
      && (outcome == Stops(BalanceNotFound) <==> !(key in db.rows && db.rows[key].active))
      && (outcome == Stops(BalanceInconsistent) <==>
            key in db.rows && db.rows[key].active && !InGoodOrder(db, key, pick))
      && (outcome == Stops(Rejected(NegativeBalance)) <==>
            InGoodOrder(db, key, pick) && !Covered(db, action, req))
  {
    hide CompareDecimal128, SumDecimal128, ConvertFloatToDecimal128, ConvertDecimal128ToFloat, LedgerLine, Chain;
    var key := req.Account();
    var outcome := ProcessOutcome(db, action, req, pick, now);
    assert AccountConsistent(db, key);
    FindUserSound(db.users, key);
    if key in db.rows {
      ToFloatSign(SumDecimal128(db.rows[key].balance, ConvertFloatToDecimal128(-req.amount)));
    }
    if outcome.Writes? {
      OutcomeMoves(db, action, req, pick, now);
    }
  }

  /** Committing one statement and one balance writes just those. */
  lemma CommitOne(db: Db, key: Key, st: WalletStatement)
    requires key in db.rows && st.Account() == key
    ensures Commit(db, [st], map[key := st.afterCredit])
         == Db(db.users,
               db.rows[key := db.rows[key].(balance := st.afterCredit, version := db.rows[key].version + 1)],
               db.log[key := LogOf(db, key) + [st]])
  {
    var db' := Commit(db, [st], map[key := st.afterCredit]);
    assert AppendStatements(db.log, [st]) == db.log[key := LogOf(db, key) + [st]];
    assert db'.rows == db.rows[key := db.rows[key].(balance := st.afterCredit, version := db.rows[key].version + 1)];
  }

  /** Run alone on a consistent database a transaction keeps it consistent and only adds to it. */
  lemma ProcessKeepsConsistent(db: Db, action: TypeAction, req: TransactionRequest, pick: nat, now: int)
    requires Consistent(db) && LatestPick(LogOf(db, req.Account()), pick) && req.amount > 0.0
    ensures var db' := AfterOutcome(db, req, ProcessOutcome(db, action, req, pick, now));
      Consistent(db') && Later(db, db') && !ProcessOutcome(db, action, req, pick, now).Panics?
  {
    hide CompareDecimal128, LedgerLine, Chain, SumDecimal128, ConvertFloatToDecimal128, ConvertDecimal128ToFloat;
    var key := req.Account();
    var outcome := ProcessOutcome(db, action, req, pick, now);
    assert AccountConsistent(db, key);
    if outcome.Writes? {
      StatementFiledUnderRequest(db, action, req, pick, now);
      ChainNonNegative(LogOf(db, key), db.rows[key].balance);
      StatementIsLedgerLine(action, req, db.rows[key].balance, FindUser(db.users, key).value, now);
      CommitGrows(db, key, outcome.st);
    }
  }

  /** A transaction reads nothing but its own account: on a later database where that
      account's row is unwritten it does the same. */
  lemma ProcessReadsOwnAccount(a: Db, b: Db, action: TypeAction, req: TransactionRequest, pick: nat, now: int)
    requires Later(a, b) && LatestPick(LogOf(a, req.Account()), pick)
    requires ProcessOutcome(a, action, req, pick, now).Writes?
    requires req.Account() in b.rows && b.rows[req.Account()].version == a.rows[req.Account()].version
    ensures LatestPick(LogOf(b, req.Account()), pick)
    ensures ProcessOutcome(b, action, req, pick, now) == ProcessOutcome(a, action, req, pick, now)
  {
    hide CreateStatement, CompareDecimal128;
    var key := req.Account();
    assert RowLater(a, b, key);
    FindUserKeeps(a.users, b.users, key);
  }

  // ----- the consistency check and the clock -----

  /** The last committed statement is newer than all before it. */
  predicate LastIsNewest(log: seq<WalletStatement>) {
    forall i | 0 <= i < |log| - 1 :: log[i].datetime < log[|log| - 1].datetime
  }

  lemma NewestIsPicked(log: seq<WalletStatement>, balance: Decimal, pick: nat)
    requires balance == CreditAfter(log, |log|) && LastIsNewest(log) && LatestPick(log, pick)
    ensures LastCredit(log, pick) == balance
  {
    if log != [] {
      assert log[|log| - 1].datetime <= log[pick].datetime;
    }
  }

  lemma {:induction false} SomePick(log: seq<WalletStatement>) returns (pick: nat)
    requires log != []
    ensures LatestPick(log, pick)
  {
    if |log| == 1 {
      pick := 0;
    } else {
      var n := |log| - 1;
      pick := SomePick(log[..n]);
      if log[pick].datetime < log[n].datetime {
        forall i | 0 <= i < |log|
          ensures log[i].datetime <= log[n].datetime
        {
          assert i < n ==> log[..n][i] == log[i];
        }
        pick := n;
      } else {
        forall i | 0 <= i < |log|
          ensures log[i].datetime <= log[pick].datetime
        {
          assert i < n ==> log[..n][i] == log[i];
        }
      }
    }
  }

  ghost predicate CheckAlwaysPasses(log: seq<WalletStatement>, balance: Decimal) {
    forall pick: nat | LatestPick(log, pick) ::
      ValidateBalanceConsistency(balance, LastCredit(log, pick)).None?
  }

  /** On a ledger that ends at the balance and whose earlier credits all differ from it by two
      units or more, the consistency check passes whatever the server picks exactly when the
      last statement carries the strictly largest datetime. */
  lemma CheckPassesExactly(log: seq<WalletStatement>, balance: Decimal)
    requires balance == CreditAfter(log, |log|) && InRange(balance)
    requires forall i | 0 <= i < |log| - 1 :: FarFrom(log[i].afterCredit, balance)
    ensures CheckAlwaysPasses(log, balance) <==> LastIsNewest(log)
  {
    hide CompareDecimal128;
    if LastIsNewest(log) {
      forall pick: nat | LatestPick(log, pick)
        ensures ValidateBalanceConsistency(balance, LastCredit(log, pick)).None?
      {
        NewestIsPicked(log, balance, pick);
        CompareAcceptsEqual(balance);
      }
    } else {
      var pick := EarlierPick(log);
      CompareRejectsApart(balance, log[pick].afterCredit);
      assert LastCredit(log, pick) == log[pick].afterCredit;
    }
  }

  predicate FarFrom(credit: Decimal, balance: Decimal) {
    InRange(credit) && (credit - balance >= 2 || balance - credit >= 2)
  }

  lemma EarlierPick(log: seq<WalletStatement>) returns (pick: nat)
    requires !LastIsNewest(log)
    ensures LatestPick(log, pick) && pick < |log| - 1
  {
    var n := |log| - 1;
    pick := SomePick(log[..n]);
    var i :| 0 <= i < n && log[i].datetime >= log[n].datetime;
    assert log[..n][i] == log[i];
    forall j | 0 <= j < |log|
      ensures log[j].datetime <= log[pick].datetime
    {
      assert j < n ==> log[..n][j] == log[j];
    }
  }
}
