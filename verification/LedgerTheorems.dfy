/** What the ledger promises over whole runs. */
module LedgerTheorems {
  import opened ConcurrentWallet
  import opened DecimalUtils
  import opened LedgerProofs
  import opened Models
  import opened MongoStore
  import opened SerialWallet
  import opened WalletService
  import opened Wrappers

  // ----- the chain -----

  /** In every run every account's statements form a chain from zero to its balance. */
  lemma {:induction false} RunKeepsChain(init: Db, steps: seq<Step>, key: Key)
    requires Consistent(init) && Run(init, steps).Some?
    requires key in Run(init, steps).value.db.rows
    ensures var db := Run(init, steps).value.db;
      && Chain(LogOf(db, key), db.rows[key].balance)
      && forall i | 0 <= i < |LogOf(db, key)| :: LogOf(db, key)[i].Account() == key
  {
    RunKeeps(init, steps);
    assert AccountConsistent(Run(init, steps).value.db, key);
  }

  /** No account is ever overdrawn, although the check before a withdrawal reads outside the
      transaction. */
  lemma {:induction false} RunNeverOverdraws(init: Db, steps: seq<Step>, key: Key)
    requires Consistent(init) && Run(init, steps).Some?
    requires key in Run(init, steps).value.db.rows
    ensures Run(init, steps).value.db.rows[key].balance >= 0
  {
    RunKeepsChain(init, steps, key);
    var db := Run(init, steps).value.db;
    ChainNonNegative(LogOf(db, key), db.rows[key].balance);
  }

  lemma {:induction false} RunPrefix(init: Db, steps: seq<Step>, n: nat)
    requires n <= |steps| && Run(init, steps).Some?
    ensures Run(init, steps[..n]).Some?
  {
    if n < |steps| {
      RunPrefix(init, steps[..|steps| - 1], n);
      assert steps[..|steps| - 1][..n] == steps[..n];
    } else {
      assert steps[..n] == steps;
    }
  }

  /** Between any two moments of a run the ledger only grows: no user, row or statement is
      lost or rewritten, and a row that has not been written has the same statements. */
  lemma {:induction false} RunOnlyGrows(init: Db, steps: seq<Step>, n: nat)
    requires Consistent(init) && n <= |steps| && Run(init, steps).Some?
    ensures Run(init, steps[..n]).Some?
    ensures Later(Run(init, steps[..n]).value.db, Run(init, steps).value.db)
  {
    RunPrefix(init, steps, n);
    if n == |steps| {
      assert steps[..n] == steps;
      LaterItself(Run(init, steps).value.db);
    } else {
      var front := steps[..|steps| - 1];
      assert front[..n] == steps[..n];
      RunOnlyGrows(init, front, n);
      RunKeeps(init, front);
      var s := Run(init, front).value;
      ApplyGrows(s, steps[|steps| - 1]);
      LaterTransitive(Run(init, steps[..n]).value.db, s.db, Run(init, steps).value.db);
    }
  }

  /** Between any two moments of a run a balance moves only together with a new statement. */
  lemma BalanceMovesWithStatement(init: Db, steps: seq<Step>, n: nat, key: Key)
    requires Consistent(init) && n <= |steps| && Run(init, steps).Some?
    requires Run(init, steps[..n]).Some? && key in Run(init, steps[..n]).value.db.rows
    ensures var before, after := Run(init, steps[..n]).value.db, Run(init, steps).value.db;
      && key in after.rows && LogOf(before, key) <= LogOf(after, key)
      && (before.rows[key].balance != after.rows[key].balance ==> |LogOf(before, key)| < |LogOf(after, key)|)
  {
    RunOnlyGrows(init, steps, n);
    RunKeeps(init, steps);
    RunKeeps(init, steps[..n]);
    var before, after := Run(init, steps[..n]).value.db, Run(init, steps).value.db;
    hide Run, Replay, Exclusive, LedgerLine;
    assert AccountConsistent(before, key) && AccountConsistent(after, key);
    assert RowLater(before, after, key);
  }

  // ----- overlapping transactions -----

  /** Two transactions on one account never both come to commit; and what a transaction that
      comes to commit has read of its account is still so: none committed on it since. */
  lemma OverlapsDoNotCommit(init: Db, steps: seq<Step>, a: nat, b: nat)
    requires Consistent(init) && Run(init, steps).Some?
    requires var clients := Run(init, steps).value.clients;
      && a in clients && clients[a].Transfer? && clients[a].phase.Committing?
      && b in clients && clients[b].Transfer? && clients[b].phase.Committing?
      && clients[a].req.Account() == clients[b].req.Account()
    ensures a == b
    ensures var s := Run(init, steps).value;
      var key := s.clients[a].req.Account();
      && s.clients[a].session.Session? && s.clients[a].session.snapshot.Some?
      && var snapshot := s.clients[a].session.snapshot.value;
         && key in snapshot.rows && key in s.db.rows
         && snapshot.rows[key] == s.db.rows[key] && LogOf(snapshot, key) == LogOf(s.db, key)
  {
    RunKeeps(init, steps);
    var s := Run(init, steps).value;
    hide Run, Replay, Consistent;
    assert ClientInv(s.db, s.clients[a]) && ClientInv(s.db, s.clients[b]);
    var key := s.clients[a].req.Account();
    assert Holds(s.clients[a], key) && Holds(s.clients[b], key);
    assert RowLater(s.clients[a].session.snapshot.value, s.db, key);
  }

  lemma ApplyGrows(s: State, step: Step)
    requires Consistent(s.db) && (forall id | id in s.clients :: ClientInv(s.db, s.clients[id]))
    requires Apply(s, step).Some?
    ensures Later(s.db, Apply(s, step).value.db)
  {
    LaterItself(s.db);
    if step.Go? {
      ClientStepOk(s, step.id, step.env);
    }
  }

  /** A deposit or withdrawal never dereferences a missing user. */
  lemma RunNeverPanics(init: Db, steps: seq<Step>, id: nat)
    requires Consistent(init) && Run(init, steps).Some? && id in Run(init, steps).value.clients
    ensures var c := Run(init, steps).value.clients[id];
      c.Transfer? ==> !c.phase.Panicked?
  {
    RunKeeps(init, steps);
    assert ClientInv(Run(init, steps).value.db, Run(init, steps).value.clients[id]);
  }

  // ----- conservation -----

  function Deposited(log: seq<WalletStatement>): int {
    if log == [] then 0
    else
      var st := log[|log| - 1];
      Deposited(log[..|log| - 1]) + if st.action == Deposit then st.amount else 0
  }

  function AbsUnits(d: Decimal): int {
    if d < 0 then -d else d
  }

  function Withdrawn(log: seq<WalletStatement>): int {
    if log == [] then 0
    else
      var st := log[|log| - 1];
      Withdrawn(log[..|log| - 1]) + if st.action == Withdraw then AbsUnits(st.amount) else 0
  }

  predicate LogInRange(log: seq<WalletStatement>) {
    forall i | 0 <= i < |log| :: InRange(log[i].beforeCredit) && InRange(log[i].amount)
  }

  lemma {:induction false} AccountAddsUp(log: seq<WalletStatement>, balance: Decimal)
    requires Chain(log, balance) && LogInRange(log)
    ensures balance == Deposited(log) - Withdrawn(log)
  {
    if log != [] {
      var n := |log| - 1;
      ChainTake(log, balance, n);
      AccountAddsUp(log[..n], CreditAfter(log, n));
      LineAddsUp(log[n]);
    }
  }

  lemma LineAddsUp(st: WalletStatement)
    requires LedgerLine(st) && InRange(st.beforeCredit) && InRange(st.amount)
    ensures st.afterCredit == st.beforeCredit + if st.action == Deposit then st.amount else -AbsUnits(st.amount)
  {
    SumExact(st.beforeCredit, st.amount);
  }

  ghost function SumOver(keys: set<Key>, f: Key -> int): int {
    if keys == {} then 0
    else
      var key :| key in keys;
      f(key) + SumOver(keys - {key}, f)
  }

  lemma {:induction false} SumOverRemove(keys: set<Key>, f: Key -> int, key: Key)
    requires key in keys
    ensures SumOver(keys, f) == f(key) + SumOver(keys - {key}, f)
  {
    var first :| first in keys && SumOver(keys, f) == f(first) + SumOver(keys - {first}, f);
    if first != key {
      SumOverRemove(keys - {first}, f, key);
      SumOverRemove(keys - {key}, f, first);
      assert keys - {first} - {key} == keys - {key} - {first};
    }
  }

  lemma {:induction false} SumOverDifference(keys: set<Key>, f: Key -> int, plus: Key -> int, minus: Key -> int)
    requires forall key | key in keys :: f(key) == plus(key) - minus(key)
    ensures SumOver(keys, f) == SumOver(keys, plus) - SumOver(keys, minus)
  {
    if keys != {} {
      var key :| key in keys;
      SumOverRemove(keys, f, key);
      SumOverRemove(keys, plus, key);
      SumOverRemove(keys, minus, key);
      SumOverDifference(keys - {key}, f, plus, minus);
    }
  }

  function BalanceOf(db: Db): Key -> int {
    key => if key in db.rows then db.rows[key].balance else 0
  }

  function DepositedIn(db: Db): Key -> int {
    key => Deposited(LogOf(db, key))
  }

  function WithdrawnIn(db: Db): Key -> int {
    key => Withdrawn(LogOf(db, key))
  }

  /** In every state whose credits and amounts are in range, the balances of all accounts
      together are what all committed deposits brought less what all withdrawals took. */
  lemma {:induction false} RunConserves(init: Db, steps: seq<Step>)
    requires Consistent(init) && Run(init, steps).Some?
    requires forall key | key in Run(init, steps).value.db.rows :: LogInRange(LogOf(Run(init, steps).value.db, key))
    ensures var db := Run(init, steps).value.db;
      SumOver(db.rows.Keys, BalanceOf(db))
      == SumOver(db.rows.Keys, DepositedIn(db)) - SumOver(db.rows.Keys, WithdrawnIn(db))
  {
    RunKeeps(init, steps);
    var db := Run(init, steps).value.db;
    forall key | key in db.rows.Keys
      ensures BalanceOf(db)(key) == DepositedIn(db)(key) - WithdrawnIn(db)(key)
    {
      assert AccountConsistent(db, key);
      AccountAddsUp(LogOf(db, key), db.rows[key].balance);
    }
    SumOverDifference(db.rows.Keys, BalanceOf(db), DepositedIn(db), WithdrawnIn(db));
  }

  // ----- no drift -----

  /** `CalculateNewBalance` folded over one account's committed requests, in commit order. */
  function FoldRequests(history: seq<Event>, key: Key, start: Decimal): Decimal {
    if history == [] then start
    else
      var before := FoldRequests(history[..|history| - 1], key, start);
      var e := history[|history| - 1];
      if !OfAccount(e, key) then before
      else
        match CalculateNewBalance(before, e.req.amount, e.action == Deposit)
        case Success(after) => after
        case Failure(_) => before
  }

  predicate OfAccount(e: Event, key: Key) {
    e.Committed? && e.req.Account() == key
  }

  function OpeningBalance(init: Db, key: Key): Decimal {
    if key in init.rows then init.rows[key].balance else 0
  }

  lemma {:induction false} ReplayFolds(init: Db, history: seq<Event>, key: Key)
    requires Replay(init, history).Some? && key in Replay(init, history).value.rows
    ensures Replay(init, history).value.rows[key].balance == FoldRequests(history, key, OpeningBalance(init, key))
  {
    if history != [] {
      var front := history[..|history| - 1];
      var e := history[|history| - 1];
      var db := Replay(init, front).value;
      if key in db.rows {
        ReplayFolds(init, front, key);
      } else {
        ReplayWithoutRow(init, front, key);
      }
      if OfAccount(e, key) {
        StatementFollowsCalculation(e.action, e.req, db.rows[key].balance, FindUser(db.users, key).value, e.now);
      }
    }
  }

  lemma {:induction false} ReplayWithoutRow(init: Db, history: seq<Event>, key: Key)
    requires Replay(init, history).Some? && key !in Replay(init, history).value.rows
    ensures key !in init.rows && FoldRequests(history, key, 0) == 0 && ExactBalance(history, key, 0) == 0
  {
    if history != [] {
      ReplayWithoutRow(init, history[..|history| - 1], key);
    }
  }

  /** Every stored balance is `CalculateNewBalance` folded over the account's committed
      requests, from its opening balance. */
  lemma RunFoldsRequests(init: Db, steps: seq<Step>, key: Key)
    requires Consistent(init) && Run(init, steps).Some?
    requires key in Run(init, steps).value.db.rows
    ensures var s := Run(init, steps).value;
      s.db.rows[key].balance == FoldRequests(s.history, key, OpeningBalance(init, key))
  {
    RunKeeps(init, steps);
    ReplayFolds(init, Run(init, steps).value.history, key);
  }

  /** The units one request moves. */
  function SignedUnits(e: Event): int
    requires e.Committed?
  {
    if e.action == Deposit then ConvertFloatToDecimal128(e.req.amount) else -ConvertFloatToDecimal128(e.req.amount)
  }

  function ExactBalance(history: seq<Event>, key: Key, start: Decimal): int {
    if history == [] then start
    else
      var e := history[|history| - 1];
      ExactBalance(history[..|history| - 1], key, start) + if OfAccount(e, key) then SignedUnits(e) else 0
  }

  /** Every amount of the account, and the exact running balance it meets, is in range. */
  predicate HistoryInRange(history: seq<Event>, key: Key, start: Decimal) {
    history == [] ||
    (var front := history[..|history| - 1];
     && HistoryInRange(front, key, start)
     && (OfAccount(history[|history| - 1], key) ==>
           InRange(ExactBalance(front, key, start)) && InRange(SignedUnits(history[|history| - 1]))))
  }

  lemma {:induction false} ReplayIsExact(init: Db, history: seq<Event>, key: Key)
    requires Replay(init, history).Some? && key in Replay(init, history).value.rows
    requires HistoryInRange(history, key, OpeningBalance(init, key))
    ensures Replay(init, history).value.rows[key].balance == ExactBalance(history, key, OpeningBalance(init, key))
  {
    if history != [] {
      var front := history[..|history| - 1];
      var e := history[|history| - 1];
      var db := Replay(init, front).value;
      if key in db.rows {
        ReplayIsExact(init, front, key);
      } else {
        ReplayWithoutRow(init, front, key);
      }
      if OfAccount(e, key) {
        StatementIsExact(e, db.rows[key].balance, FindUser(db.users, key).value);
      }
    }
  }

  lemma StatementIsExact(e: Event, balance: Decimal, user: User)
    requires e.Committed? && InRange(balance) && InRange(SignedUnits(e))
    requires CreateStatement(e.action, e.req, balance, user, e.now).Success?
    ensures CreateStatement(e.action, e.req, balance, user, e.now).value.afterCredit == balance + SignedUnits(e)
  {
    hide SumDecimal128, ConvertFloatToDecimal128, ConvertDecimal128ToFloat;
    FromFloatOdd(e.req.amount);
    SumExact(balance, SignedUnits(e));
  }

  /** No drift: in a run of any length that stays in range, the balance computed through
      float64 is the exact sum of the amounts moved. */
  lemma RunNeverDrifts(init: Db, steps: seq<Step>, key: Key)
    requires Consistent(init) && Run(init, steps).Some?
    requires key in Run(init, steps).value.db.rows
    requires HistoryInRange(Run(init, steps).value.history, key, OpeningBalance(init, key))
    ensures var s := Run(init, steps).value;
      s.db.rows[key].balance == ExactBalance(s.history, key, OpeningBalance(init, key))
  {
    RunKeeps(init, steps);
    ReplayIsExact(init, Run(init, steps).value.history, key);
  }
}
