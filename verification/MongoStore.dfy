/** The three collections and what MongoDB guarantees about them
    (internal/infrastructure/adapters/db/mongo_adapter.go).

    `users` keeps insertion order, `rows` is the balance collection under its unique index,
    `log` the statement collection by account in commit order.  A row's `version` counts the
    committed writes to it: the server's own bookkeeping, by which it detects conflicts. */
module MongoStore {
  import opened DecimalUtils
  import opened Models
  import opened WalletService
  import opened Wrappers

  datatype Row = Row(token: string, balance: Decimal, active: bool, version: nat)

  datatype Db = Db(users: seq<User>, rows: map<Key, Row>, log: map<Key, seq<WalletStatement>>)

  function LogOf(db: Db, key: Key): seq<WalletStatement> {
    if key in db.log then db.log[key] else []
  }

  // ----- lookups -----

  function FindUser(users: seq<User>, key: Key): Option<User> {
    if users == [] then None
    else if users[0].Account() == key && users[0].active then Some(users[0])
    else FindUser(users[1..], key)
  }

  function FindUserByToken(users: seq<User>, token: string): Option<User> {
    if users == [] then None
    else if users[0].token == token && users[0].active then Some(users[0])
    else FindUserByToken(users[1..], token)
  }

  function FindBalance(db: Db, key: Key): Option<Row> {
    if key in db.rows && db.rows[key].active then Some(db.rows[key]) else None
  }

  /** The server may answer a query sorted by `datetime` with any statement that has the
      largest one; `pick` says which. */
  predicate LatestPick(log: seq<WalletStatement>, pick: nat) {
    log != [] ==> pick < |log| && forall i | 0 <= i < |log| :: log[i].datetime <= log[pick].datetime
  }

  /** The credit of the last statement; zero when there is none. */
  function LastCredit(log: seq<WalletStatement>, pick: nat): Decimal
    requires LatestPick(log, pick)
  {
    if log == [] then 0 else log[pick].afterCredit
  }

  /** Commit order is clock order. */
  predicate Increasing(log: seq<WalletStatement>) {
    forall i, j | 0 <= i < j < |log| :: log[i].datetime < log[j].datetime
  }

  // ----- writes outside a transaction -----

  /** The balance row of a new member. */
  function EmptyRow(token: string): Row {
    Row(token, 0, true, 0)
  }

  /** Both indexes on users are unique, whatever the status. */
  predicate UserCollides(users: seq<User>, user: User) {
    exists i | 0 <= i < |users| :: users[i].Account() == user.Account() || users[i].token == user.token
  }

  function InsertUser(db: Db, user: User): Option<Db> {
    if UserCollides(db.users, user) then None else Some(db.(users := db.users + [user]))
  }

  function InsertRow(db: Db, key: Key, row: Row): Option<Db> {
    if key in db.rows then None else Some(db.(rows := db.rows[key := row]))
  }

  // ----- transactions -----

  /** A session reads from its snapshot, taken at the first read, and buffers its writes. */
  datatype Session =
    | NoSession
    | Session(snapshot: Option<Db>, inserts: seq<WalletStatement>, updates: map<Key, Decimal>)

  /** An update fails when the row changed since the snapshot or another open transaction
      has written it. */
  predicate UpdateConflicts(db: Db, snapshot: Db, key: Key, heldByOther: bool) {
    heldByOther || key !in db.rows || key !in snapshot.rows || db.rows[key].version != snapshot.rows[key].version
  }

  function AppendStatements(log: map<Key, seq<WalletStatement>>, inserts: seq<WalletStatement>)
    : map<Key, seq<WalletStatement>>
    decreases inserts
  {
    if inserts == [] then log
    else
      var key := inserts[0].Account();
      var before := if key in log then log[key] else [];
      AppendStatements(log[key := before + [inserts[0]]], inserts[1..])
  }

  /** All buffered writes appear at once. */
  function Commit(db: Db, inserts: seq<WalletStatement>, updates: map<Key, Decimal>): Db {
    Db(db.users,
       map key | key in db.rows ::
         if key in updates then db.rows[key].(balance := updates[key], version := db.rows[key].version + 1)
         else db.rows[key],
       AppendStatements(db.log, inserts))
  }

  // ----- a consistent ledger -----

  /** The statements of one account, in commit order: the first starts from zero, each starts
      where the one before it ended, and the last ended at the balance. */
  predicate Chain(log: seq<WalletStatement>, balance: Decimal) {
    && balance == CreditAfter(log, |log|)
    && forall i | 0 <= i < |log| :: LedgerLine(log[i]) && log[i].beforeCredit == CreditAfter(log, i)
  }

  /** The credit after the first `n` statements. */
  function CreditAfter(log: seq<WalletStatement>, n: nat): Decimal
    requires n <= |log|
  {
    if n == 0 then 0 else log[n - 1].afterCredit
  }

  lemma ChainAppend(log: seq<WalletStatement>, balance: Decimal, st: WalletStatement)
    requires Chain(log, balance) && LedgerLine(st) && st.beforeCredit == balance
    ensures Chain(log + [st], st.afterCredit)
  {
    hide LedgerLine;
    var longer := log + [st];
    forall i | 0 <= i < |longer|
      ensures LedgerLine(longer[i]) && longer[i].beforeCredit == CreditAfter(longer, i)
    {
      if i < |log| {
        assert longer[i] == log[i] && CreditAfter(longer, i) == CreditAfter(log, i);
      }
    }
  }

  lemma ChainTake(log: seq<WalletStatement>, balance: Decimal, n: nat)
    requires Chain(log, balance) && n <= |log|
    ensures Chain(log[..n], CreditAfter(log, n))
  {
    hide LedgerLine;
    var front := log[..n];
    forall i | 0 <= i < n
      ensures LedgerLine(front[i]) && front[i].beforeCredit == CreditAfter(front, i)
    {
      assert front[i] == log[i] && CreditAfter(front, i) == CreditAfter(log, i);
    }
  }

  lemma ChainNonNegative(log: seq<WalletStatement>, balance: Decimal)
    requires Chain(log, balance)
    ensures balance >= 0
  {
    hide SumDecimal128, ConvertFloatToDecimal128, ConvertDecimal128ToFloat;
  }

  predicate AccountConsistent(db: Db, key: Key) {
    && (key in db.rows ==> Chain(LogOf(db, key), db.rows[key].balance))
    && (key !in db.rows ==> LogOf(db, key) == [])
    && (forall i | 0 <= i < |LogOf(db, key)| :: LogOf(db, key)[i].Account() == key)
    && (FindBalance(db, key).Some? ==> FindUser(db.users, key).Some?)
  }

  ghost predicate Consistent(db: Db) {
    forall key: Key :: AccountConsistent(db, key)
  }

  // ----- how a database grows -----

  /** `b` is a later state of `a`: nothing disappears, a row keeps its token and its status,
      and an account whose row has not been written has the same row and the same statements. */
  ghost predicate Later(a: Db, b: Db) {
    && a.users <= b.users
    && forall key: Key | key in a.rows :: RowLater(a, b, key)
  }

  predicate RowLater(a: Db, b: Db, key: Key)
    requires key in a.rows
  {
    && key in b.rows
    && a.rows[key].token == b.rows[key].token && a.rows[key].active == b.rows[key].active
    && a.rows[key].version <= b.rows[key].version
    && LogOf(a, key) <= LogOf(b, key)
    && (a.rows[key].version == b.rows[key].version ==>
          a.rows[key] == b.rows[key] && LogOf(a, key) == LogOf(b, key))
  }

  lemma LaterTransitive(a: Db, b: Db, c: Db)
    requires Later(a, b) && Later(b, c)
    ensures Later(a, c)
  {
    forall key: Key | key in a.rows
      ensures RowLater(a, c, key)
    {
      assert RowLater(a, b, key);
      assert RowLater(b, c, key);
    }
  }

  lemma {:induction false} FindUserKeeps(users: seq<User>, more: seq<User>, key: Key)
    requires users <= more && FindUser(users, key).Some?
    ensures FindUser(more, key) == FindUser(users, key)
  {
    if !(users[0].Account() == key && users[0].active) {
      FindUserKeeps(users[1..], more[1..], key);
    }
  }

  lemma {:induction false} FindUserSound(users: seq<User>, key: Key)
    ensures FindUser(users, key).Some? ==>
      && FindUser(users, key).value in users
      && FindUser(users, key).value.Account() == key && FindUser(users, key).value.active
  {
    if users != [] {
      FindUserSound(users[1..], key);
    }
  }

  lemma {:induction false} FindUserComplete(users: seq<User>, user: User)
    requires user in users && user.active
    ensures FindUser(users, user.Account()).Some?
  {
    if users[0] != user {
      FindUserComplete(users[1..], user);
    }
  }

  lemma {:induction false} FindUserByTokenSound(users: seq<User>, token: string)
    ensures FindUserByToken(users, token).Some? ==>
      && FindUserByToken(users, token).value in users
      && FindUserByToken(users, token).value.token == token && FindUserByToken(users, token).value.active
  {
    if users != [] {
      FindUserByTokenSound(users[1..], token);
    }
  }

  lemma {:induction false} FindUserByTokenComplete(users: seq<User>, user: User)
    requires user in users && user.active
    ensures FindUserByToken(users, user.token).Some?
  {
    if users[0] != user {
      FindUserByTokenComplete(users[1..], user);
    }
  }

  predicate HasActive(users: seq<User>, key: Key) {
    exists i | 0 <= i < |users| :: users[i].Account() == key && users[i].active
  }

  predicate HasToken(users: seq<User>, token: string) {
    exists i | 0 <= i < |users| :: users[i].token == token && users[i].active
  }

  /** An insert is refused exactly when somebody has the account or the token. */
  lemma CollidesExactly(db: Db, user: User)
    ensures InsertUser(db, user).None? <==>
      exists u | u in db.users :: u.Account() == user.Account() || u.token == user.token
  {
    if u :| u in db.users && (u.Account() == user.Account() || u.token == user.token) {
      var i :| 0 <= i < |db.users| && db.users[i] == u;
      assert UserCollides(db.users, user);
    }
  }

  /** The lookups find something exactly when there is an active user to find. */
  lemma LookupsExactly(users: seq<User>, key: Key, token: string)
    ensures FindUser(users, key).Some? <==> HasActive(users, key)
    ensures FindUserByToken(users, token).Some? <==> HasToken(users, token)
  {
    if i :| 0 <= i < |users| && users[i].Account() == key && users[i].active {
      FindUserComplete(users, users[i]);
    }
    if i :| 0 <= i < |users| && users[i].token == token && users[i].active {
      FindUserByTokenComplete(users, users[i]);
    }
    FindUserSound(users, key);
    FindUserByTokenSound(users, token);
  }

  /** Where no two users share an account or a token, both lookups find an active user and
      find no other. */
  lemma LookupsFind(users: seq<User>, user: User)
    requires user in users && user.active
    requires forall i, j | 0 <= i < j < |users| ::
      users[i].Account() != users[j].Account() && users[i].token != users[j].token
    ensures FindUser(users, user.Account()) == Some(user)
    ensures FindUserByToken(users, user.token) == Some(user)
  {
    FindUserSound(users, user.Account());
    FindUserComplete(users, user);
    FindUserByTokenSound(users, user.token);
    FindUserByTokenComplete(users, user);
  }

  lemma InsertUserGrows(db: Db, user: User)
    requires Consistent(db) && InsertUser(db, user).Some?
    ensures Later(db, InsertUser(db, user).value)
    ensures Consistent(InsertUser(db, user).value)
  {
    hide LedgerLine;
    var db' := InsertUser(db, user).value;
    forall key: Key
      ensures AccountConsistent(db', key)
    {
      assert AccountConsistent(db, key);
      if FindUser(db.users, key).Some? {
        FindUserKeeps(db.users, db'.users, key);
      }
    }
  }

  lemma InsertRowGrows(db: Db, key: Key, row: Row)
    requires Consistent(db) && InsertRow(db, key, row).Some?
    requires row.balance == 0 && FindUser(db.users, key).Some?
    ensures Later(db, InsertRow(db, key, row).value)
    ensures Consistent(InsertRow(db, key, row).value)
  {
    hide LedgerLine;
    var db' := InsertRow(db, key, row).value;
    forall k: Key
      ensures AccountConsistent(db', k)
    {
      assert AccountConsistent(db, k);
      assert LogOf(db', k) == LogOf(db, k);
    }
  }

  /** What committing one statement with the matching balance does. */
  lemma CommitGrows(db: Db, key: Key, st: WalletStatement)
    requires Consistent(db) && FindBalance(db, key).Some? && st.Account() == key
    requires LedgerLine(st) && st.beforeCredit == db.rows[key].balance
    ensures var db' := Commit(db, [st], map[key := st.afterCredit]);
      && Later(db, db') && Consistent(db') && db'.users == db.users
      && db'.rows == db.rows[key := db.rows[key].(balance := st.afterCredit, version := db.rows[key].version + 1)]
      && db'.log == db.log[key := LogOf(db, key) + [st]]
  {
    hide LedgerLine, Chain;
    var db' := Commit(db, [st], map[key := st.afterCredit]);
    assert AppendStatements(db.log, [st]) == db.log[key := LogOf(db, key) + [st]];
    assert AccountConsistent(db, key);
    ChainAppend(LogOf(db, key), db.rows[key].balance, st);
    forall k: Key
      ensures AccountConsistent(db', k)
    {
      assert AccountConsistent(db, k);
    }
  }
}
