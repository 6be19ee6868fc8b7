/** Member creations that insert the user and not the balance row
    (internal/application/usecases/wallet_usecase.go:153-217): how an account gets stuck that
    way, and that it stays so. */
module StuckMembers {
  import opened ConcurrentWallet
  import opened LedgerProofs
  import opened LedgerTheorems
  import opened Members
  import opened Models
  import opened MongoStore
  import opened SerialWallet
  import opened StringUtils
  import opened Wrappers

  // ----- what the history tells -----

  predicate InsertsUser(e: Event, key: Key) {
    e.UserInserted? && e.user.Account() == key
  }

  predicate InsertsRow(e: Event, key: Key) {
    e.RowInserted? && e.key == key
  }

  predicate UserShown(history: seq<Event>, key: Key) {
    exists i | 0 <= i < |history| :: InsertsUser(history[i], key)
  }

  predicate RowShown(history: seq<Event>, key: Key) {
    exists i | 0 <= i < |history| :: InsertsRow(history[i], key)
  }

  predicate TransferShown(history: seq<Event>, key: Key) {
    exists i | 0 <= i < |history| :: OfAccount(history[i], key)
  }

  lemma ShownAfter(history: seq<Event>, e: Event, key: Key)
    ensures UserShown(history + [e], key) <==> UserShown(history, key) || InsertsUser(e, key)
    ensures RowShown(history + [e], key) <==> RowShown(history, key) || InsertsRow(e, key)
    ensures TransferShown(history + [e], key) <==> TransferShown(history, key) || OfAccount(e, key)
  {
    var longer := history + [e];
    assert longer[|history|] == e;
    if i :| 0 <= i < |history| && InsertsUser(history[i], key) {
      assert InsertsUser(longer[i], key);
    }
    if i :| 0 <= i < |history| && InsertsRow(history[i], key) {
      assert InsertsRow(longer[i], key);
    }
    if i :| 0 <= i < |history| && OfAccount(history[i], key) {
      assert OfAccount(longer[i], key);
    }
  }

  lemma EventShows(db: Db, e: Event, key: Key)
    requires ReplayEvent(db, e).Some?
    ensures var db' := ReplayEvent(db, e).value;
      && (HasUser(db'.users, key) <==> HasUser(db.users, key) || InsertsUser(e, key))
      && (key in db'.rows <==> key in db.rows || InsertsRow(e, key))
      && (OfAccount(e, key) ==> key in db.rows)
      && (InsertsUser(e, key) ==> !HasUser(db.users, key))
  {
    var db' := ReplayEvent(db, e).value;
    if e.UserInserted? {
      assert db'.users[|db.users|] == e.user;
      if i :| 0 <= i < |db.users| && db.users[i].Account() == key {
        assert db'.users[i].Account() == key;
      }
    }
  }

  lemma {:induction false} ReplayShows(init: Db, history: seq<Event>, key: Key)
    requires Replay(init, history).Some?
    ensures var db := Replay(init, history).value;
      && (HasUser(db.users, key) <==> HasUser(init.users, key) || UserShown(history, key))
      && (key in db.rows <==> key in init.rows || RowShown(history, key))
      && (TransferShown(history, key) ==> key in db.rows)
  {
    if history != [] {
      var front, e := history[..|history| - 1], history[|history| - 1];
      ReplayShows(init, front, key);
      hide HasUser, UserShown, RowShown, TransferShown, ReplayEvent;
      EventShows(Replay(init, front).value, e, key);
      ShownAfter(front, e, key);
      assert front + [e] == history;
    }
  }

  /** An account whose user is inserted had none before. */
  lemma LastIsFirst(init: Db, history: seq<Event>, key: Key)
    requires history != [] && Replay(init, history).Some? && InsertsUser(history[|history| - 1], key)
    ensures !HasUser(init.users, key) && !UserShown(history[..|history| - 1], key)
  {
    var front := history[..|history| - 1];
    hide ReplayEvent, HasUser, UserShown, RowShown, TransferShown;
    ReplayShows(init, front, key);
    EventShows(Replay(init, front).value, history[|history| - 1], key);
  }

  /** At most one event inserts the user of an account, and none where there was one before. */
  lemma {:induction false} InsertedOnce(init: Db, history: seq<Event>, key: Key, i: nat, j: nat)
    requires Replay(init, history).Some? && i < |history| && j < |history|
    requires InsertsUser(history[i], key) && InsertsUser(history[j], key)
    ensures i == j && !HasUser(init.users, key)
  {
    hide ReplayEvent, HasUser, InsertsUser;
    var n := |history| - 1;
    var front := history[..n];
    if i < n && j < n {
      assert front[i] == history[i] && front[j] == history[j];
      InsertedOnce(init, front, key, i, j);
    } else {
      LastIsFirst(init, history, key);
      hide Replay;
      assert forall k | 0 <= k < n :: front[k] == history[k];
    }
  }

  /** In every run at most one creation inserts the user of an account, whatever becomes of it
      later, and none does where there was a user at the start. */
  lemma RunInsertsOnce(init: Db, steps: seq<Step>, key: Key, i: nat, j: nat)
    requires Consistent(init) && Run(init, steps).Some?
    requires i < |Run(init, steps).value.history| && j < |Run(init, steps).value.history|
    requires InsertsUser(Run(init, steps).value.history[i], key) && InsertsUser(Run(init, steps).value.history[j], key)
    ensures i == j && !HasUser(init.users, key)
  {
    RunKeeps(init, steps);
    InsertedOnce(init, Run(init, steps).value.history, key, i, j);
  }

  /** An account that had neither has a user and no balance row exactly when the user's insert
      took effect and the row's did not. */
  lemma RowlessExactly(init: Db, steps: seq<Step>, key: Key)
    requires Consistent(init) && Run(init, steps).Some?
    requires !HasUser(init.users, key) && key !in init.rows
    ensures var s := Run(init, steps).value;
      HasUser(s.db.users, key) && key !in s.db.rows <==> UserShown(s.history, key) && !RowShown(s.history, key)
  {
    RunKeeps(init, steps);
    ReplayShows(init, Run(init, steps).value.history, key);
  }

  // ----- stuck for good -----

  predicate AboutToInsertRow(c: Client, key: Key) {
    c.AddMember? && c.step.InsertingRow? && c.req.Account() == key
  }

  /** A user, no balance row, and no creation about to insert one. */
  ghost predicate Stuck(s: State, key: Key) {
    && HasUser(s.db.users, key) && key !in s.db.rows
    && forall id | id in s.clients :: !AboutToInsertRow(s.clients[id], key)
  }

  /** A creation's call leaves a stuck account without a row and does not come to insert one. */
  lemma StuckMemberStep(db: Db, c: Client, env: Env, key: Key)
    requires c.AddMember? && MemberInv(db, c) && MemberStep(db, c, env).Some?
    requires HasUser(db.users, key) && key !in db.rows && !AboutToInsertRow(c, key)
    ensures var e := MemberStep(db, c, env).value;
      key !in e.db.rows && !AboutToInsertRow(e.client, key)
  {}

  lemma StuckTransferStep(db: Db, held: bool, id: nat, c: Client, env: Env, key: Key)
    requires c.Transfer? && key !in db.rows && TransferStep(db, held, id, c, env).Some?
    ensures var e := TransferStep(db, held, id, c, env).value;
      key !in e.db.rows && e.client.Transfer?
  {
    hide Decide, FindUser, FindBalance, AppendStatements;
  }

  lemma StuckStep(init: Db, s: State, step: Step, key: Key)
    requires Inv(init, s) && Stuck(s, key) && Apply(s, step).Some?
    ensures Stuck(Apply(s, step).value, key)
  {
    hide Consistent, Exclusive, Replay, TransferInv, TransferStep, MemberStep, MemberInv, Later, HasUser;
    var s' := Apply(s, step).value;
    if step.Go? {
      var c := s.clients[step.id];
      assert ClientInv(s.db, c);
      ClientStepOk(s, step.id, step.env);
      assert s.db.users <= s'.db.users by {
        UsersGrow(s.db, s'.db);
      }
      HasUserKeeps(s.db.users, s'.db.users, key);
      if c.AddMember? {
        StuckMemberStep(s.db, c, step.env, key);
      } else {
        StuckTransferStep(s.db, HeldByOther(s.clients, step.id, c.req.Account()), step.id, c, step.env, key);
      }
    }
  }

  lemma UsersGrow(a: Db, b: Db)
    requires Later(a, b)
    ensures a.users <= b.users
  {}

  /** From the moment an account is stuck it stays stuck; no creation of it answers 200, and no
      deposit or withdrawal on it has ever been committed or will be. */
  lemma {:induction false} StuckForever(init: Db, steps: seq<Step>, n: nat, key: Key)
    requires Consistent(init) && n <= |steps| && Run(init, steps).Some?
    requires Run(init, steps[..n]).Some? && Stuck(Run(init, steps[..n]).value, key)
    ensures var s := Run(init, steps).value;
      && Stuck(s, key)
      && !TransferShown(s.history, key)
      && forall id | id in s.clients && s.clients[id].AddMember? && s.clients[id].req.Account() == key ::
           s.clients[id].step != Answered(Created)
  {
    StaysStuck(init, steps, n, key);
    var s := Run(init, steps).value;
    RunKeeps(init, steps);
    ReplayShows(init, s.history, key);
    forall id | id in s.clients && s.clients[id].AddMember? && s.clients[id].req.Account() == key
      ensures s.clients[id].step != Answered(Created)
    {
      assert ClientInv(s.db, s.clients[id]);
    }
  }

  lemma {:induction false} StaysStuck(init: Db, steps: seq<Step>, n: nat, key: Key)
    requires Consistent(init) && n <= |steps| && Run(init, steps).Some?
    requires Run(init, steps[..n]).Some? && Stuck(Run(init, steps[..n]).value, key)
    ensures Stuck(Run(init, steps).value, key)
  {
    if n == |steps| {
      assert steps[..n] == steps;
    } else {
      var front := steps[..|steps| - 1];
      assert front[..n] == steps[..n];
      StaysStuck(init, front, n, key);
      RunKeeps(init, front);
      StuckStep(init, Run(init, front).value, steps[|steps| - 1], key);
    }
  }

  // ----- how an account gets stuck -----

  /** A creation whose last insert fails. */
  function SticksRun(id: nat, req: TransactionRequest, uuid: string): seq<Step> {
    var works := Env(false, false, 0, 0, uuid);
    [Arrive(id, AddMemberCall, req), Go(id, works), Go(id, works), Go(id, works),
     Go(id, works.(fails := true))]
  }

  /** The account is new, its username valid, its parent there, its token fresh. */
  predicate Creatable(init: Db, req: TransactionRequest, uuid: string) {
    && ValidateUsername(req.username) && FindUser(init.users, req.Account()).None?
    && FindUserByToken(init.users, req.parentToken).Some?
    && !UserCollides(init.users, User(req.username, req.parentToken, uuid, true))
    && req.Account() !in init.rows
  }

  function StickMilestone(init: Db, id: nat, req: TransactionRequest, uuid: string, n: nat): State
    requires Creatable(init, req, uuid)
  {
    var parent := FindUserByToken(init.users, req.parentToken).value;
    var user := User(req.username, parent.token, uuid, true);
    var withUser := init.(users := init.users + [user]);
    match n
    case 0 => State(init, map[], [])
    case 1 => State(init, map[id := AddMember(req, CheckingUser)], [])
    case 2 => State(init, map[id := AddMember(req, FindingParent)], [])
    case 3 => State(init, map[id := AddMember(req, InsertingUser(parent))], [])
    case 4 => State(withUser, map[id := AddMember(req, InsertingRow)], [UserInserted(user)])
    case _ => State(withUser, map[id := AddMember(req, Answered(StorageFailed))], [UserInserted(user)])
  }

  lemma StickMemberStep(init: Db, id: nat, req: TransactionRequest, uuid: string, n: nat)
    requires Creatable(init, req, uuid) && 1 <= n < 5
    ensures var s, s' := StickMilestone(init, id, req, uuid, n), StickMilestone(init, id, req, uuid, n + 1);
      MemberStep(s.db, s.clients[id], SticksRun(id, req, uuid)[n].env)
      == Some(Effect(s'.db, s'.clients[id], if n == 3 then s'.history else []))
  {
    FindUserByTokenSound(init.users, req.parentToken);
    hide ValidateUsername, FindUserByToken, FindUser, UserCollides;
  }

  lemma StickStep(init: Db, id: nat, req: TransactionRequest, uuid: string, n: nat)
    requires Creatable(init, req, uuid) && n < 5
    ensures Apply(StickMilestone(init, id, req, uuid, n), SticksRun(id, req, uuid)[n])
         == Some(StickMilestone(init, id, req, uuid, n + 1))
  {
    var s, s' := StickMilestone(init, id, req, uuid, n), StickMilestone(init, id, req, uuid, n + 1);
    assert s.clients[id := s'.clients[id]] == s'.clients;
    if n > 0 {
      StickMemberStep(init, id, req, uuid, n);
      hide MemberStep, ValidateUsername, FindUserByToken, FindUser, UserCollides;
      assert s.history + (if n == 3 then s'.history else []) == s'.history;
    }
  }

  /** Any account that can be created can get stuck: one failed insert does it. */
  lemma CreationSticks(init: Db, id: nat, req: TransactionRequest, uuid: string)
    requires Creatable(init, req, uuid)
    ensures var end := Run(init, SticksRun(id, req, uuid));
      && end.Some? && Stuck(end.value, req.Account())
      && end.value.clients == map[id := AddMember(req, Answered(StorageFailed))]
  {
    var steps := SticksRun(id, req, uuid);
    for n: nat := 0 to 5
      invariant Run(init, steps[..n]) == Some(StickMilestone(init, id, req, uuid, n))
    {
      hide Apply, StickMilestone, SticksRun;
      StickStep(init, id, req, uuid, n);
      assert steps[..n + 1][..n] == steps[..n];
    }
    assert steps[..5] == steps;
    FindUserByTokenSound(init.users, req.parentToken);
    var end := StickMilestone(init, id, req, uuid, 5);
    assert end.db.users[|init.users|].Account() == req.Account();
  }
}
