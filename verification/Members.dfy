/** Member creation among deposits, withdrawals and other creations
    (internal/application/usecases/wallet_usecase.go:141-227). */
module Members {
  import opened ConcurrentWallet
  import opened LedgerProofs
  import opened Models
  import opened MongoStore
  import opened Wrappers

  // ----- one creation per account -----

  /** This creation has inserted the user of `key`. */
  predicate Owns(c: Client, key: Key) {
    && c.AddMember? && c.req.Account() == key
    && (c.step.InsertingRow? || c.step == Answered(Created))
  }

  predicate HasUser(users: seq<User>, key: Key) {
    exists i | 0 <= i < |users| :: users[i].Account() == key
  }

  ghost predicate OneOwner(init: Db, s: State) {
    && (forall id, key: Key | id in s.clients && Owns(s.clients[id], key) ::
          HasUser(s.db.users, key) && !HasUser(init.users, key))
    && (forall a, b, key: Key | a in s.clients && b in s.clients && a != b && Owns(s.clients[a], key) ::
          !Owns(s.clients[b], key))
  }

  lemma HasUserKeeps(users: seq<User>, more: seq<User>, key: Key)
    requires users <= more && HasUser(users, key)
    ensures HasUser(more, key)
  {
    var i :| 0 <= i < |users| && users[i].Account() == key;
    assert more[i] == users[i];
  }

  /** A creation comes to own an account only by inserting its user. */
  lemma OwningStep(db: Db, c: Client, env: Env, key: Key)
    requires c.AddMember? && MemberInv(db, c) && MemberStep(db, c, env).Some?
    requires Owns(MemberStep(db, c, env).value.client, key) && !Owns(c, key)
    ensures !HasUser(db.users, key) && HasUser(MemberStep(db, c, env).value.db.users, key)
  {
    var user := User(c.req.username, c.step.parent.token, env.uuid, true);
    assert user.Account() == key;
    assert MemberStep(db, c, env).value.db.users[|db.users|] == user;
  }

  /** Who owns an account after a step owned it before, or is the stepping client, for which
      the account was free. */
  lemma OwnedBefore(init: Db, s: State, step: Step, id: nat, key: Key)
    requires Inv(init, s) && OneOwner(init, s) && Apply(s, step).Some?
    requires id in Apply(s, step).value.clients && Owns(Apply(s, step).value.clients[id], key)
    ensures HasUser(Apply(s, step).value.db.users, key) && !HasUser(init.users, key)
    ensures (id in s.clients && Owns(s.clients[id], key)) || (id == step.id && !HasUser(s.db.users, key))
  {
    hide Consistent, Exclusive, Replay, TransferInv, ReplayEvent;
    var s' := Apply(s, step).value;
    if step.Go? {
      ClientStepOk(s, step.id, step.env);
    }
    assert s.db.users <= s'.db.users;
    if id in s.clients && Owns(s.clients[id], key) {
      HasUserKeeps(s.db.users, s'.db.users, key);
    } else {
      assert ClientInv(s.db, s.clients[id]);
      OwningStep(s.db, s.clients[id], step.env, key);
      if HasUser(init.users, key) {
        HasUserKeeps(init.users, s.db.users, key);
      }
    }
  }

  lemma ApplyOneOwner(init: Db, s: State, step: Step)
    requires Inv(init, s) && OneOwner(init, s) && Apply(s, step).Some?
    ensures OneOwner(init, Apply(s, step).value)
  {
    hide Apply, Inv, HasUser;
    var clients' := Apply(s, step).value.clients;
    forall id, key: Key | id in clients' && Owns(clients'[id], key)
      ensures HasUser(Apply(s, step).value.db.users, key) && !HasUser(init.users, key)
    {
      OwnedBefore(init, s, step, id, key);
    }
    forall a, b, key: Key | a in clients' && b in clients' && a != b && Owns(clients'[a], key)
      ensures !Owns(clients'[b], key)
    {
      OwnedBefore(init, s, step, a, key);
      if Owns(clients'[b], key) {
        OwnedBefore(init, s, step, b, key);
      }
    }
  }

  lemma {:induction false} RunOneOwner(init: Db, steps: seq<Step>)
    requires Consistent(init) && Run(init, steps).Some?
    ensures OneOwner(init, Run(init, steps).value)
  {
    if steps != [] {
      var front := steps[..|steps| - 1];
      RunOneOwner(init, front);
      RunKeeps(init, front);
      ApplyOneOwner(init, Run(init, front).value, steps[|steps| - 1]);
    }
  }

  /** However creations interleave, at most one of an account answers 200; it finds no user
      of that account at the start and leaves the account with a user and a balance row. */
  lemma CreatedOnce(init: Db, steps: seq<Step>, a: nat, b: nat)
    requires Consistent(init) && Run(init, steps).Some?
    requires var clients := Run(init, steps).value.clients;
      && a in clients && clients[a].AddMember? && clients[a].step == Answered(Created)
      && b in clients && clients[b].AddMember? && clients[b].step == Answered(Created)
      && clients[a].req.Account() == clients[b].req.Account()
    ensures a == b
    ensures var s := Run(init, steps).value;
      var key := s.clients[a].req.Account();
      HasUser(s.db.users, key) && !HasUser(init.users, key) && key in s.db.rows
  {
    hide Consistent, Exclusive, Replay, TransferInv, Later, HasUser, Run;
    RunOneOwner(init, steps);
    RunKeeps(init, steps);
    var s := Run(init, steps).value;
    var key := s.clients[a].req.Account();
    assert ClientInv(s.db, s.clients[a]);
    assert Owns(s.clients[a], key) && Owns(s.clients[b], key);
  }

  /** No call of a creation touches an existing row, statement or user. */
  lemma CreationSparesOthers(db: Db, c: Client, env: Env)
    requires c.AddMember? && MemberStep(db, c, env).Some?
    ensures var db' := MemberStep(db, c, env).value.db;
      && db.users <= db'.users && db'.log == db.log
      && (forall key: Key | key in db.rows :: key in db'.rows && db'.rows[key] == db.rows[key])
      && (forall key: Key | key in db'.rows && key !in db.rows :: key == c.req.Account() && db'.rows[key].balance == 0)
  {}

  // ----- the forest of members -----

  /** No two users share an account or a token. */
  predicate Distinct(users: seq<User>) {
    forall i, j | 0 <= i < j < |users| ::
      users[i].Account() != users[j].Account() && users[i].token != users[j].token
  }

  /** `users[j]` is the parent of `users[i]`. */
  predicate ParentOf(users: seq<User>, i: nat, j: nat) {
    i < |users| && j < |users| && users[j].token == users[i].parentToken
  }

  /** Every user after the first `seeds` was created under one who was there before. */
  predicate BornUnderParent(users: seq<User>, seeds: nat) {
    forall i | seeds <= i < |users| :: HasParentBefore(users, i)
  }

  predicate HasParentBefore(users: seq<User>, i: nat)
    requires i < |users|
  {
    exists j: nat | j < i :: ParentOf(users, i, j)
  }

  lemma ApplyForest(init: Db, s: State, step: Step)
    requires Inv(init, s) && Apply(s, step).Some?
    requires Distinct(s.db.users) && BornUnderParent(s.db.users, |init.users|)
    ensures Distinct(Apply(s, step).value.db.users) && BornUnderParent(Apply(s, step).value.db.users, |init.users|)
  {
    hide Consistent, Exclusive, Replay, ClientStep, TransferInv, MemberInv, Later;
    var users, users' := s.db.users, Apply(s, step).value.db.users;
    if step.Go? && users' != users {
      var c := s.clients[step.id];
      assert ClientInv(s.db, c);
      UsersAfter(s, step.id, step.env);
      var child := users'[|users|];
      var j :| 0 <= j < |users| && users[j].token == child.parentToken;
      assert ParentOf(users', |users|, j);
      forall i | |init.users| <= i < |users'|
        ensures HasParentBefore(users', i)
      {
        if i < |users| {
          assert HasParentBefore(users, i);
          var k: nat :| k < i && ParentOf(users, i, k);
          assert ParentOf(users', i, k);
        }
      }
    }
  }

  /** The only change to the users: one more, under a parent who is there, colliding with none. */
  lemma UsersAfter(s: State, id: nat, env: Env)
    requires id in s.clients && ClientInv(s.db, s.clients[id]) && ClientStep(s, id, env).Some?
    ensures var users' := ClientStep(s, id, env).value.db.users;
      users' == s.db.users
      || (&& |users'| == |s.db.users| + 1 && users'[..|s.db.users|] == s.db.users
          && !UserCollides(s.db.users, users'[|s.db.users|])
          && exists j | 0 <= j < |s.db.users| :: s.db.users[j].token == users'[|s.db.users|].parentToken)
  {
    var c := s.clients[id];
    if c.AddMember? && c.step.InsertingUser? {
      assert c.step.parent in s.db.users;
    }
  }

  /** In every run users stay distinct and every created one has an earlier parent. */
  lemma {:induction false} RunKeepsForest(init: Db, steps: seq<Step>)
    requires Consistent(init) && Distinct(init.users) && Run(init, steps).Some?
    ensures var users := Run(init, steps).value.db.users;
      init.users <= users && Distinct(users) && BornUnderParent(users, |init.users|)
  {
    if steps != [] {
      var front := steps[..|steps| - 1];
      RunKeepsForest(init, front);
      RunKeeps(init, front);
      RunKeeps(init, steps);
      ApplyForest(init, Run(init, front).value, steps[|steps| - 1]);
    }
  }

  /** A walk from child to parent whose members, but for the last, were all created. */
  predicate Lineage(users: seq<User>, seeds: nat, walk: seq<nat>) {
    && walk != []
    && (forall n | 0 <= n < |walk| :: walk[n] < |users|)
    && (forall n | 0 <= n < |walk| - 1 :: walk[n] >= seeds && ParentOf(users, walk[n], walk[n + 1]))
  }

  /** Walking up always goes back in creation order, so it cannot return. */
  lemma {:induction false} LineageDescends(users: seq<User>, seeds: nat, walk: seq<nat>, m: nat, n: nat)
    requires Distinct(users) && BornUnderParent(users, seeds) && Lineage(users, seeds, walk)
    requires m < n < |walk|
    ensures walk[n] < walk[m]
    decreases n
  {
    assert ParentOf(users, walk[n - 1], walk[n]);
    assert HasParentBefore(users, walk[n - 1]);
    if m < n - 1 {
      LineageDescends(users, seeds, walk, m, n - 1);
    }
  }

  /** From every user the walk up ends at a seed. */
  lemma {:induction false} LineageReachesSeed(users: seq<User>, seeds: nat, i: nat) returns (walk: seq<nat>)
    requires Distinct(users) && BornUnderParent(users, seeds) && i < |users|
    ensures Lineage(users, seeds, walk) && walk[0] == i && walk[|walk| - 1] < seeds
    decreases i
  {
    walk := [i];
    if i >= seeds {
      assert HasParentBefore(users, i);
      var j: nat :| j < i && ParentOf(users, i, j);
      var rest := LineageReachesSeed(users, seeds, j);
      walk := [i] + rest;
    }
  }
}
