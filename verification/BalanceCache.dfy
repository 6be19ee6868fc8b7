/** Balance checks through the cache (internal/application/usecases/wallet_usecase.go:446-471).

    Deposits and withdrawals never touch the cache, so an answer may be out of date; it is
    never another account's, as long as no username contains a colon. */
module BalanceCache {
  import opened DecimalUtils
  import opened Models
  import opened StringUtils
  import opened Wrappers

  const PREFIX: string := "balance:"

  /** Seconds an entry is kept. */
  const LIFETIME: int := 300

  function CacheKey(key: Key): string {
    PREFIX + key.parentToken + ":" + key.username
  }

  /** The key is made of three parts with a colon between them. */
  lemma CacheKeyReads(parentToken: string, username: string)
    ensures CacheKey(Key(username, parentToken)) == "balance:" + (parentToken + (":" + username))
  {}

  predicate ColonFree(s: string) {
    ':' !in s
  }

  lemma ValidUsernamesAreColonFree(username: string)
    requires ValidateUsername(username)
    ensures ColonFree(username)
  {}

  /** The part of a key after the prefix. */
  function Tail(key: Key): string {
    key.parentToken + ":" + key.username
  }

  lemma SameTail(a: Key, b: Key)
    requires CacheKey(a) == CacheKey(b)
    ensures Tail(a) == Tail(b)
  {
    assert CacheKey(a) == PREFIX + Tail(a);
    assert CacheKey(b) == PREFIX + Tail(b);
    assert CacheKey(a)[|PREFIX|..] == Tail(a);
    assert CacheKey(b)[|PREFIX|..] == Tail(b);
  }

  lemma SameParts(a: Key, b: Key)
    requires Tail(a) == Tail(b) && |a.parentToken| == |b.parentToken|
    ensures a == b
  {
    assert Tail(a)[..|a.parentToken|] == a.parentToken;
    assert Tail(b)[..|b.parentToken|] == b.parentToken;
    assert Tail(a)[|a.parentToken| + 1..] == a.username;
    assert Tail(b)[|b.parentToken| + 1..] == b.username;
  }

  /** The last colon of a key splits it, so accounts with colon-free usernames never share one. */
  lemma KeysInjective(a: Key, b: Key)
    requires ColonFree(a.username) && ColonFree(b.username)
    requires CacheKey(a) == CacheKey(b)
    ensures a == b
  {
    SameTail(a, b);
    if |a.parentToken| < |b.parentToken| {
      ColonInUsername(a, b);
    } else if |b.parentToken| < |a.parentToken| {
      ColonInUsername(b, a);
    } else {
      SameParts(a, b);
    }
  }

  lemma ColonInUsername(a: Key, b: Key)
    requires Tail(a) == Tail(b) && |a.parentToken| < |b.parentToken|
    ensures ':' in a.username
  {
    var n := |b.parentToken|;
    assert Tail(b)[n] == ':';
    assert Tail(a)[n] == a.username[n - |a.parentToken| - 1];
  }

  /** Two accounts' keys collide only past the shorter parent token: where the usernames have
      no colon, the longer parent token has one there. */
  lemma ColonInParent(query: Key, account: Key)
    requires query != account && ColonFree(account.username) && CacheKey(query) == CacheKey(account)
    ensures ':' in account.parentToken && ':' in query.username
  {
    SameTail(query, account);
    if |query.parentToken| < |account.parentToken| {
      ColonInUsername(query, account);
      assert Tail(query)[|query.parentToken|] == ':';
      assert Tail(account)[|query.parentToken|] == account.parentToken[|query.parentToken|];
    } else if |account.parentToken| < |query.parentToken| {
      ColonInUsername(account, query);
    } else {
      SameParts(query, account);
    }
  }

  /** A balance query that is answered from this account's entry without naming this account. */
  ghost predicate Mistakable(account: Key) {
    exists query: Key :: query != account && CacheKey(query) == CacheKey(account)
  }

  /** One such query: the parent token's last part moves over to the username. */
  function Lookalike(account: Key): Key
    requires ':' in account.parentToken
  {
    var i := LastColonAt(account.parentToken);
    Key(account.parentToken[i + 1..] + ":" + account.username, account.parentToken[..i])
  }

  function LastColonAt(s: string): (i: nat)
    requires ':' in s
    ensures i < |s| && s[i] == ':' && ColonFree(s[i + 1..])
  {
    var n := |s| - 1;
    if s[n] == ':' then n
    else
      assert s == s[..n] + [s[n]];
      var i := LastColonAt(s[..n]);
      assert s[i + 1..] == s[..n][i + 1..] + [s[n]];
      i
  }

  /** The same characters, split at either of two colons. */
  lemma SplitTwice(p: string, q: string, u: string)
    ensures CacheKey(Key(u, p + ":" + q)) == CacheKey(Key(q + ":" + u, p))
  {
    assert (p + ":" + q) + ":" + u == p + ":" + (q + ":" + u);
    assert CacheKey(Key(u, p + ":" + q)) == PREFIX + ((p + ":" + q) + ":" + u);
    assert CacheKey(Key(q + ":" + u, p)) == PREFIX + (p + ":" + (q + ":" + u));
  }

  lemma LookalikeCollides(account: Key)
    requires ':' in account.parentToken
    ensures Lookalike(account) != account && CacheKey(Lookalike(account)) == CacheKey(account)
    ensures ':' in Lookalike(account).username
  {
    hide CacheKey;
    var i := LastColonAt(account.parentToken);
    var p, q := account.parentToken[..i], account.parentToken[i + 1..];
    assert account.parentToken == p + ":" + q;
    SplitTwice(p, q, account.username);
    assert (q + ":" + account.username)[|q|] == ':';
  }

  /** An account with a validated username can be mistaken for another exactly when its
      parent token contains a colon, which generated tokens never do. */
  lemma MistakableExactly(account: Key)
    requires ColonFree(account.username)
    ensures Mistakable(account) <==> ':' in account.parentToken
  {
    if ':' in account.parentToken {
      LookalikeCollides(account);
    } else if query: Key :| query != account && CacheKey(query) == CacheKey(account) {
      ColonInParent(query, account);
    }
  }

  /** Among these accounts some other one has the queried account's cache key. */
  predicate Confused(query: Key, accounts: set<Key>) {
    exists account | account in accounts :: account != query && CacheKey(account) == CacheKey(query)
  }

  /** The account a query with a colon in its username collides with: its username's last part
      is the username, the rest belongs to the parent token. */
  function Twin(query: Key): Key
    requires ':' in query.username
  {
    var i := LastColonAt(query.username);
    Key(query.username[i + 1..], query.parentToken + ":" + query.username[..i])
  }

  lemma TwinCollides(query: Key)
    requires ':' in query.username
    ensures Twin(query) != query && CacheKey(Twin(query)) == CacheKey(query)
    ensures ColonFree(Twin(query).username) && ':' in Twin(query).parentToken
  {
    hide CacheKey;
    var i := LastColonAt(query.username);
    var q, u := query.username[..i], query.username[i + 1..];
    assert query.username == q + ":" + u;
    SplitTwice(query.parentToken, q, u);
    assert (query.parentToken + ":" + q)[|query.parentToken|] == ':';
  }

  /** Among accounts with validated usernames, a query is confused with another account exactly
      when its username contains a colon and its twin, whose parent token then contains one
      too, is among them. */
  lemma ConfusedExactly(query: Key, accounts: set<Key>)
    requires forall account | account in accounts :: ColonFree(account.username)
    ensures Confused(query, accounts) <==> ':' in query.username && Twin(query) in accounts
    ensures Confused(query, accounts) ==> ':' in Twin(query).parentToken
  {
    if ':' in query.username {
      TwinCollides(query);
    }
    if account :| account in accounts && account != query && CacheKey(account) == CacheKey(query) {
      ColonInParent(query, account);
      KeysInjective(account, Twin(query));
    }
  }

  datatype Entry = Entry(balance: Decimal, setAt: int)

  // ----- what an account held -----

  /** The balances, and since when. */
  datatype Moment = Moment(from: int, balances: map<Key, Decimal>)

  /** The account held this balance when the database was read at that time. */
  datatype Reading = Reading(key: Key, balance: Decimal, time: int)

  /** A reading and when it went into the cache. */
  datatype Stored = Stored(reading: Reading, setAt: int)

  /** The balances of moment `i` were in force at that time: they had come about, and had not
      yet been replaced. */
  predicate InForce(past: seq<Moment>, i: nat, time: int) {
    i < |past| && past[i].from <= time && (i + 1 < |past| ==> time <= past[i + 1].from)
  }

  /** The account held the balance at that time. */
  ghost predicate Held(past: seq<Moment>, r: Reading) {
    exists i: nat :: InForce(past, i, r.time) && r.key in past[i].balances && past[i].balances[r.key] == r.balance
  }

  /** `more` is `past` with what came about at `clock` or after. */
  predicate Continues(past: seq<Moment>, clock: int, more: seq<Moment>) {
    past <= more && (|past| < |more| ==> clock <= more[|past|].from)
  }

  lemma HeldStays(past: seq<Moment>, clock: int, more: seq<Moment>, r: Reading)
    requires Continues(past, clock, more) && Held(past, r) && r.time <= clock
    ensures Held(more, r)
  {
    var i: nat :| InForce(past, i, r.time) && r.key in past[i].balances && past[i].balances[r.key] == r.balance;
    assert InForce(more, i, r.time);
  }

  // ----- what the reader keeps -----

  /** The reading is true, and of an account with a validated username. */
  ghost predicate True(past: seq<Moment>, clock: int, r: Reading) {
    Held(past, r) && r.time <= clock && ColonFree(r.key.username)
  }

  ghost predicate AllTrue(past: seq<Moment>, clock: int, readings: set<Reading>) {
    forall r | r in readings :: True(past, clock, r)
  }

  ghost predicate StoredOk(past: seq<Moment>, clock: int, stored: set<Stored>) {
    forall e | e in stored :: True(past, clock, e.reading) && e.reading.time <= e.setAt <= clock
  }

  /** The entry was read from an account with that cache key. */
  ghost predicate Backed(stored: set<Stored>, k: string, entry: Entry) {
    exists e | e in stored ::
      CacheKey(e.reading.key) == k && e.reading.balance == entry.balance && e.setAt == entry.setAt
  }

  ghost predicate AllBacked(stored: set<Stored>, cache: map<string, Entry>) {
    forall k | k in cache :: Backed(stored, k, cache[k])
  }

  predicate UsernamesOk(balances: map<Key, Decimal>) {
    forall key | key in balances :: ColonFree(key.username)
  }

  predicate Latest(past: seq<Moment>, clock: int, balances: map<Key, Decimal>) {
    past != [] && past[|past| - 1].balances == balances && past[|past| - 1].from <= clock
  }

  lemma ReadingsStay(
    past: seq<Moment>, clock: int, more: seq<Moment>, later: int, readings: set<Reading>, stored: set<Stored>)
    requires Continues(past, clock, more) && clock <= later
    requires AllTrue(past, clock, readings) && StoredOk(past, clock, stored)
    ensures AllTrue(more, later, readings) && StoredOk(more, later, stored)
  {
    hide Held, Continues;
    forall r | r in readings
      ensures True(more, later, r)
    {
      HeldStays(past, clock, more, r);
    }
    forall e | e in stored
      ensures True(more, later, e.reading)
    {
      HeldStays(past, clock, more, e.reading);
    }
  }

  lemma StoringBacks(
    past: seq<Moment>, clock: int, stored: set<Stored>, cache: map<string, Entry>, r: Reading)
    requires AllBacked(stored, cache) && StoredOk(past, clock, stored) && True(past, clock, r)
    ensures AllBacked(stored + {Stored(r, clock)}, cache[CacheKey(r.key) := Entry(r.balance, clock)])
    ensures StoredOk(past, clock, stored + {Stored(r, clock)})
  {
    hide Held, CacheKey;
    var stored', cache' := stored + {Stored(r, clock)}, cache[CacheKey(r.key) := Entry(r.balance, clock)];
    forall k | k in cache'
      ensures Backed(stored', k, cache'[k])
    {
      if k == CacheKey(r.key) {
        assert Stored(r, clock) in stored';
      } else {
        assert Backed(stored, k, cache[k]);
      }
    }
  }

  /** The balance reader with its cache, the balances behind it, other readers on their way
      from the database to the cache, and the clock. */
  class BalanceReader {
    const cacheSet: bool
    const reliable: bool
    var balances: map<Key, Decimal>
    var cache: map<string, Entry>
    var others: set<Reading>
    var clock: int
    ghost var past: seq<Moment>
    ghost var stored: set<Stored>

    ghost predicate Valid()
      reads this
    {
      && Latest(past, clock, balances) && UsernamesOk(balances)
      && AllTrue(past, clock, others) && StoredOk(past, clock, stored) && AllBacked(stored, cache)
    }

    /** The answer is a balance this very account held: at a reading put in the cache at most
        300 seconds before `asked`, or at a time since. */
    ghost predicate Explained(key: Key, balance: Decimal, asked: int)
      reads this
    {
      || (exists e | e in stored ::
            && Held(past, Reading(key, balance, e.reading.time)) && e.reading.time <= e.setAt
            && asked - 300 <= e.setAt <= asked)
      || (exists time :: asked <= time <= clock && Held(past, Reading(key, balance, time)))
    }

    constructor (balances: map<Key, Decimal>, cacheSet: bool, reliable: bool, clock: int)
      requires UsernamesOk(balances)
      ensures Valid() && this.balances == balances && this.cacheSet == cacheSet && this.reliable == reliable
      ensures cache == map[] && this.clock == clock && past == [Moment(clock, balances)] && stored == {}
    {
      this.balances, this.cacheSet, this.reliable, this.cache := balances, cacheSet, reliable, map[];
      this.others, this.clock := {}, clock;
      this.past, this.stored := [Moment(clock, balances)], {};
    }

    /** The balances become these; every earlier reading stays true. */
    method Become(next: map<Key, Decimal>)
      requires Valid() && UsernamesOk(next)
      modifies this`balances, this`past
      ensures Valid() && balances == next && past == old(past) + [Moment(clock, next)]
    {
      hide AllTrue, StoredOk, AllBacked, UsernamesOk;
      ghost var was := past;
      balances := next;
      past := past + [Moment(clock, next)];
      ReadingsStay(was, clock, past, clock, others, stored);
    }

    /** A deposit or withdrawal: it writes the balance and leaves the cache alone. */
    method WriteBalance(key: Key, balance: Decimal)
      requires Valid() && key in balances
      modifies this`balances, this`past
      ensures Valid() && balances == old(balances)[key := balance] && Continues(old(past), clock, past)
    {
      Become(balances[key := balance]);
    }

    /** A new member; only a validated username gets a balance. */
    method AddMember(key: Key)
      requires Valid()
      modifies this`balances, this`past
      ensures Valid() && Continues(old(past), clock, past)
      ensures balances == if ValidateUsername(key.username) && key !in old(balances)
                          then old(balances)[key := 0] else old(balances)
    {
      if ValidateUsername(key.username) && key !in balances {
        Become(balances[key := 0]);
      }
    }

    method Tick(seconds: nat)
      requires Valid()
      modifies this`clock
      ensures Valid() && clock == old(clock) + seconds
    {
      hide AllTrue, StoredOk, AllBacked, UsernamesOk;
      ReadingsStay(past, clock, past, clock + seconds, others, stored);
      clock := clock + seconds;
    }

    /** Another reader reads the database. */
    method ReadByOther(key: Key)
      requires Valid() && key in balances
      modifies this`others
      ensures Valid()
    {
      hide StoredOk, AllBacked, Held, UsernamesOk;
      var r := ReadDatabase(key);
      others := others + {Reading(key, r.value, clock)};
    }

    /** Another reader stores what it has read. */
    method StoreByOther()
      requires Valid() && others != {}
      modifies this`others, this`cache, this`stored
      ensures Valid() && stored >= old(stored)
    {
      hide StoredOk, AllBacked, Held, UsernamesOk;
      var r :| r in others;
      StoreEntry(r);
      others := others - {r};
    }

    method Expire(k: string)
      requires Valid()
      modifies this`cache
      ensures Valid() && cache == old(cache) - {k}
    {
      cache := cache - {k};
    }

    /** What others do meanwhile: time passes, balances change, entries come and go. */
    method Elapse()
      requires Valid()
      modifies this
      ensures Valid() && clock >= old(clock) && Continues(old(past), old(clock), past)
      ensures balances.Keys >= old(balances.Keys) && stored >= old(stored)
    {
      hide Valid, UsernamesOk;
      var actions: nat :| true;
      while actions > 0
        invariant Valid() && clock >= old(clock) && Continues(old(past), old(clock), past)
        invariant balances.Keys >= old(balances.Keys) && stored >= old(stored)
      {
        var key: Key := *;
        var n: nat :| true;
        if key in balances {
          if * {
            var balance: Decimal := *;
            WriteBalance(key, balance);
          } else {
            ReadByOther(key);
          }
        } else if * {
          AddMember(key);
        } else if * {
          Expire(CacheKey(key));
        } else if others != {} {
          StoreByOther();
        } else {
          Tick(n);
        }
        actions := actions - 1;
      }
    }

    method ReadDatabase(key: Key) returns (found: Option<Decimal>)
      requires Valid()
      ensures found == if key in balances then Some(balances[key]) else None
      ensures found.Some? ==> True(past, clock, Reading(key, found.value, clock))
    {
      if key in balances {
        found := Some(balances[key]);
        assert InForce(past, |past| - 1, clock);
      } else {
        found := None;
      }
    }

    method StoreEntry(r: Reading)
      requires Valid() && True(past, clock, r)
      modifies this`cache, this`stored
      ensures Valid()
      ensures cache == old(cache)[CacheKey(r.key) := Entry(r.balance, clock)]
      ensures stored == old(stored) + {Stored(r, clock)}
    {
      hide Held, StoredOk, AllBacked, UsernamesOk;
      StoringBacks(past, clock, stored, cache, r);
      cache := cache[CacheKey(r.key) := Entry(r.balance, clock)];
      stored := stored + {Stored(r, clock)};
    }

    /** The entry is there and its lifetime is not over. */
    predicate Fresh(k: string)
      reads this
    {
      k in cache && clock - LIFETIME <= cache[k].setAt
    }

    /** The cache serves fresh entries only; unless reliable, it may fail to. */
    method Lookup(k: string) returns (hit: Option<Decimal>)
      ensures hit.Some? ==> k in cache && clock - 300 <= cache[k].setAt && cache[k].balance == hit.value
      ensures reliable && k in cache && clock - 300 <= cache[k].setAt ==> hit.Some?
    {
      hit := if Fresh(k) then Some(cache[k].balance) else None;
      if !reliable {
        var fails: bool := *;
        hit := if fails then None else hit;
      }
    }

    method GetAccountBalanceWithCache(key: Key) returns (answer: Option<Decimal>)
      requires Valid()
      modifies this
      ensures Valid() && clock >= old(clock)
      ensures ColonFree(key.username) && answer.Some? ==> Explained(key, answer.value, old(clock))
      ensures cacheSet && reliable && old(Fresh(CacheKey(key))) ==> answer == Some(old(cache)[CacheKey(key)].balance)
      ensures cacheSet && answer.Some? ==> Fresh(CacheKey(key)) && cache[CacheKey(key)].balance == answer.value
      ensures key in old(balances) ==> answer.Some?
    {
      if cacheSet {
        var hit := Lookup(CacheKey(key));
        if hit.Some? {
          if ColonFree(key.username) {
            HitIsOwn(key, hit.value);
          }
          return hit;
        }
      }
      Elapse();
      answer := ReadDatabase(key);
      if answer.None? {
        return;
      }
      ghost var before, readAt := past, clock;
      var reading := Reading(key, answer.value, clock);
      Elapse();
      HeldStays(before, readAt, past, reading);
      if cacheSet {
        StoreEntry(reading);
      }
      assert Held(past, Reading(key, answer.value, readAt));
    }

    lemma HitIsOwn(key: Key, balance: Decimal)
      requires Valid() && ColonFree(key.username)
      requires Fresh(CacheKey(key)) && cache[CacheKey(key)].balance == balance
      ensures Explained(key, balance, clock)
    {
      var entry := cache[CacheKey(key)];
      assert Backed(stored, CacheKey(key), entry);
      var e :| e in stored && CacheKey(e.reading.key) == CacheKey(key)
               && e.reading.balance == entry.balance && e.setAt == entry.setAt;
      KeysInjective(e.reading.key, key);
      assert e.reading == Reading(key, balance, e.reading.time);
    }
  }

  /** A reader asked for an account under a parent token with a colon, and then for its
      lookalike, which is no account, answers the second with the first one's balance. */
  method AnswersAnother(account: Key, balance: Decimal)
    returns (reader: BalanceReader, query: Key, first: Option<Decimal>, second: Option<Decimal>)
    requires ColonFree(account.username) && ':' in account.parentToken
    ensures reader.Valid() && query != account && query !in reader.balances
    ensures first.Some? && second == first
  {
    reader := new BalanceReader(map[account := balance], true, true, 0);
    query := Lookalike(account);
    LookalikeCollides(account);
    first := reader.GetAccountBalanceWithCache(account);
    second := reader.GetAccountBalanceWithCache(query);
  }
}
