/** Trimming an account's history
    (internal/infrastructure/adapters/db/mongo_adapter.go:319-342, 395-445). */
module StatementHistory {
  import opened DecimalUtils
  import opened LedgerTheorems
  import opened Models
  import opened MongoStore
  import opened WalletService

  /** A stored statement with its `_id`. */
  datatype Doc = Doc(id: nat, st: WalletStatement)

  predicate DistinctIds(docs: seq<Doc>) {
    forall i, j | 0 <= i < j < |docs| :: docs[i].id != docs[j].id
  }

  /** The documents of one account, in insertion order. */
  function OfAccount(docs: seq<Doc>, key: Key): seq<Doc> {
    if docs == [] then []
    else if docs[0].st.Account() == key then [docs[0]] + OfAccount(docs[1..], key)
    else OfAccount(docs[1..], key)
  }

  function Statements(docs: seq<Doc>): (log: seq<WalletStatement>)
    ensures |log| == |docs| && forall i | 0 <= i < |docs| :: log[i] == docs[i].st
  {
    seq(|docs|, i requires 0 <= i < |docs| => docs[i].st)
  }

  /** How many documents a query with `SetLimit(keepCount)` returns out of `n`: zero means no
      limit, and a negative limit counts as its absolute value. */
  function Limited(n: nat, keepCount: int): nat {
    var limit := if keepCount < 0 then -keepCount else keepCount;
    if limit == 0 || n <= limit then n else limit
  }

  /** A correct answer to "the account's documents by falling datetime, at most so many":
      no document left out is newer than one returned. */
  ghost predicate NewestAnswer(docs: seq<Doc>, key: Key, keepCount: int, cursor: seq<Doc>) {
    var mine := OfAccount(docs, key);
    && DistinctIds(cursor) && |cursor| == Limited(|mine|, keepCount)
    && (forall c | c in cursor :: c in mine)
    && (forall d, c | d in mine && d !in cursor && c in cursor :: d.st.datetime <= c.st.datetime)
  }

  /** `DeleteMany`: the account's documents whose id is not listed go. */
  function DeleteOthers(docs: seq<Doc>, key: Key, keep: set<nat>): seq<Doc> {
    if docs == [] then []
    else if docs[0].st.Account() == key && docs[0].id !in keep then DeleteOthers(docs[1..], key, keep)
    else [docs[0]] + DeleteOthers(docs[1..], key, keep)
  }

  function Ids(docs: seq<Doc>): (ids: set<nat>) {
    set d | d in docs :: d.id
  }

  /** What `ClearOldStatements` leaves of the collection. */
  function Trimmed(docs: seq<Doc>, key: Key, cursor: seq<Doc>): seq<Doc> {
    if cursor == [] then docs else DeleteOthers(docs, key, Ids(cursor))
  }

  class StatementCollection {
    var docs: seq<Doc>

    constructor (docs: seq<Doc>)
      ensures this.docs == docs
    {
      this.docs := docs;
    }

    /** `cursor` is what the server answers to the query for the documents to keep. */
    method ClearOldStatements(key: Key, keepCount: int, cursor: seq<Doc>)
      requires NewestAnswer(docs, key, keepCount, cursor)
      modifies this
      ensures docs == Trimmed(old(docs), key, cursor)
    {
      var keepIds: seq<nat> := [];
      for i := 0 to |cursor|
        invariant |keepIds| == i && forall j | 0 <= j < i :: keepIds[j] == cursor[j].id
      {
        keepIds := keepIds + [cursor[i].id];
      }
      if |keepIds| == 0 {
        assert cursor == [];
        return;
      }
      assert cursor != [];
      ListedIds(keepIds, cursor);
      docs := DeleteOthers(docs, key, Listed(keepIds));
    }
  }

  function Listed(ids: seq<nat>): set<nat> {
    set id | id in ids
  }

  lemma ListedIds(ids: seq<nat>, docs: seq<Doc>)
    requires |ids| == |docs| && forall j | 0 <= j < |docs| :: ids[j] == docs[j].id
    ensures Listed(ids) == Ids(docs)
  {
    forall d | d in docs
      ensures d.id in ids
    {
      var j :| 0 <= j < |docs| && docs[j] == d;
      assert ids[j] == d.id;
    }
    forall id | id in ids
      ensures id in Ids(docs)
    {
      var j :| 0 <= j < |ids| && ids[j] == id;
      assert docs[j] in docs;
    }
  }

  // ----- what remains -----

  lemma {:induction false} OthersKept(docs: seq<Doc>, key: Key, keep: set<nat>, other: Key)
    requires other != key
    ensures OfAccount(DeleteOthers(docs, key, keep), other) == OfAccount(docs, other)
  {
    if docs != [] {
      OthersKept(docs[1..], key, keep, other);
    }
  }

  function Kept(mine: seq<Doc>, keep: set<nat>): seq<Doc> {
    if mine == [] then []
    else if mine[0].id in keep then [mine[0]] + Kept(mine[1..], keep)
    else Kept(mine[1..], keep)
  }

  lemma {:induction false} OwnFiltered(docs: seq<Doc>, key: Key, keep: set<nat>)
    ensures OfAccount(DeleteOthers(docs, key, keep), key) == Kept(OfAccount(docs, key), keep)
  {
    if docs != [] {
      OwnFiltered(docs[1..], key, keep);
    }
  }

  /** Keeping exactly the ids from position `n` on leaves that suffix. */
  lemma {:induction false} KeptIsSuffix(mine: seq<Doc>, keep: set<nat>, n: nat)
    requires n <= |mine|
    requires forall i | 0 <= i < |mine| :: mine[i].id in keep <==> i >= n
    ensures Kept(mine, keep) == mine[n..]
  {
    if mine != [] {
      if n == 0 {
        KeptIsSuffix(mine[1..], keep, 0);
      } else {
        KeptIsSuffix(mine[1..], keep, n - 1);
      }
    }
  }

  lemma {:induction false} CountIds(docs: seq<Doc>)
    requires DistinctIds(docs)
    ensures |Ids(docs)| == |docs|
  {
    if docs != [] {
      var front, last := docs[..|docs| - 1], docs[|docs| - 1];
      CountIds(front);
      assert Ids(docs) == Ids(front) + {last.id} by {
        forall d | d in docs
          ensures d in front || d == last
        {}
      }
      assert last.id !in Ids(front);
    }
  }

  /** When commit order is clock order, the answer holds each of the newest documents. */
  lemma AnswerHoldsNewest(mine: seq<Doc>, cursor: seq<Doc>, i: nat)
    requires DistinctIds(mine) && Increasing(Statements(mine)) && DistinctIds(cursor)
    requires |cursor| <= |mine| && |mine| - |cursor| <= i < |mine|
    requires forall c | c in cursor :: c in mine
    requires forall d, c | d in mine && d !in cursor && c in cursor :: d.st.datetime <= c.st.datetime
    ensures mine[i] in cursor
  {
    if mine[i] !in cursor {
      var above := mine[i + 1..];
      assert DistinctIds(above);
      forall c | c in cursor
        ensures c in above
      {
        var j :| 0 <= j < |mine| && mine[j] == c;
        assert mine[i].st.datetime <= mine[j].st.datetime;
        assert j > i;
        assert above[j - i - 1] == c;
      }
      assert Ids(cursor) <= Ids(above);
      CardinalityOfSubset(Ids(cursor), Ids(above));
      CountIds(cursor);
      CountIds(above);
    }
  }

  lemma {:induction false} CardinalityOfSubset(a: set<nat>, b: set<nat>)
    requires a <= b
    ensures |a| <= |b|
    ensures |a| == |b| ==> a == b
  {
    if a != {} {
      var x :| x in a;
      CardinalityOfSubset(a - {x}, b - {x});
    }
  }

  /** As many ids as the suffix has, all of the suffix among them: they are its ids. */
  lemma NewestAreIds(mine: seq<Doc>, cursor: seq<Doc>, n: nat)
    requires DistinctIds(mine) && DistinctIds(cursor) && n <= |mine| && |cursor| == |mine| - n
    requires forall i | n <= i < |mine| :: mine[i] in cursor
    ensures Ids(mine[n..]) == Ids(cursor)
  {
    var newest := mine[n..];
    forall d | d in newest
      ensures d in cursor
    {
      var j :| 0 <= j < |newest| && newest[j] == d;
      assert d == mine[n + j];
    }
    assert DistinctIds(newest);
    CountIds(newest);
    CountIds(cursor);
    CardinalityOfSubset(Ids(newest), Ids(cursor));
  }

  lemma IdsOfSuffix(mine: seq<Doc>, n: nat, i: nat)
    requires DistinctIds(mine) && n <= |mine| && i < |mine|
    ensures mine[i].id in Ids(mine[n..]) <==> i >= n
  {
    if i >= n {
      assert mine[n..][i - n] == mine[i];
    }
  }

  lemma AnswerIsSuffix(docs: seq<Doc>, key: Key, keepCount: int, cursor: seq<Doc>)
    requires NewestAnswer(docs, key, keepCount, cursor)
    requires DistinctIds(OfAccount(docs, key)) && Increasing(Statements(OfAccount(docs, key)))
    ensures var mine := OfAccount(docs, key);
      |cursor| <= |mine| && forall i | 0 <= i < |mine| :: mine[i].id in Ids(cursor) <==> i >= |mine| - |cursor|
  {
    var mine := OfAccount(docs, key);
    var n := |mine| - |cursor|;
    forall i | n <= i < |mine|
      ensures mine[i] in cursor
    {
      AnswerHoldsNewest(mine, cursor, i);
    }
    NewestAreIds(mine, cursor, n);
    forall i | 0 <= i < |mine|
      ensures mine[i].id in Ids(cursor) <==> i >= n
    {
      IdsOfSuffix(mine, n, i);
    }
  }

  lemma {:induction false} ClearKeepsSuffix(docs: seq<Doc>, key: Key, keepCount: int, cursor: seq<Doc>)
    requires NewestAnswer(docs, key, keepCount, cursor)
    requires DistinctIds(OfAccount(docs, key)) && Increasing(Statements(OfAccount(docs, key)))
    ensures var mine := OfAccount(docs, key);
      OfAccount(Trimmed(docs, key, cursor), key) == mine[|mine| - Limited(|mine|, keepCount)..]
    ensures forall other | other != key :: OfAccount(Trimmed(docs, key, cursor), other) == OfAccount(docs, other)
  {
    var mine := OfAccount(docs, key);
    if cursor != [] {
      AnswerIsSuffix(docs, key, keepCount, cursor);
      OwnFiltered(docs, key, Ids(cursor));
      KeptIsSuffix(mine, Ids(cursor), |mine| - |cursor|);
      forall other | other != key
        ensures OfAccount(Trimmed(docs, key, cursor), other) == OfAccount(docs, other)
      {
        OthersKept(docs, key, Ids(cursor), other);
      }
    }
  }

  /** When an account's clock order is its commit order, trimming keeps exactly its newest
      `keepCount` statements, in order, and every other account's; a count of zero keeps all. */
  lemma {:induction false} ClearKeepsNewest(docs: seq<Doc>, key: Key, keepCount: int, cursor: seq<Doc>)
    requires NewestAnswer(docs, key, keepCount, cursor)
    requires DistinctIds(OfAccount(docs, key)) && Increasing(Statements(OfAccount(docs, key)))
    ensures var mine, kept := OfAccount(docs, key), OfAccount(Trimmed(docs, key, cursor), key);
      && kept == mine[|mine| - Limited(|mine|, keepCount)..]
      && (keepCount == 0 || keepCount >= |mine| ==> kept == mine)
      && (1 <= keepCount <= |mine| ==> kept == mine[|mine| - keepCount..])
    ensures forall other | other != key :: OfAccount(Trimmed(docs, key, cursor), other) == OfAccount(docs, other)
  {
    ClearKeepsSuffix(docs, key, keepCount, cursor);
    hide Trimmed, OfAccount, NewestAnswer, Increasing, DistinctIds;
  }

  function SumOfAmounts(log: seq<WalletStatement>): int {
    if log == [] then 0 else log[0].amount + SumOfAmounts(log[1..])
  }

  lemma ExactLine(st: WalletStatement)
    requires LedgerLine(st) && InRange(st.beforeCredit) && InRange(st.amount)
    ensures st.afterCredit == st.beforeCredit + st.amount
  {
    SumExact(st.beforeCredit, st.amount);
  }

  /** Every statement ends where it began plus its amount, exactly, and begins where the one
      before it ended. */
  predicate ExactChain(log: seq<WalletStatement>) {
    forall i | 0 <= i < |log| ::
      log[i].beforeCredit == CreditAfter(log, i) && log[i].afterCredit == log[i].beforeCredit + log[i].amount
  }

  lemma ChainIsExact(log: seq<WalletStatement>, balance: Decimal)
    requires Chain(log, balance) && LogInRange(log)
    ensures ExactChain(log)
  {
    forall i | 0 <= i < |log|
      ensures log[i].beforeCredit == CreditAfter(log, i) && log[i].afterCredit == log[i].beforeCredit + log[i].amount
    {
      ExactLine(log[i]);
    }
  }

  lemma {:induction false} SuffixAddsUp(log: seq<WalletStatement>, n: nat)
    requires ExactChain(log) && n <= |log|
    ensures CreditAfter(log, |log|) == CreditAfter(log, n) + SumOfAmounts(log[n..])
    decreases |log| - n
  {
    if n < |log| {
      SuffixAddsUp(log, n + 1);
      assert log[n..][1..] == log[n + 1..];
    }
  }

  /** `kept` still tells the account's balance: its last statement is the newest, is the one
      the full log ends with, and ends at the balance, which is the first kept statement's
      opening credit plus the kept amounts. */
  predicate TellsBalance(kept: seq<WalletStatement>, log: seq<WalletStatement>, balance: Decimal) {
    && kept != [] && log != [] && kept[|kept| - 1] == log[|log| - 1]
    && LatestPick(kept, |kept| - 1) && kept[|kept| - 1].afterCredit == balance
    && balance == kept[0].beforeCredit + SumOfAmounts(kept)
  }

  lemma LatestOfSuffix(log: seq<WalletStatement>, n: nat)
    requires n < |log| && Increasing(log)
    ensures LatestPick(log[n..], |log| - n - 1)
  {
    var kept := log[n..];
    forall i | 0 <= i < |kept|
      ensures kept[i].datetime <= kept[|log| - n - 1].datetime
    {
      assert kept[i] == log[n + i] && kept[|log| - n - 1] == log[|log| - 1];
    }
  }

  lemma SuffixTellsBalance(log: seq<WalletStatement>, balance: Decimal, n: nat)
    requires n < |log| && ExactChain(log) && Increasing(log) && balance == CreditAfter(log, |log|)
    ensures TellsBalance(log[n..], log, balance)
  {
    hide LatestPick, SumOfAmounts, Increasing;
    LatestOfSuffix(log, n);
    SuffixAddsUp(log, n);
    assert log[n].beforeCredit == CreditAfter(log, n);
  }

  lemma TrimmedStatements(docs: seq<Doc>, key: Key, keepCount: int, cursor: seq<Doc>) returns (n: nat)
    requires NewestAnswer(docs, key, keepCount, cursor)
    requires DistinctIds(OfAccount(docs, key)) && Increasing(Statements(OfAccount(docs, key)))
    requires OfAccount(docs, key) != []
    ensures n < |OfAccount(docs, key)|
    ensures Statements(OfAccount(Trimmed(docs, key, cursor), key)) == Statements(OfAccount(docs, key))[n..]
  {
    var mine := OfAccount(docs, key);
    n := |mine| - Limited(|mine|, keepCount);
    ClearKeepsNewest(docs, key, keepCount, cursor);
    assert Statements(mine[n..]) == Statements(mine)[n..];
  }

  /** Trimming leaves an account whose statements tell the same balance by the same last
      statement. */
  lemma ClearKeepsAccount(docs: seq<Doc>, key: Key, keepCount: int, cursor: seq<Doc>, balance: Decimal)
    requires NewestAnswer(docs, key, keepCount, cursor)
    requires DistinctIds(OfAccount(docs, key)) && Increasing(Statements(OfAccount(docs, key)))
    requires OfAccount(docs, key) != [] && ExactChain(Statements(OfAccount(docs, key)))
    requires balance == CreditAfter(Statements(OfAccount(docs, key)), |OfAccount(docs, key)|)
    ensures var kept := Statements(OfAccount(Trimmed(docs, key, cursor), key));
      TellsBalance(kept, Statements(OfAccount(docs, key)), balance)
  {
    var n := TrimmedStatements(docs, key, keepCount, cursor);
    SuffixTellsBalance(Statements(OfAccount(docs, key)), balance, n);
  }
}
