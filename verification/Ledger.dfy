/** Credit transactions and one user's in-memory balance. */
module Ledger {
  import opened Text
  import opened Decimals

  datatype Kind = Grant | Debit | Adjustment | Refund

  datatype Usage = Usage(environment: string, resource: string, quantity: string)

  datatype Transaction = Transaction(
    id: string, user: string, kind: Kind, credits: int, key: string, usage: Option<Usage>, occurredAt: int, createdAt: int)

  /** What every constructed transaction satisfies; time 0 is Go's zero time. */
  predicate WellFormed(t: Transaction) {
    && t.id != "" && t.user != "" && t.key != "" && t.occurredAt != 0 && t.createdAt >= t.occurredAt && t.createdAt != 0
    && InInt64(t.credits) && t.credits != 0
    && (t.kind == Grant || t.kind == Refund ==> t.credits > 0)
    && (t.kind == Debit ==> t.credits < 0 && t.usage.Some? && t.usage.value.environment != "" && t.usage.value.resource != "")
  }

  function NewTransaction(id: string, user: string, kind: Kind, credits: int, key: string, usage: Option<Usage>,
                          occurredAt: int, createdAt: int): (r: Result<Transaction>)
    ensures r.Ok? ==> r.value == Transaction(id, user, kind, credits, key, usage, occurredAt, createdAt)
    ensures r.Ok? <==> id != "" && user != "" && key != "" && occurredAt != 0 && createdAt != 0 && createdAt >= occurredAt
  {
    if id == "" || user == "" || key == "" || occurredAt == 0 || createdAt == 0 then
      Err("transaction identity, idempotency key, and timestamps are required")
    else if createdAt < occurredAt then Err("transaction cannot be created before it occurred")
    else Ok(Transaction(id, user, kind, credits, key, usage, occurredAt, createdAt))
  }

  function NewGrant(id: string, user: string, credits: int, key: string, occurredAt: int, createdAt: int): (r: Result<Transaction>)
    requires InInt64(credits)
    ensures r.Ok? ==> WellFormed(r.value) && r.value.credits == credits && r.value.kind == Grant
    ensures r.Ok? ==>
              && r.value.credits > 0 && r.value.usage == None
              && (r.value.id, r.value.user, r.value.key) == (id, user, key) && id != "" && user != "" && key != ""
              && r.value.occurredAt == occurredAt != 0 && occurredAt <= r.value.createdAt == createdAt != 0
  {
    if credits <= 0 then Err("grant credits must be positive")
    else NewTransaction(id, user, Grant, credits, key, None, occurredAt, createdAt)
  }

  /** A debit takes away exactly what the rate makes of the measured quantity. */
  function NewDebit(id: string, user: string, key: string, usage: Usage, rate: Ratio, occurredAt: int, createdAt: int): (r: Result<Transaction>)
    requires Proper(rate)
    ensures r.Ok? ==> WellFormed(r.value) && r.value.kind == Debit && Convert(rate, usage.quantity) == Ok(-r.value.credits)
    ensures r.Ok? ==>
              && r.value.credits < 0 && r.value.usage == Some(usage) && usage.environment != "" && usage.resource != ""
              && (r.value.id, r.value.user, r.value.key) == (id, user, key) && id != "" && user != "" && key != ""
              && r.value.occurredAt == occurredAt != 0 && occurredAt <= r.value.createdAt == createdAt != 0
    ensures r.Err? ==>
              || Convert(rate, usage.quantity).Err? || Convert(rate, usage.quantity).value <= 0
              || "" in [id, user, key, usage.environment, usage.resource] || occurredAt == 0 || createdAt == 0 || createdAt < occurredAt
  {
    var converted := Convert(rate, usage.quantity);
    if converted.Err? then Err(converted.error)
    else if converted.value <= 0 || usage.environment == "" || usage.resource == "" then
      Err("debit requires positive credits and Environment and resource IDs")
    else NewTransaction(id, user, Debit, -converted.value, key, Some(usage), occurredAt, createdAt)
  }

  // Histories

  function Sum(history: seq<Transaction>): int {
    if history == [] then 0 else Sum(history[..|history| - 1]) + history[|history| - 1].credits
  }

  /** No two transactions of a history share an ID or an idempotency key. */
  ghost predicate Distinct(history: seq<Transaction>) {
    forall i, j :: 0 <= i < j < |history| ==> history[i].id != history[j].id && history[i].key != history[j].key
  }

  predicate UsesKey(history: seq<Transaction>, key: string) {
    exists i :: 0 <= i < |history| && history[i].key == key
  }

  predicate UsesID(history: seq<Transaction>, id: string) {
    exists i :: 0 <= i < |history| && history[i].id == id
  }

  datatype Reason = ForeignUser | KeyConflict | IDConflict | Overflow

  datatype Outcome = Applied | Replayed | Rejected(reason: Reason)

  /** What the documentation promises of Apply, in terms of the true history. */
  ghost function Expected(user: string, history: seq<Transaction>, t: Transaction): Outcome {
    if t.user != user then Rejected(ForeignUser)
    else if t in history then Replayed
    else if UsesKey(history, t.key) then Rejected(KeyConflict)
    else if UsesID(history, t.id) then Rejected(IDConflict)
    else if !InInt64(Sum(history) + t.credits) then Rejected(Overflow)
    else Applied
  }

  /** The map holds exactly the history, by idempotency key. */
  ghost predicate ByKey(history: seq<Transaction>, transactions: map<string, Transaction>) {
    && (forall i :: 0 <= i < |history| ==> history[i].key in transactions && transactions[history[i].key] == history[i])
    && (forall k :: k in transactions ==> UsesKey(history, k))
  }

  /** The map holds exactly the history's IDs, each with its key. */
  ghost predicate ByID(history: seq<Transaction>, ids: map<string, string>) {
    && (forall i :: 0 <= i < |history| ==> history[i].id in ids && ids[history[i].id] == history[i].key)
    && (forall id :: id in ids ==> UsesID(history, id))
  }

  lemma KeyDecides(history: seq<Transaction>, transactions: map<string, Transaction>, t: Transaction)
    requires ByKey(history, transactions)
    ensures UsesKey(history, t.key) <==> t.key in transactions
    ensures t in history <==> t.key in transactions && transactions[t.key] == t
  {
  }

  lemma IDDecides(history: seq<Transaction>, ids: map<string, string>, t: Transaction)
    requires ByID(history, ids) && !UsesKey(history, t.key)
    ensures UsesID(history, t.id) <==> t.id in ids && ids[t.id] != t.key
  {
  }

  lemma KeyStays(history: seq<Transaction>, t: Transaction, key: string)
    ensures UsesKey(history + [t], key) <==> UsesKey(history, key) || key == t.key
  {
    var longer := history + [t];
    assert longer[|history|] == t;
    if UsesKey(history, key) {
      var i :| 0 <= i < |history| && history[i].key == key;
      assert longer[i].key == key;
    }
  }

  lemma IDStays(history: seq<Transaction>, t: Transaction, id: string)
    ensures UsesID(history + [t], id) <==> UsesID(history, id) || id == t.id
  {
    var longer := history + [t];
    assert longer[|history|] == t;
    if UsesID(history, id) {
      var i :| 0 <= i < |history| && history[i].id == id;
      assert longer[i].id == id;
    }
  }

  lemma ByKeyExtends(history: seq<Transaction>, transactions: map<string, Transaction>, t: Transaction)
    requires ByKey(history, transactions) && !UsesKey(history, t.key)
    ensures ByKey(history + [t], transactions[t.key := t])
  {
    forall k | k in transactions[t.key := t]
      ensures UsesKey(history + [t], k)
    {
      KeyStays(history, t, k);
    }
  }

  lemma ByIDExtends(history: seq<Transaction>, ids: map<string, string>, t: Transaction)
    requires ByID(history, ids) && !UsesID(history, t.id)
    ensures ByID(history + [t], ids[t.id := t.key])
  {
    forall id | id in ids[t.id := t.key]
      ensures UsesID(history + [t], id)
    {
      IDStays(history, t, id);
    }
  }

  ghost predicate AllOf(history: seq<Transaction>, user: string) {
    forall i :: 0 <= i < |history| ==> history[i].user == user
  }

  /** The running total is the sum of the history, and the two maps index it. */
  ghost predicate Accounts(user: string, credits: int, version: int, history: seq<Transaction>,
                           transactions: map<string, Transaction>, ids: map<string, string>) {
    && user != "" && credits == Sum(history) && InInt64(credits) && version == |history|
    && Distinct(history) && AllOf(history, user)
    && ByKey(history, transactions) && ByID(history, ids)
  }

  /** One more applied transaction keeps the account. */
  lemma AppliedAccounts(user: string, credits: int, version: int, history: seq<Transaction>,
                        transactions: map<string, Transaction>, ids: map<string, string>, t: Transaction)
    requires Accounts(user, credits, version, history, transactions, ids)
    requires Expected(user, history, t) == Applied
    ensures Accounts(user, credits + t.credits, version + 1, history + [t], transactions[t.key := t], ids[t.id := t.key])
  {
    hide ByKey, ByID, UsesKey, UsesID, InInt64, Distinct, Sum;
    ByKeyExtends(history, transactions, t);
    ByIDExtends(history, ids, t);
    DistinctExtends(history, t);
  }

  /** Which transaction has which outcome, spelled out: fresh in key and ID and within int64, the same as one
      there, sharing a key, or sharing an ID only. */
  ghost predicate Decided(user: string, credits: int, history: seq<Transaction>, t: Transaction, outcome: Outcome) {
    && (outcome == Applied <==>
          && t.user == user && (forall h <- history :: h.key != t.key && h.id != t.id)
          && MIN_INT64 <= credits + t.credits <= MAX_INT64)
    && (outcome == Replayed <==> t in history)
    && (outcome == Rejected(KeyConflict) <==> t.user == user && t !in history && exists h <- history :: h.key == t.key)
    && (outcome == Rejected(IDConflict) <==>
          t.user == user && (forall h <- history :: h.key != t.key) && exists h <- history :: h.id == t.id)
  }

  lemma ExpectedExactly(user: string, credits: int, version: int, history: seq<Transaction>,
                        transactions: map<string, Transaction>, ids: map<string, string>, t: Transaction)
    requires Accounts(user, credits, version, history, transactions, ids)
    ensures Decided(user, credits, history, t, Expected(user, history, t))
  {
    hide ByKey, ByID, Distinct;
    if UsesKey(history, t.key) {
      var i :| 0 <= i < |history| && history[i].key == t.key;
      assert history[i] in history;
    }
    if UsesID(history, t.id) {
      var i :| 0 <= i < |history| && history[i].id == t.id;
      assert history[i] in history;
    }
    assert UsesKey(history, t.key) <==> exists h <- history :: h.key == t.key;
    assert UsesID(history, t.id) <==> exists h <- history :: h.id == t.id;
  }

  lemma DistinctExtends(history: seq<Transaction>, t: Transaction)
    requires Distinct(history) && !UsesKey(history, t.key) && !UsesID(history, t.id)
    ensures Distinct(history + [t]) && Sum(history + [t]) == Sum(history) + t.credits
  {
  }

  class CreditBalance {
    const user: string
    var credits: int
    var version: int
    var updatedAt: int
    var transactions: map<string, Transaction>
    var ids: map<string, string>
    ghost var history: seq<Transaction>

    ghost predicate Valid()
      reads this
    {
      Accounts(user, credits, version, history, transactions, ids)
    }

    constructor (user: string)
      requires user != ""
      ensures Valid() && this.user == user && history == [] && credits == 0
    {
      this.user, credits, version, updatedAt := user, 0, 0, 0;
      transactions, ids, history := map[], map[], [];
    }

    /** The checks Apply makes before it changes anything. */
    method Check(t: Transaction) returns (outcome: Outcome)
      requires Valid() && InInt64(t.credits)
      ensures outcome == Expected(user, history, t) && Decided(user, credits, history, t, outcome)
    {
      ExpectedExactly(user, credits, version, history, transactions, ids, t);
      hide ByKey, ByID, Distinct, UsesKey, UsesID, Sum, Decided;
      if t.user != user {
        return Rejected(ForeignUser);
      }
      KeyDecides(history, transactions, t);
      if t.key in transactions {
        return if transactions[t.key] == t then Replayed else Rejected(KeyConflict);
      }
      IDDecides(history, ids, t);
      if t.id in ids && ids[t.id] != t.key {
        return Rejected(IDConflict);
      }
      if (t.credits > 0 && credits > MAX_INT64 - t.credits) || (t.credits < 0 && credits < MIN_INT64 - t.credits) {
        return Rejected(Overflow);
      }
      outcome := Applied;
    }

    /** A transaction changes the balance exactly when it is fresh and the true sum fits int64;
        anything else leaves the balance as it was. */
    method Apply(t: Transaction) returns (outcome: Outcome)
      requires Valid() && InInt64(t.credits)
      modifies this
      ensures Valid()
      ensures outcome == Expected(user, old(history), t)
      ensures outcome == Applied ==> history == old(history) + [t] && credits == old(credits) + t.credits && updatedAt == t.createdAt
      ensures outcome != Applied ==> unchanged(this)
      ensures Decided(user, old(credits), old(history), t, outcome)
    {
      hide Expected, Accounts, InInt64, Decided;
      outcome := Check(t);
      if outcome != Applied {
        return;
      }
      AppliedAccounts(user, credits, version, history, transactions, ids, t);
      credits := credits + t.credits;
      version := version + 1;
      updatedAt := t.createdAt;
      transactions := transactions[t.key := t];
      ids := ids[t.id := t.key];
      history := history + [t];
    }
  }
}
