/** Every sequence of opens, closes, re-closes and webhook deliveries: balances are sums, each
    closed interval owns one debit and one delivery, and each event grants at most once. */
module BillingRuns {
  import opened Text
  import opened Times
  import opened Decimals
  import opened Ledger
  import opened Billing

  datatype Event =
    | NewUser(user: string)
    | Opening(open: OpenInput)
    | Closing(close: CloseInput)
    | Webhook(projection: Projection, receivedAt: int)

  predicate ValidEvent(e: Event) {
    match e
    case Closing(x) => x.rate.Some? ==> Proper(x.rate.value)
    case Webhook(p, _) => p.change.RecurringGrant? ==> InInt64(p.change.credits)
    case _ => true
  }

  function Step(db: Books, e: Event): Books
    requires ValidEvent(e)
  {
    match e
    case NewUser(u) => AddUser(db, u)
    case Opening(x) => Open(db, x).0
    case Closing(x) => Close(db, x).0
    case Webhook(p, at) => Project(db, p, at).0
  }

  predicate ValidEvents(es: seq<Event>) {
    forall i :: 0 <= i < |es| ==> ValidEvent(es[i])
  }

  function Run(db: Books, es: seq<Event>): Books
    requires ValidEvents(es)
    decreases |es|
  {
    if es == [] then db else Run(Step(db, es[0]), es[1..])
  }

  const EMPTY := Books([], map[], map[], [], map[], map[], map[])

  // The invariant

  /** Every balance is the sum of its user's transactions, and every transaction has a user. */
  ghost predicate Balanced(db: Books) {
    && Distinct(db.ledger)
    && (forall i :: 0 <= i < |db.ledger| ==> db.ledger[i].user in db.balances)
    && (forall u :: u in db.balances ==> db.balances[u] == Total(db.ledger, u) && InInt64(db.balances[u]))
  }

  /** The quantity is the time from the interval's start to this stop, which is stored as the debit's time. */
  predicate MeasuredUntil(t: Transaction, i: Interval, stop: int) {
    && i.startedAt < stop && StoredTime(stop) == t.occurredAt
    && t.usage.Some? && t.usage.value.quantity == DecimalSeconds(Elapsed(i.startedAt, stop))
  }

  /** The debit names the interval's Environment and Runtime and measures its time. */
  ghost predicate Measures(t: Transaction, i: Interval) {
    && t.usage.Some? && t.usage.value.environment == i.environment && t.usage.value.resource == i.runtime
    && exists stop :: MeasuredUntil(t, i, stop)
  }

  ghost predicate IsDebitOf(t: Transaction, id: string, i: Interval) {
    && t.id == DebitID(id) && t.key == DebitKey(id) && t.kind == Debit && t.user == i.user
    && t.credits < 0 && t.createdAt == t.occurredAt && Measures(t, i)
    && i.closure.Some? && i.closure.value == Closure(t.occurredAt, t.id)
  }

  ghost predicate Paid(db: Books, id: string)
    requires id in db.intervals
  {
    && (exists k :: 0 <= k < |db.ledger| && IsDebitOf(db.ledger[k], id, db.intervals[id]))
    && Delivery(DebitKey(id), DebitID(id)) in db.deliveries
  }

  /** Every closed interval has its debit and delivery. */
  ghost predicate ClosedArePaid(db: Books) {
    forall id :: id in db.intervals && db.intervals[id].closure.Some? ==> Paid(db, id)
  }

  ghost predicate IsGrantOf(t: Transaction, event: string) {
    t.id == GrantID(event) && t.key == GrantKey(event) && t.kind == Grant
  }

  /** Every transaction is the debit of a closed interval or the grant of a recorded event. */
  ghost predicate Owned(db: Books, t: Transaction) {
    || (exists id :: id in db.intervals && IsDebitOf(t, id, db.intervals[id]))
    || (exists event :: event in db.grants && IsGrantOf(t, event))
  }

  ghost predicate LedgerIsOwned(db: Books) {
    forall k :: 0 <= k < |db.ledger| ==> Owned(db, db.ledger[k])
  }

  ghost predicate GrantsAreBooked(db: Books) {
    forall event :: event in db.grants ==>
      event in db.receipts && exists k :: 0 <= k < |db.ledger| && IsGrantOf(db.ledger[k], event)
  }

  /** Deliveries are one to one with debits. */
  ghost predicate DeliveriesArePaired(db: Books) {
    && (forall i, j :: 0 <= i < j < |db.deliveries| ==>
          db.deliveries[i].externalId != db.deliveries[j].externalId && db.deliveries[i].transaction != db.deliveries[j].transaction)
    && (forall d :: d in db.deliveries ==>
          exists id :: id in db.intervals && db.intervals[id].closure.Some? && d == Delivery(DebitKey(id), DebitID(id)))
  }

  ghost predicate Inv(db: Books) {
    && Balanced(db) && ClosedArePaid(db) && LedgerIsOwned(db) && GrantsAreBooked(db) && DeliveriesArePaired(db)
  }

  // Appending

  lemma {:induction false} NoTransactionsNoTotal(ledger: seq<Transaction>, user: string)
    requires forall i :: 0 <= i < |ledger| ==> ledger[i].user != user
    ensures Total(ledger, user) == 0
  {
    if ledger != [] {
      NoTransactionsNoTotal(ledger[..|ledger| - 1], user);
    }
  }

  lemma AppendKeepsBalance(db: Books, t: Transaction)
    requires Balanced(db) && Append(db, t).Some?
    ensures Balanced(Append(db, t).value)
  {
  }

  /** The interval is the same, or the same and closed since. */
  predicate Continues(before: Interval, after: Interval) {
    && after.(closure := None) == before.(closure := None)
    && (before.closure.Some? ==> after == before)
  }

  /** The ledger only grows, intervals are only closed, and receipts stay. */
  ghost predicate Extends(db: Books, next: Books) {
    && db.ledger <= next.ledger
    && (forall id :: id in db.intervals ==> id in next.intervals && Continues(db.intervals[id], next.intervals[id]))
    && (forall d :: d in db.deliveries ==> d in next.deliveries)
    && (forall e :: e in db.grants ==> e in next.grants)
    && (forall e :: e in db.receipts ==> e in next.receipts && next.receipts[e] == db.receipts[e])
    && (forall u :: u in db.customers ==> u in next.customers && next.customers[u] == db.customers[u])
  }

  lemma OwnedStays(db: Books, next: Books, t: Transaction)
    requires Extends(db, next) && Owned(db, t)
    ensures Owned(next, t)
  {
  }

  lemma PaidStays(db: Books, next: Books, id: string)
    requires Extends(db, next) && id in db.intervals && db.intervals[id].closure.Some? && Paid(db, id)
    ensures Paid(next, id)
  {
  }

  lemma BookedStays(db: Books, next: Books, event: string)
    requires Extends(db, next) && exists k :: 0 <= k < |db.ledger| && IsGrantOf(db.ledger[k], event)
    ensures exists k :: 0 <= k < |next.ledger| && IsGrantOf(next.ledger[k], event)
  {
  }

  // Steps

  /** Steps that leave the ledger, the deliveries and every existing interval alone. */
  ghost predicate Bookless(db: Books, next: Books) {
    && next.ledger == db.ledger && next.deliveries == db.deliveries && next.grants == db.grants
    && (forall id :: id in db.intervals ==> id in next.intervals && next.intervals[id] == db.intervals[id])
    && (forall id :: id in next.intervals && id !in db.intervals ==> next.intervals[id].closure.None?)
    && (forall e :: e in db.receipts ==> e in next.receipts && next.receipts[e] == db.receipts[e])
    && (forall u :: u in db.customers ==> u in next.customers && next.customers[u] == db.customers[u])
  }

  lemma BooklessKeepsInv(db: Books, next: Books)
    requires Inv(db) && Bookless(db, next) && Balanced(next)
    ensures Inv(next) && Extends(db, next)
  {
    hide Balanced, Owned, IsDebitOf, IsGrantOf, Paid;
    forall k | 0 <= k < |next.ledger|
      ensures Owned(next, next.ledger[k])
    {
      OwnedStays(db, next, next.ledger[k]);
    }
    forall id | id in next.intervals && next.intervals[id].closure.Some?
      ensures Paid(next, id)
    {
      PaidStays(db, next, id);
    }
    forall d | d in next.deliveries
      ensures exists id :: id in next.intervals && next.intervals[id].closure.Some? && d == Delivery(DebitKey(id), DebitID(id))
    {
      var id :| id in db.intervals && db.intervals[id].closure.Some? && d == Delivery(DebitKey(id), DebitID(id));
      assert next.intervals[id].closure.Some?;
    }
  }

  lemma AddUserKeepsInv(db: Books, user: string)
    requires Inv(db)
    ensures Inv(AddUser(db, user)) && Extends(db, AddUser(db, user))
  {
    hide ClosedArePaid, LedgerIsOwned, GrantsAreBooked, DeliveriesArePaired, Distinct;
    if user !in db.balances {
      NoTransactionsNoTotal(db.ledger, user);
    }
    BooklessKeepsInv(db, AddUser(db, user));
  }

  lemma OpenKeepsInv(db: Books, x: OpenInput)
    requires Inv(db)
    ensures Inv(Open(db, x).0) && Extends(db, Open(db, x).0)
  {
    hide ClosedArePaid, LedgerIsOwned, GrantsAreBooked, DeliveriesArePaired, Distinct;
    BooklessKeepsInv(db, Open(db, x).0);
  }

  /** A close that changes anything. */
  ghost predicate Closes(db: Books, x: CloseInput) {
    && x.id != "" && x.stoppedAt != 0 && x.knownSource
    && x.id in db.intervals && db.intervals[x.id].closure.None? && x.stoppedAt > db.intervals[x.id].startedAt
    && x.rate.Some? && Proper(x.rate.value)
    && DebitFor(x.id, db.intervals[x.id], x.stoppedAt, x.rate.value).Ok?
    && (var t := DebitFor(x.id, db.intervals[x.id], x.stoppedAt, x.rate.value).value;
        Append(db, t).Some? && !Delivered(db.deliveries, t.key, t.id))
    && StoredTime(x.stoppedAt) > db.intervals[x.id].startedAt
  }

  lemma CloseChanges(db: Books, x: CloseInput)
    requires x.rate.Some? ==> Proper(x.rate.value)
    ensures Close(db, x).0 != db ==> Closes(db, x)
    ensures Closes(db, x) && Close(db, x).0 != db ==>
              var i := db.intervals[x.id];
              var t := DebitFor(x.id, i, x.stoppedAt, x.rate.value).value;
              && Close(db, x).1 == Some(t)
              && Close(db, x).0 == Append(db, t).value.(
                   deliveries := db.deliveries + [Delivery(t.key, t.id)],
                   intervals := db.intervals[x.id := i.(closure := Some(Closure(StoredTime(x.stoppedAt), t.id)))])
  {
  }

  lemma DebitForIsDebit(id: string, i: Interval, stoppedAt: int, rate: Ratio)
    requires Proper(rate) && stoppedAt > i.startedAt && DebitFor(id, i, stoppedAt, rate).Ok?
    ensures var t := DebitFor(id, i, stoppedAt, rate).value;
            && t.id == DebitID(id) && t.key == DebitKey(id) && t.user == i.user
            && t.occurredAt == stoppedAt && t.createdAt == stoppedAt
            && IsDebitOf(StoredRow(t), id, i.(closure := Some(Closure(StoredTime(stoppedAt), t.id))))
  {
    hide Convert, DecimalSeconds, DebitID, DebitKey;
    var t := DebitFor(id, i, stoppedAt, rate).value;
    assert MeasuredUntil(StoredRow(t), i.(closure := Some(Closure(StoredTime(stoppedAt), t.id))), stoppedAt);
  }

  lemma CloseKeepsBooks(db: Books, x: CloseInput, i: Interval, t: Transaction, next: Books)
    requires Inv(db) && x.id in db.intervals && i == db.intervals[x.id] && i.closure.None?
    requires Append(db, t).Some? && !Delivered(db.deliveries, t.key, t.id)
    requires t.id == DebitID(x.id) && t.key == DebitKey(x.id)
    requires IsDebitOf(StoredRow(t), x.id, i.(closure := Some(Closure(StoredTime(x.stoppedAt), t.id))))
    requires next == Append(db, t).value.(
               deliveries := db.deliveries + [Delivery(t.key, t.id)],
               intervals := db.intervals[x.id := i.(closure := Some(Closure(StoredTime(x.stoppedAt), t.id)))])
    ensures Inv(next) && Extends(db, next)
  {
    hide DebitID, DebitKey, IsDebitOf, IsGrantOf, Owned, Paid, Distinct, Total;
    AppendKeepsBalance(db, t);
    assert Extends(db, next);
    forall k | 0 <= k < |next.ledger|
      ensures Owned(next, next.ledger[k])
    {
      if k < |db.ledger| {
        OwnedStays(db, next, next.ledger[k]);
      } else {
        OwnedByClose(next, x.id, StoredRow(t));
      }
    }
    forall id | id in next.intervals && next.intervals[id].closure.Some?
      ensures Paid(next, id)
    {
      if id == x.id {
        PaidByClose(next, id, StoredRow(t));
      } else {
        PaidStays(db, next, id);
      }
    }
    forall event | event in next.grants
      ensures exists k :: 0 <= k < |next.ledger| && IsGrantOf(next.ledger[k], event)
    {
      BookedStays(db, next, event);
    }
    DeliveriesExtend(db, next, x.id, t);
  }

  lemma OwnedByClose(next: Books, id: string, t: Transaction)
    requires id in next.intervals && IsDebitOf(t, id, next.intervals[id])
    ensures Owned(next, t)
  {
  }

  lemma PaidByClose(next: Books, id: string, t: Transaction)
    requires id in next.intervals && IsDebitOf(t, id, next.intervals[id])
    requires next.ledger != [] && next.ledger[|next.ledger| - 1] == t
    requires next.deliveries != [] && next.deliveries[|next.deliveries| - 1] == Delivery(DebitKey(id), DebitID(id))
    ensures Paid(next, id)
  {
  }

  lemma DeliveriesExtend(db: Books, next: Books, id: string, t: Transaction)
    requires DeliveriesArePaired(db) && Extends(db, next) && !Delivered(db.deliveries, t.key, t.id)
    requires next.deliveries == db.deliveries + [Delivery(t.key, t.id)]
    requires t.id == DebitID(id) && t.key == DebitKey(id) && id in next.intervals && next.intervals[id].closure.Some?
    ensures DeliveriesArePaired(next)
  {
  }

  lemma CloseKeepsInv(db: Books, x: CloseInput)
    requires Inv(db) && (x.rate.Some? ==> Proper(x.rate.value))
    ensures Inv(Close(db, x).0) && Extends(db, Close(db, x).0)
  {
    hide Inv, Append, Delivered, DebitFor, IsDebitOf, DebitID, DebitKey, Close;
    CloseChanges(db, x);
    if Close(db, x).0 != db {
      var i := db.intervals[x.id];
      DebitForIsDebit(x.id, i, x.stoppedAt, x.rate.value);
      var t := DebitFor(x.id, i, x.stoppedAt, x.rate.value).value;
      CloseKeepsBooks(db, x, i, t, Close(db, x).0);
    }
  }

  // Webhooks

  /** Registration touches only receipts and customers. */
  lemma RegisterIsBookless(db: Books, p: Projection)
    ensures Register(db, p).Some? ==>
              var r := Register(db, p).value;
              && r.ledger == db.ledger && r.balances == db.balances && r.intervals == db.intervals
              && r.deliveries == db.deliveries && r.grants == db.grants && r.receipts == db.receipts
              && forall u :: u in db.customers ==> u in r.customers && r.customers[u] == db.customers[u]
  {
  }

  lemma GrantKeepsBooks(db: Books, mid: Books, event: string, t: Transaction, next: Books)
    requires Inv(db) && Inv(mid) && Extends(db, mid) && event in mid.receipts
    requires Append(mid, t).Some? && IsGrantOf(t, event)
    requires next == Append(mid, t).value.(grants := mid.grants[event := t.id])
    ensures Inv(next) && Extends(db, next)
  {
    hide IsDebitOf, IsGrantOf, Owned, Paid, Balanced, Append, GrantKey, GrantID, DebitKey, DebitID, UsesKey, UsesID;
    AppendKeepsBalance(mid, t);
    AppendShape(mid, t);
    StoredGrant(t, event);
    SameBalance(Append(mid, t).value, next);
    assert Extends(mid, next);
    ExtendsCompose(db, mid, next);
    OwnedAfterGrant(mid, next, event, StoredRow(t));
    PaidAfterGrant(mid, next);
    BookedAfterGrant(mid, next, event, StoredRow(t));
  }

  lemma StoredGrant(t: Transaction, event: string)
    requires IsGrantOf(t, event)
    ensures IsGrantOf(StoredRow(t), event)
  {
  }

  lemma OwnedAfterGrant(mid: Books, next: Books, event: string, t: Transaction)
    requires LedgerIsOwned(mid) && Extends(mid, next) && next.ledger == mid.ledger + [t]
    requires event in next.grants && IsGrantOf(t, event)
    ensures LedgerIsOwned(next)
  {
    hide IsDebitOf, IsGrantOf, Owned;
    forall k | 0 <= k < |next.ledger|
      ensures Owned(next, next.ledger[k])
    {
      if k < |mid.ledger| {
        OwnedStays(mid, next, next.ledger[k]);
      } else {
        OwnedByGrant(next, event, t);
      }
    }
  }

  lemma PaidAfterGrant(mid: Books, next: Books)
    requires ClosedArePaid(mid) && Extends(mid, next) && next.intervals == mid.intervals
    ensures ClosedArePaid(next)
  {
    hide Paid;
    forall id | id in next.intervals && next.intervals[id].closure.Some?
      ensures Paid(next, id)
    {
      PaidStays(mid, next, id);
    }
  }

  lemma BookedAfterGrant(mid: Books, next: Books, event: string, t: Transaction)
    requires GrantsAreBooked(mid) && Extends(mid, next) && next.ledger == mid.ledger + [t]
    requires next.grants.Keys == mid.grants.Keys + {event} && event in next.receipts && IsGrantOf(t, event)
    ensures GrantsAreBooked(next)
  {
    hide IsGrantOf;
    forall other | other in next.grants
      ensures other in next.receipts && exists k :: 0 <= k < |next.ledger| && IsGrantOf(next.ledger[k], other)
    {
      if other == event {
        assert IsGrantOf(next.ledger[|next.ledger| - 1], event);
      } else {
        BookedStays(mid, next, other);
      }
    }
  }

  lemma SameBalance(a: Books, b: Books)
    requires Balanced(a) && a.ledger == b.ledger && a.balances == b.balances
    ensures Balanced(b)
  {
  }

  lemma AppendShape(db: Books, t: Transaction)
    requires Append(db, t).Some?
    ensures var next := Append(db, t).value;
            next == db.(ledger := db.ledger + [StoredRow(t)], balances := next.balances)
    ensures Append(db, t).value.balances.Keys == db.balances.Keys
  {
  }

  lemma OwnedByGrant(next: Books, event: string, t: Transaction)
    requires event in next.grants && IsGrantOf(t, event)
    ensures Owned(next, t)
  {
  }

  lemma RegistrationKeepsInv(db: Books, p: Projection)
    requires Inv(db) && p.event !in db.receipts
    requires Register(Noted(db, p), p).Some?
    ensures var r := Register(Noted(db, p), p).value;
            && Inv(r) && Extends(db, r) && p.event in r.receipts && r.grants == db.grants
  {
    hide Register, Distinct, Total, ClosedArePaid, LedgerIsOwned, GrantsAreBooked, DeliveriesArePaired, Extends;
    var noted := Noted(db, p);
    RegisterIsBookless(noted, p);
    BooklessKeepsInv(db, Register(noted, p).value);
  }

  lemma ProjectKeepsInv(db: Books, p: Projection, receivedAt: int)
    requires Inv(db) && (p.change.RecurringGrant? ==> InInt64(p.change.credits))
    ensures Inv(Project(db, p, receivedAt).0) && Extends(db, Project(db, p, receivedAt).0)
  {
    hide Inv, Append, Register, GrantID, GrantKey;
    var noted := Noted(db, p);
    var next := Project(db, p, receivedAt).0;
    if next != db {
      RegistrationKeepsInv(db, p);
      if p.change.RecurringGrant? {
        var mid := Register(noted, p).value;
        var t := NewGrant(GrantID(p.event), p.user, p.change.credits, GrantKey(p.event), p.change.creditedAt, receivedAt).value;
        GrantKeepsBooks(db, mid, p.event, t, next);
      }
    }
  }

  // Runs

  lemma StepKeepsInv(db: Books, e: Event)
    requires Inv(db) && ValidEvent(e)
    ensures Inv(Step(db, e)) && Extends(db, Step(db, e))
  {
    hide Inv, Extends, Open, Close, Project, AddUser;
    match e
    case NewUser(u) => AddUserKeepsInv(db, u);
    case Opening(x) => OpenKeepsInv(db, x);
    case Closing(x) => CloseKeepsInv(db, x);
    case Webhook(p, at) => ProjectKeepsInv(db, p, at);
  }

  lemma ExtendsCompose(a: Books, b: Books, c: Books)
    requires Extends(a, b) && Extends(b, c)
    ensures Extends(a, c)
  {
  }

  lemma {:induction false} RunsKeepInv(db: Books, es: seq<Event>)
    requires Inv(db) && ValidEvents(es)
    ensures Inv(Run(db, es)) && Extends(db, Run(db, es))
    decreases |es|
  {
    hide Inv, Step;
    if es == [] {
    } else {
      StepKeepsInv(db, es[0]);
      RunsKeepInv(Step(db, es[0]), es[1..]);
      ExtendsCompose(db, Step(db, es[0]), Run(db, es));
    }
  }

  lemma EmptyKeepsInv()
    ensures Inv(EMPTY)
  {
  }

  // What the invariant means

  ghost predicate Reachable(db: Books) {
    exists es :: ValidEvents(es) && db == Run(EMPTY, es)
  }

  lemma ReachableKeepsInv(db: Books)
    requires Reachable(db)
    ensures Inv(db)
  {
    hide Inv, Run;
    var es :| ValidEvents(es) && db == Run(EMPTY, es);
    EmptyKeepsInv();
    RunsKeepInv(EMPTY, es);
  }

  /** In every reachable state each balance is the sum of its user's transactions. */
  lemma BalancesAreSums(db: Books, user: string)
    requires Reachable(db) && user in db.balances
    ensures db.balances[user] == Total(db.ledger, user) && InInt64(db.balances[user])
  {
    hide Reachable, Total, Distinct;
    ReachableKeepsInv(db);
  }

  ghost predicate BookedAtMostOnce(db: Books, key: string) {
    forall j, k :: 0 <= j < k < |db.ledger| ==> !(db.ledger[j].key == key && db.ledger[k].key == key)
  }

  ghost predicate DeliveredAtMostOnce(db: Books, externalId: string) {
    forall j, k :: 0 <= j < k < |db.deliveries| ==>
      !(db.deliveries[j].externalId == externalId && db.deliveries[k].externalId == externalId)
  }

  lemma InvMeansOnce(db: Books, key: string)
    requires Inv(db)
    ensures BookedAtMostOnce(db, key) && DeliveredAtMostOnce(db, key)
  {
  }

  /** Exactly one debit and one delivery for a closed interval, none for an open one. */
  lemma IntervalsAreBilledOnce(db: Books, id: string)
    requires Reachable(db) && id in db.intervals
    ensures db.intervals[id].closure.Some? <==> UsesKey(db.ledger, DebitKey(id))
    ensures db.intervals[id].closure.Some? <==> exists d :: d in db.deliveries && d.externalId == DebitKey(id)
    ensures BookedAtMostOnce(db, DebitKey(id)) && DeliveredAtMostOnce(db, DebitKey(id))
  {
    hide Reachable, DebitKey, DebitID, GrantKey, GrantID;
    hide Inv, BookedAtMostOnce, DeliveredAtMostOnce;
    ReachableKeepsInv(db);
    InvMeansOnce(db, DebitKey(id));
    BilledExactlyWhenClosed(db, id);
  }

  lemma {:induction false} BilledExactlyWhenClosed(db: Books, id: string)
    requires Inv(db) && id in db.intervals
    ensures db.intervals[id].closure.Some? <==> UsesKey(db.ledger, DebitKey(id))
    ensures db.intervals[id].closure.Some? <==> exists d :: d in db.deliveries && d.externalId == DebitKey(id)
  {
    hide DebitKey, DebitID, GrantKey, GrantID, Distinct, Total;
    if UsesKey(db.ledger, DebitKey(id)) {
      var k :| 0 <= k < |db.ledger| && db.ledger[k].key == DebitKey(id);
      DebitKeyMeansClosed(db, id, db.ledger[k]);
    }
    if d :| d in db.deliveries && d.externalId == DebitKey(id) {
      var other :| other in db.intervals && db.intervals[other].closure.Some? && d == Delivery(DebitKey(other), DebitID(other));
      DebitKeyInjective(id, other);
    }
    if db.intervals[id].closure.Some? {
      assert Paid(db, id);
      var k :| 0 <= k < |db.ledger| && IsDebitOf(db.ledger[k], id, db.intervals[id]);
      assert db.ledger[k].key == DebitKey(id);
    }
  }

  lemma DebitKeyMeansClosed(db: Books, id: string, t: Transaction)
    requires Owned(db, t) && t.key == DebitKey(id) && id in db.intervals
    ensures IsDebitOf(t, id, db.intervals[id])
  {
    hide DebitKey, DebitID, GrantKey, GrantID;
    if other :| other in db.intervals && IsDebitOf(t, other, db.intervals[other]) {
      DebitKeyInjective(id, other);
    } else {
      var event :| event in db.grants && IsGrantOf(t, event);
      KeysAreApart(id, event);
    }
  }

  /** An event's grant is in the ledger at most once, and only if the event was received. */
  lemma EventsGrantOnce(db: Books, event: string)
    requires Reachable(db)
    ensures event in db.grants <==> UsesKey(db.ledger, GrantKey(event))
    ensures event in db.grants ==> event in db.receipts
    ensures BookedAtMostOnce(db, GrantKey(event))
  {
    hide Reachable, Inv, BookedAtMostOnce, DeliveredAtMostOnce;
    ReachableKeepsInv(db);
    InvMeansOnce(db, GrantKey(event));
    GrantedExactlyWhenBooked(db, event);
  }

  lemma GrantedExactlyWhenBooked(db: Books, event: string)
    requires Inv(db)
    ensures event in db.grants <==> UsesKey(db.ledger, GrantKey(event))
    ensures event in db.grants ==> event in db.receipts
  {
    hide DebitKey, DebitID, GrantKey, GrantID, Total, Distinct, Owned;
    if UsesKey(db.ledger, GrantKey(event)) {
      var k :| 0 <= k < |db.ledger| && db.ledger[k].key == GrantKey(event);
      GrantKeyMeansGranted(db, event, db.ledger[k]);
    }
    if event in db.grants {
      var k :| 0 <= k < |db.ledger| && IsGrantOf(db.ledger[k], event);
      assert db.ledger[k].key == GrantKey(event);
    }
  }

  lemma GrantKeyMeansGranted(db: Books, event: string, t: Transaction)
    requires Owned(db, t) && t.key == GrantKey(event)
    ensures event in db.grants
  {
    hide DebitKey, DebitID, GrantKey, GrantID;
    if id :| id in db.intervals && IsDebitOf(t, id, db.intervals[id]) {
      KeysAreApart(id, event);
    } else {
      var other :| other in db.grants && IsGrantOf(t, other);
      GrantKeyInjective(event, other);
    }
  }

  // Repeats

  lemma {:induction false} FindsByID(ledger: seq<Transaction>, k: nat)
    requires Distinct(ledger) && k < |ledger|
    ensures FindByID(ledger, ledger[k].id) == Some(ledger[k])
    decreases |ledger|
  {
    if k < |ledger| - 1 {
      FindsByID(ledger[..|ledger| - 1], k);
    }
  }

  /** Closing again, whatever happened in between and whatever stop time is given, changes
      nothing and returns the first close's debit as it is stored, unless that is the zero
      time; so it returns what the first close returned exactly when that stop time was a
      whole microsecond. */
  lemma ReCloseReplays(db: Books, x: CloseInput, es: seq<Event>, again: CloseInput)
    requires Reachable(db) && ValidEvents(es) && ValidEvent(Closing(x)) && ValidEvent(Closing(again))
    requires Close(db, x).0 != db
    requires again.id == x.id && again.stoppedAt != 0 && again.knownSource
    ensures Close(db, x).1.Some?
    ensures var later, first := Run(Close(db, x).0, es), Close(db, x).1;
            && Close(later, again) == (later, if StoredTime(x.stoppedAt) == 0 then None else Some(StoredRow(first.value)))
            && (Close(later, again).1 == first <==> x.stoppedAt % MICROSECOND == 0)
  {
    hide Reachable, Run, DebitFor, DebitID, DebitKey, Append, Delivered, Total, Inv, Close, Load, StoredTime;
    ReachableKeepsInv(db);
    CloseKeepsInv(db, x);
    CloseChanges(db, x);
    var first := Close(db, x).0;
    RunsKeepInv(first, es);
    var t := DebitFor(x.id, db.intervals[x.id], x.stoppedAt, x.rate.value).value;
    DebitForIsDebit(x.id, db.intervals[x.id], x.stoppedAt, x.rate.value);
    AppendEnds(db, t);
    InvMeansDistinct(Run(first, es));
    ClosedStaysLoaded(first, Run(first, es), x.id, StoredRow(t));
    ReCloseLoads(Run(first, es), again, StoredRow(t));
    assert StoredRow(t).occurredAt == StoredTime(x.stoppedAt);
    assert x.stoppedAt % MICROSECOND == 0 ==> StoredRow(t) == t;
  }

  lemma InvMeansDistinct(db: Books)
    requires Inv(db)
    ensures Distinct(db.ledger)
  {
  }

  lemma ReCloseLoads(later: Books, again: CloseInput, row: Transaction)
    requires ValidEvent(Closing(again)) && again.id != "" && again.stoppedAt != 0 && again.knownSource
    requires again.id in later.intervals && later.intervals[again.id].closure.Some?
    requires FindByID(later.ledger, later.intervals[again.id].closure.value.transaction) == Some(row)
    ensures Close(later, again) == (later, if row.occurredAt == 0 || row.createdAt == 0 then None else Some(row))
  {
  }

  /** The last row of the ledger closed an interval; it is found under that closure ever after. */
  lemma ClosedStaysLoaded(first: Books, later: Books, id: string, row: Transaction)
    requires Distinct(later.ledger) && Extends(first, later) && id in first.intervals && first.intervals[id].closure.Some?
    requires first.ledger != [] && first.ledger[|first.ledger| - 1] == row
    requires first.intervals[id].closure.value.transaction == row.id
    ensures id in later.intervals && later.intervals[id].closure == first.intervals[id].closure
    ensures FindByID(later.ledger, row.id) == Some(row)
  {
    hide FindByID, Distinct;
    assert later.ledger[|first.ledger| - 1] == row;
    FindsByID(later.ledger, |first.ledger| - 1);
  }

  lemma AppendEnds(db: Books, t: Transaction)
    requires Append(db, t).Some?
    ensures Append(db, t).value.ledger == db.ledger + [StoredRow(t)]
  {
  }

  /** Redelivering a received event, whatever happened in between, changes nothing: it is a
      repeat if type and payload agree and the time agrees with the stored one, and is refused
      otherwise. The same delivery once more is a repeat exactly when its time is a whole
      microsecond. */
  lemma {:induction false} RedeliveryChangesNothing(db: Books, p: Projection, receivedAt: int, es: seq<Event>, again: Projection, at: int)
    requires Reachable(db) && ValidEvents(es) && ValidEvent(Webhook(p, receivedAt)) && ValidEvent(Webhook(again, at))
    requires Project(db, p, receivedAt).1.Granted? || Project(db, p, receivedAt).1.Updated?
    requires again.event == p.event && at != 0
    ensures var later := Run(Project(db, p, receivedAt).0, es);
            && Project(later, again, at).0 == later
            && Project(later, again, at).1 ==
                 (if (again.eventType, again.payload, again.occurredAt) == (p.eventType, p.payload, StoredTime(p.occurredAt))
                  then Repeated else Refused)
            && (again == p ==> (Project(later, again, at).1.Repeated? <==> p.occurredAt % MICROSECOND == 0))
  {
    hide Reachable, Run, Append, GrantID, GrantKey, NewGrant;
    ReachableKeepsInv(db);
    ProjectKeepsInv(db, p, receivedAt);
    hide Inv;
    RegisterIsBookless(Noted(db, p), p);
    var first := Project(db, p, receivedAt).0;
    var receipt := Receipt(p.eventType, p.payload, StoredTime(p.occurredAt));
    assert p.event in first.receipts && first.receipts[p.event] == receipt by {
      if p.change.RecurringGrant? {
        AppendKeepsReceipts(Register(Noted(db, p), p).value,
                            NewGrant(GrantID(p.event), p.user, p.change.credits, GrantKey(p.event), p.change.creditedAt, receivedAt).value);
      }
    }
    RunsKeepInv(first, es);
  }

  lemma AppendKeepsReceipts(db: Books, t: Transaction)
    ensures Append(db, t).Some? ==> Append(db, t).value.receipts == db.receipts
  {
  }

  /** The debit of a close is rate times some time exactly when that is the saturated time since
      the stored start. */
  lemma {:induction false} CloseIsExact(db: Books, x: CloseInput, time: int)
    requires ValidEvent(Closing(x)) && Close(db, x).0 != db && x.id in db.intervals
    ensures x.rate.Some? && Close(db, x).1.Some? && x.stoppedAt > db.intervals[x.id].startedAt
    ensures -Close(db, x).1.value.credits * (NANOSECONDS * x.rate.value.den) == x.rate.value.num * time
         <==> time == Elapsed(db.intervals[x.id].startedAt, x.stoppedAt)
  {
    hide DebitID, DebitKey, Append, Delivered, Close, DecimalSeconds;
    CloseChanges(db, x);
    var i, rate := db.intervals[x.id], x.rate.value;
    var t := DebitFor(x.id, i, x.stoppedAt, rate).value;
    var elapsed := Elapsed(i.startedAt, x.stoppedAt);
    assert Convert(rate, DecimalSeconds(elapsed)) == Ok(-t.credits) && t.credits < 0;
    DebitIsRateTimesElapsed(rate, elapsed, -t.credits);
    OnlyOneElapsed(-t.credits, rate, elapsed, time);
  }

  /** A close that changes anything debits rate times the seconds since the stored start exactly
      when that time fits a Go duration; beyond that the duration saturates. */
  lemma CloseDebitsRateTimesElapsed(db: Books, x: CloseInput)
    requires ValidEvent(Closing(x)) && Close(db, x).0 != db && x.id in db.intervals
    ensures x.rate.Some? && Close(db, x).1.Some?
    ensures -Close(db, x).1.value.credits * (NANOSECONDS * x.rate.value.den)
         == x.rate.value.num * (x.stoppedAt - db.intervals[x.id].startedAt)
         <==> InInt64(x.stoppedAt - db.intervals[x.id].startedAt)
  {
    hide Close;
    CloseIsExact(db, x, x.stoppedAt - db.intervals[x.id].startedAt);
  }

  lemma OnlyOneElapsed(credits: nat, rate: Ratio, elapsed: int, other: int)
    requires credits > 0 && Proper(rate) && credits * (NANOSECONDS * rate.den) == rate.num * elapsed
    ensures credits * (NANOSECONDS * rate.den) == rate.num * other <==> elapsed == other
  {
    PositiveProduct(credits, NANOSECONDS * rate.den);
    if credits * (NANOSECONDS * rate.den) == rate.num * other {
      assert rate.num > 0 && elapsed * rate.num == other * rate.num;
      CancelFactor(elapsed, other, rate.num);
    }
  }

  // Open intervals

  ghost predicate OneOpen(db: Books) {
    forall a, b :: a in db.intervals && b in db.intervals && a != b ==>
      !BothOpen(db.intervals[a], db.intervals[b])
  }

  predicate BothOpen(a: Interval, b: Interval) {
    a.closure.None? && b.closure.None? && (a.environment == b.environment || a.runtime == b.runtime)
  }

  lemma StepKeepsOneOpen(db: Books, e: Event)
    requires OneOpen(db) && ValidEvent(e)
    ensures OneOpen(Step(db, e))
  {
    hide Append, DebitFor, NewGrant, FindByID, Delivered, GrantID, GrantKey, DebitID, DebitKey, Register;
    match e
    case NewUser(u) =>
    case Opening(x) =>
    case Closing(x) => CloseChanges(db, x);
      if Close(db, x).0 != db {
        AppendShape(db, DebitFor(x.id, db.intervals[x.id], x.stoppedAt, x.rate.value).value);
      }
    case Webhook(p, at) => ProjectKeepsIntervals(db, p, at);
  }

  lemma ProjectKeepsIntervals(db: Books, p: Projection, at: int)
    requires ValidEvent(Webhook(p, at))
    ensures Project(db, p, at).0.intervals == db.intervals
  {
    hide NewGrant, GrantID, GrantKey;
  }

  /** Over every run no Environment and no Runtime has two intervals open at once. */
  lemma {:induction false} OpenIntervalsExclude(db: Books, es: seq<Event>)
    requires OneOpen(db) && ValidEvents(es)
    ensures OneOpen(Run(db, es))
    decreases |es|
  {
    hide OneOpen, Step;
    if es == [] {
    } else {
      StepKeepsOneOpen(db, es[0]);
      OpenIntervalsExclude(Step(db, es[0]), es[1..]);
    }
  }
}
