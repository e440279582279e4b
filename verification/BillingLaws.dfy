/** What billing writes down: whose time a debit measures, what a grant carries, and which customer
    a user has. */
module BillingLaws {
  import opened Text
  import opened Times
  import opened Decimals
  import opened Ledger
  import opened Billing
  import opened BillingRuns
  import opened BillingIdentities

  // Debits

  lemma {:induction false} FoundIsBooked(ledger: seq<Transaction>, id: string)
    requires FindByID(ledger, id).Some?
    ensures FindByID(ledger, id).value in ledger && FindByID(ledger, id).value.id == id
    decreases |ledger|
  {
    var last := |ledger| - 1;
    if ledger[last].id != id {
      FoundIsBooked(ledger[..last], id);
    }
  }

  /** In every reachable state a closed interval has one debit, of its own user, under its own names,
      for its own Environment and Runtime; it takes credits away, carries the stored end of the
      interval, and measures the printed time from the start to the stop that was so stored. */
  lemma DebitsMeasureTheirInterval(db: Books, id: string)
    requires Reachable(db) && id in db.intervals && db.intervals[id].closure.Some?
    ensures exists t <- db.ledger :: DebitOfInterval(t, id, db.intervals[id])
    ensures forall t <- db.ledger :: t.id == db.intervals[id].closure.value.transaction ==> DebitOfInterval(t, id, db.intervals[id])
  {
    hide Reachable, Balanced, LedgerIsOwned, GrantsAreBooked, DeliveriesArePaired, DecimalSeconds, StoredTime;
    ReachableKeepsInv(db);
    assert Paid(db, id);
    var i := db.intervals[id];
    var k :| 0 <= k < |db.ledger| && IsDebitOf(db.ledger[k], id, i);
    DebitIsRight(db.ledger[k], id, i);
    assert db.ledger[k] in db.ledger;
    forall t <- db.ledger | t.id == i.closure.value.transaction
      ensures DebitOfInterval(t, id, i)
    {
      SameIDSameTransaction(db, t, db.ledger[k]);
    }
  }

  /** Written out, with the time saturated as a Go duration and at most a microsecond lost in storing. */
  ghost predicate DebitOfInterval(t: Transaction, id: string, i: Interval) {
    && t.id == "credit-transaction:" + id && t.key == "compute:" + id && t.kind == Debit
    && t.user == i.user && t.credits < 0
    && i.closure.Some? && t.occurredAt == t.createdAt == i.closure.value.endedAt && t.id == i.closure.value.transaction
    && t.usage.Some? && t.usage.value.environment == i.environment && t.usage.value.resource == i.runtime
    && exists time: nat :: TimeUntilEnd(i, time) && t.usage.value.quantity == DecimalSeconds(time)
  }

  predicate TimeUntilEnd(i: Interval, time: nat)
    requires i.closure.Some?
  {
    || (time < MAX_INT64 && i.closure.value.endedAt <= i.startedAt + time < i.closure.value.endedAt + 1_000)
    || (time == MAX_INT64 && i.closure.value.endedAt + 1_000 > i.startedAt + time)
  }

  lemma DebitIsRight(t: Transaction, id: string, i: Interval)
    requires IsDebitOf(t, id, i)
    ensures DebitOfInterval(t, id, i)
  {
    hide DecimalSeconds;
    var stop :| MeasuredUntil(t, i, stop);
    var time: nat := Elapsed(i.startedAt, stop);
    assert TimeUntilEnd(i, time) && t.usage.value.quantity == DecimalSeconds(time);
  }

  lemma SameIDSameTransaction(db: Books, a: Transaction, b: Transaction)
    requires Balanced(db) && a in db.ledger && b in db.ledger && a.id == b.id
    ensures a == b
  {
  }

  /** What a close books and returns: the debit of its interval under its own names, for its own
      Environment and Runtime, over the time from the stored start to the observed stop. */
  lemma CloseReturnsItsDebit(db: Books, x: CloseInput)
    requires ValidEvent(Closing(x)) && x.id in db.intervals && db.intervals[x.id].closure.None? && Close(db, x).1.Some?
    ensures var i, t, next := db.intervals[x.id], Close(db, x).1.value, Close(db, x).0;
            var time := if x.stoppedAt - i.startedAt > MAX_INT64 then MAX_INT64 else x.stoppedAt - i.startedAt;
            && x.stoppedAt > i.startedAt && x.rate.Some?
            && t.id == "credit-transaction:" + x.id && t.key == "compute:" + x.id && t.kind == Debit && t.user == i.user
            && t.usage == Some(Usage(i.environment, i.runtime, DecimalSeconds(time)))
            && t.occurredAt == t.createdAt == x.stoppedAt
            && next.ledger == db.ledger + [t.(occurredAt := StoredTime(x.stoppedAt), createdAt := StoredTime(x.stoppedAt))]
            && next.balances == db.balances[i.user := (if i.user in db.balances then db.balances[i.user] else 0) + t.credits]
            && next.deliveries == db.deliveries + [Delivery(t.key, t.id)]
            && next.intervals == db.intervals[x.id := i.(closure := Some(Closure(StoredTime(x.stoppedAt), t.id)))]
            && (next.receipts, next.customers, next.grants) == (db.receipts, db.customers, db.grants)
  {
    hide Convert, DecimalSeconds;
  }

  /** Whatever a close or a re-close of an interval returns, it is for that interval's user,
      Environment and Runtime, under that interval's names. */
  lemma ReturnedDebitIsOfTheInterval(db: Books, x: CloseInput)
    requires Reachable(db) && ValidEvent(Closing(x)) && Close(db, x).1.Some?
    ensures x.id in db.intervals
    ensures var i, t := db.intervals[x.id], Close(db, x).1.value;
            && t.id == "credit-transaction:" + x.id && t.key == "compute:" + x.id && t.kind == Debit && t.user == i.user
            && t.usage.Some? && t.usage.value.environment == i.environment && t.usage.value.resource == i.runtime
            && (i.closure.Some? ==> t in db.ledger && DebitOfInterval(t, x.id, i) && Close(db, x).0 == db)
  {
    hide Reachable, DecimalSeconds, Convert, DebitOfInterval;
    var i := db.intervals[x.id];
    if i.closure.Some? {
      FoundIsBooked(db.ledger, i.closure.value.transaction);
      DebitsMeasureTheirInterval(db, x.id);
      var t := Close(db, x).1.value;
      DebitNamesItsInterval(t, x.id, i);
    } else {
      CloseReturnsItsDebit(db, x);
    }
  }

  lemma DebitNamesItsInterval(t: Transaction, id: string, i: Interval)
    requires DebitOfInterval(t, id, i)
    ensures t.id == "credit-transaction:" + id && t.key == "compute:" + id && t.kind == Debit && t.user == i.user
    ensures t.usage.Some? && t.usage.value.environment == i.environment && t.usage.value.resource == i.runtime
  {
  }

  // Opens and closes

  /** An open succeeds exactly on a complete request for the current Runtime that either repeats the
      stored interval, open or closed, or is for a known user while neither its Environment nor its
      Runtime has another interval open; it adds at most that one interval. */
  lemma OpensExactly(db: Books, x: OpenInput)
    ensures Open(db, x).1.Some? <==>
              && x.id != "" && x.user != "" && x.environment != "" && x.runtime != "" && x.startedAt != 0 && x.current
              && if x.id in db.intervals then
                   var i := db.intervals[x.id];
                   i.user == x.user && i.environment == x.environment && i.runtime == x.runtime && i.startedAt == x.startedAt
                 else
                   && x.user in db.balances
                   && forall id :: id in db.intervals && db.intervals[id].closure.None? ==>
                        db.intervals[id].environment != x.environment && db.intervals[id].runtime != x.runtime
    ensures Open(db, x).1.Some? ==>
              && x.id in Open(db, x).0.intervals && Open(db, x).1.value == Open(db, x).0.intervals[x.id]
              && if x.id in db.intervals then Open(db, x).0 == db
                 else Open(db, x).0 == db.(intervals :=
                        db.intervals[x.id := Interval(x.user, x.environment, x.runtime, StoredTime(x.startedAt), None)])
    ensures Open(db, x).1.None? ==> Open(db, x).0 == db
  {
  }

  ghost predicate UsersAreKnown(db: Books) {
    forall id :: id in db.intervals ==> db.intervals[id].user in db.balances
  }

  lemma StepKeepsUsersKnown(db: Books, e: Event)
    requires UsersAreKnown(db) && ValidEvent(e)
    ensures UsersAreKnown(Step(db, e))
  {
    hide DebitFor, NewGrant, Delivered, DebitID, DebitKey, GrantID, GrantKey, UsesID, UsesKey, FindByID;
  }

  lemma {:induction false} RunsKeepUsersKnown(db: Books, es: seq<Event>)
    requires UsersAreKnown(db) && ValidEvents(es)
    ensures UsersAreKnown(Run(db, es))
    decreases |es|
  {
    hide UsersAreKnown, Step;
    if es != [] {
      StepKeepsUsersKnown(db, es[0]);
      RunsKeepUsersKnown(Step(db, es[0]), es[1..]);
    }
  }

  lemma IntervalUserIsKnown(db: Books, id: string)
    requires Reachable(db) && id in db.intervals
    ensures db.intervals[id].user in db.balances
  {
    hide Run;
    var es :| ValidEvents(es) && db == Run(EMPTY, es);
    RunsKeepUsersKnown(EMPTY, es);
  }

  /** The rate makes this many whole credits of the time to be billed. */
  predicate Bills(i: Interval, x: CloseInput, credits: int) {
    && x.rate.Some? && 0 < credits <= MAX_INT64
    && credits * (1_000_000_000 * x.rate.value.den) ==
         x.rate.value.num * (if x.stoppedAt - i.startedAt > MAX_INT64 then MAX_INT64 else x.stoppedAt - i.startedAt)
  }

  /** In every reachable state an open interval is closed exactly by a complete request, with a stop
      stored later than the start, at a rate that makes whole credits of the time, which the balance
      can bear, unless the interval is named after a granted event. */
  lemma ClosesExactly(db: Books, x: CloseInput)
    requires Reachable(db) && ValidEvent(Closing(x)) && x.id in db.intervals && db.intervals[x.id].closure.None?
    ensures db.intervals[x.id].user in db.balances
    ensures var i := db.intervals[x.id];
            Close(db, x).1.Some? <==>
              && x.id != "" && x.stoppedAt != 0 && x.knownSource && StoredTime(x.stoppedAt) > i.startedAt
              && i.user != "" && i.environment != "" && i.runtime != ""
              && (forall event :: event in db.grants ==> x.id != "polar:" + event)
              && exists credits :: Bills(i, x, credits) && InInt64(db.balances[i.user] - credits)
  {
    hide Reachable, Inv, Close, NamedAfterGrant, DecimalSeconds;
    ReachableKeepsInv(db);
    IntervalUserIsKnown(db, x.id);
    var i := db.intervals[x.id];
    NamedMeans(db, x.id);
    if Closable(db, x) {
      CloseIsRefusedExactlyOnGrantedNames(db, x);
    }
    ClosableExactly(db, x);
    CloseNeedsClosable(db, x);
  }

  lemma NamedMeans(db: Books, id: string)
    ensures NamedAfterGrant(db, id) <==> !(forall event :: event in db.grants ==> id != "polar:" + event)
  {
  }

  lemma CloseNeedsClosable(db: Books, x: CloseInput)
    requires ValidEvent(Closing(x)) && x.id in db.intervals && db.intervals[x.id].closure.None?
    ensures Close(db, x).1.Some? ==> Closable(db, x)
  {
    hide DebitFor, Delivered, UsesID, UsesKey, DebitID, DebitKey;
  }

  lemma ClosableExactly(db: Books, x: CloseInput)
    requires ValidEvent(Closing(x)) && x.id in db.intervals && db.intervals[x.id].closure.None?
    requires db.intervals[x.id].user in db.balances
    ensures var i := db.intervals[x.id];
            Closable(db, x) <==>
              && x.id != "" && x.stoppedAt != 0 && x.knownSource && x.stoppedAt > i.startedAt && x.rate.Some?
              && i.user != "" && i.environment != "" && i.runtime != ""
              && exists credits :: Bills(i, x, credits) && InInt64(db.balances[i.user] - credits)
  {
    hide DebitFor, DecimalSeconds, InInt64, Bills;
    var i := db.intervals[x.id];
    if x.rate.Some? && x.stoppedAt > i.startedAt && x.stoppedAt != 0 {
      DebitBills(x.id, i, x);
    }
  }

  /** The debit is accepted exactly for what the rate bills. */
  lemma DebitBills(id: string, i: Interval, x: CloseInput)
    requires x.rate.Some? && Proper(x.rate.value) && x.stoppedAt > i.startedAt && x.stoppedAt != 0
    ensures var debit := DebitFor(id, i, x.stoppedAt, x.rate.value);
            && (debit.Ok? <==> i.user != "" && i.environment != "" && i.runtime != "" && exists credits :: Bills(i, x, credits))
            && (debit.Ok? ==>
                  && debit.value.user == i.user
                  && forall credits :: Bills(i, x, credits) <==> credits == -debit.value.credits)
  {
    var debit := DebitFor(id, i, x.stoppedAt, x.rate.value);
    var time: nat := Elapsed(i.startedAt, x.stoppedAt);
    if credits :| Bills(i, x, credits) && i.user != "" && i.environment != "" && i.runtime != "" {
      WholeDebit(id, i, x.stoppedAt, x.rate.value, credits);
    }
    if debit.Ok? {
      hide DecimalSeconds, Convert;
      assert Convert(x.rate.value, DecimalSeconds(time)) == Ok(-debit.value.credits);
      forall credits
        ensures Bills(i, x, credits) <==> credits == -debit.value.credits
      {
        DebitIsRateTimesElapsed(x.rate.value, time, credits);
      }
      assert Bills(i, x, -debit.value.credits);
      assert debit.value.usage == Some(Usage(i.environment, i.runtime, DecimalSeconds(time)));
    }
  }

  // Deliveries

  /** The customer of a delivery is acceptable: the user's own first one, or for a user who has none
      a customer nobody has. */
  predicate CustomerFits(db: Books, p: Projection) {
    if p.user in db.customers then db.customers[p.user] == p.customer
    else p.user in db.balances && forall u :: u in db.customers ==> db.customers[u] != p.customer
  }

  /** A delivery not received before is applied exactly when it is complete, its customer fits, and
      its subscription is accepted or its grant can be booked. */
  lemma AppliesExactly(db: Books, p: Projection, receivedAt: int)
    requires ValidEvent(Webhook(p, receivedAt)) && p.event !in db.receipts
    ensures !Project(db, p, receivedAt).1.Refused? <==>
              && receivedAt != 0 && p.event != "" && p.eventType != "" && p.occurredAt != 0 && p.user != "" && p.customer != ""
              && CustomerFits(db, p)
              && (p.change.Subscription? ==> p.change.accepted)
              && (p.change.RecurringGrant? ==>
                    && p.change.credits > 0 && p.change.creditedAt != 0 && p.change.creditedAt <= receivedAt && p.change.recorded
                    && p.user in db.balances && InInt64(db.balances[p.user] + p.change.credits) && p.event !in db.grants
                    && forall t <- db.ledger ::
                         t.id != "credit-transaction:polar:" + p.event && t.key != "polar-webhook:" + p.event)
    ensures Project(db, p, receivedAt).1.Refused? ==> Project(db, p, receivedAt).0 == db
  {
    ValuesAreCustomers(db, p);
    assert GrantID(p.event) == "credit-transaction:polar:" + p.event && GrantID(p.event) != "";
    assert GrantKey(p.event) == "polar-webhook:" + p.event && GrantKey(p.event) != "";
    NamesAreFree(db.ledger, GrantID(p.event), GrantKey(p.event));
    hide GrantID, GrantKey, UsesID, UsesKey;
  }

  lemma ValuesAreCustomers(db: Books, p: Projection)
    ensures p.customer in db.customers.Values <==> exists u :: u in db.customers && db.customers[u] == p.customer
  {
  }

  lemma NamesAreFree(ledger: seq<Transaction>, id: string, key: string)
    ensures !UsesID(ledger, id) && !UsesKey(ledger, key) <==> forall t <- ledger :: t.id != id && t.key != key
  {
    if (forall t <- ledger :: t.id != id && t.key != key) {
      assert forall i :: 0 <= i < |ledger| ==> ledger[i] in ledger;
    }
  }

  /** What an applied delivery leaves: its receipt, its customer, and for a grant one transaction
      with just the credits, the user and the times that were delivered. */
  lemma AppliedDeliveryIsWrittenDown(db: Books, p: Projection, receivedAt: int)
    requires ValidEvent(Webhook(p, receivedAt)) && p.event !in db.receipts && !Project(db, p, receivedAt).1.Refused?
    ensures var next := Project(db, p, receivedAt).0;
            && next.receipts == db.receipts[p.event := Receipt(p.eventType, p.payload, StoredTime(p.occurredAt))]
            && next.customers == db.customers[p.user := p.customer]
            && next.intervals == db.intervals && next.deliveries == db.deliveries
            && (p.change.Subscription? ==>
                  && Project(db, p, receivedAt).1 == Updated
                  && (next.ledger, next.balances, next.grants) == (db.ledger, db.balances, db.grants))
            && (p.change.RecurringGrant? ==>
                  var t := Transaction("credit-transaction:polar:" + p.event, p.user, Grant, p.change.credits,
                                       "polar-webhook:" + p.event, None, p.change.creditedAt, receivedAt);
                  && Project(db, p, receivedAt).1 == Granted(t) && p.user in db.balances
                  && next.ledger == db.ledger + [t.(occurredAt := StoredTime(p.change.creditedAt), createdAt := StoredTime(receivedAt))]
                  && next.balances == db.balances[p.user := db.balances[p.user] + p.change.credits]
                  && next.grants == db.grants[p.event := t.id])
  {
    hide UsesID, UsesKey;
    if p.user in db.customers {
      assert db.customers == db.customers[p.user := p.customer];
    }
  }

  // Customers

  /** No two users share a customer. */
  ghost predicate CustomersApart(db: Books) {
    forall a, b :: a in db.customers && b in db.customers && a != b ==> db.customers[a] != db.customers[b]
  }

  lemma StepKeepsCustomersApart(db: Books, e: Event)
    requires CustomersApart(db) && ValidEvent(e)
    ensures CustomersApart(Step(db, e))
  {
    hide DebitFor, NewGrant, Delivered, DebitID, DebitKey, GrantID, GrantKey, UsesID, UsesKey, FindByID;
  }

  lemma {:induction false} RunsKeepCustomersApart(db: Books, es: seq<Event>)
    requires CustomersApart(db) && ValidEvents(es)
    ensures CustomersApart(Run(db, es))
    decreases |es|
  {
    hide CustomersApart, Step;
    if es != [] {
      StepKeepsCustomersApart(db, es[0]);
      RunsKeepCustomersApart(Step(db, es[0]), es[1..]);
    }
  }

  /** Over every run a user keeps the first customer it was given, no two users ever share one, and a
      delivery that names another customer for the user, or the customer of another user, is refused
      and changes nothing. */
  lemma {:induction false} CustomersAreKeptApart(db: Books, es: seq<Event>, user: string)
    requires Reachable(db) && ValidEvents(es) && user in db.customers
    ensures var later := Run(db, es);
            && user in later.customers && later.customers[user] == db.customers[user]
            && (forall other :: other in later.customers && other != user ==> later.customers[other] != db.customers[user])
            && forall p: Projection, at: int ::
                 ValidEvent(Webhook(p, at)) && p.event !in later.receipts
                 && ((p.user == user && p.customer != db.customers[user]) || (p.user != user && p.customer == db.customers[user]))
                 ==> Project(later, p, at) == (later, Projected.Refused)
  {
    hide Inv, Run, Project;
    var start :| ValidEvents(start) && db == Run(EMPTY, start);
    ReachableKeepsInv(db);
    RunsKeepInv(db, es);
    RunsKeepCustomersApart(EMPTY, start);
    RunsKeepCustomersApart(db, es);
    var later := Run(db, es);
    forall p: Projection, at: int |
      ValidEvent(Webhook(p, at)) && p.event !in later.receipts
      && ((p.user == user && p.customer != db.customers[user]) || (p.user != user && p.customer == db.customers[user]))
      ensures Project(later, p, at) == (later, Projected.Refused)
    {
      AppliesExactly(later, p, at);
      assert !CustomerFits(later, p);
    }
  }
}
