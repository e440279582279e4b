/** The billing store, statement by statement: every method commits one transaction of a run or
    changes nothing, so what holds over all runs holds of the store. */
module BillingStore {
  import opened Text
  import opened Times
  import opened Decimals
  import opened Ledger
  import opened Billing
  import opened BillingRuns
  import opened BillingLaws

  lemma {:induction false} RunAppends(db: Books, es: seq<Event>, e: Event)
    requires ValidEvents(es) && ValidEvent(e)
    ensures ValidEvents(es + [e]) && Run(db, es + [e]) == Step(Run(db, es), e)
    decreases |es|
  {
    hide Step;
    if es == [] {
      assert [e][1..] == [];
    } else {
      assert (es + [e])[1..] == es[1..] + [e];
      RunAppends(Step(db, es[0]), es[1..], e);
    }
  }

  lemma ReachableByEvents(es: seq<Event>)
    requires ValidEvents(es)
    ensures Reachable(Run(EMPTY, es)) && Inv(Run(EMPTY, es)) && OneOpen(Run(EMPTY, es))
  {
    hide Run, Inv;
    ReachableKeepsInv(Run(EMPTY, es));
    OpenIntervalsExclude(EMPTY, es);
  }

  class Store {
    var books: Books
    ghost var events: seq<Event>

    /** The books are those of the run so far, and so they are consistent. */
    ghost predicate Valid()
      reads this
    {
      ValidEvents(events) && books == Run(EMPTY, events) && Inv(books) && OneOpen(books)
    }

    constructor ()
      ensures Valid() && books == EMPTY && events == []
    {
      books, events := EMPTY, [];
      new;
      ReachableByEvents([]);
    }

    /** The step a method is about to commit. */
    ghost method Note(e: Event)
      requires Valid() && ValidEvent(e)
      modifies this`events
      ensures events == old(events) + [e] && ValidEvents(events)
      ensures Run(EMPTY, events) == Step(books, e) && Inv(Step(books, e)) && OneOpen(Step(books, e))
    {
      hide Run, Step, Inv, OneOpen;
      RunAppends(EMPTY, events, e);
      ReachableByEvents(events + [e]);
      events := events + [e];
    }

    method CreateUser(user: string)
      requires Valid()
      modifies this
      ensures Valid() && events == old(events) + [NewUser(user)]
      ensures books == AddUser(old(books), user)
    {
      hide Run, Inv, OneOpen;
      Note(NewUser(user));
      if user !in books.balances {
        books := books.(balances := books.balances[user := 0]);
      }
    }

    method OpenInterval(x: OpenInput) returns (interval: Option<Interval>)
      requires Valid()
      modifies this
      ensures Valid() && events == old(events) + [Opening(x)]
      ensures (books, interval) == Open(old(books), x)
    {
      hide Run, Inv, OneOpen;
      Note(Opening(x));
      interval := None;
      if x.id == "" || x.user == "" || x.environment == "" || x.runtime == "" || x.startedAt == 0 || !x.current {
        return;
      }
      var db := books;
      var inserted := x.id !in db.intervals;
      if inserted {
        if x.user !in db.balances || OpenElsewhere(db, x.environment, x.runtime) {
          return;
        }
        db := db.(intervals := db.intervals[x.id := Interval(x.user, x.environment, x.runtime, StoredTime(x.startedAt), None)]);
      }
      var row := db.intervals[x.id];
      if !inserted && (row.user != x.user || row.environment != x.environment || row.runtime != x.runtime || row.startedAt != x.startedAt) {
        return;
      }
      books, interval := db, Some(row);
    }

    lemma ClosesForTheInterval(x: CloseInput)
      requires Valid() && ValidEvent(Closing(x))
      ensures Close(books, x).1.Some? ==>
                && x.id in books.intervals
                && var i, t := books.intervals[x.id], Close(books, x).1.value;
                && t.id == "credit-transaction:" + x.id && t.key == "compute:" + x.id && t.user == i.user
                && t.usage.Some? && t.usage.value.environment == i.environment && t.usage.value.resource == i.runtime
    {
      hide Close, Run, Inv;
      if Close(books, x).1.Some? {
        ReturnedDebitIsOfTheInterval(books, x);
      }
    }

    method CloseInterval(x: CloseInput) returns (transaction: Option<Transaction>)
      requires Valid() && ValidEvent(Closing(x))
      modifies this
      ensures Valid() && events == old(events) + [Closing(x)]
      ensures (books, transaction) == Close(old(books), x)
      ensures transaction.Some? ==>
                && x.id in old(books).intervals
                && var i, t := old(books).intervals[x.id], transaction.value;
                && t.id == "credit-transaction:" + x.id && t.key == "compute:" + x.id && t.user == i.user
                && t.usage.Some? && t.usage.value.environment == i.environment && t.usage.value.resource == i.runtime
    {
      ClosesForTheInterval(x);
      hide NewDebit, DecimalSeconds, Append, Delivered, Run, Inv, OneOpen;
      Note(Closing(x));
      transaction := None;
      if x.id == "" || x.stoppedAt == 0 || !x.knownSource || x.id !in books.intervals {
        return;
      }
      var db := books;
      var row := db.intervals[x.id];
      if row.closure.Some? {
        return Load(db.ledger, row.closure.value.transaction);
      }
      if x.stoppedAt <= row.startedAt || x.rate.None? {
        return;
      }
      var debit := DebitFor(x.id, row, x.stoppedAt, x.rate.value);
      if debit.Err? {
        return;
      }
      var t := debit.value;
      var appended := Append(db, t);
      if appended.None? || Delivered(db.deliveries, t.key, t.id) {
        return;
      }
      if StoredTime(x.stoppedAt) <= row.startedAt {
        return;
      }
      db := appended.value.(deliveries := db.deliveries + [Delivery(t.key, t.id)]);
      db := db.(intervals := books.intervals[x.id := row.(closure := Some(Closure(StoredTime(x.stoppedAt), t.id)))]);
      books, transaction := db, Some(t);
    }

    method ApplyProjection(p: Projection, receivedAt: int) returns (result: Projected)
      requires Valid() && ValidEvent(Webhook(p, receivedAt))
      modifies this
      ensures Valid() && events == old(events) + [Webhook(p, receivedAt)]
      ensures (books, result) == Project(old(books), p, receivedAt)
    {
      hide NewGrant, Append, Register, Run, Inv, OneOpen;
      Note(Webhook(p, receivedAt));
      result := Projected.Refused;
      if receivedAt == 0 {
        return;
      }
      var db := books;
      var receipt := Receipt(p.eventType, p.payload, p.occurredAt);
      if p.event in db.receipts {
        return if db.receipts[p.event] == receipt then Repeated else Projected.Refused;
      }
      db := Noted(db, p);
      var registered := Register(db, p);
      if registered.None? {
        return;
      }
      db := registered.value;
      match p.change
      case Subscription(accepted) =>
        if !accepted {
          return;
        }
        books, result := db, Updated;
      case RecurringGrant(credits, creditedAt, recorded) =>
        var grant := NewGrant(GrantID(p.event), p.user, credits, GrantKey(p.event), creditedAt, receivedAt);
        if grant.Err? {
          return;
        }
        var appended := Append(db, grant.value);
        if appended.None? || !recorded || p.event in books.grants {
          return;
        }
        books, result := appended.value.(grants := books.grants[p.event := grant.value.id]), Granted(grant.value);
    }
  }
}
