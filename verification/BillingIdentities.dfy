/** When a debit and a grant contend for one transaction ID, and what the saturating duration of
    a close does to the books. */
module BillingIdentities {
  import opened Text
  import opened Times
  import opened Decimals
  import opened Ledger
  import opened Billing
  import opened BillingRuns

  /** The interval is named after an event whose grant is booked. */
  ghost predicate NamedAfterGrant(db: Books, id: string) {
    exists event :: event in db.grants && id == "polar:" + event
  }

  predicate ClosedUnder(db: Books, id: string) {
    id in db.intervals && db.intervals[id].closure.Some?
  }

  lemma DebitIDMeans(db: Books, id: string, t: Transaction)
    requires Owned(db, t) && t.id == DebitID(id) && !ClosedUnder(db, id)
    ensures NamedAfterGrant(db, id)
  {
    hide DebitKey, DebitID, GrantKey, GrantID;
    if other :| other in db.intervals && IsDebitOf(t, other, db.intervals[other]) {
      DebitKeyInjective(id, other);
    } else {
      var event :| event in db.grants && IsGrantOf(t, event);
      IDsCollideExactlyOnPolarNames(id, event);
    }
  }

  lemma GrantIDMeans(db: Books, event: string, t: Transaction)
    requires Owned(db, t) && t.id == GrantID(event) && event !in db.grants
    ensures ClosedUnder(db, "polar:" + event)
  {
    hide DebitKey, DebitID, GrantKey, GrantID;
    if id :| id in db.intervals && IsDebitOf(t, id, db.intervals[id]) {
      IDsCollideExactlyOnPolarNames(id, event);
    } else {
      var other :| other in db.grants && IsGrantOf(t, other);
      GrantKeyInjective(event, other);
    }
  }

  /** The transaction ID of an interval not yet closed is taken exactly by a grant it is named after. */
  lemma DebitIDIsTakenExactlyByAGrant(db: Books, id: string)
    requires Inv(db) && !ClosedUnder(db, id)
    ensures UsesID(db.ledger, DebitID(id)) <==> NamedAfterGrant(db, id)
  {
    hide DebitKey, DebitID, GrantKey, GrantID, Distinct, Total, Owned;
    if UsesID(db.ledger, DebitID(id)) {
      var k :| 0 <= k < |db.ledger| && db.ledger[k].id == DebitID(id);
      DebitIDMeans(db, id, db.ledger[k]);
    }
    if NamedAfterGrant(db, id) {
      var event :| event in db.grants && id == "polar:" + event;
      var k :| 0 <= k < |db.ledger| && IsGrantOf(db.ledger[k], event);
      IDsCollideExactlyOnPolarNames(id, event);
      assert db.ledger[k].id == DebitID(id);
    }
  }

  /** The transaction ID of an event not yet granted is taken exactly by a closed interval named after it. */
  lemma GrantIDIsTakenExactlyByADebit(db: Books, event: string)
    requires Inv(db) && event !in db.grants
    ensures UsesID(db.ledger, GrantID(event)) <==> ClosedUnder(db, "polar:" + event)
  {
    hide DebitKey, DebitID, GrantKey, GrantID, Distinct, Total, Owned;
    var id := "polar:" + event;
    if UsesID(db.ledger, GrantID(event)) {
      var k :| 0 <= k < |db.ledger| && db.ledger[k].id == GrantID(event);
      GrantIDMeans(db, event, db.ledger[k]);
    }
    if ClosedUnder(db, id) {
      assert Paid(db, id);
      var k :| 0 <= k < |db.ledger| && IsDebitOf(db.ledger[k], id, db.intervals[id]);
      IDsCollideExactlyOnPolarNames(id, event);
      assert db.ledger[k].id == GrantID(event);
    }
  }

  // Closes

  /** Everything a close asks for except a free transaction ID and a stop that is stored later than
      the start. */
  predicate Closable(db: Books, x: CloseInput) {
    && x.id != "" && x.stoppedAt != 0 && x.knownSource
    && x.id in db.intervals && db.intervals[x.id].closure.None? && x.stoppedAt > db.intervals[x.id].startedAt
    && x.rate.Some? && Proper(x.rate.value)
    && (var debit := DebitFor(x.id, db.intervals[x.id], x.stoppedAt, x.rate.value);
        && debit.Ok? && debit.value.user in db.balances
        && InInt64(db.balances[debit.value.user] + debit.value.credits))
  }

  /** In consistent books a close that is otherwise in order is refused, and changes nothing,
      exactly when the interval is named after a granted webhook event or the stop is stored no
      later than the start. */
  lemma CloseIsRefusedExactlyOnGrantedNames(db: Books, x: CloseInput)
    requires Inv(db) && Closable(db, x)
    ensures Close(db, x).1.None? <==> NamedAfterGrant(db, x.id) || StoredTime(x.stoppedAt) <= db.intervals[x.id].startedAt
    ensures Close(db, x).1.None? <==> Close(db, x).0 == db
  {
    hide DebitFor, DebitKey, DebitID, Owned, Paid, Distinct, Total, Delivered, UsesID, UsesKey, NamedAfterGrant;
    var i := db.intervals[x.id];
    var t := DebitFor(x.id, i, x.stoppedAt, x.rate.value).value;
    DebitForIsDebit(x.id, i, x.stoppedAt, x.rate.value);
    DebitIDIsTakenExactlyByAGrant(db, x.id);
    BilledExactlyWhenClosed(db, x.id);
    OpenIsUndelivered(db, x.id);
    if Close(db, x).1.Some? {
      assert Close(db, x).0.intervals[x.id].closure.Some?;
    }
  }

  lemma OpenIsUndelivered(db: Books, id: string)
    requires DeliveriesArePaired(db) && !ClosedUnder(db, id)
    ensures !Delivered(db.deliveries, DebitKey(id), DebitID(id))
  {
    hide DebitKey, DebitID;
    if Delivered(db.deliveries, DebitKey(id), DebitID(id)) {
      var k :| 0 <= k < |db.deliveries| && (db.deliveries[k].externalId == DebitKey(id) || db.deliveries[k].transaction == DebitID(id));
      assert db.deliveries[k] in db.deliveries;
      var other :| other in db.intervals && db.intervals[other].closure.Some? && db.deliveries[k] == Delivery(DebitKey(other), DebitID(other));
      DebitKeyInjective(id, other);
    }
  }

  // Grants

  /** What the registration of a fresh delivery leaves, if it is accepted. */
  function Registered(db: Books, p: Projection): Option<Books> {
    Register(Noted(db, p), p)
  }

  /** Everything a fresh grant asks for except a free transaction ID. */
  predicate Grantable(db: Books, p: Projection, receivedAt: int) {
    && receivedAt != 0 && p.event !in db.receipts && Registered(db, p).Some?
    && p.change.RecurringGrant? && p.change.recorded && InInt64(p.change.credits)
    && NewGrant(GrantID(p.event), p.user, p.change.credits, GrantKey(p.event), p.change.creditedAt, receivedAt).Ok?
    && p.user in db.balances && InInt64(db.balances[p.user] + p.change.credits)
  }

  /** In consistent books a grant that is otherwise in order is refused, and its whole delivery
      rolled back, exactly when a closed interval is named after its event. */
  lemma GrantIsRefusedExactlyOnClosedNames(db: Books, p: Projection, receivedAt: int)
    requires Inv(db) && Grantable(db, p, receivedAt)
    ensures Project(db, p, receivedAt).1.Refused? <==> ClosedUnder(db, "polar:" + p.event)
    ensures Project(db, p, receivedAt).1.Refused? <==> Project(db, p, receivedAt).0 == db
  {
    hide GrantID, GrantKey, UsesID, UsesKey, Register, Owned, Paid, Distinct, Total;
    assert p.event !in db.grants;
    GrantedExactlyWhenBooked(db, p.event);
    GrantIDIsTakenExactlyByADebit(db, p.event);
    RegisterIsBookless(Noted(db, p), p);
    if !Project(db, p, receivedAt).1.Refused? {
      assert p.event in Project(db, p, receivedAt).0.receipts;
    }
  }

  /** Grant and closure never come together, so an interval named after a granted event stays
      open for ever, and an event some closed interval is named after is never granted. */
  lemma NeverClosedAndGranted(db: Books, event: string)
    requires Reachable(db)
    ensures !(event in db.grants && ClosedUnder(db, "polar:" + event))
  {
    hide Reachable, DebitKey, DebitID, GrantKey, GrantID, Owned, Total, Measures, LedgerIsOwned, DeliveriesArePaired;
    ReachableKeepsInv(db);
    var id := "polar:" + event;
    if event in db.grants && ClosedUnder(db, id) {
      assert Paid(db, id);
      var j :| 0 <= j < |db.ledger| && IsDebitOf(db.ledger[j], id, db.intervals[id]);
      var k :| 0 <= k < |db.ledger| && IsGrantOf(db.ledger[k], event);
      IDsCollideExactlyOnPolarNames(id, event);
      assert false;
    }
  }

  // Inputs that show it

  lemma DebitIsAccepted(id: string, user: string, key: string, usage: Usage, rate: Ratio, at: int, credits: int)
    requires Proper(rate) && Convert(rate, usage.quantity) == Ok(credits) && credits > 0 && at != 0
    requires id != "" && user != "" && key != "" && usage.environment != "" && usage.resource != ""
    ensures NewDebit(id, user, key, usage, rate, at, at) == Ok(Transaction(id, user, Debit, -credits, key, Some(usage), at, at))
  {
    hide Convert;
  }

  /** A close whose rate makes whole credits of the elapsed time has its debit. */
  lemma WholeDebit(id: string, i: Interval, stoppedAt: int, rate: Ratio, credits: int)
    requires Proper(rate) && stoppedAt > i.startedAt && stoppedAt != 0
    requires i.user != "" && i.environment != "" && i.runtime != "" && 0 < credits <= MAX_INT64
    requires credits * (NANOSECONDS * rate.den) == rate.num * Elapsed(i.startedAt, stoppedAt)
    ensures var debit := DebitFor(id, i, stoppedAt, rate);
            && debit.Ok? && debit.value.credits == -credits && debit.value.user == i.user
            && debit.value.id == DebitID(id) && debit.value.key == DebitKey(id)
  {
    hide DecimalSeconds, Convert, NewDebit;
    assert DebitID(id) != "" && DebitKey(id) != "";
    hide DebitID, DebitKey;
    var elapsed: nat := Elapsed(i.startedAt, stoppedAt);
    hide Elapsed, InInt64;
    DebitIsRateTimesElapsed(rate, elapsed, credits);
    DebitIsAccepted(DebitID(id), i.user, DebitKey(id), Usage(i.environment, i.runtime, DecimalSeconds(elapsed)), rate, stoppedAt, credits);
  }

  const SECOND_RATE := Ratio(1, 1)

  /** Times stored in whole microseconds. */
  const START := 1_000
  const TOO_LONG := 10_000_000_000_000_000_000

  function OpeningOf(id: string): OpenInput {
    OpenInput(id, "user", "environment", "runtime", START, true)
  }

  function ClosingOf(id: string): CloseInput {
    CloseInput(id, START + NANOSECONDS, true, Some(SECOND_RATE))
  }

  function GrantOf(event: string): Projection {
    Projection(event, "order.paid", 1, "user", "customer", "payload", RecurringGrant(100, 1, true))
  }

  const ONE_USER := Books([], map["user" := 0], map[], [], map[], map[], map[])

  function WithOpen(db: Books, id: string): Books {
    db.(intervals := db.intervals[id := Interval("user", "environment", "runtime", START, None)])
  }

  lemma RunOfTwo(db: Books, a: Event, b: Event)
    requires ValidEvent(a) && ValidEvent(b)
    ensures ValidEvents([a, b]) && Run(db, [a, b]) == Step(Step(db, a), b)
  {
    hide Step;
    assert [a, b][1..] == [b] && [b][1..] == [];
    assert Run(Step(db, a), [b]) == Step(Step(db, a), b);
  }

  lemma RunOfThree(db: Books, a: Event, b: Event, c: Event)
    requires ValidEvent(a) && ValidEvent(b) && ValidEvent(c)
    ensures ValidEvents([a, b, c]) && Run(db, [a, b, c]) == Step(Step(Step(db, a), b), c)
  {
    hide Step;
    RunOfTwo(Step(db, a), b, c);
    assert [a, b, c][1..] == [b, c];
  }

  lemma OneUser()
    ensures Step(EMPTY, NewUser("user")) == ONE_USER
  {
  }

  /** The user's webhook is granted on fresh books. */
  lemma FirstGrant(event: string)
    requires event != ""
    ensures var r := Project(ONE_USER, GrantOf(event), 1);
            && r.1.Granted? && r.0.balances == map["user" := 100] && r.0.intervals == map[] && event in r.0.grants
  {
    assert GrantID(event) != "" && GrantKey(event) != "";
    hide GrantID, GrantKey;
  }

  /** An interval opens on books with no interval. */
  lemma FirstOpening(db: Books, id: string)
    requires db.intervals == map[] && "user" in db.balances && id != ""
    ensures Open(db, OpeningOf(id)).0 == WithOpen(db, id)
  {
  }

  lemma OpenIntervalIsClosable(db: Books, id: string)
    requires id != "" && "user" in db.balances && InInt64(db.balances["user"] - 1)
    requires id in db.intervals && db.intervals[id] == Interval("user", "environment", "runtime", START, None)
    ensures Closable(db, ClosingOf(id))
  {
    hide DebitFor;
    WholeDebit(id, db.intervals[id], START + NANOSECONDS, SECOND_RATE, 1);
  }

  /** For every event name: once its webhook is granted, an interval named after it opens and
      can never be closed, whatever else holds. */
  lemma GrantThenCloseIsRefused(event: string) returns (es: seq<Event>, x: CloseInput)
    requires event != ""
    ensures ValidEvents(es) && Closable(Run(EMPTY, es), x) && Close(Run(EMPTY, es), x) == (Run(EMPTY, es), None)
  {
    hide Run, Inv, Closable, Project, Close, Open, NamedAfterGrant;
    var id := "polar:" + event;
    es := [NewUser("user"), Webhook(GrantOf(event), 1), Opening(OpeningOf(id))];
    x := ClosingOf(id);
    RunOfThree(EMPTY, es[0], es[1], es[2]);
    OneUser();
    FirstGrant(event);
    var granted := Project(ONE_USER, GrantOf(event), 1).0;
    FirstOpening(granted, id);
    var db := WithOpen(granted, id);
    assert Run(EMPTY, es) == db;
    OpenIntervalIsClosable(db, id);
    EmptyKeepsInv();
    RunsKeepInv(EMPTY, es);
    NamesGrant(db, event);
    CloseIsRefusedExactlyOnGrantedNames(db, x);
  }

  lemma NamesGrant(db: Books, event: string)
    requires event in db.grants
    ensures NamedAfterGrant(db, "polar:" + event)
  {
  }

  /** And the other way round: once the interval is closed, the webhook it is named after is
      refused for ever. */
  lemma CloseThenGrantIsRefused(event: string) returns (es: seq<Event>, p: Projection, receivedAt: int)
    requires event != ""
    ensures ValidEvents(es) && Grantable(Run(EMPTY, es), p, receivedAt)
    ensures Project(Run(EMPTY, es), p, receivedAt) == (Run(EMPTY, es), Projected.Refused)
  {
    hide Run, Inv, Closable, Close, Open, Grantable, Project;
    var id := "polar:" + event;
    es := [NewUser("user"), Opening(OpeningOf(id)), Closing(ClosingOf(id))];
    p, receivedAt := GrantOf(event), 1;
    RunOfThree(EMPTY, es[0], es[1], es[2]);
    OneUser();
    FirstOpening(ONE_USER, id);
    FirstClose(id);
    EmptyKeepsInv();
    RunsKeepInv(EMPTY, es);
    ClosedBooksGrant(Close(WithOpen(ONE_USER, id), ClosingOf(id)).0, event);
    GrantIsRefusedExactlyOnClosedNames(Run(EMPTY, es), p, receivedAt);
  }

  lemma FirstClose(id: string)
    requires id != ""
    ensures var db := Close(WithOpen(ONE_USER, id), ClosingOf(id)).0;
            && ClosedUnder(db, id) && db.balances == map["user" := -1] && db.receipts == map[] && db.customers == map[]
  {
    hide DebitFor, DebitKey, DebitID;
    WholeDebit(id, WithOpen(ONE_USER, id).intervals[id], START + NANOSECONDS, SECOND_RATE, 1);
    assert DebitFor(id, WithOpen(ONE_USER, id).intervals[id], START + NANOSECONDS, SECOND_RATE).value.credits == -1;
  }

  lemma ClosedBooksGrant(db: Books, event: string)
    requires event != "" && db.balances == map["user" := -1] && db.receipts == map[] && db.customers == map[]
    ensures Grantable(db, GrantOf(event), 1)
  {
    assert GrantID(event) != "" && GrantKey(event) != "";
    hide GrantID, GrantKey;
  }

  /** An interval open for 10^19 nanoseconds, at one credit a nanosecond, is closed for only 2^63 - 1 credits. */
  lemma SaturatedClose() returns (es: seq<Event>, x: CloseInput)
    ensures ValidEvents(es) && ValidEvent(Closing(x)) && x.id in Run(EMPTY, es).intervals
    ensures x.stoppedAt - Run(EMPTY, es).intervals[x.id].startedAt == TOO_LONG > MAX_INT64
    ensures Close(Run(EMPTY, es), x).0 != Run(EMPTY, es)
    ensures Close(Run(EMPTY, es), x).1.Some? && Close(Run(EMPTY, es), x).1.value.credits == -MAX_INT64
  {
    hide Run, Close, Open;
    es := [NewUser("user"), Opening(OpeningOf("interval"))];
    x := CloseInput("interval", START + TOO_LONG, true, Some(Ratio(NANOSECONDS, 1)));
    RunOfTwo(EMPTY, es[0], es[1]);
    OneUser();
    FirstOpening(ONE_USER, "interval");
    SaturatedDebit(x);
  }

  lemma SaturatedDebit(x: CloseInput)
    requires x == CloseInput("interval", START + TOO_LONG, true, Some(Ratio(NANOSECONDS, 1)))
    ensures var r := Close(WithOpen(ONE_USER, "interval"), x);
            r.0 != WithOpen(ONE_USER, "interval") && r.1.Some? && r.1.value.credits == -MAX_INT64
  {
    hide DebitFor, DebitKey, DebitID;
    var db := WithOpen(ONE_USER, x.id);
    WholeDebit(x.id, db.intervals[x.id], x.stoppedAt, x.rate.value, MAX_INT64);
    assert Close(db, x).0.intervals[x.id].closure.Some?;
  }
}
