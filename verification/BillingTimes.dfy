/** What the microseconds of the database do to replays: a time is stored rounded down and
    compared unrounded, so a repeated request agrees with itself only at whole microseconds. */
module BillingTimes {
  import opened Text
  import opened Times
  import opened Decimals
  import opened Ledger
  import opened Billing
  import opened BillingRuns
  import opened BillingIdentities

  /** Every start is a whole microsecond. */
  ghost predicate WholeStarts(db: Books) {
    forall id :: id in db.intervals ==> db.intervals[id].startedAt % MICROSECOND == 0
  }

  lemma StepKeepsWholeStarts(db: Books, e: Event)
    requires WholeStarts(db) && ValidEvent(e)
    ensures WholeStarts(Step(db, e))
  {
    hide Append, DebitFor, NewGrant, Load, Delivered, GrantID, GrantKey, DebitID, DebitKey, Register, StoredTime;
    match e
    case NewUser(u) =>
    case Opening(x) =>
    case Closing(x) =>
      CloseChanges(db, x);
      if Close(db, x).0 != db {
        AppendShape(db, DebitFor(x.id, db.intervals[x.id], x.stoppedAt, x.rate.value).value);
      }
    case Webhook(p, at) => ProjectKeepsIntervals(db, p, at);
  }

  lemma {:induction false} RunsKeepWholeStarts(db: Books, es: seq<Event>)
    requires WholeStarts(db) && ValidEvents(es)
    ensures WholeStarts(Run(db, es))
    decreases |es|
  {
    hide WholeStarts, Step;
    if es == [] {
    } else {
      StepKeepsWholeStarts(db, es[0]);
      RunsKeepWholeStarts(Step(db, es[0]), es[1..]);
    }
  }

  // Opening again

  /** Opening a known interval again, whatever happened in between, changes nothing: it replays
      exactly when the request names the same user, Environment and Runtime and starts at the
      stored time. So the very same request replays exactly when its start is a whole microsecond. */
  lemma {:induction false} ReopenReplaysExactlyOnMicroseconds(db: Books, x: OpenInput, es: seq<Event>, again: OpenInput)
    requires Inv(db) && ValidEvents(es) && x.id !in db.intervals && Open(db, x).1.Some?
    requires again.id == x.id && again.current && again.startedAt != 0
    requires again.user != "" && again.environment != "" && again.runtime != ""
    ensures var later := Run(Open(db, x).0, es);
            && Open(later, again).0 == later
            && (Open(later, again).1.Some? <==>
                  (again.user, again.environment, again.runtime, again.startedAt)
                  == (x.user, x.environment, x.runtime, StoredTime(x.startedAt)))
            && (Open(later, again).1.Some? ==> Open(later, again).1.value.(closure := None) == Open(db, x).1.value)
            && (again == x ==> (Open(later, again).1.Some? <==> x.startedAt % MICROSECOND == 0))
  {
    OpenKeepsInv(db, x);
    hide Inv, Run, Extends;
    var first := Open(db, x).0;
    RunsKeepInv(first, es);
    IntervalContinues(first, Run(first, es), x.id);
  }

  lemma IntervalContinues(db: Books, next: Books, id: string)
    requires Extends(db, next) && id in db.intervals
    ensures id in next.intervals && Continues(db.intervals[id], next.intervals[id])
  {
  }

  // Closing

  /** In every reachable state a stop is stored no later than the start exactly when it comes less
      than a microsecond after it; the close passes the first comparison and is refused by the second. */
  lemma {:induction false} StopInTheStartsMicrosecondIsRefused(db: Books, x: CloseInput)
    requires Reachable(db) && Closable(db, x)
    ensures Close(db, x).1.None? <==>
              NamedAfterGrant(db, x.id) || x.stoppedAt < db.intervals[x.id].startedAt + MICROSECOND
  {
    assert x.id in db.intervals;
    hide Reachable, Closable, Close, NamedAfterGrant, Inv, StoredTime;
    ReachableKeepsInv(db);
    CloseIsRefusedExactlyOnGrantedNames(db, x);
    ReachableStartsAreWhole(db, x.id);
    NextMicrosecondDecides(db.intervals[x.id].startedAt, x.stoppedAt);
  }

  lemma ReachableStartsAreWhole(db: Books, id: string)
    requires Reachable(db) && id in db.intervals
    ensures db.intervals[id].startedAt % MICROSECOND == 0
  {
    hide Run;
    var es :| ValidEvents(es) && db == Run(EMPTY, es);
    RunsKeepWholeStarts(EMPTY, es);
  }

  lemma NextMicrosecondDecides(start: int, stop: int)
    requires start % MICROSECOND == 0
    ensures StoredTime(stop) <= start <==> stop < start + MICROSECOND
  {
    if StoredTime(stop) > start {
      NextMicrosecond(start, StoredTime(stop));
    }
  }

  /** What an interval is billed counts from the stored start, up to a microsecond before the
      start that was asked for. The debit is rate times the time asked for exactly when the start
      is a whole microsecond and the time fits a Go duration, or the duration saturated at just
      that time. */
  lemma {:induction false} OpenedThenClosedDebits(db: Books, o: OpenInput, es: seq<Event>, x: CloseInput)
    requires Inv(db) && ValidEvents(es) && ValidEvent(Closing(x)) && o.id !in db.intervals && Open(db, o).1.Some?
    requires x.id == o.id && Close(Run(Open(db, o).0, es), x).0 != Run(Open(db, o).0, es)
    ensures x.rate.Some? && Close(Run(Open(db, o).0, es), x).1.Some?
    ensures -Close(Run(Open(db, o).0, es), x).1.value.credits * (NANOSECONDS * x.rate.value.den)
         == x.rate.value.num * (x.stoppedAt - o.startedAt)
         <==> if o.startedAt % MICROSECOND == 0 then x.stoppedAt - o.startedAt <= MAX_INT64
              else x.stoppedAt - o.startedAt == MAX_INT64
  {
    OpenedStartIsStored(db, o, es);
    hide Inv, Run, Close, Open, StoredTime, Elapsed;
    var later := Run(Open(db, o).0, es);
    CloseIsExact(later, x, x.stoppedAt - o.startedAt);
    ElapsedSinceStored(o.startedAt, x.stoppedAt);
  }

  lemma {:induction false} OpenedStartIsStored(db: Books, o: OpenInput, es: seq<Event>)
    requires Inv(db) && ValidEvents(es) && o.id !in db.intervals && Open(db, o).1.Some?
    ensures var later := Run(Open(db, o).0, es);
            o.id in later.intervals && later.intervals[o.id].startedAt == StoredTime(o.startedAt)
  {
    OpenKeepsInv(db, o);
    var first := Open(db, o).0;
    hide Inv, Run, Extends, StoredTime;
    RunsKeepInv(first, es);
    IntervalContinues(first, Run(first, es), o.id);
  }

  lemma ElapsedSinceStored(start: int, stop: int)
    requires stop > StoredTime(start)
    ensures stop - start == Elapsed(StoredTime(start), stop) <==>
              if start % MICROSECOND == 0 then stop - start <= MAX_INT64 else stop - start == MAX_INT64
  {
    hide StoredTime;
  }

  // Inputs that show it

  const ODD := START + 1

  function OddOpening(): OpenInput {
    OpenInput("interval", "user", "environment", "runtime", ODD, true)
  }

  function OddDelivery(): Projection {
    Projection("event", "subscription.active", ODD, "user", "customer", "payload", Subscription(true))
  }

  function OddClosing(): CloseInput {
    CloseInput("interval", ODD, true, Some(Ratio(NANOSECONDS, 1)))
  }

  /** A retried open one nanosecond past a microsecond conflicts with itself. */
  lemma RetriedOpenConflicts() returns (es: seq<Event>, x: OpenInput)
    ensures ValidEvents(es) && es != [] && es[|es| - 1] == Opening(x)
    ensures Open(Run(EMPTY, es[..|es| - 1]), x).1.Some? && Open(Run(EMPTY, es), x) == (Run(EMPTY, es), None)
  {
    es, x := [NewUser("user"), Opening(OddOpening())], OddOpening();
    RunOfTwo(EMPTY, es[0], es[1]);
    OneUser();
    assert es[..1] == [es[0]] && [es[0]][1..] == [];
    assert Run(EMPTY, [es[0]]) == Step(EMPTY, es[0]);
    hide Run;
    assert Open(ONE_USER, x).0 == WithOpen(ONE_USER, "interval");
  }

  /** A redelivered event one nanosecond past a microsecond conflicts with itself. */
  lemma RetriedDeliveryConflicts() returns (es: seq<Event>, p: Projection)
    ensures ValidEvents(es) && es != [] && es[|es| - 1] == Webhook(p, ODD)
    ensures Project(Run(EMPTY, es[..|es| - 1]), p, ODD).1.Updated?
    ensures Project(Run(EMPTY, es), p, ODD) == (Run(EMPTY, es), Projected.Refused)
  {
    es, p := [NewUser("user"), Webhook(OddDelivery(), ODD)], OddDelivery();
    RunOfTwo(EMPTY, es[0], es[1]);
    OneUser();
    assert es[..1] == [es[0]] && [es[0]][1..] == [];
    assert Run(EMPTY, [es[0]]) == Step(EMPTY, es[0]);
    hide Run;
    var first := Project(ONE_USER, p, ODD);
    assert first.1.Updated? && "event" in first.0.receipts && first.0.receipts["event"].occurredAt == START;
  }

  /** A stop one nanosecond after the start has its debit and still does not close the interval. */
  lemma ImmediateStopIsRefused() returns (es: seq<Event>, x: CloseInput)
    ensures ValidEvents(es) && Closable(Run(EMPTY, es), x) && Close(Run(EMPTY, es), x) == (Run(EMPTY, es), None)
  {
    hide Run, Close, Open, Closable;
    es, x := [NewUser("user"), Opening(OpeningOf("interval"))], OddClosing();
    RunOfTwo(EMPTY, es[0], es[1]);
    OneUser();
    FirstOpening(ONE_USER, "interval");
    var db := WithOpen(ONE_USER, "interval");
    ImmediateStopIsClosable(db, x);
    ImmediateStop(db, x);
  }

  lemma ImmediateStopIsClosable(db: Books, x: CloseInput)
    requires x == OddClosing() && db == WithOpen(ONE_USER, "interval")
    ensures Closable(db, x)
  {
    hide DebitFor;
    WholeDebit(x.id, db.intervals[x.id], x.stoppedAt, x.rate.value, 1);
  }

  lemma ImmediateStop(db: Books, x: CloseInput)
    requires x == OddClosing() && db == WithOpen(ONE_USER, "interval")
    ensures Close(db, x) == (db, None)
  {
    hide DebitFor, Append, Delivered;
  }
}
