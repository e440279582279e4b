/** The billing tables: usage intervals, the append-only ledger, balances, deliveries and
    webhook receipts, with the three transactions that change them. */
module Billing {
  import opened Text
  import opened Times
  import opened Decimals
  import opened Ledger

  datatype Closure = Closure(endedAt: int, transaction: string)

  datatype Interval = Interval(user: string, environment: string, runtime: string, startedAt: int, closure: Option<Closure>)

  datatype Delivery = Delivery(externalId: string, transaction: string)

  /** The payload digest is represented by the payload. */
  datatype Receipt = Receipt(eventType: string, payload: string, occurredAt: int)

  datatype Books = Books(
    ledger: seq<Transaction>, balances: map<string, int>, intervals: map<string, Interval>, deliveries: seq<Delivery>,
    receipts: map<string, Receipt>, customers: map<string, string>, grants: map<string, string>)

  /** Whether the Runtime is current for the user's Environment is decided by the environments table. */
  datatype OpenInput = OpenInput(id: string, user: string, environment: string, runtime: string, startedAt: int, current: bool)

  /** The rate is the one in effect when the interval started, if any. */
  datatype CloseInput = CloseInput(id: string, stoppedAt: int, knownSource: bool, rate: Option<Ratio>)

  /** A subscription upsert may be refused by its own constraints. */
  datatype Change = Subscription(accepted: bool) | RecurringGrant(credits: int, creditedAt: int, recorded: bool)

  datatype Projection = Projection(
    event: string, eventType: string, occurredAt: int, user: string, customer: string, payload: string, change: Change)

  datatype Projected = Refused | Repeated | Granted(transaction: Transaction) | Updated

  // Identities

  function DebitID(interval: string): string {
    "credit-transaction:" + interval
  }

  function DebitKey(interval: string): string {
    "compute:" + interval
  }

  function GrantID(event: string): string {
    "credit-transaction:polar:" + event
  }

  function GrantKey(event: string): string {
    "polar-webhook:" + event
  }

  lemma KeysAreApart(interval: string, event: string)
    ensures DebitKey(interval) != GrantKey(event)
  {
    assert DebitKey(interval)[0] != GrantKey(event)[0];
  }

  lemma DebitKeyInjective(a: string, b: string)
    ensures DebitKey(a) == DebitKey(b) <==> a == b
    ensures DebitID(a) == DebitID(b) <==> a == b
  {
    assert DebitKey(a)[8..] == a && DebitKey(b)[8..] == b;
    assert DebitID(a)[19..] == a && DebitID(b)[19..] == b;
  }

  lemma GrantKeyInjective(a: string, b: string)
    ensures GrantKey(a) == GrantKey(b) <==> a == b
    ensures GrantID(a) == GrantID(b) <==> a == b
  {
    assert GrantKey(a)[14..] == a && GrantKey(b)[14..] == b;
    assert GrantID(a)[25..] == a && GrantID(b)[25..] == b;
  }

  /** A debit and a grant contend for one transaction ID exactly when the interval is named
      after the event. */
  lemma IDsCollideExactlyOnPolarNames(interval: string, event: string)
    ensures DebitID(interval) == GrantID(event) <==> interval == "polar:" + event
  {
    assert GrantID(event) == "credit-transaction:" + ("polar:" + event);
    assert DebitID(interval)[19..] == interval && GrantID(event)[19..] == "polar:" + event;
  }

  // The ledger tables

  function Total(ledger: seq<Transaction>, user: string): int {
    if ledger == [] then 0
    else
      var last := ledger[|ledger| - 1];
      Total(ledger[..|ledger| - 1], user) + (if last.user == user then last.credits else 0)
  }

  function FindByID(ledger: seq<Transaction>, id: string): Option<Transaction> {
    if ledger == [] then None
    else
      var last := ledger[|ledger| - 1];
      if last.id == id then Some(last) else FindByID(ledger[..|ledger| - 1], id)
  }

  /** A transaction as its row keeps it. */
  function StoredRow(t: Transaction): Transaction {
    t.(occurredAt := StoredTime(t.occurredAt), createdAt := StoredTime(t.createdAt))
  }

  /** loadCreditTransaction: the stored row is built anew, which refuses the zero time. */
  function Load(ledger: seq<Transaction>, id: string): Option<Transaction> {
    match FindByID(ledger, id)
    case None => None
    case Some(t) => if t.occurredAt == 0 || t.createdAt == 0 then None else Some(t)
  }

  /** Insert a transaction row and add it to its user's balance row: unique ID and key, a user the
      foreign keys know, and a balance that stays a BIGINT. The balances have a row for exactly the
      known users, because a trigger adds one with every user. */
  function Append(db: Books, t: Transaction): Option<Books> {
    if UsesID(db.ledger, t.id) || UsesKey(db.ledger, t.key) || t.user !in db.balances then None
    else if !InInt64(db.balances[t.user] + t.credits) then None
    else Some(db.(ledger := db.ledger + [StoredRow(t)], balances := db.balances[t.user := db.balances[t.user] + t.credits]))
  }

  predicate Delivered(deliveries: seq<Delivery>, externalId: string, transaction: string) {
    exists i :: 0 <= i < |deliveries| && (deliveries[i].externalId == externalId || deliveries[i].transaction == transaction)
  }

  // Transactions as functions

  predicate OpenElsewhere(db: Books, environment: string, runtime: string) {
    exists id :: id in db.intervals && db.intervals[id].closure.None?
      && (db.intervals[id].environment == environment || db.intervals[id].runtime == runtime)
  }

  /** A known interval is compared, as it is stored, with the start time as it was passed. */
  function Open(db: Books, x: OpenInput): (Books, Option<Interval>) {
    if x.id == "" || x.user == "" || x.environment == "" || x.runtime == "" || x.startedAt == 0 || !x.current then (db, None)
    else if x.id in db.intervals then
      var i := db.intervals[x.id];
      if (i.user, i.environment, i.runtime, i.startedAt) == (x.user, x.environment, x.runtime, x.startedAt)
      then (db, Some(i)) else (db, None)
    else if x.user !in db.balances || OpenElsewhere(db, x.environment, x.runtime) then (db, None)
    else
      var i := Interval(x.user, x.environment, x.runtime, StoredTime(x.startedAt), None);
      (db.(intervals := db.intervals[x.id := i]), Some(i))
  }

  /** The debit a close derives from the interval and the observed stop. */
  function DebitFor(id: string, i: Interval, stoppedAt: int, rate: Ratio): Result<Transaction>
    requires Proper(rate) && stoppedAt > i.startedAt
  {
    var usage := Usage(i.environment, i.runtime, DecimalSeconds(Elapsed(i.startedAt, stoppedAt)));
    NewDebit(DebitID(id), i.user, DebitKey(id), usage, rate, stoppedAt, stoppedAt)
  }

  /** The stop time must follow the stored start, and once more when both are stored. */
  function Close(db: Books, x: CloseInput): (Books, Option<Transaction>)
    requires x.rate.Some? ==> Proper(x.rate.value)
  {
    if x.id == "" || x.stoppedAt == 0 || !x.knownSource || x.id !in db.intervals then (db, None)
    else
      var i := db.intervals[x.id];
      if i.closure.Some? then (db, Load(db.ledger, i.closure.value.transaction))
      else if x.stoppedAt <= i.startedAt || x.rate.None? then (db, None)
      else
        var debit := DebitFor(x.id, i, x.stoppedAt, x.rate.value);
        if debit.Err? then (db, None)
        else
          var t := debit.value;
          var appended := Append(db, t);
          if appended.None? || Delivered(db.deliveries, t.key, t.id) || StoredTime(x.stoppedAt) <= i.startedAt then (db, None)
          else
            var closed := i.(closure := Some(Closure(StoredTime(x.stoppedAt), t.id)));
            (appended.value.(deliveries := db.deliveries + [Delivery(t.key, t.id)],
                             intervals := db.intervals[x.id := closed]), Some(t))
  }

  /** registerPolarCustomer: a user keeps its first customer, and no two users share one. */
  function Register(db: Books, p: Projection): Option<Books> {
    if p.event == "" || p.eventType == "" || p.occurredAt == 0 || p.user == "" || p.customer == "" then None
    else if p.user in db.customers then (if db.customers[p.user] == p.customer then Some(db) else None)
    else if p.user !in db.balances || p.customer in db.customers.Values then None
    else Some(db.(customers := db.customers[p.user := p.customer]))
  }

  /** The delivery's receipt, as it is stored. */
  function Noted(db: Books, p: Projection): Books {
    db.(receipts := db.receipts[p.event := Receipt(p.eventType, p.payload, StoredTime(p.occurredAt))])
  }

  /** A known receipt is compared, as it is stored, with the time as it was delivered. */
  function Project(db: Books, p: Projection, receivedAt: int): (Books, Projected)
    requires p.change.RecurringGrant? ==> InInt64(p.change.credits)
  {
    if receivedAt == 0 then (db, Refused)
    else if p.event in db.receipts then
      (db, if db.receipts[p.event] == Receipt(p.eventType, p.payload, p.occurredAt) then Repeated else Refused)
    else
      var registered := Register(Noted(db, p), p);
      if registered.None? then (db, Refused)
      else
        match p.change
        case Subscription(accepted) => if accepted then (registered.value, Updated) else (db, Refused)
        case RecurringGrant(credits, creditedAt, recorded) =>
          var grant := NewGrant(GrantID(p.event), p.user, credits, GrantKey(p.event), creditedAt, receivedAt);
          if grant.Err? then (db, Refused)
          else
            var appended := Append(registered.value, grant.value);
            if appended.None? || !recorded || p.event in db.grants then (db, Refused)
            else
              (appended.value.(grants := db.grants[p.event := grant.value.id]), Granted(grant.value))
  }

  function AddUser(db: Books, user: string): Books {
    if user in db.balances then db else db.(balances := db.balances[user := 0])
  }
}
