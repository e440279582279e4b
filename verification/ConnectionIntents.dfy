/** The tables behind Connection Intents and the Operations that share their
    (owner, idempotency key) space, with each transaction on them. The advisory lock
    and the row locks make every transaction here one atomic step. */
module ConnectionIntents {
  import opened Text
  import opened Times

  type Time = int

  datatype Key = Key(owner: string, key: string)

  datatype Intent = Intent(
    environment: string, operation: Option<string>, id: string,
    expiresAt: Time, createdAt: Time, usedAt: Option<Time>)

  datatype Operation = Operation(id: string, environment: string, kind: string, input: string)

  datatype Database = Database(intents: map<Key, Intent>, operations: map<Key, Operation>)

  const CONFLICT := "idempotency conflict"
  const INVALID := "database returned invalid expiry"

  /** An Intent as its row keeps it. */
  function StoredRow(record: Intent): Intent {
    record.(expiresAt := StoredTime(record.expiresAt))
  }

  /** lockLoadValidateConnectionIntentReplay: a record that has not expired for this
      caller is replayed, unless it is for another Environment. */
  function LiveRecord(db: Database, key: Key, environment: string, observedAt: Time): Result<Option<Intent>> {
    if key !in db.intents then Ok(None)
    else if db.intents[key].expiresAt == 0 then Err(INVALID)
    else if db.intents[key].expiresAt <= observedAt then Ok(None)
    else if db.intents[key].environment != environment then Err(CONFLICT)
    else Ok(Some(db.intents[key]))
  }

  /** replayConnectionIntent. */
  function Replay(db: Database, key: Key, environment: string, observedAt: Time): Result<Option<Intent>> {
    match LiveRecord(db, key, environment, observedAt)
    case Err(e) => Err(e)
    case Ok(Some(existing)) => Ok(Some(existing))
    case Ok(None) => if key in db.operations then Err(CONFLICT) else Ok(None)
  }

  datatype Persisted = Returned(record: Intent) | Refused(error: string) | Raced

  /** The identity is unique over the rows that stay when this key's row is replaced. */
  predicate Unminted(db: Database, key: Key, id: string) {
    forall k :: k in db.intents && k != key ==> db.intents[k].id != id
  }

  /** What persistPreparedConnectionIntent returns: a new Intent with its expiry as it was asked
      for, a living one as it is stored. */
  function PersistOutcome(db: Database, key: Key, environment: string, observedAt: Time, expiresAt: Time,
                          checked: Result<Option<string>>, minted: string, now: Time): Persisted
  {
    match LiveRecord(db, key, environment, observedAt)
    case Err(e) => Refused(e)
    case Ok(Some(existing)) => Returned(existing)
    case Ok(None) =>
      if key in db.operations then Refused(CONFLICT)
      else if checked.Err? then Refused(checked.error)
      else if minted == "" then Refused("minted identity is invalid")
      else if !Unminted(db, key, minted) then Raced
      else Returned(Intent(environment, checked.value, minted, expiresAt, StoredTime(now), None))
  }

  /** The row it leaves: an expired row is replaced only if the insert commits. */
  function Persist(db: Database, key: Key, environment: string, observedAt: Time, expiresAt: Time,
                   checked: Result<Option<string>>, minted: string, now: Time): Database
  {
    var outcome := PersistOutcome(db, key, environment, observedAt, expiresAt, checked, minted, now);
    if outcome.Returned? && LiveRecord(db, key, environment, observedAt).value.None?
    then db.(intents := db.intents[key := StoredRow(outcome.record)]) else db
  }

  /** The row an UPDATE ... WHERE used_at IS NULL would spend, with the table's check
      that use lies between creation and expiry. */
  predicate Spendable(db: Database, key: Key, owner: string, id: string, environment: string, at: Time) {
    key in db.intents && key.owner == owner &&
    var row := db.intents[key];
    row.id == id && row.environment == environment && StoredTime(at) < row.expiresAt && row.usedAt.None? && row.createdAt < row.expiresAt
  }

  function Spend(db: Database, key: Key, at: Time): Database
    requires key in db.intents
  {
    var row := db.intents[key];
    db.(intents := db.intents[key := row.(usedAt := Some(if row.createdAt > StoredTime(at) then row.createdAt else StoredTime(at)))])
  }

  /** PruneConnectionIntents. */
  function Prune(db: Database, boundary: Time): Database {
    db.(intents := map k | k in db.intents && db.intents[k].expiresAt > StoredTime(boundary) :: db.intents[k])
  }

  /** The shared front of every lock-taking Operation writer: refuse an active Intent,
      replay the same request, insert a new one if the domain allows it. */
  function Reserve(db: Database, key: Key, operation: Operation, allowed: bool, now: Time): Result<Database> {
    if key in db.intents && db.intents[key].expiresAt > StoredTime(now) then Err(CONFLICT)
    else if key in db.operations then
      var existing := db.operations[key];
      if existing.environment == operation.environment && existing.kind == operation.kind && existing.input == operation.input
      then Ok(db) else Err(CONFLICT)
    else if !allowed then Err("Operation conflict")
    else Ok(db.(operations := db.operations[key := operation]))
  }

  /** No key has both an Operation and an Intent that is still alive. */
  ghost predicate Exclusive(db: Database, clock: Time) {
    forall key :: key in db.intents && key in db.operations ==> db.intents[key].expiresAt <= clock
  }

  /** No two rows share an identity. */
  ghost predicate DistinctIdentities(db: Database) {
    forall a, b :: a in db.intents && b in db.intents && a != b ==> db.intents[a].id != db.intents[b].id
  }

  lemma PersistKeepsTables(db: Database, key: Key, environment: string, observedAt: Time, expiresAt: Time,
                           checked: Result<Option<string>>, minted: string, now: Time, clock: Time)
    requires Exclusive(db, clock) && DistinctIdentities(db)
    ensures var after := Persist(db, key, environment, observedAt, expiresAt, checked, minted, now);
            Exclusive(after, clock) && DistinctIdentities(after)
  {
  }

  lemma SpendKeepsTables(db: Database, key: Key, at: Time, clock: Time)
    requires Exclusive(db, clock) && DistinctIdentities(db) && key in db.intents
    ensures Exclusive(Spend(db, key, at), clock) && DistinctIdentities(Spend(db, key, at))
  {
  }

  /** What is left once the key's row is deleted decides the insert. */
  lemma Replacing(db: Database, key: Key, id: string, rest: map<Key, Intent>, row: Intent)
    requires rest == db.intents - {key} || (key !in db.intents && rest == db.intents)
    ensures Unminted(db, key, id) <==> forall k :: k in rest ==> rest[k].id != id
    ensures rest[key := row] == db.intents[key := row]
  {
    assert forall k :: k in rest <==> k in db.intents && k != key;
  }

  /** The store, transaction by transaction. The ghost clock is the latest time at which an
      Operation writer ran. */
  class Store {
    var intents: map<Key, Intent>
    var operations: map<Key, Operation>
    ghost var clock: Time

    ghost predicate Valid()
      reads this
    {
      Exclusive(Tables(), clock) && DistinctIdentities(Tables())
    }

    function Tables(): Database
      reads this
    {
      Database(intents, operations)
    }

    constructor (ghost clock: Time)
      ensures Valid() && Tables() == Database(map[], map[]) && this.clock == clock
    {
      intents, operations := map[], map[];
      this.clock := clock;
    }

    method ReplayConnectionIntent(key: Key, environment: string, observedAt: Time) returns (r: Result<Option<Intent>>)
      ensures r == Replay(Tables(), key, environment, observedAt)
      ensures r.Ok? && r.value.Some? <==>
                key in intents && intents[key].expiresAt != 0 && observedAt < intents[key].expiresAt && intents[key].environment == environment
      ensures r.Ok? && r.value.Some? ==> r.value.value == intents[key]
      ensures r.Ok? && r.value.None? <==>
                && (key in intents ==> intents[key].expiresAt != 0 && intents[key].expiresAt <= observedAt)
                && key !in operations
    {
      if key in intents && intents[key].expiresAt == 0 {
        return Err(INVALID);
      }
      if key in intents && intents[key].expiresAt > observedAt {
        if intents[key].environment != environment {
          return Err(CONFLICT);
        }
        return Ok(Some(intents[key]));
      }
      if key in operations {
        return Err(CONFLICT);
      }
      return Ok(None);
    }

    /** An insert under the unique index on identities. */
    method InsertRow(key: Key, row: Intent) returns (ok: bool)
      requires key !in intents
      modifies this`intents
      ensures ok <==> forall k :: k in old(intents) ==> old(intents)[k].id != row.id
      ensures intents == if ok then old(intents)[key := row] else old(intents)
    {
      if exists k :: k in intents && intents[k].id == row.id {
        return false;
      }
      intents := intents[key := row];
      ok := true;
    }

    /** Minting happens only after every check has passed. */
    method PersistPreparedConnectionIntent(key: Key, environment: string, observedAt: Time, expiresAt: Time,
                                           checked: Result<Option<string>>, minted: string, now: Time)
      returns (outcome: Persisted)
      requires Valid()
      modifies this`intents
      ensures Valid()
      ensures outcome == PersistOutcome(old(Tables()), key, environment, observedAt, expiresAt, checked, minted, now)
      ensures Tables() == Persist(old(Tables()), key, environment, observedAt, expiresAt, checked, minted, now)
      ensures var before := old(intents);
              var living := key in before && before[key].expiresAt != 0 && observedAt < before[key].expiresAt;
              var free :=
                && !living && (key in before ==> before[key].expiresAt != 0)
                && key !in operations && checked.Ok? && minted != "";
              var unused := forall k :: k in before && k != key ==> before[k].id != minted;
              && (living && before[key].environment == environment ==> outcome == Returned(before[key]))
              && (outcome.Raced? <==> free && !unused)
              && (outcome.Returned? && !living <==> free && unused)
              && (free && unused ==>
                    && outcome == Returned(Intent(environment, checked.value, minted, expiresAt, StoredTime(now), None))
                    && intents == before[key := Intent(environment, checked.value, minted, StoredTime(expiresAt), StoredTime(now), None)])
              && (!(free && unused) ==> intents == before)
              && (living && before[key].environment != environment ==> outcome == Refused(CONFLICT))
              && (!living && key in operations && (key in before ==> before[key].expiresAt != 0) ==> outcome == Refused(CONFLICT))
    {
      PersistKeepsTables(Tables(), key, environment, observedAt, expiresAt, checked, minted, now, clock);
      hide Exclusive, DistinctIdentities, Unminted, StoredTime;
      var before := intents;
      if key in intents {
        if intents[key].expiresAt == 0 {
          return Refused(INVALID);
        }
        if intents[key].expiresAt > observedAt {
          if intents[key].environment != environment {
            return Refused(CONFLICT);
          }
          return Returned(intents[key]);
        }
        intents := intents - {key};
      }
      if key in operations {
        intents := before;
        return Refused(CONFLICT);
      }
      if checked.Err? {
        intents := before;
        return Refused(checked.error);
      }
      if minted == "" {
        intents := before;
        return Refused("minted identity is invalid");
      }
      var record := Intent(environment, checked.value, minted, expiresAt, StoredTime(now), None);
      Replacing(old(Tables()), key, minted, intents, StoredRow(record));
      var inserted := InsertRow(key, StoredRow(record));
      if !inserted {
        intents := before;
        return Raced;
      }
      outcome := Returned(record);
    }

    /** Spends one matching row, if there is one. */
    method ConsumeConnectionIntent(owner: string, id: string, environment: string, at: Time)
      returns (spent: Option<Key>)
      requires Valid()
      modifies this`intents
      ensures Valid()
      ensures spent.Some? ==>
                Spendable(old(Tables()), spent.value, owner, id, environment, at) &&
                Tables() == Spend(old(Tables()), spent.value, at)
      ensures spent.None? ==>
                Tables() == old(Tables()) && forall k :: !Spendable(old(Tables()), k, owner, id, environment, at)
      ensures spent.Some? <==>
                exists k :: k in old(intents)
                  && k.owner == owner && old(intents)[k].id == id && old(intents)[k].environment == environment
                  && old(intents)[k].usedAt.None? && old(intents)[k].createdAt < old(intents)[k].expiresAt
                  && StoredTime(at) < old(intents)[k].expiresAt
      ensures spent.Some? ==>
                && spent.value in old(intents)
                && var row := old(intents)[spent.value];
                && spent.value.owner == owner && row.id == id && row.environment == environment && row.usedAt.None?
                && StoredTime(at) < row.expiresAt
                && exists used ::
                     && intents == old(intents)[spent.value := row.(usedAt := Some(used))]
                     && StoredTime(at) <= used && row.createdAt <= used < row.expiresAt
                     && (used == StoredTime(at) || used == row.createdAt)
    {
      hide StoredTime, Exclusive, DistinctIdentities;
      if exists k :: k in intents && Spendable(Tables(), k, owner, id, environment, at) {
        var k :| k in intents && Spendable(Tables(), k, owner, id, environment, at);
        var row := intents[k];
        var used := if row.createdAt > StoredTime(at) then row.createdAt else StoredTime(at);
        SpendKeepsTables(Tables(), k, at, clock);
        intents := intents[k := row.(usedAt := Some(used))];
        return Some(k);
      }
      return None;
    }

    method PruneConnectionIntents(boundary: Time)
      requires Valid()
      modifies this`intents
      ensures Valid()
      ensures Tables() == Prune(old(Tables()), boundary)
      ensures forall k :: k in intents <==> k in old(intents) && StoredTime(boundary) < old(intents)[k].expiresAt
      ensures forall k :: k in intents ==> intents[k] == old(intents)[k]
    {
      intents := map k | k in intents && intents[k].expiresAt > StoredTime(boundary) :: intents[k];
    }

    method ReserveRuntimeOperation(key: Key, operation: Operation, allowed: bool, now: Time) returns (ok: bool)
      requires Valid() && clock <= now
      modifies this`operations, this`clock
      ensures Valid() && clock == now
      ensures ok <==> Reserve(old(Tables()), key, operation, allowed, now).Ok?
      ensures Tables() == if ok then Reserve(old(Tables()), key, operation, allowed, now).value else old(Tables())
      ensures ok <==>
                && (key in intents ==> intents[key].expiresAt <= StoredTime(now))
                && if key in old(operations) then
                     && operation.environment == old(operations)[key].environment
                     && operation.kind == old(operations)[key].kind && operation.input == old(operations)[key].input
                   else allowed
      ensures operations == if ok && key !in old(operations) then old(operations)[key := operation] else old(operations)
    {
      clock := now;
      if key in intents && intents[key].expiresAt > StoredTime(now) {
        return false;
      }
      if key in operations {
        var existing := operations[key];
        return existing.environment == operation.environment && existing.kind == operation.kind &&
               existing.input == operation.input;
      }
      if !allowed {
        return false;
      }
      operations := operations[key := operation];
      ok := true;
    }
  }
}
