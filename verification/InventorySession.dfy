// One inventory run as a database session: the bookkeeping committed first,
// the loop over the records, the refreshed optimizations, and commit or
// rollback of the whole.
module InventorySession {
  import opened Wrappers
  import opened Extensionality
  import opened Fleet
  import opened Lists
  import opened Ordering
  import opened Recommendation
  import opened Optimization
  import opened Inventory

  datatype RunError = ProvisionerDisabled | DiscoveryFailed | FlushFailed

  datatype ProvisionerRow = ProvisionerRow(
    platformId: int,
    enabled: bool,
    lastRunAt: Option<int>,
    lastSuccessAt: Option<int>,
    lastError: Option<RunError>)

  datatype Outcome =
    | ProvisionerNotFound
    | Failed(error: RunError)
    | Completed(created: nat, updated: nat, flavorChanges: nat)

  // The row is a from-scratch evaluation of the machine at its timestamp.
  ghost predicate IsEvaluation(row: Snapshot, telemetry: Telemetry, id: int, machine: Machine, settings: Settings)
    requires settings.Valid()
  {
    row == BuildSnapshot(telemetry, id, machine, settings, row.computedAt)
  }

  // The optimization rows after a run: those of the touched machines are
  // evaluations of the final machines, and no other row moved.
  ghost predicate Refreshed(before: map<int, Snapshot>, after: map<int, Snapshot>, telemetry: Telemetry,
                            machines: Machines,
                            settings: Settings, touched: set<int>)
    requires settings.Valid()
  {
    && (forall id :: id in touched ==>
          id in machines && id in after && IsEvaluation(after[id], telemetry, id, machines[id], settings))
    && (forall id :: id !in touched ==> (id in after <==> id in before))
    && (forall id :: id in before && id !in touched ==> after[id] == before[id])
  }

  lemma RefreshedExtends(before: map<int, Snapshot>, mid: map<int, Snapshot>, telemetry: Telemetry, machines: Machines,
                         settings: Settings, touched: set<int>, id: int, now: int)
    requires settings.Valid() && id in machines
    requires Refreshed(before, mid, telemetry, machines, settings, touched)
    ensures Refreshed(before, mid[id := BuildSnapshot(telemetry, id, machines[id], settings, now)], telemetry, machines,
                      settings, touched + {id})
  {
  }

  // What the guarded part of a run reports, the rows it leaves and the
  // machines it refreshes.
  function Attempt(db: Database, origin: Origin, discovered: Option<seq<Record>>, now: int): (Outcome, Database,
                   set<int>)
    requires Begin(db.machines, db.history, db.nextId).Valid()
  {
    if discovered.None? then (Failed(DiscoveryFailed), db, {})
    else
      match RunInventory(db.machines, db.history, db.nextId, origin, discovered.value, now)
      case None => (Failed(FlushFailed), db, {})
      case Some(tx) =>
        (Completed(tx.created, tx.updated, tx.flavorChanges), Database(tx.rows, tx.history, tx.nextId), tx.touched)
  }

  function Expected(db: Database, provisioners: map<int, ProvisionerRow>, id: int, discovered: Option<seq<Record>>,
                    now: int): (Outcome, Database, set<int>)
    requires Begin(db.machines, db.history, db.nextId).Valid()
  {
    if id !in provisioners then (ProvisionerNotFound, db, {})
    else if !provisioners[id].enabled then (Failed(ProvisionerDisabled), db, {})
    else Attempt(db, Origin(id, provisioners[id].platformId), discovered, now)
  }

  // The bookkeeping of the provisioner, whatever the outcome.
  function Booked(provisioners: map<int, ProvisionerRow>, id: int, outcome: Outcome,
                  now: int): map<int, ProvisionerRow> {
    if id !in provisioners then provisioners
    else
      var started := provisioners[id].(lastRunAt := Some(now));
      provisioners[id := match outcome
                         case ProvisionerNotFound => started
                         case Failed(error) => started.(lastError := Some(error))
                         case Completed(_, _, _) => started.(lastSuccessAt := Some(now), lastError := None)]
  }

  // Which outcome a run has, and what a completed one reports and leaves.
  lemma OutcomeMeaning(db: Database, provisioners: map<int, ProvisionerRow>, id: int,
                       discovered: Option<seq<Record>>, now: int)
    requires Begin(db.machines, db.history, db.nextId).Valid()
    ensures var (outcome, after, touched) := Expected(db, provisioners, id, discovered, now);
            && (outcome.ProvisionerNotFound? <==> id !in provisioners)
            && (outcome == Failed(ProvisionerDisabled) <==> id in provisioners && !provisioners[id].enabled)
            && (outcome == Failed(DiscoveryFailed) <==> id in provisioners && provisioners[id].enabled && discovered.None?)
            && (id in provisioners && provisioners[id].enabled && discovered.Some? ==>
                  var run := RunInventory(db.machines, db.history, db.nextId,
                                          Origin(id, provisioners[id].platformId), discovered.value, now);
                  && (outcome == Failed(FlushFailed) <==> run.None?)
                  && (run.Some? ==>
                        && outcome == Completed(run.value.created, run.value.updated, run.value.flavorChanges)
                        && after == Database(run.value.rows, run.value.history, run.value.nextId)
                        && touched == run.value.touched))
  {
  }

  // The bookkeeping of a run that found its provisioner: when it ran, when it
  // last succeeded, and the error of exactly the failed runs.
  lemma BookkeepingMeaning(provisioners: map<int, ProvisionerRow>, id: int, outcome: Outcome, now: int)
    requires id in provisioners && !outcome.ProvisionerNotFound?
    ensures var after := Booked(provisioners, id, outcome, now);
            && after.Keys == provisioners.Keys
            && (forall other :: other in provisioners && other != id ==> after[other] == provisioners[other])
            && after[id].platformId == provisioners[id].platformId && after[id].enabled == provisioners[id].enabled
            && after[id].lastRunAt == Some(now)
            && (outcome.Completed? ==> after[id].lastSuccessAt == Some(now))
            && (outcome.Failed? ==> after[id].lastSuccessAt == provisioners[id].lastSuccessAt)
            && (outcome.Completed? ==> after[id].lastError.None?)
            && (outcome.Failed? ==> after[id].lastError == Some(outcome.error))
  {
    var after := Booked(provisioners, id, outcome, now);
    forall k ensures k in after.Keys <==> k in provisioners.Keys {
    }
    SetsEqual(after.Keys, provisioners.Keys);
  }

  // A completed run accounts for every record; any other one leaves every
  // row alone and marks no machine for a refresh.
  lemma ExpectedMeaning(db: Database, provisioners: map<int, ProvisionerRow>, id: int,
                        discovered: Option<seq<Record>>, now: int)
    requires Begin(db.machines, db.history, db.nextId).Valid()
    ensures var (outcome, after, touched) := Expected(db, provisioners, id, discovered, now);
            && Begin(after.machines, after.history, after.nextId).Valid()
            && touched <= after.machines.Keys
            && (!outcome.Completed? ==> after == db && touched == {})
            && (outcome.Completed? ==>
                  && outcome.created + outcome.updated == |discovered.value|
                  && db.history <= after.history
                  && |after.history| == |db.history| + outcome.created + outcome.flavorChanges)
  {
    if id in provisioners && discovered.Some? {
      RunAccounts(db.machines, db.history, db.nextId, Origin(id, provisioners[id].platformId), discovered.value, now);
    }
  }

  method InsertMachine(tx: Tx, machine: Machine, row: HistoryRow) returns (after: Option<Tx>)
    requires tx.Valid()
    ensures after == InsertRow(tx, machine, row)
  {
    var current := tx;
    current := current.(memory := tx.memory[tx.nextId := machine]);
    var flushed := Flush(current.rows, current.memory);
    if flushed.None? {
      return None;
    }
    current := current.(rows := flushed.value);
    current := current.(nextId := tx.nextId + 1);
    current := current.(history := tx.history + [row]);
    current := current.(touched := tx.touched + {tx.nextId});
    current := current.(created := tx.created + 1);
    return Some(current);
  }

  method UpdateMachine(tx: Tx, origin: Origin, record: Record, id: int, now: int) returns (after: Tx)
    requires id in tx.memory
    ensures after == Update(tx, origin, record, id, now)
  {
    after := tx;
    if tx.memory[id].flavor != record.flavor {
      after := after.(history := tx.history + [HistoryRow(id, origin.id, record.flavor, now)]);
      after := after.(flavorChanges := tx.flavorChanges + 1);
      after := after.(touched := tx.touched + {id});
    }
    after := after.(memory := tx.memory[id := Overwrite(tx.memory[id], origin, record)]);
    after := after.(updated := tx.updated + 1);
  }

  // The body of the loop: find the machine, then insert or update.
  method ProcessRecord(tx: Tx, origin: Origin, raw: Record, now: int) returns (after: Option<Tx>)
    requires tx.Valid()
    ensures after == Inventory.Step(tx, origin, raw, now)
  {
    var record := NormalizeRecord(raw);
    var found := FindMachine(tx.rows, origin, record);
    if found.None? {
      after := InsertMachine(tx, NewMachine(origin, record), HistoryRow(tx.nextId, origin.id, record.flavor, now));
    } else {
      FindMachineMeaning(tx.rows, origin, record);
      var updated := UpdateMachine(tx, origin, record, found.value, now);
      after := Some(updated);
    }
  }

  // Once a prefix of the records fails, the whole run does.
  lemma {:induction false} FailsFrom(tx: Tx, origin: Origin, records: seq<Record>, n: nat, now: int)
    requires tx.Valid() && n <= |records|
    requires ProcessAll(tx, origin, records[..n], now).None?
    ensures ProcessAll(tx, origin, records, now).None?
    decreases |records|
  {
    if n < |records| {
      assert records[..|records| - 1][..n] == records[..n];
      FailsFrom(tx, origin, records[..|records| - 1], n, now);
    } else {
      assert records[..n] == records;
    }
  }

  // The next record of a run in progress; its failure is the failure of the run.
  lemma ProcessNext(begin: Tx, origin: Origin, records: seq<Record>, i: nat, now: int)
    requires begin.Valid() && i < |records|
    requires ProcessAll(begin, origin, records[..i], now).Some?
    ensures var next := Inventory.Step(ProcessAll(begin, origin, records[..i], now).value, origin, records[i], now);
            && ProcessAll(begin, origin, records[..i + 1], now) == next
            && (next.None? ==> ProcessAll(begin, origin, records, now).None?)
  {
    assert records[..i + 1][..i] == records[..i];
    if ProcessAll(begin, origin, records[..i + 1], now).None? {
      FailsFrom(begin, origin, records, i + 1, now);
    }
  }

  class Session {
    var machines: Machines
    var history: seq<HistoryRow>
    var nextId: int
    var provisioners: map<int, ProvisionerRow>
    const optimizations: OptimizationTable

    ghost predicate Valid()
      reads this
    {
      Begin(machines, history, nextId).Valid()
    }

    ghost function Db(): Database
      reads this
    {
      Database(machines, history, nextId)
    }

    constructor (optimizations: OptimizationTable, provisioners: map<int, ProvisionerRow>)
      ensures Valid() && machines == map[] && history == [] && nextId == 0
      ensures this.optimizations == optimizations && this.provisioners == provisioners
    {
      machines, history, nextId := map[], [], 0;
      this.optimizations, this.provisioners := optimizations, provisioners;
    }

    // The loop over the records and the flush that follows it; None when the
    // transaction has to be rolled back.
    method Upsert(origin: Origin, records: seq<Record>, now: int) returns (after: Option<Tx>)
      requires Valid()
      ensures after == RunInventory(machines, history, nextId, origin, records, now)
    {
      ghost var begin := Begin(machines, history, nextId);
      var tx := Begin(machines, history, nextId);
      for i := 0 to |records|
        invariant ProcessAll(begin, origin, records[..i], now) == Some(tx)
      {
        ProcessNext(begin, origin, records, i, now);
        var next := ProcessRecord(tx, origin, records[i], now);
        if next.None? {
          return None;
        }
        tx := next.value;
      }
      assert records[..|records|] == records;
      var flushed := Flush(tx.rows, tx.memory);
      if flushed.None? {
        return None;
      }
      return Some(tx.(rows := flushed.value));
    }

    method RefreshOne(telemetry: Telemetry, settings: Settings, memory: Machines, id: int, now: int,
                      ghost rows: map<int, Snapshot>, ghost done: set<int>)
      requires settings.Valid() && id in memory
      requires Refreshed(rows, optimizations.rows, telemetry, memory, settings, done)
      modifies optimizations
      ensures Refreshed(rows, optimizations.rows, telemetry, memory, settings, done + {id})
    {
      RefreshedExtends(rows, optimizations.rows, telemetry, memory, settings, done, id, now);
      var _ := optimizations.Refresh(memory, telemetry, settings, id, now);
    }

    // The touched machines in id order; clock(k) is the time of the k-th.
    method RefreshTouched(telemetry: Telemetry, settings: Settings, memory: Machines, touched: set<int>,
                          clock: int -> int)
      requires settings.Valid()
      requires touched <= memory.Keys
      modifies optimizations
      ensures Refreshed(old(optimizations.rows), optimizations.rows, telemetry, memory, settings, touched)
    {
      var ids := Ascending(touched);
      ghost var rows := optimizations.rows;
      for k := 0 to |ids|
        invariant Refreshed(rows, optimizations.rows, telemetry, memory, settings, Elements(ids[..k]))
      {
        ElementsExtend(ids, k);
        RefreshOne(telemetry, settings, memory, ids[k], clock(k), rows, Elements(ids[..k]));
      }
      ElementsAll(ids, touched);
    }

    // The part whose exceptions roll everything back.
    method TryRun(origin: Origin, discovered: Option<seq<Record>>, telemetry: Telemetry, settings: Settings,
                  now: int, clock: int -> int)
      returns (outcome: Outcome)
      requires Valid() && settings.Valid()
      modifies this`machines, this`history, this`nextId, optimizations
      ensures Valid()
      ensures outcome == Attempt(old(Db()), origin, discovered, now).0
      ensures Db() == Attempt(old(Db()), origin, discovered, now).1
      ensures Refreshed(old(optimizations.rows), optimizations.rows, telemetry, machines, settings,
                        Attempt(old(Db()), origin, discovered, now).2)
    {
      if discovered.None? {
        return Failed(DiscoveryFailed);
      }
      var after := Upsert(origin, discovered.value, now);
      if after.None? {
        return Failed(FlushFailed);
      }
      RunAccounts(machines, history, nextId, origin, discovered.value, now);
      var tx := after.value;
      RefreshTouched(telemetry, settings, tx.memory, tx.touched, clock);
      machines, history, nextId := tx.rows, tx.history, tx.nextId;
      return Completed(tx.created, tx.updated, tx.flavorChanges);
    }

    // `discovered` is what the connector returned, None when it raised.
    method RunProvisioner(id: int, discovered: Option<seq<Record>>, telemetry: Telemetry, settings: Settings,
                          now: int, clock: int -> int)
      returns (outcome: Outcome)
      requires Valid() && settings.Valid()
      modifies this, optimizations
      ensures Valid()
      ensures outcome == Expected(old(Db()), old(provisioners), id, discovered, now).0
      ensures Db() == Expected(old(Db()), old(provisioners), id, discovered, now).1
      ensures provisioners == Booked(old(provisioners), id, outcome, now)
      ensures Refreshed(old(optimizations.rows), optimizations.rows, telemetry, machines, settings,
                        Expected(old(Db()), old(provisioners), id, discovered, now).2)
    {
      if id !in provisioners {
        return ProvisionerNotFound;
      }
      provisioners := provisioners[id := provisioners[id].(lastRunAt := Some(now), lastError := None)];
      if !provisioners[id].enabled {
        provisioners := provisioners[id := provisioners[id].(lastError := Some(ProvisionerDisabled))];
        assert provisioners == Booked(old(provisioners), id, Failed(ProvisionerDisabled), now);
        return Failed(ProvisionerDisabled);
      }
      outcome := TryRun(Origin(id, provisioners[id].platformId), discovered, telemetry, settings, now, clock);
      if outcome.Completed? {
        provisioners := provisioners[id := provisioners[id].(lastSuccessAt := Some(now), lastError := None)];
      } else {
        provisioners := provisioners[id := provisioners[id].(lastError := Some(outcome.error))];
      }
      assert provisioners == Booked(old(provisioners), id, outcome, now);
    }
  }
}
