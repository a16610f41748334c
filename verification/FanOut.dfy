// Expansion of application syncs and of provider dispatches into one task per
// (machine, provider) pair, and why both describe the same pairs.
module FanOut {
  import opened Wrappers
  import opened Fleet
  import opened Lists
  import opened Ordering
  import opened Projection
  import AD = ApplicationDispatch
  import DispatchProtocol
  import Collection
  import Domain
  import Inventory
  import Metrics
  import Optimization

  datatype Pair = Pair(machine: int, provider: int)

  type Providers = map<int, Provider>

  /* Pairs of one application row */

  // The candidates that see one machine.
  function SeenBy(id: int, machine: Machine, providers: Providers, candidates: seq<int>): (pairs: seq<Pair>)
    requires forall k :: 0 <= k < |candidates| ==> candidates[k] in providers
    ensures forall k :: 0 <= k < |pairs| ==> pairs[k].machine == id
  {
    if candidates == [] then []
    else
      var last := candidates[|candidates| - 1];
      SeenBy(id, machine, providers, candidates[..|candidates| - 1])
      + if providers[last].Sees(machine) then [Pair(id, last)] else []
  }

  lemma {:induction false} SeenByMeaning(id: int, machine: Machine, providers: Providers, candidates: seq<int>)
    requires forall k :: 0 <= k < |candidates| ==> candidates[k] in providers
    ensures forall p :: Pair(id, p) in SeenBy(id, machine, providers, candidates) <==>
                        p in candidates && providers[p].Sees(machine)
    ensures Distinct(candidates) ==> Distinct(SeenBy(id, machine, providers, candidates))
  {
    if candidates != [] {
      var rest := candidates[..|candidates| - 1];
      var last := candidates[|candidates| - 1];
      SeenByMeaning(id, machine, providers, rest);
      assert candidates == rest + [last];
      InConcat(rest, [last]);
      var before := SeenBy(id, machine, providers, rest);
      var more := if providers[last].Sees(machine) then [Pair(id, last)] else [];
      InConcat(before, more);
      if Distinct(candidates) {
        assert last !in rest;
        assert Pair(id, last) !in before;
        DistinctConcat(before, more);
      }
    }
  }

  function PairsOf(machines: Machines, providers: Providers, ids: seq<int>, candidates: seq<int>): seq<Pair>
    requires forall k :: 0 <= k < |ids| ==> ids[k] in machines
    requires forall k :: 0 <= k < |candidates| ==> candidates[k] in providers
  {
    if ids == [] then []
    else
      var last := ids[|ids| - 1];
      PairsOf(machines, providers, ids[..|ids| - 1], candidates) + SeenBy(last, machines[last], providers, candidates)
  }

  lemma {:induction false} PairsOfMeaning(machines: Machines, providers: Providers, ids: seq<int>, candidates: seq<int>)
    requires forall k :: 0 <= k < |ids| ==> ids[k] in machines
    requires forall k :: 0 <= k < |candidates| ==> candidates[k] in providers
    ensures forall pair :: pair in PairsOf(machines, providers, ids, candidates) <==>
                           && pair.machine in ids && pair.provider in candidates
                           && providers[pair.provider].Sees(machines[pair.machine])
    ensures Distinct(ids) && Distinct(candidates) ==> Distinct(PairsOf(machines, providers, ids, candidates))
  {
    if ids != [] {
      var rest := ids[..|ids| - 1];
      var last := ids[|ids| - 1];
      PairsOfMeaning(machines, providers, rest, candidates);
      SeenByMeaning(last, machines[last], providers, candidates);
      assert ids == rest + [last];
      InConcat(rest, [last]);
      var before := PairsOf(machines, providers, rest, candidates);
      var more := SeenBy(last, machines[last], providers, candidates);
      InConcat(before, more);
      forall pair ensures pair in more <==> pair.machine == last && Pair(last, pair.provider) in more {
      }
      if Distinct(ids) && Distinct(candidates) {
        assert last !in rest;
        forall i, j | 0 <= i < |before| && 0 <= j < |more| ensures before[i] != more[j] {
          assert before[i] in before && more[j].machine == last;
        }
        DistinctConcat(before, more);
      }
    }
  }

  function Members(machines: Machines, key: Key): set<int> {
    set id | id in machines && Belongs(machines[id], key)
  }

  function PlatformsOf(machines: Machines, ids: set<int>): set<int>
    requires ids <= machines.Keys
  {
    set id | id in ids :: machines[id].platformId
  }

  function EnabledOn(providers: Providers, platforms: set<int>): set<int> {
    set id | id in providers && providers[id].enabled && providers[id].platformId in platforms
  }

  function ApplicationPairs(machines: Machines, providers: Providers, key: Key): seq<Pair> {
    var members := Members(machines, key);
    PairsOf(machines, providers, Ascending(members), Ascending(EnabledOn(providers, PlatformsOf(machines, members))))
  }

  // An enabled provider and a machine it can collect for.
  predicate Observable(machines: Machines, providers: Providers, pair: Pair) {
    && pair.machine in machines
    && pair.provider in providers
    && providers[pair.provider].enabled
    && providers[pair.provider].Sees(machines[pair.machine])
  }

  lemma AscendingIsDistinct(s: set<int>)
    ensures Distinct(Ascending(s))
  {
  }

  // Restricting the providers to the platforms of the row loses none.
  lemma ApplicationPairsMeaning(machines: Machines, providers: Providers, key: Key)
    ensures forall pair :: pair in ApplicationPairs(machines, providers, key) <==>
                           Observable(machines, providers, pair) && Belongs(machines[pair.machine], key)
    ensures Distinct(ApplicationPairs(machines, providers, key))
  {
    var members := Members(machines, key);
    var candidates := EnabledOn(providers, PlatformsOf(machines, members));
    PairsOfMeaning(machines, providers, Ascending(members), Ascending(candidates));
    AscendingIsDistinct(members);
    AscendingIsDistinct(candidates);
    forall pair | Observable(machines, providers, pair) && Belongs(machines[pair.machine], key)
      ensures pair.machine in members && pair.provider in candidates
    {
      assert machines[pair.machine].platformId in PlatformsOf(machines, members);
    }
  }

  /* All rows */

  function RowsFanOut(rows: map<int, Application>, ids: seq<int>, machines: Machines, providers: Providers): seq<Pair>
    requires forall k :: 0 <= k < |ids| ==> ids[k] in rows
  {
    if ids == [] then []
    else
      RowsFanOut(rows, ids[..|ids| - 1], machines, providers)
      + ApplicationPairs(machines, providers, rows[ids[|ids| - 1]].key)
  }

  // Every row's sync, one after the other.
  function ApplicationFanOut(rows: map<int, Application>, machines: Machines, providers: Providers): seq<Pair> {
    RowsFanOut(rows, Ascending(rows.Keys), machines, providers)
  }

  // No machine is in two rows.
  predicate Disjoint(rows: map<int, Application>, machines: Machines) {
    forall m, a, b ::
      (m in machines && a in rows && b in rows && Belongs(machines[m], rows[a].key) && Belongs(machines[m], rows[b].key))
      ==> a == b
  }

  predicate InSome(rows: map<int, Application>, ids: seq<int>, machine: Machine)
    requires forall k :: 0 <= k < |ids| ==> ids[k] in rows
  {
    exists k :: 0 <= k < |ids| && Belongs(machine, rows[ids[k]].key)
  }

  lemma InSomeNext(rows: map<int, Application>, ids: seq<int>, machine: Machine)
    requires ids != [] && forall k :: 0 <= k < |ids| ==> ids[k] in rows
    ensures InSome(rows, ids, machine) <==>
            InSome(rows, ids[..|ids| - 1], machine) || Belongs(machine, rows[ids[|ids| - 1]].key)
  {
  }

  lemma {:induction false} RowsFanOutMeaning(rows: map<int, Application>, ids: seq<int>, machines: Machines,
                                             providers: Providers)
    requires forall k :: 0 <= k < |ids| ==> ids[k] in rows
    ensures forall pair :: pair in RowsFanOut(rows, ids, machines, providers) <==>
                           Observable(machines, providers, pair) && InSome(rows, ids, machines[pair.machine])
  {
    if ids != [] {
      var rest := ids[..|ids| - 1];
      var key := rows[ids[|ids| - 1]].key;
      RowsFanOutMeaning(rows, rest, machines, providers);
      ApplicationPairsMeaning(machines, providers, key);
      InConcat(RowsFanOut(rows, rest, machines, providers), ApplicationPairs(machines, providers, key));
      forall m | m in machines
        ensures InSome(rows, ids, machines[m]) <==> InSome(rows, rest, machines[m]) || Belongs(machines[m], key)
      {
        InSomeNext(rows, ids, machines[m]);
      }
    }
  }

  lemma NotInBoth(rows: map<int, Application>, ids: seq<int>, machines: Machines, m: int)
    requires ids != [] && Distinct(ids) && forall k :: 0 <= k < |ids| ==> ids[k] in rows
    requires Disjoint(rows, machines) && m in machines
    ensures !(InSome(rows, ids[..|ids| - 1], machines[m]) && Belongs(machines[m], rows[ids[|ids| - 1]].key))
  {
  }

  lemma {:induction false} RowsFanOutOnce(rows: map<int, Application>, ids: seq<int>, machines: Machines,
                                          providers: Providers)
    requires Distinct(ids) && Disjoint(rows, machines) && forall k :: 0 <= k < |ids| ==> ids[k] in rows
    ensures Distinct(RowsFanOut(rows, ids, machines, providers))
  {
    if ids != [] {
      var rest := ids[..|ids| - 1];
      var key := rows[ids[|ids| - 1]].key;
      RowsFanOutOnce(rows, rest, machines, providers);
      RowsFanOutMeaning(rows, rest, machines, providers);
      ApplicationPairsMeaning(machines, providers, key);
      var before := RowsFanOut(rows, rest, machines, providers);
      var more := ApplicationPairs(machines, providers, key);
      forall i, j | 0 <= i < |before| && 0 <= j < |more| ensures before[i] != more[j] {
        assert before[i] in before && more[j] in more;
        if before[i].machine in machines { NotInBoth(rows, ids, machines, before[i].machine); }
      }
      DistinctConcat(before, more);
    }
  }

  /* Provider dispatch */

  function ScopedMachines(machines: Machines, provider: Provider): set<int> {
    set id | id in machines && provider.Sees(machines[id])
  }

  function ForProvider(provider: int, ids: seq<int>): (pairs: seq<Pair>)
    ensures |pairs| == |ids| && forall k :: 0 <= k < |ids| ==> pairs[k] == Pair(ids[k], provider)
  {
    seq(|ids|, k requires 0 <= k < |ids| => Pair(ids[k], provider))
  }

  function ProvidersFanOut(machines: Machines, providers: Providers, ids: seq<int>): seq<Pair>
    requires forall k :: 0 <= k < |ids| ==> ids[k] in providers
  {
    if ids == [] then []
    else
      var last := ids[|ids| - 1];
      ProvidersFanOut(machines, providers, ids[..|ids| - 1])
      + ForProvider(last, Ascending(ScopedMachines(machines, providers[last])))
  }

  function Enabled(providers: Providers): set<int> {
    set id | id in providers && providers[id].enabled
  }

  // Every enabled provider's dispatch, one after the other.
  function ProviderFanOut(machines: Machines, providers: Providers): seq<Pair> {
    ProvidersFanOut(machines, providers, Ascending(Enabled(providers)))
  }

  lemma ForProviderMeaning(machines: Machines, providers: Providers, p: int)
    requires p in providers
    ensures var pairs := ForProvider(p, Ascending(ScopedMachines(machines, providers[p])));
            && Distinct(pairs)
            && forall pair :: pair in pairs <==>
                              pair.provider == p && pair.machine in machines && providers[p].Sees(machines[pair.machine])
  {
    var ids := Ascending(ScopedMachines(machines, providers[p]));
    var pairs := ForProvider(p, ids);
    forall pair ensures pair in pairs <==> pair.provider == p && pair.machine in ids {
      if pair.provider == p && pair.machine in ids {
        var k :| 0 <= k < |ids| && ids[k] == pair.machine;
        assert pairs[k] == pair;
      }
    }
  }

  predicate InFanOut(machines: Machines, providers: Providers, ids: seq<int>, pair: Pair)
    requires forall k :: 0 <= k < |ids| ==> ids[k] in providers
  {
    pair.provider in ids && pair.machine in machines && providers[pair.provider].Sees(machines[pair.machine])
  }

  lemma InFanOutUnfolds(machines: Machines, providers: Providers, ids: seq<int>, pair: Pair)
    requires ids != [] && forall k :: 0 <= k < |ids| ==> ids[k] in providers
    ensures var last := ids[|ids| - 1];
            InFanOut(machines, providers, ids, pair) <==>
            || InFanOut(machines, providers, ids[..|ids| - 1], pair)
            || (pair.provider == last && pair.machine in machines && providers[last].Sees(machines[pair.machine]))
  {
    assert ids == ids[..|ids| - 1] + [ids[|ids| - 1]];
  }

  lemma {:induction false} ProvidersFanOutMeaning(machines: Machines, providers: Providers, ids: seq<int>)
    requires forall k :: 0 <= k < |ids| ==> ids[k] in providers
    ensures forall pair :: pair in ProvidersFanOut(machines, providers, ids) <==> InFanOut(machines, providers, ids, pair)
  {
    if ids != [] {
      var rest, last := ids[..|ids| - 1], ids[|ids| - 1];
      ProvidersFanOutMeaning(machines, providers, rest);
      ForProviderMeaning(machines, providers, last);
      InConcat(ProvidersFanOut(machines, providers, rest),
               ForProvider(last, Ascending(ScopedMachines(machines, providers[last]))));
      forall pair ensures pair in ProvidersFanOut(machines, providers, ids) <==> InFanOut(machines, providers, ids, pair) {
        InFanOutUnfolds(machines, providers, ids, pair);
      }
    }
  }

  lemma {:induction false} ProvidersFanOutOnce(machines: Machines, providers: Providers, ids: seq<int>)
    requires Distinct(ids) && forall k :: 0 <= k < |ids| ==> ids[k] in providers
    ensures Distinct(ProvidersFanOut(machines, providers, ids))
  {
    if ids != [] {
      var rest, last := ids[..|ids| - 1], ids[|ids| - 1];
      var before := ProvidersFanOut(machines, providers, rest);
      var more := ForProvider(last, Ascending(ScopedMachines(machines, providers[last])));
      ProvidersFanOutOnce(machines, providers, rest);
      ProvidersFanOutMeaning(machines, providers, rest);
      ForProviderMeaning(machines, providers, last);
      assert last !in rest;
      forall i, j | 0 <= i < |before| && 0 <= j < |more| ensures before[i] != more[j] {
        assert before[i] in before && more[j] in more;
      }
      DistinctConcat(before, more);
    }
  }

  lemma ProviderFanOutMeaning(machines: Machines, providers: Providers)
    ensures forall pair :: pair in ProviderFanOut(machines, providers) <==> Observable(machines, providers, pair)
    ensures Distinct(ProviderFanOut(machines, providers))
  {
    AscendingIsDistinct(Enabled(providers));
    ProvidersFanOutMeaning(machines, providers, Ascending(Enabled(providers)));
    ProvidersFanOutOnce(machines, providers, Ascending(Enabled(providers)));
  }

  /* Both describe the same pairs */

  lemma RebuiltRowsPartition(table: Table, machines: Machines)
    requires table.Valid() && Mirrors(table.rows, Snapshot(machines)) && AllCanonical(machines)
    ensures Disjoint(table.rows, machines)
    ensures forall m :: m in machines ==>
              (InSome(table.rows, Ascending(table.rows.Keys), machines[m]) <==> machines[m].application.Some?)
  {
    var ids := Ascending(table.rows.Keys);
    forall m, a, b | m in machines && a in table.rows && b in table.rows
      && Belongs(machines[m], table.rows[a].key) && Belongs(machines[m], table.rows[b].key)
      ensures a == b
    {
      var row := MachineInOneRow(table, machines, m);
    }
    forall m | m in machines && machines[m].application.Some? ensures InSome(table.rows, ids, machines[m]) {
      var row := MachineInOneRow(table, machines, m);
      assert row in ids;
    }
  }

  // After a rebuild, syncing every application enqueues each observable pair
  // whose machine names an application exactly once: the pairs of the
  // provider dispatch restricted to those machines.
  lemma FanOutsAgree(table: Table, machines: Machines, providers: Providers)
    requires table.Valid() && Mirrors(table.rows, Snapshot(machines)) && AllCanonical(machines)
    ensures var byApplication := ApplicationFanOut(table.rows, machines, providers);
            var byProvider := ProviderFanOut(machines, providers);
            && Distinct(byApplication) && Distinct(byProvider)
            && (forall pair :: pair in byProvider <==> Observable(machines, providers, pair))
            && (forall pair :: pair in byApplication <==>
                               pair in byProvider && machines[pair.machine].application.Some?)
  {
    var ids := Ascending(table.rows.Keys);
    AscendingIsDistinct(table.rows.Keys);
    RebuiltRowsPartition(table, machines);
    RowsFanOutMeaning(table.rows, ids, machines, providers);
    RowsFanOutOnce(table.rows, ids, machines, providers);
    ProviderFanOutMeaning(machines, providers);
  }

  // A collection for an enqueued pair is in scope while the state is the same.
  lemma EnqueuedPairIsInScope(rows: map<int, Application>, row: int, machines: Machines,
                              telemetry: Optimization.Telemetry,
                              pair: Pair, collected: Option<seq<Metrics.MetricRecord>>, today: seq<int>)
    requires row in rows && pair in ApplicationPairs(machines, telemetry.providers, rows[row].key)
    requires collected.Some? ==> |today| == |collected.value|
    ensures var (outcome, _) := Collection.Collect(telemetry, machines, pair.provider, pair.machine, collected, today);
            outcome.Collected? || outcome.Failed?
  {
    ApplicationPairsMeaning(machines, telemetry.providers, rows[row].key);
  }

  /* One application sync, in place */

  datatype Report = Report(machines: nat, synced: nat, dispatched: bool)

  datatype Failure = ApplicationNotFound | EnqueueFailed

  class SyncSession {
    var rows: map<int, Application>

    constructor (rows: map<int, Application>)
      ensures this.rows == rows
    {
      this.rows := rows;
    }

    // `failAt` is the enqueue call that raises, if any.
    method Run(id: int, machines: Machines, providers: Providers, now: int, failAt: Option<nat>)
      returns (result: Result<Report, Failure>, enqueued: seq<Pair>)
      modifies this
      ensures id !in old(rows) ==> result == Err(ApplicationNotFound) && enqueued == [] && rows == old(rows)
      ensures id in old(rows) ==>
                var pairs := ApplicationPairs(machines, providers, old(rows)[id].key);
                var row := old(rows)[id];
                if failAt.Some? && failAt.value < |pairs| then
                  && result == Err(EnqueueFailed)
                  && enqueued == pairs[..failAt.value]
                  && rows == old(rows)[id := row.(sync := row.sync.(scheduledAt := None, error := Some(AD.SyncFailed)))]
                else
                  && result == Ok(Report(|Members(machines, row.key)|, |pairs|, pairs != []))
                  && enqueued == pairs
                  && rows == old(rows)[id := row.(sync := AD.Row(Some(now), None, None))]
    {
      enqueued := [];
      if id !in rows {
        return Err(ApplicationNotFound), [];
      }
      var row := rows[id];
      var pairs := ApplicationPairs(machines, providers, row.key);
      for i := 0 to |pairs|
        invariant rows == old(rows) && enqueued == pairs[..i]
        invariant failAt.Some? ==> i <= failAt.value
      {
        if failAt == Some(i) {
          rows := rows[id := row.(sync := row.sync.(scheduledAt := None, error := Some(AD.SyncFailed)))];
          return Err(EnqueueFailed), enqueued;
        }
        enqueued := enqueued + [pairs[i]];
      }
      rows := rows[id := row.(sync := AD.Row(Some(now), None, None))];
      result := Ok(Report(|Members(machines, row.key)|, |pairs|, pairs != []));
    }
  }

  function Syncs(rows: map<int, Application>): AD.Rows {
    map id | id in rows :: rows[id].sync
  }

  // Seen from the dispatch protocol, a sync is the end of its ticket.
  lemma SyncIsFinish(rows: map<int, Application>, id: int, now: int)
    requires id in rows
    ensures Syncs(rows[id := rows[id].(sync := AD.Row(Some(now), None, None))])
            == DispatchProtocol.Finish(Syncs(rows), id, Some(now))
    ensures Syncs(rows[id := rows[id].(sync := rows[id].sync.(scheduledAt := None, error := Some(AD.SyncFailed)))])
            == DispatchProtocol.Finish(Syncs(rows), id, None)
  {
  }

  /* The inventory stores canonical machines */

  lemma OverwriteIsCanonical(machine: Machine, origin: Inventory.Origin, record: Inventory.Record)
    ensures Canonical(Inventory.Overwrite(machine, origin, record))
  {
    Domain.NormalizeIsIdempotent(record.application, Domain.Upper);
    Domain.NormalizeIsIdempotent(record.environment, Domain.Upper);
    Domain.NormalizeIsIdempotent(record.region, Domain.Upper);
  }

  lemma InsertStoresCanonical(tx: Inventory.Tx, origin: Inventory.Origin, record: Inventory.Record, now: int)
    requires tx.Valid() && AllCanonical(tx.memory)
    ensures var after := Inventory.Insert(tx, origin, record, now); after.Some? ==> AllCanonical(after.value.memory)
  {
    Inventory.InsertIsValid(tx, origin, record, now);
    var blank := Machine(origin.platformId, None, None, None, "", None, None, Flavor(None, None, None), "");
    OverwriteIsCanonical(blank, origin, record);
  }

  lemma UpdateStoresCanonical(tx: Inventory.Tx, origin: Inventory.Origin, record: Inventory.Record, id: int, now: int)
    requires id in tx.memory && AllCanonical(tx.memory)
    ensures AllCanonical(Inventory.Update(tx, origin, record, id, now).memory)
  {
    OverwriteIsCanonical(tx.memory[id], origin, record);
  }

  lemma StepStoresCanonical(tx: Inventory.Tx, origin: Inventory.Origin, raw: Inventory.Record, now: int)
    requires tx.Valid() && AllCanonical(tx.memory)
    ensures var after := Inventory.Step(tx, origin, raw, now); after.Some? ==> AllCanonical(after.value.memory)
  {
    var record := Inventory.NormalizeRecord(raw);
    Inventory.FindMachineMeaning(tx.rows, origin, record);
    match Inventory.FindMachine(tx.rows, origin, record) {
      case Some(id) => UpdateStoresCanonical(tx, origin, record, id, now);
      case None => InsertStoresCanonical(tx, origin, record, now);
    }
  }

  // Over a whole run, the machines stay in the form the projection relies on.
  lemma {:induction false} InventoryStoresCanonical(tx: Inventory.Tx, origin: Inventory.Origin,
                                                    records: seq<Inventory.Record>, now: int)
    requires tx.Valid() && AllCanonical(tx.memory)
    ensures var after := Inventory.ProcessAll(tx, origin, records, now); after.Some? ==> AllCanonical(after.value.memory)
  {
    if records != [] {
      var before := Inventory.ProcessAll(tx, origin, records[..|records| - 1], now);
      InventoryStoresCanonical(tx, origin, records[..|records| - 1], now);
      if before.Some? {
        StepStoresCanonical(before.value, origin, records[|records| - 1], now);
      }
    }
  }

  lemma RunStoresCanonical(db: Inventory.Database, origin: Inventory.Origin, records: seq<Inventory.Record>, now: int)
    requires db.Valid() && AllCanonical(db.machines)
    ensures AllCanonical(Inventory.Perform(db, Inventory.Run(origin, records, now)).machines)
  {
    var begin := Inventory.Begin(db.machines, db.history, db.nextId);
    InventoryStoresCanonical(begin, origin, records, now);
    if Inventory.RunInventory(db.machines, db.history, db.nextId, origin, records, now).Some? {
      Inventory.RunEndsWithMemory(db.machines, db.history, db.nextId, origin, records, now);
    }
  }

  // Over any sequence of runs and deletions the machines stay canonical.
  lemma {:induction false} DatabaseStaysCanonical(db: Inventory.Database, events: seq<Inventory.Event>)
    requires db.Valid() && AllCanonical(db.machines)
    ensures AllCanonical(Inventory.PerformAll(db, events).machines)
    decreases |events|
  {
    if events != [] {
      Inventory.PerformKeepsValid(db, events[0]);
      match events[0] {
        case Run(origin, records, now) => RunStoresCanonical(db, origin, records, now);
        case Delete(_) =>
      }
      DatabaseStaysCanonical(Inventory.Perform(db, events[0]), events[1..]);
    }
  }

  // So after any history of the inventory and a rebuild, both fan-outs agree.
  lemma FanOutsAgreeAlways(events: seq<Inventory.Event>, table: Table, providers: Providers)
    requires table.Valid() && Mirrors(table.rows, Snapshot(Inventory.DatabaseAfter(events).machines))
    ensures var machines := Inventory.DatabaseAfter(events).machines;
            var byApplication := ApplicationFanOut(table.rows, machines, providers);
            var byProvider := ProviderFanOut(machines, providers);
            && Distinct(byApplication) && Distinct(byProvider)
            && (forall pair :: pair in byProvider <==> Observable(machines, providers, pair))
            && (forall pair :: pair in byApplication <==>
                               pair in byProvider && machines[pair.machine].application.Some?)
  {
    Inventory.EmptyIsValid();
    DatabaseStaysCanonical(Inventory.Database(map[], [], 0), events);
    FanOutsAgree(table, Inventory.DatabaseAfter(events).machines, providers);
  }
}
