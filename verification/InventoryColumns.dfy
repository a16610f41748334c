// What the inventory writes, column by column and in terms of the discovered
// records themselves: which machine a record hits, what its row holds
// afterwards, and what the history and the report say about it.
module InventoryColumns {
  import opened Wrappers
  import opened Domain
  import opened Extensionality
  import opened Fleet
  import opened Lists
  import opened Inventory

  /* Keys and matches */

  // Hostnames are unique on a platform, external ids on a provisioner.
  lemma UniqueMeaning(rows: Machines)
    ensures Unique(rows) <==>
            && (forall i, j :: i in rows && j in rows && i != j && rows[i].platformId == rows[j].platformId ==>
                  rows[i].hostname != rows[j].hostname)
            && (forall i, j :: i in rows && j in rows && i != j && rows[i].source.Some? && rows[i].externalId.Some? ==>
                  rows[i].source != rows[j].source || rows[i].externalId != rows[j].externalId)
  {
    if Unique(rows) {
      forall i, j | i in rows && j in rows && i != j
        ensures rows[i].platformId == rows[j].platformId ==> rows[i].hostname != rows[j].hostname
        ensures rows[i].source.Some? && rows[i].externalId.Some? ==>
                  rows[i].source != rows[j].source || rows[i].externalId != rows[j].externalId
      {
        assert !Clash(rows[i], rows[j]);
      }
    }
  }

  // A record finds the machine its provisioner knows by the external id, else
  // the one its platform knows by the hostname, else none.
  lemma FoundByColumns(rows: Machines, origin: Origin, raw: Record, id: int)
    requires Unique(rows) && id in rows
    ensures (&& NormalizeExternalId(raw.externalId).Some? && rows[id].source == Some(origin.id)
             && rows[id].externalId == NormalizeExternalId(raw.externalId)) ==> Found(rows, origin, raw) == Some(id)
    ensures rows[id].platformId == origin.platformId && rows[id].hostname == NormalizeHostname(raw.hostname)
            && (NormalizeExternalId(raw.externalId).None?
                || forall other :: other in rows && rows[other].source == Some(origin.id) ==>
                     rows[other].externalId != NormalizeExternalId(raw.externalId))
            ==> Found(rows, origin, raw) == Some(id)
    ensures Found(rows, origin, raw) == Some(id) ==>
              || (rows[id].source == Some(origin.id) && NormalizeExternalId(raw.externalId).Some?
                  && rows[id].externalId == NormalizeExternalId(raw.externalId))
              || (rows[id].platformId == origin.platformId && rows[id].hostname == NormalizeHostname(raw.hostname))
  {
    FindMachineMeaning(rows, origin, NormalizeRecord(raw));
  }

  lemma FoundIsStored(rows: Machines, origin: Origin, raw: Record)
    requires Unique(rows)
    ensures Found(rows, origin, raw).Some? ==> Found(rows, origin, raw).value in rows
  {
    FindMachineMeaning(rows, origin, NormalizeRecord(raw));
  }

  lemma UpdatesComeFirst(rows: Machines, memory: Machines, i: nat, j: nat)
    requires rows.Keys <= memory.Keys
    requires i < j < |Statements(rows, memory)| && Statements(rows, memory)[j] in rows
    ensures Statements(rows, memory)[i] in rows
    ensures Statements(rows, memory)[i] < Statements(rows, memory)[j]
  {
  }

  // A flush in which no updated machine takes a key that another one held is
  // accepted; new machines may take keys that were given up.
  lemma FreedKeysCanBeReused(rows: Machines, memory: Machines)
    requires Unique(rows) && Unique(memory) && rows.Keys <= memory.Keys
    requires forall i, j {:trigger Clash(memory[i], rows[j])} :: i in rows && j in rows && i != j ==> !Clash(memory[i], rows[j])
    ensures Flush(rows, memory) == Some(memory)
  {
    var ids := Statements(rows, memory);
    CanFlushExactly(rows, memory);
    StatementsCover(rows, memory);
    forall i, j | 0 <= i < j < |ids| && ids[j] in rows ensures !Clash(memory[ids[i]], rows[ids[j]]) {
      UpdatesComeFirst(rows, memory, i, j);
    }
  }

  /* One record */

  // Every column of the machine comes from the record's own field.
  predicate Shows(machine: Machine, origin: Origin, raw: Record) {
    && machine.source == Some(origin.id)
    && machine.externalId == NormalizeExternalId(raw.externalId)
    && machine.hostname == NormalizeHostname(raw.hostname)
    && machine.application == NormalizeApplicationCode(raw.application)
    && machine.region == NormalizeDimension(raw.region)
    && machine.environment == NormalizeDimension(raw.environment)
    && machine.flavor == raw.flavor
    && machine.extra == raw.extra
  }

  lemma OverwriteShows(machine: Machine, origin: Origin, raw: Record)
    ensures var after := Overwrite(machine, origin, NormalizeRecord(raw));
            Shows(after, origin, raw) && after.platformId == machine.platformId
  {
    OverwriteIsVerbatim(machine, origin, raw);
  }

  // The rows a record leaves: its machine shows it, every other one is as
  // before, and a new machine is on the provisioner's platform.
  ghost predicate Writes(before: Machines, after: Machines, origin: Origin, raw: Record, id: int) {
    && after.Keys == before.Keys + {id}
    && Shows(after[id], origin, raw)
    && after[id].platformId == (if id in before then before[id].platformId else origin.platformId)
    && forall other :: other in before && other != id ==> after[other] == before[other]
  }

  // The report of a record: a creation, or an update which may change the
  // flavor; creations and changes enter the history and mark the machine.
  predicate Reports(tx: Tx, after: Tx, origin: Origin, raw: Record, id: int, now: int) {
    var isNew := id !in tx.memory;
    var logs := isNew || tx.memory[id].flavor != raw.flavor;
    && after.created == tx.created + (if isNew then 1 else 0)
    && after.updated == tx.updated + (if isNew then 0 else 1)
    && after.flavorChanges == tx.flavorChanges + (if !isNew && logs then 1 else 0)
    && after.history == tx.history + (if logs then [HistoryRow(id, origin.id, raw.flavor, now)] else [])
    && after.touched == tx.touched + (if logs then {id} else {})
    && after.nextId == tx.nextId + (if isNew then 1 else 0)
  }

  lemma InsertWrites(tx: Tx, origin: Origin, raw: Record, now: int)
    requires tx.Valid() && Insert(tx, origin, NormalizeRecord(raw), now).Some?
    ensures var after := Insert(tx, origin, NormalizeRecord(raw), now).value;
            && Writes(tx.memory, after.memory, origin, raw, tx.nextId)
            && Reports(tx, after, origin, raw, tx.nextId, now)
  {
    var blank := Machine(origin.platformId, None, None, None, "", None, None, Flavor(None, None, None), "");
    OverwriteShows(blank, origin, raw);
    InsertIsValid(tx, origin, NormalizeRecord(raw), now);
    var after := Insert(tx, origin, NormalizeRecord(raw), now).value;
    SetsEqual(after.memory.Keys, tx.memory.Keys + {tx.nextId});
  }

  lemma UpdateWrites(tx: Tx, origin: Origin, raw: Record, id: int, now: int)
    requires id in tx.memory
    ensures var after := Update(tx, origin, NormalizeRecord(raw), id, now);
            && Writes(tx.memory, after.memory, origin, raw, id)
            && Reports(tx, after, origin, raw, id, now)
  {
    OverwriteShows(tx.memory[id], origin, raw);
    var after := Update(tx, origin, NormalizeRecord(raw), id, now);
    SetsEqual(after.memory.Keys, tx.memory.Keys + {id});
    SetsEqual(tx.touched + {}, tx.touched);
  }

  lemma StepMeaning(tx: Tx, origin: Origin, raw: Record, now: int)
    requires tx.Valid()
    ensures var step := Step(tx, origin, raw, now);
            step.Some? ==>
              && Writes(tx.memory, step.value.memory, origin, raw, Hit(tx, origin, raw))
              && Reports(tx, step.value, origin, raw, Hit(tx, origin, raw), now)
  {
    if Step(tx, origin, raw, now).Some? {
      FindMachineMeaning(tx.rows, origin, NormalizeRecord(raw));
      match Found(tx.rows, origin, raw) {
        case None => InsertWrites(tx, origin, raw, now);
        case Some(id) => UpdateWrites(tx, origin, raw, id, now);
      }
    }
  }

  /* A whole run */

  predicate LastHit(hits: seq<int>, i: nat)
    requires i < |hits|
  {
    forall j :: i < j < |hits| ==> hits[j] != hits[i]
  }

  // The rows some records leave: each hit machine shows the last record that
  // hit it, and the others are as before.
  ghost predicate WritesAll(before: Machines, after: Machines, origin: Origin, records: seq<Record>, hits: seq<int>) {
    && |hits| == |records|
    && after.Keys == before.Keys + Elements(hits)
    && (forall i :: 0 <= i < |hits| && LastHit(hits, i) ==> hits[i] in after && Shows(after[hits[i]], origin, records[i]))
    && (forall id :: id in before && id !in hits ==> after[id] == before[id])
    && (forall id :: id in after ==>
          after[id].platformId == (if id in before then before[id].platformId else origin.platformId))
  }

  lemma WritesAllNext(before: Machines, mid: Machines, after: Machines, origin: Origin, records: seq<Record>,
                      hits: seq<int>, id: int)
    requires records != [] && WritesAll(before, mid, origin, records[..|records| - 1], hits)
    requires Writes(mid, after, origin, records[|records| - 1], id)
    ensures WritesAll(before, after, origin, records, hits + [id])
  {
    var init := records[..|records| - 1];
    var all := hits + [id];
    forall x ensures x in after.Keys <==> x in before.Keys + Elements(all) {
      assert x in all <==> x in hits || x == id;
    }
    SetsEqual(after.Keys, before.Keys + Elements(all));
    forall i | 0 <= i < |all| && LastHit(all, i)
      ensures all[i] in after && Shows(after[all[i]], origin, records[i])
    {
      if i < |hits| {
        assert records[i] == init[i];
        assert all[|hits|] != all[i];
        assert forall j :: i < j < |hits| ==> all[j] == hits[j];
        assert LastHit(hits, i);
      }
    }
    forall x | x in before && x !in all ensures after[x] == before[x] {
      assert x !in hits && all[|hits|] == id;
    }
    forall x | x in after
      ensures after[x].platformId == (if x in before then before[x].platformId else origin.platformId)
    {
      assert x in mid || x == id;
    }
  }

  lemma ProcessWritesNext(tx: Tx, before: Tx, after: Tx, origin: Origin, records: seq<Record>, hits: seq<int>, now: int)
    requires records != [] && before.Valid()
    requires Step(before, origin, records[|records| - 1], now) == Some(after)
    requires WritesAll(tx.memory, before.memory, origin, records[..|records| - 1], hits)
    ensures WritesAll(tx.memory, after.memory, origin, records, hits + [Hit(before, origin, records[|records| - 1])])
  {
    var last := records[|records| - 1];
    StepMeaning(before, origin, last, now);
    WritesAllNext(tx.memory, before.memory, after.memory, origin, records, hits, Hit(before, origin, last));
  }

  lemma NothingWritten(machines: Machines, origin: Origin)
    ensures WritesAll(machines, machines, origin, [], [])
  {
    forall id ensures id in machines.Keys <==> id in machines.Keys + Elements<int>([]) {
    }
    SetsEqual(machines.Keys, machines.Keys + Elements<int>([]));
  }

  lemma {:induction false} ProcessWrites(tx: Tx, origin: Origin, records: seq<Record>, now: int)
    requires tx.Valid() && ProcessAll(tx, origin, records, now).Some?
    ensures WritesAll(tx.memory, ProcessAll(tx, origin, records, now).value.memory, origin, records,
                      Hits(tx, origin, records, now))
  {
    if records == [] {
      NothingWritten(tx.memory, origin);
    } else {
      var init := records[..|records| - 1];
      HitsUnfold(tx, origin, records, now);
      ProcessWrites(tx, origin, init, now);
      ProcessWritesNext(tx, ProcessAll(tx, origin, init, now).value, ProcessAll(tx, origin, records, now).value, origin,
                        records, Hits(tx, origin, init, now), now);
    }
  }

  // After a successful run each machine it hit, found or new, shows the last
  // record that hit it, and no other machine changed.
  lemma RunWritesLastRecord(machines: Machines, history: seq<HistoryRow>, nextId: int, origin: Origin,
                            records: seq<Record>, now: int)
    requires Begin(machines, history, nextId).Valid()
    requires RunInventory(machines, history, nextId, origin, records, now).Some?
    ensures WritesAll(machines, RunInventory(machines, history, nextId, origin, records, now).value.rows, origin, records,
                      Hits(Begin(machines, history, nextId), origin, records, now))
  {
    RunEndsWithMemory(machines, history, nextId, origin, records, now);
    ProcessWrites(Begin(machines, history, nextId), origin, records, now);
  }

  // The rows a run appended to the history.
  function Appended(before: seq<HistoryRow>, after: seq<HistoryRow>): seq<HistoryRow>
    requires before <= after
  {
    after[|before|..]
  }

  function MachinesOf(rows: seq<HistoryRow>): set<int> {
    set k | 0 <= k < |rows| :: rows[k].machineId
  }

  ghost predicate Accounted(tx: Tx, after: Tx, origin: Origin, now: int) {
    && tx.history <= after.history
    && (forall k :: |tx.history| <= k < |after.history| ==>
          after.history[k].source == origin.id && after.history[k].changedAt == now)
    && (forall id :: id in after.touched <==> id in tx.touched || id in MachinesOf(Appended(tx.history, after.history)))
    && |after.memory| == |tx.memory| + (after.created - tx.created)
  }

  lemma MachinesOfAppend(rows: seq<HistoryRow>, row: HistoryRow)
    ensures MachinesOf(rows + [row]) == MachinesOf(rows) + {row.machineId}
  {
    forall id ensures id in MachinesOf(rows + [row]) <==> id in MachinesOf(rows) + {row.machineId} {
      if id in MachinesOf(rows) {
        var k :| 0 <= k < |rows| && rows[k].machineId == id;
        assert (rows + [row])[k].machineId == id;
      }
      assert (rows + [row])[|rows|] == row;
    }
    SetsEqual(MachinesOf(rows + [row]), MachinesOf(rows) + {row.machineId});
  }

  lemma AccountedStep(tx: Tx, mid: Tx, after: Tx, origin: Origin, raw: Record, id: int, now: int)
    requires Accounted(tx, mid, origin, now)
    requires Reports(mid, after, origin, raw, id, now) && Writes(mid.memory, after.memory, origin, raw, id)
    ensures Accounted(tx, after, origin, now)
  {
    var logs := id !in mid.memory || mid.memory[id].flavor != raw.flavor;
    if logs {
      var row := HistoryRow(id, origin.id, raw.flavor, now);
      assert Appended(tx.history, after.history) == Appended(tx.history, mid.history) + [row];
      MachinesOfAppend(Appended(tx.history, mid.history), row);
    } else {
      assert after.history == mid.history;
    }
    assert |after.memory.Keys| == |mid.memory.Keys| + if id in mid.memory then 0 else 1 by {
      if id in mid.memory {
        SetsEqual(after.memory.Keys, mid.memory.Keys);
      }
    }
  }

  lemma {:induction false} ProcessAccounted(tx: Tx, origin: Origin, records: seq<Record>, now: int)
    requires tx.Valid() && ProcessAll(tx, origin, records, now).Some?
    ensures Accounted(tx, ProcessAll(tx, origin, records, now).value, origin, now)
  {
    if records != [] {
      var init, last := records[..|records| - 1], records[|records| - 1];
      ProcessUnfolds(tx, origin, records, now);
      ProcessAccounted(tx, origin, init, now);
      var before := ProcessAll(tx, origin, init, now).value;
      StepMeaning(before, origin, last, now);
      AccountedStep(tx, before, ProcessAll(tx, origin, records, now).value, origin, last, Hit(before, origin, last), now);
    }
  }

  lemma AccountedTouched(begin: Tx, after: Tx, origin: Origin, now: int)
    requires Accounted(begin, after, origin, now) && begin.touched == {}
    ensures after.touched == MachinesOf(Appended(begin.history, after.history))
  {
    var logged := MachinesOf(Appended(begin.history, after.history));
    assert forall id :: id in after.touched <==> id in logged;
    SetsEqual(after.touched, logged);
  }

  // A successful run adds as many machines as it reports created, signs and
  // dates what it appends to the history, and marks exactly the machines that
  // have an appended row.
  lemma RunIsAccounted(machines: Machines, history: seq<HistoryRow>, nextId: int, origin: Origin,
                       records: seq<Record>, now: int)
    requires Begin(machines, history, nextId).Valid()
    requires RunInventory(machines, history, nextId, origin, records, now).Some?
    ensures var run := RunInventory(machines, history, nextId, origin, records, now).value;
            && history <= run.history
            && |run.rows| == |machines| + run.created
            && (forall k :: |history| <= k < |run.history| ==>
                  run.history[k].source == origin.id && run.history[k].changedAt == now)
            && run.touched == MachinesOf(Appended(history, run.history))
  {
    var begin := Begin(machines, history, nextId);
    RunEndsWithMemory(machines, history, nextId, origin, records, now);
    ProcessAccounted(begin, origin, records, now);
    AccountedTouched(begin, ProcessAll(begin, origin, records, now).value, origin, now);
  }

  /* The flavor log and the events of a database */

  // The log of a machine is the flavors of its history rows, all of them and
  // in order.
  lemma {:induction false} FlavorLogMeaning(history: seq<HistoryRow>, id: int) returns (at: seq<nat>)
    ensures |at| == |FlavorLog(history, id)|
    ensures forall i :: 0 <= i < |at| ==>
              at[i] < |history| && history[at[i]].machineId == id && history[at[i]].flavor == FlavorLog(history, id)[i]
    ensures forall i, j :: 0 <= i < j < |at| ==> at[i] < at[j]
    ensures forall k :: 0 <= k < |history| && history[k].machineId == id ==> k in at
  {
    if history == [] {
      at := [];
    } else {
      var n := |history| - 1;
      var before := FlavorLogMeaning(history[..n], id);
      at := before + if history[n].machineId == id then [n] else [];
      forall k | 0 <= k < |history| && history[k].machineId == id ensures k in at {
        if k < n {
          assert history[..n][k] == history[k];
          var i :| 0 <= i < |before| && before[i] == k;
          assert at[i] == k;
        } else {
          assert at[|before|] == n;
        }
      }
    }
  }

  lemma {:induction false} KeptHistory(history: seq<HistoryRow>, id: int)
    ensures forall row :: row in WithoutMachine(history, id) <==> row in history && row.machineId != id
  {
    if history != [] {
      var init, last := history[..|history| - 1], history[|history| - 1];
      KeptHistory(init, id);
      assert history == init + [last];
      InConcat(init, [last]);
      InConcat(WithoutMachine(init, id), if last.machineId == id then [] else [last]);
    }
  }

  // A deletion removes the machine and exactly its history rows.
  lemma DeletionMeaning(db: Database, id: int)
    requires db.Valid()
    ensures var after := Perform(db, Delete(id));
            && after.nextId == db.nextId
            && (forall m :: m in after.machines <==> m in db.machines && m != id)
            && (forall m :: m in after.machines ==> after.machines[m] == db.machines[m])
            && (forall row :: row in after.history <==> row in db.history && row.machineId != id)
            && (forall other :: other != id ==> FlavorLog(after.history, other) == FlavorLog(db.history, other))
  {
    KeptHistory(db.history, id);
    forall other | other != id ensures FlavorLog(WithoutMachine(db.history, id), other) == FlavorLog(db.history, other) {
      WithoutMachineLog(db.history, id, other);
    }
  }

  // A run event is the run, or nothing if the run fails.
  lemma RunEventMeaning(db: Database, origin: Origin, records: seq<Record>, now: int)
    requires db.Valid()
    ensures var run := RunInventory(db.machines, db.history, db.nextId, origin, records, now);
            var after := Perform(db, Run(origin, records, now));
            && (run.None? ==> after == db)
            && (run.Some? ==>
                  && db.history <= after.history
                  && WritesAll(db.machines, after.machines, origin, records,
                               Hits(Begin(db.machines, db.history, db.nextId), origin, records, now)))
  {
    if RunInventory(db.machines, db.history, db.nextId, origin, records, now).Some? {
      RunWritesLastRecord(db.machines, db.history, db.nextId, origin, records, now);
      RunIsAccounted(db.machines, db.history, db.nextId, origin, records, now);
    }
  }

  // Events happen one after the other, each on what the earlier ones left.
  lemma {:induction false} EventsInTurn(db: Database, events: seq<Event>, event: Event)
    requires db.Valid()
    ensures PerformAll(db, []) == db
    ensures PerformAll(db, events + [event]) == Perform(PerformAll(db, events), event)
    decreases |events|
  {
    var longer := events + [event];
    if events == [] {
      assert longer[0] == event && longer[1..] == [];
    } else {
      PerformKeepsValid(db, events[0]);
      EventsInTurn(Perform(db, events[0]), events[1..], event);
      assert longer[0] == events[0] && longer[1..] == events[1..] + [event];
    }
  }
}
