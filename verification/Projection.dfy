// The applications table as a projection of the machines: one row for each
// (application, environment, region) some machine carries.
module Projection {
  import opened Wrappers
  import opened Domain
  import opened Extensionality
  import opened Ordering
  import opened Fleet
  import opened Lists
  import AD = ApplicationDispatch

  datatype Key = Key(name: string, environment: string, region: string)

  datatype Application = Application(key: Key, sync: AD.Row)

  type Machines = map<int, Machine>

  predicate SameKey(a: Application, b: Application) {
    a.key == b.key
  }

  datatype Table = Table(rows: map<int, Application>, nextId: int) {
    // The unique constraint of the table; ids are never reused.
    predicate Valid() {
      && (forall id :: id in rows ==> id < nextId)
      && (forall i, j {:trigger SameKey(rows[i], rows[j])} :: i in rows && j in rows && SameKey(rows[i], rows[j]) ==> i == j)
    }
  }

  // The row a machine is grouped under, if it names an application.
  function SnapshotKey(machine: Machine): Option<Key> {
    match NormalizeApplicationCode(machine.application)
    case None => None
    case Some(name) => Some(Key(name, CoalesceDimension(machine.environment), CoalesceDimension(machine.region)))
  }

  function Snapshot(machines: Machines): set<Key> {
    set id | id in machines && SnapshotKey(machines[id]).Some? :: SnapshotKey(machines[id]).value
  }

  function SqlCoalesce(value: Option<string>): string {
    if value.Some? then value.value else UNKNOWN
  }

  // The query for the machines of a row, which compares the stored columns.
  predicate Belongs(machine: Machine, key: Key) {
    && machine.application == Some(key.name)
    && SqlCoalesce(machine.environment) == key.environment
    && SqlCoalesce(machine.region) == key.region
  }

  // The grouping columns are in the form the machine's validators store.
  predicate Canonical(machine: Machine) {
    && NormalizeApplicationCode(machine.application) == machine.application
    && NormalizeDimension(machine.environment) == machine.environment
    && NormalizeDimension(machine.region) == machine.region
  }

  predicate AllCanonical(machines: Machines) {
    forall id :: id in machines ==> Canonical(machines[id])
  }

  // The projection and the query agree on a machine exactly when its columns
  // are canonical: then it belongs to the row of its own key and to no other.
  lemma BelongsExactly(machine: Machine)
    requires SnapshotKey(machine).Some?
    ensures Belongs(machine, SnapshotKey(machine).value) <==> Canonical(machine)
    ensures Canonical(machine) ==> forall key :: Belongs(machine, key) <==> key == SnapshotKey(machine).value
  {
  }

  /* Rebuild */

  predicate HasKey(rows: map<int, Application>, key: Key) {
    exists id :: id in rows && rows[id].key == key
  }

  // The rows are exactly the keys of the snapshot.
  predicate Mirrors(rows: map<int, Application>, snapshot: set<Key>) {
    && (forall id :: id in rows ==> rows[id].key in snapshot)
    && (forall key :: key in snapshot ==> HasKey(rows, key))
  }

  datatype Counts = Counts(created: nat, deleted: nat, total: nat)

  // What a rebuild does to the table: rows still backed by a machine are kept
  // as they are, the others go, and missing ones are created unsynced.
  ghost predicate Rebuilt(before: Table, after: Table, snapshot: set<Key>, counts: Counts) {
    && after.Valid()
    && Mirrors(after.rows, snapshot)
    && (forall id :: id in before.rows ==> (id in after.rows <==> before.rows[id].key in snapshot))
    && (forall id :: id in before.rows && id in after.rows ==> after.rows[id] == before.rows[id])
    && (forall id :: id in after.rows && id !in before.rows ==> after.rows[id].sync == AD.Row(None, None, None))
    && counts.created == |after.rows.Keys - before.rows.Keys|
    && counts.deleted == |before.rows.Keys - after.rows.Keys|
    && counts.total == |snapshot|
  }

  ghost predicate Enumerates(order: seq<Key>, snapshot: set<Key>) {
    && Distinct(order)
    && (forall key :: key in order <==> key in snapshot)
  }

  // The visited rows no machine backs any more.
  function Stale(existing: map<int, Application>, seen: set<int>, snapshot: set<Key>): set<int> {
    set id | id in seen && id in existing && existing[id].key !in snapshot
  }

  function Pruned(rows: map<int, Application>, stale: set<int>): map<int, Application> {
    rows - stale
  }

  // The visited items are the first `i` ones.
  ghost predicate Seen(items: seq<int>, seen: set<int>, all: set<int>, i: nat) {
    seen <= all && forall k :: 0 <= k < |items| ==> (items[k] in seen <==> k < i)
  }

  lemma SeenNext(items: seq<int>, seen: set<int>, all: set<int>, i: nat)
    requires StrictlyAscending(items) && i < |items| && items[i] in all
    requires Seen(items, seen, all, i)
    ensures Seen(items, seen + {items[i]}, all, i + 1) && items[i] !in seen
  {
  }

  // The table and the count after the stale ones among the visited rows.
  ghost predicate DeletedSoFar(start: map<int, Application>, existing: map<int, Application>, seen: set<int>,
                               snapshot: set<Key>, rows: map<int, Application>, deleted: int) {
    && rows == Pruned(start, Stale(existing, seen, snapshot))
    && deleted == |Stale(existing, seen, snapshot)|
  }

  lemma NothingDeleted(rows: map<int, Application>, existing: map<int, Application>, snapshot: set<Key>)
    ensures DeletedSoFar(rows, existing, {}, snapshot, rows, 0)
  {
    assert forall x :: x !in Stale(existing, {}, snapshot);
    SetsEqual(Stale(existing, {}, snapshot), {});
    assert forall k :: k in rows <==> k in Pruned(rows, {});
    MapsEqual(rows, Pruned(rows, {}));
  }

  lemma StaleNext(existing: map<int, Application>, seen: set<int>, id: int, snapshot: set<Key>)
    requires id in existing && id !in seen
    ensures Stale(existing, seen + {id}, snapshot) ==
            Stale(existing, seen, snapshot) + if existing[id].key in snapshot then {} else {id}
    ensures id !in Stale(existing, seen, snapshot)
  {
  }

  lemma PruneNext(rows: map<int, Application>, stale: set<int>, id: int)
    ensures Pruned(rows, stale + {id}) == Pruned(rows, stale) - {id}
    ensures Pruned(rows, stale + {}) == Pruned(rows, stale)
  {
  }

  lemma DeletedNext(start: map<int, Application>, existing: map<int, Application>, seen: set<int>, snapshot: set<Key>,
                    rows: map<int, Application>, deleted: int, id: int)
    requires DeletedSoFar(start, existing, seen, snapshot, rows, deleted) && id in existing && id !in seen
    ensures var stale := existing[id].key !in snapshot;
            DeletedSoFar(start, existing, seen + {id}, snapshot,
                         if stale then rows - {id} else rows, if stale then deleted + 1 else deleted)
  {
    StaleNext(existing, seen, id, snapshot);
    PruneNext(start, Stale(existing, seen, snapshot), id);
  }

  lemma PrunedIsValid(table: Table, stale: set<int>)
    requires table.Valid()
    ensures Table(Pruned(table.rows, stale), table.nextId).Valid()
  {
  }

  lemma AllSeen(items: seq<int>, seen: set<int>, all: set<int>)
    requires Seen(items, seen, all, |items|)
    requires forall x :: x in items <==> x in all
    ensures seen == all
  {
    forall x | x in all ensures x in seen {
      assert x in items;
    }
    assert forall x :: x in seen <==> x in all;
    SetsEqual(seen, all);
  }

  // Every row is still there, and the others are unsynced.
  predicate Grown(before: map<int, Application>, after: map<int, Application>) {
    && (forall id :: id in before ==> id in after && after[id] == before[id])
    && (forall id :: id in after && id !in before ==> after[id].sync == AD.Row(None, None, None))
  }

  lemma Differences(before: map<int, Application>, grown: map<int, Application>, after: map<int, Application>,
                    stale: set<int>)
    requires Grown(before, grown) && after == Pruned(grown, stale) && stale <= before.Keys
    ensures before.Keys - after.Keys == stale
    ensures after.Keys - before.Keys == grown.Keys - before.Keys
  {
    forall id ensures id in before.Keys - after.Keys <==> id in stale {
    }
    SetsEqual(before.Keys - after.Keys, stale);
    forall id ensures id in after.Keys - before.Keys <==> id in grown.Keys - before.Keys {
    }
    SetsEqual(after.Keys - before.Keys, grown.Keys - before.Keys);
  }

  predicate NewOnly(before: map<int, Application>, after: map<int, Application>, keys: seq<Key>) {
    forall id :: id in after && id !in before ==> after[id].key in keys
  }

  // Creating the missing rows and deleting the stale ones is a rebuild.
  lemma RebuildAdjusts(before: Table, grown: Table, after: Table, order: seq<Key>, snapshot: set<Key>, counts: Counts)
    requires after.Valid() && Grown(before.rows, grown.rows) && Enumerates(order, snapshot)
    requires forall key :: HasKey(grown.rows, key) <==> HasKey(before.rows, key) || key in order
    requires NewOnly(before.rows, grown.rows, order)
    requires after.rows == Pruned(grown.rows, Stale(before.rows, before.rows.Keys, snapshot))
    requires counts.created == |grown.rows.Keys - before.rows.Keys|
    requires counts.deleted == |Stale(before.rows, before.rows.Keys, snapshot)|
    requires counts.total == |snapshot|
    ensures Rebuilt(before, after, snapshot, counts)
  {
    Differences(before.rows, grown.rows, after.rows, Stale(before.rows, before.rows.Keys, snapshot));
    forall key | key in snapshot ensures HasKey(after.rows, key) {
      assert key in order && HasKey(grown.rows, key);
      var id :| id in grown.rows && grown.rows[id].key == key;
      assert id in after.rows;
    }
  }

  function Unsynced(key: Key): Application {
    Application(key, AD.Row(None, None, None))
  }

  // The table after the first `i` keys were looked at.
  ghost predicate Progress(start: map<int, Application>, table: Table, order: seq<Key>, i: nat, created: int)
    requires i <= |order|
  {
    && table.Valid()
    && Grown(start, table.rows)
    && NewOnly(start, table.rows, order[..i])
    && (forall k :: 0 <= k < i ==> HasKey(table.rows, order[k]))
    && created == |table.rows.Keys - start.Keys|
  }

  lemma AddedIsValid(table: Table, key: Key)
    requires table.Valid() && !HasKey(table.rows, key)
    ensures Table(table.rows[table.nextId := Unsynced(key)], table.nextId + 1).Valid()
  {
  }

  lemma AddedCount(table: Table, start: map<int, Application>, key: Key)
    requires table.Valid() && Grown(start, table.rows)
    ensures |table.rows[table.nextId := Unsynced(key)].Keys - start.Keys| == |table.rows.Keys - start.Keys| + 1
  {
    var after := table.rows[table.nextId := Unsynced(key)];
    assert table.nextId !in table.rows.Keys;
    var more := (table.rows.Keys - start.Keys) + {table.nextId};
    forall id ensures id in after.Keys - start.Keys <==> id in more {
    }
    SetsEqual(after.Keys - start.Keys, more);
  }

  lemma NotYetThere(table: Table, start: map<int, Application>, order: seq<Key>, i: nat)
    requires Grown(start, table.rows) && i < |order|
    requires Distinct(order)
    requires NewOnly(start, table.rows, order[..i]) && !HasKey(start, order[i])
    ensures !HasKey(table.rows, order[i])
  {
  }

  lemma AddedIsNew(table: Table, start: map<int, Application>, order: seq<Key>, i: nat)
    requires table.Valid() && Grown(start, table.rows) && i < |order|
    requires NewOnly(start, table.rows, order[..i])
    ensures var after := table.rows[table.nextId := Unsynced(order[i])];
            && Grown(start, after) && Grown(table.rows, after)
            && NewOnly(start, after, order[..i + 1]) && HasKey(after, order[i])
  {
    var after := table.rows[table.nextId := Unsynced(order[i])];
    assert order[..i + 1] == order[..i] + [order[i]];
    assert after[table.nextId].key == order[i];
  }

  lemma HasKeyGrows(before: map<int, Application>, after: map<int, Application>)
    requires Grown(before, after)
    ensures forall key :: HasKey(before, key) ==> HasKey(after, key)
  {
  }

  lemma AddRow(table: Table, start: map<int, Application>, order: seq<Key>, i: nat, created: int)
    requires i < |order| && Progress(start, table, order, i, created)
    requires Distinct(order)
    requires !HasKey(start, order[i])
    ensures Progress(start, Table(table.rows[table.nextId := Unsynced(order[i])], table.nextId + 1), order, i + 1, created + 1)
  {
    var after := table.rows[table.nextId := Unsynced(order[i])];
    NotYetThere(table, start, order, i);
    AddedIsValid(table, order[i]);
    AddedCount(table, start, order[i]);
    AddedIsNew(table, start, order, i);
    HasKeyGrows(table.rows, after);
  }

  lemma SkipRow(table: Table, start: map<int, Application>, order: seq<Key>, i: nat, created: int)
    requires i < |order| && HasKey(start, order[i])
    requires Progress(start, table, order, i, created)
    ensures Progress(start, table, order, i + 1, created)
  {
  }

  lemma CreatedKeys(before: map<int, Application>, after: map<int, Application>, order: seq<Key>)
    requires Grown(before, after) && NewOnly(before, after, order[..|order|])
    requires forall k :: 0 <= k < |order| ==> HasKey(after, order[k])
    ensures NewOnly(before, after, order)
    ensures forall key :: HasKey(after, key) <==> HasKey(before, key) || key in order
  {
  }

  class ApplicationTable {
    var rows: map<int, Application>
    var nextId: int

    function Contents(): Table
      reads this
    {
      Table(rows, nextId)
    }

    method CreateMissing(order: seq<Key>) returns (created: nat)
      requires Contents().Valid()
      requires Distinct(order)
      modifies this
      ensures Contents().Valid() && Grown(old(rows), rows)
      ensures forall key :: HasKey(rows, key) <==> HasKey(old(rows), key) || key in order
      ensures NewOnly(old(rows), rows, order)
      ensures created == |rows.Keys - old(rows).Keys|
    {
      ghost var start := rows;
      var existing := rows;
      created := 0;
      SetsEqual(rows.Keys - start.Keys, {});
      for i := 0 to |order|
        invariant Progress(start, Contents(), order, i, created)
      {
        if !HasKey(existing, order[i]) {
          AddRow(Contents(), start, order, i, created);
          rows := rows[nextId := Unsynced(order[i])];
          nextId := nextId + 1;
          created := created + 1;
        } else {
          SkipRow(Contents(), start, order, i, created);
        }
      }
      CreatedKeys(start, rows, order);
    }

    method DeleteStale(existing: map<int, Application>, snapshot: set<Key>) returns (deleted: nat)
      requires Grown(existing, rows)
      modifies this`rows
      ensures rows == Pruned(old(rows), Stale(existing, existing.Keys, snapshot))
      ensures deleted == |Stale(existing, existing.Keys, snapshot)|
    {
      ghost var start := rows;
      var items := Ascending(existing.Keys);
      ghost var seen: set<int> := {};
      deleted := 0;
      NothingDeleted(rows, existing, snapshot);
      for i := 0 to |items|
        invariant Seen(items, seen, existing.Keys, i)
        invariant DeletedSoFar(start, existing, seen, snapshot, rows, deleted)
      {
        var id := items[i];
        SeenNext(items, seen, existing.Keys, i);
        DeletedNext(start, existing, seen, snapshot, rows, deleted, id);
        seen := seen + {id};
        if existing[id].key !in snapshot {
          rows := rows - {id};
          deleted := deleted + 1;
        }
      }
      AllSeen(items, seen, existing.Keys);
    }

    // `order` is the snapshot as a list; the source sorts it.
    method Rebuild(machines: Machines, order: seq<Key>) returns (counts: Counts)
      requires Contents().Valid() && Enumerates(order, Snapshot(machines))
      modifies this
      ensures Rebuilt(old(Contents()), Contents(), Snapshot(machines), counts)
    {
      ghost var before := Contents();
      var existing := rows;
      var created := CreateMissing(order);
      ghost var grown := Contents();
      var deleted := DeleteStale(existing, Snapshot(machines));
      counts := Counts(created, deleted, |Snapshot(machines)|);
      PrunedIsValid(grown, Stale(existing, existing.Keys, Snapshot(machines)));
      RebuildAdjusts(before, grown, Contents(), order, Snapshot(machines), counts);
    }
  }

  /* The rows partition the machines */

  // The row carries the machine's own columns, a missing one as "UNKNOWN".
  predicate HasColumnsOf(key: Key, machine: Machine) {
    && machine.application == Some(key.name)
    && key.environment == (if machine.environment.Some? then machine.environment.value else "UNKNOWN")
    && key.region == (if machine.region.Some? then machine.region.value else "UNKNOWN")
  }

  // Each machine naming an application is in exactly one row.
  lemma MachineInOneRow(table: Table, machines: Machines, id: int) returns (row: int)
    requires table.Valid() && Mirrors(table.rows, Snapshot(machines)) && AllCanonical(machines)
    requires id in machines && machines[id].application.Some?
    ensures row in table.rows && Belongs(machines[id], table.rows[row].key)
    ensures HasColumnsOf(table.rows[row].key, machines[id])
    ensures forall other :: other in table.rows && Belongs(machines[id], table.rows[other].key) ==> other == row
  {
    var machine := machines[id];
    assert Canonical(machine);
    BelongsExactly(machine);
    var key := SnapshotKey(machine).value;
    assert HasKey(table.rows, key);
    row :| row in table.rows && table.rows[row].key == key;
    forall other | other in table.rows && Belongs(machine, table.rows[other].key) ensures other == row {
      assert SameKey(table.rows[other], table.rows[row]);
    }
  }

  // No row is empty.
  lemma RowHasMachine(table: Table, machines: Machines, row: int) returns (id: int)
    requires Mirrors(table.rows, Snapshot(machines)) && AllCanonical(machines) && row in table.rows
    ensures id in machines && Belongs(machines[id], table.rows[row].key)
    ensures HasColumnsOf(table.rows[row].key, machines[id])
  {
    id :| id in machines && SnapshotKey(machines[id]) == Some(table.rows[row].key);
    assert Canonical(machines[id]);
    BelongsExactly(machines[id]);
  }

  lemma NothingToCreate(before: Table, after: Table, snapshot: set<Key>, counts: Counts, id: int)
    requires Mirrors(before.rows, snapshot) && Rebuilt(before, after, snapshot, counts)
    requires id in after.rows
    ensures id in before.rows
  {
    var key := after.rows[id].key;
    assert key in snapshot && HasKey(before.rows, key);
    var kept :| kept in before.rows && before.rows[kept].key == key;
    assert kept in after.rows && SameKey(after.rows[kept], after.rows[id]);
  }

  lemma NothingToDelete(before: Table, after: Table, snapshot: set<Key>, counts: Counts, id: int)
    requires Mirrors(before.rows, snapshot) && Rebuilt(before, after, snapshot, counts)
    requires id in before.rows
    ensures id in after.rows && after.rows[id] == before.rows[id]
  {
  }

  lemma SameRows(a: map<int, Application>, b: map<int, Application>)
    requires forall id :: id in a <==> id in b
    requires forall id :: id in a ==> a[id] == b[id]
    ensures b == a && |a.Keys - b.Keys| == 0 && |b.Keys - a.Keys| == 0
  {
    assert forall id :: id in a <==> id in b;
    assert forall id :: id in a ==> a[id] == b[id];
    MapsEqual(a, b);
    assert forall id :: id !in a.Keys - b.Keys;
    SetsEqual(a.Keys - b.Keys, {});
    SetsEqual(b.Keys - a.Keys, {});
  }

  // Rebuilding again from the same machines changes nothing.
  lemma RebuildIsIdempotent(before: Table, once: Table, twice: Table, snapshot: set<Key>, first: Counts, second: Counts)
    requires Rebuilt(before, once, snapshot, first) && Rebuilt(once, twice, snapshot, second)
    ensures twice.rows == once.rows && second == Counts(0, 0, first.total)
  {
    forall id ensures id in once.rows <==> id in twice.rows {
      if id in twice.rows { NothingToCreate(once, twice, snapshot, second, id); }
      if id in once.rows { NothingToDelete(once, twice, snapshot, second, id); }
    }
    forall id | id in once.rows ensures once.rows[id] == twice.rows[id] {
      NothingToDelete(once, twice, snapshot, second, id);
    }
    SameRows(once.rows, twice.rows);
  }
}
