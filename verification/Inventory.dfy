// Inventory upsert: discovered records are matched by external id, then by
// hostname, against the flushed rows, while the values they are compared
// with and written to live in the session's memory until a flush.
module Inventory {
  import opened Wrappers
  import opened Domain
  import opened Extensionality
  import opened Ordering
  import opened Fleet
  import opened Lists

  datatype Record = Record(
    externalId: Option<string>,
    hostname: string,
    application: Option<string>,
    region: Option<string>,
    environment: Option<string>,
    flavor: Flavor,
    extra: string)

  // The provisioner a run belongs to.
  datatype Origin = Origin(id: int, platformId: int)

  datatype HistoryRow = HistoryRow(machineId: int, source: int, flavor: Flavor, changedAt: int)

  type Machines = map<int, Machine>

  function NormalizeRecord(record: Record): Record {
    Record(NormalizeExternalId(record.externalId), NormalizeHostname(record.hostname),
           NormalizeApplicationCode(record.application), NormalizeDimension(record.region),
           NormalizeDimension(record.environment), record.flavor, record.extra)
  }

  // The columns a record writes, through the validators of the machine row.
  function Overwrite(machine: Machine, origin: Origin, record: Record): Machine {
    Machine(machine.platformId, NormalizeApplicationCode(record.application), Some(origin.id),
            NormalizeExternalId(record.externalId), NormalizeHostname(record.hostname),
            NormalizeDimension(record.region), NormalizeDimension(record.environment), record.flavor, record.extra)
  }

  function NewMachine(origin: Origin, record: Record): Machine {
    var blank := Machine(origin.platformId, None, None, None, "", None, None, Flavor(None, None, None), "");
    Overwrite(blank, origin, record)
  }

  // What the validators leave of an already normalized record.
  lemma OverwriteIsVerbatim(machine: Machine, origin: Origin, raw: Record)
    ensures var record := NormalizeRecord(raw);
            Overwrite(machine, origin, record) ==
            Machine(machine.platformId, record.application, Some(origin.id), record.externalId, record.hostname,
                    record.region, record.environment, record.flavor, record.extra)
  {
    NormalizeIsIdempotent(raw.application, Upper);
    NormalizeIsIdempotent(raw.externalId, Lower);
    NormalizeHostnameIsIdempotent(raw.hostname);
    NormalizeIsIdempotent(raw.region, Upper);
    NormalizeIsIdempotent(raw.environment, Upper);
  }

  /* Unique keys and the flush */

  // The two unique constraints of the machines table.
  predicate Clash(a: Machine, b: Machine) {
    || (a.platformId == b.platformId && a.hostname == b.hostname)
    || (a.source.Some? && a.source == b.source && a.externalId.Some? && a.externalId == b.externalId)
  }

  predicate Unique(rows: Machines) {
    forall i, j {:trigger Clash(rows[i], rows[j])} :: i in rows && j in rows && i != j ==> !Clash(rows[i], rows[j])
  }

  // A flush emits one statement per id: updates in id order, then inserts.
  function Statements(rows: Machines, memory: Machines): seq<int> {
    Ascending(rows.Keys * memory.Keys) + Ascending(memory.Keys - rows.Keys)
  }

  // The rows after a run of statements.
  function Written(rows: Machines, memory: Machines, ids: seq<int>): Machines
    requires forall k :: 0 <= k < |ids| ==> ids[k] in memory
    decreases |ids|
  {
    if ids == [] then rows else Written(rows[ids[0] := memory[ids[0]]], memory, ids[1..])
  }

  // The database checks the constraints after every statement.
  predicate Accepted(rows: Machines, memory: Machines, ids: seq<int>)
    requires forall k :: 0 <= k < |ids| ==> ids[k] in memory
    decreases |ids|
  {
    ids != [] ==>
      && Unique(rows[ids[0] := memory[ids[0]]])
      && Accepted(rows[ids[0] := memory[ids[0]]], memory, ids[1..])
  }

  predicate CanFlush(rows: Machines, memory: Machines) {
    Accepted(rows, memory, Statements(rows, memory))
  }

  // The flushed rows are the session's values: see FlushWrites.
  function Flush(rows: Machines, memory: Machines): Option<Machines> {
    if CanFlush(rows, memory) then Some(memory) else None
  }

  lemma {:induction false} StatementsWrite(rows: Machines, memory: Machines, ids: seq<int>)
    requires forall k :: 0 <= k < |ids| ==> ids[k] in memory
    requires rows.Keys <= memory.Keys
    requires forall id :: id in rows && id !in ids ==> rows[id] == memory[id]
    requires forall id :: id in memory && id !in ids ==> id in rows
    ensures Written(rows, memory, ids) == memory
    ensures Accepted(rows, memory, ids) && Unique(rows) ==> Unique(memory)
    decreases |ids|
  {
    if ids == [] {
      assert forall id :: id !in ids;
      forall id ensures id in rows <==> id in memory {
        assert id in rows <==> id in rows.Keys;
      }
      assert forall id :: id in rows ==> rows[id] == memory[id];
      assert rows == memory;
    } else {
      assert forall id :: id in ids <==> id == ids[0] || id in ids[1..];
      StatementsWrite(rows[ids[0] := memory[ids[0]]], memory, ids[1..]);
    }
  }

  // The statements of a flush leave exactly the session's values, and a
  // flush that is accepted leaves them free of clashes.
  lemma FlushWrites(rows: Machines, memory: Machines)
    requires rows.Keys <= memory.Keys && Unique(rows)
    ensures Written(rows, memory, Statements(rows, memory)) == memory
    ensures CanFlush(rows, memory) ==> Unique(memory)
  {
    assert rows.Keys * memory.Keys == rows.Keys;
    StatementsWrite(rows, memory, Statements(rows, memory));
  }

  lemma {:induction false} CleanAccepted(rows: Machines, ids: seq<int>)
    requires Unique(rows)
    requires forall k :: 0 <= k < |ids| ==> ids[k] in rows
    ensures Accepted(rows, rows, ids)
  {
    if ids != [] {
      assert rows[ids[0] := rows[ids[0]]] == rows;
      CleanAccepted(rows, ids[1..]);
    }
  }

  lemma FlushClean(rows: Machines)
    requires Unique(rows)
    ensures Flush(rows, rows) == Some(rows)
  {
    CleanAccepted(rows, Statements(rows, rows));
  }

  /* When a flush is accepted */

  // The new values do not clash among themselves, nor with the old value of a
  // row whose statement is still to come.
  predicate NewAgree(memory: Machines, ids: seq<int>)
    requires forall k :: 0 <= k < |ids| ==> ids[k] in memory
  {
    forall i, j {:trigger Clash(memory[ids[i]], memory[ids[j]])} :: 0 <= i < j < |ids| ==>
      !Clash(memory[ids[i]], memory[ids[j]])
  }

  predicate OldAgree(rows: Machines, memory: Machines, ids: seq<int>)
    requires forall k :: 0 <= k < |ids| ==> ids[k] in memory
  {
    forall i, id {:trigger Clash(memory[ids[i]], rows[id])} :: 0 <= i < |ids| && id in rows && id !in ids[..i + 1] ==>
      !Clash(memory[ids[i]], rows[id])
  }

  predicate ClearOf(machine: Machine, rows: Machines, except: int) {
    forall id {:trigger Clash(machine, rows[id])} :: id in rows && id != except ==> !Clash(machine, rows[id])
  }

  lemma OneStatement(rows: Machines, id: int, machine: Machine)
    requires Unique(rows)
    ensures Unique(rows[id := machine]) <==> ClearOf(machine, rows, id)
  {
    var next := rows[id := machine];
    forall other | other in rows && other != id ensures Clash(machine, rows[other]) <==> Clash(next[id], next[other]) {
    }
    if ClearOf(machine, rows, id) {
      forall i, j | i in next && j in next && i != j ensures !Clash(next[i], next[j]) {
        if i == id {
          assert !Clash(machine, rows[j]);
        } else if j == id {
          assert !Clash(machine, rows[i]);
        } else {
          assert !Clash(rows[i], rows[j]);
        }
      }
    }
  }

  lemma AgreeSplits(rows: Machines, memory: Machines, ids: seq<int>)
    requires ids != [] && Distinct(ids) && forall k :: 0 <= k < |ids| ==> ids[k] in memory
    requires NewAgree(memory, ids) && OldAgree(rows, memory, ids)
    ensures ClearOf(memory[ids[0]], rows, ids[0])
    ensures NewAgree(memory, ids[1..]) && OldAgree(rows[ids[0] := memory[ids[0]]], memory, ids[1..])
  {
    var rest, next := ids[1..], rows[ids[0] := memory[ids[0]]];
    forall id | id in rows && id != ids[0] ensures !Clash(memory[ids[0]], rows[id]) {
      assert ids[..1] == [ids[0]];
    }
    forall i, j | 0 <= i < j < |rest| ensures !Clash(memory[rest[i]], memory[rest[j]]) {
      assert !Clash(memory[ids[i + 1]], memory[ids[j + 1]]);
    }
    forall i, id | 0 <= i < |rest| && id in next && id !in rest[..i + 1] ensures !Clash(memory[rest[i]], next[id]) {
      if id == ids[0] {
        assert !Clash(memory[ids[0]], memory[ids[i + 1]]);
      } else {
        assert ids[..i + 2] == [ids[0]] + rest[..i + 1];
        assert !Clash(memory[ids[i + 1]], rows[id]);
      }
    }
  }

  lemma AgreeJoins(rows: Machines, memory: Machines, ids: seq<int>)
    requires ids != [] && Distinct(ids) && forall k :: 0 <= k < |ids| ==> ids[k] in memory
    requires ClearOf(memory[ids[0]], rows, ids[0])
    requires NewAgree(memory, ids[1..]) && OldAgree(rows[ids[0] := memory[ids[0]]], memory, ids[1..])
    ensures NewAgree(memory, ids) && OldAgree(rows, memory, ids)
  {
    var rest, next := ids[1..], rows[ids[0] := memory[ids[0]]];
    assert forall i :: 0 <= i < |rest| ==> rest[i] == ids[i + 1];
    forall i, j | 0 <= i < j < |ids| ensures !Clash(memory[ids[i]], memory[ids[j]]) {
      if i > 0 {
        assert !Clash(memory[rest[i - 1]], memory[rest[j - 1]]);
      } else {
        assert ids[0] !in rest[..j];
        assert !Clash(memory[rest[j - 1]], next[ids[0]]);
      }
    }
    forall i, id | 0 <= i < |ids| && id in rows && id !in ids[..i + 1] ensures !Clash(memory[ids[i]], rows[id]) {
      assert ids[..i + 1][0] == ids[0];
      if i > 0 {
        assert ids[..i + 1] == [ids[0]] + rest[..i];
        assert !Clash(memory[rest[i - 1]], next[id]);
      }
    }
  }

  lemma {:induction false} AcceptedExactly(rows: Machines, memory: Machines, ids: seq<int>)
    requires Unique(rows) && Distinct(ids) && forall k :: 0 <= k < |ids| ==> ids[k] in memory
    ensures Accepted(rows, memory, ids) <==> NewAgree(memory, ids) && OldAgree(rows, memory, ids)
    decreases |ids|
  {
    if ids != [] {
      var next := rows[ids[0] := memory[ids[0]]];
      OneStatement(rows, ids[0], memory[ids[0]]);
      if Unique(next) {
        AcceptedExactly(next, memory, ids[1..]);
        if Accepted(next, memory, ids[1..]) {
          AgreeJoins(rows, memory, ids);
        }
      }
      if NewAgree(memory, ids) && OldAgree(rows, memory, ids) {
        AgreeSplits(rows, memory, ids);
      }
    }
  }

  lemma StatementsCover(rows: Machines, memory: Machines)
    requires rows.Keys <= memory.Keys
    ensures var ids := Statements(rows, memory);
            Distinct(ids) && forall id :: id in ids <==> id in memory
  {
    var updates, inserts := Ascending(rows.Keys * memory.Keys), Ascending(memory.Keys - rows.Keys);
    forall i, j | 0 <= i < |updates| && 0 <= j < |inserts| ensures updates[i] != inserts[j] {
      assert updates[i] in rows.Keys && inserts[j] !in rows.Keys;
    }
    DistinctConcat(updates, inserts);
    InConcat(updates, inserts);
  }

  // No statement writes a key that a later statement's row still holds.
  predicate InOrder(rows: Machines, memory: Machines, ids: seq<int>)
    requires forall k :: 0 <= k < |ids| ==> ids[k] in memory
  {
    forall i, j {:trigger Clash(memory[ids[i]], rows[ids[j]])} :: 0 <= i < j < |ids| && ids[j] in rows ==>
      !Clash(memory[ids[i]], rows[ids[j]])
  }

  lemma OldAgreeIsInOrder(rows: Machines, memory: Machines, ids: seq<int>)
    requires Distinct(ids) && forall k :: 0 <= k < |ids| ==> ids[k] in memory
    requires forall id :: id in rows ==> id in ids
    ensures OldAgree(rows, memory, ids) <==> InOrder(rows, memory, ids)
  {
    forall i, j | OldAgree(rows, memory, ids) && 0 <= i < j < |ids| && ids[j] in rows
      ensures !Clash(memory[ids[i]], rows[ids[j]])
    {
      assert forall k :: 0 <= k < i + 1 ==> ids[..i + 1][k] == ids[k];
    }
    forall i, id | InOrder(rows, memory, ids) && 0 <= i < |ids| && id in rows && id !in ids[..i + 1]
      ensures !Clash(memory[ids[i]], rows[id])
    {
      assert forall k :: 0 <= k < i + 1 ==> ids[..i + 1][k] == ids[k];
      var j :| 0 <= j < |ids| && ids[j] == id;
    }
  }

  lemma NewAgreeIsUnique(memory: Machines, ids: seq<int>)
    requires Distinct(ids) && forall k :: 0 <= k < |ids| ==> ids[k] in memory
    requires forall id :: id in memory ==> id in ids
    ensures NewAgree(memory, ids) <==> Unique(memory)
  {
    forall x, y | NewAgree(memory, ids) && x in memory && y in memory && x != y ensures !Clash(memory[x], memory[y]) {
      var i :| 0 <= i < |ids| && ids[i] == x;
      var j :| 0 <= j < |ids| && ids[j] == y;
      assert !Clash(memory[ids[if i < j then i else j]], memory[ids[if i < j then j else i]]);
    }
  }

  // A flush is accepted if and only if the final values are free of clashes
  // and no row takes a key before the row that holds it has given it up.
  lemma CanFlushExactly(rows: Machines, memory: Machines)
    requires Unique(rows) && rows.Keys <= memory.Keys
    ensures (forall id :: id in Statements(rows, memory) ==> id in memory)
    ensures CanFlush(rows, memory) <==> Unique(memory) && InOrder(rows, memory, Statements(rows, memory))
  {
    var ids := Statements(rows, memory);
    StatementsCover(rows, memory);
    AcceptedExactly(rows, memory, ids);
    NewAgreeIsUnique(memory, ids);
    OldAgreeIsInOrder(rows, memory, ids);
  }

  // Free final values are not enough: a machine may not take the hostname of
  // a machine of the platform with a later id, even if that one moves away.
  lemma TakenHostnameFails(rows: Machines, memory: Machines, p: int, q: int)
    requires Unique(rows) && rows.Keys <= memory.Keys
    requires p in rows && q in rows && p < q
    requires memory[p].platformId == rows[q].platformId && memory[p].hostname == rows[q].hostname
    ensures Flush(rows, memory).None?
  {
    var updates := Ascending(rows.Keys * memory.Keys);
    assert p in updates && q in updates;
    var i :| 0 <= i < |updates| && updates[i] == p;
    var j :| 0 <= j < |updates| && updates[j] == q;
    var ids := Statements(rows, memory);
    CanFlushExactly(rows, memory);
    assert ids[i] == p && ids[j] == q && i < j;
    assert Clash(memory[ids[i]], rows[ids[j]]);
  }

  /* Matching */

  predicate HasExternalId(machine: Machine, origin: Origin, record: Record) {
    record.externalId.Some? && machine.source == Some(origin.id) && machine.externalId == record.externalId
  }

  predicate HasHostname(machine: Machine, origin: Origin, record: Record) {
    machine.platformId == origin.platformId && machine.hostname == record.hostname
  }

  function FindMachine(rows: Machines, origin: Origin, record: Record): Option<int> {
    var byExternalId := set id | id in rows && HasExternalId(rows[id], origin, record);
    var byHostname := set id | id in rows && HasHostname(rows[id], origin, record);
    if byExternalId != {} then Some(Least(byExternalId))
    else if byHostname != {} then Some(Least(byHostname))
    else None
  }

  // The match is the only row with the external id of this provisioner, or
  // else the only row with the hostname on this platform.
  lemma FindMachineMeaning(rows: Machines, origin: Origin, record: Record)
    requires Unique(rows)
    ensures var found := FindMachine(rows, origin, record);
            && (found.Some? ==>
                  && found.value in rows
                  && (|| HasExternalId(rows[found.value], origin, record)
                      || (HasHostname(rows[found.value], origin, record)
                          && forall id :: id in rows ==> !HasExternalId(rows[id], origin, record))))
            && (forall id :: id in rows && HasExternalId(rows[id], origin, record) ==> found == Some(id))
            && ((forall id :: id in rows ==> !HasExternalId(rows[id], origin, record)) ==>
                  forall id :: id in rows && HasHostname(rows[id], origin, record) ==> found == Some(id))
            && (found.None? <==> forall id :: id in rows ==>
                  !HasExternalId(rows[id], origin, record) && !HasHostname(rows[id], origin, record))
  {
    var byExternalId := set id | id in rows && HasExternalId(rows[id], origin, record);
    var byHostname := set id | id in rows && HasHostname(rows[id], origin, record);
    forall id | id in rows ensures HasExternalId(rows[id], origin, record) <==> id in byExternalId {}
    forall id | id in rows ensures HasHostname(rows[id], origin, record) <==> id in byHostname {}
    if byExternalId != {} {
      var found := Least(byExternalId);
      forall id | id in byExternalId ensures id == found {
        assert id != found ==> Clash(rows[id], rows[found]);
      }
    } else if byHostname != {} {
      var found := Least(byHostname);
      forall id | id in byHostname ensures id == found {
        assert id != found ==> Clash(rows[id], rows[found]);
      }
    }
  }

  /* One run */

  // The open transaction: flushed rows, values in memory, history appended
  // so far, and the report.
  datatype Tx = Tx(
    rows: Machines,
    memory: Machines,
    history: seq<HistoryRow>,
    nextId: int,
    touched: set<int>,
    created: nat,
    updated: nat,
    flavorChanges: nat)
  {
    ghost predicate Valid() {
      && rows.Keys == memory.Keys
      && Unique(rows)
      && (forall id :: id in memory ==> id < nextId)
      && touched <= memory.Keys
    }
  }

  function Begin(machines: Machines, history: seq<HistoryRow>, nextId: int): Tx {
    Tx(machines, machines, history, nextId, {}, 0, 0, 0)
  }

  function Inserted(tx: Tx, rows: Machines, memory: Machines, row: HistoryRow): Tx {
    Tx(rows, memory, tx.history + [row], tx.nextId + 1, tx.touched + {tx.nextId}, tx.created + 1, tx.updated, tx.flavorChanges)
  }

  function InsertRow(tx: Tx, machine: Machine, row: HistoryRow): Option<Tx>
    requires tx.rows.Keys == tx.memory.Keys
  {
    var memory := tx.memory[tx.nextId := machine];
    match Flush(tx.rows, memory)
    case None => None
    case Some(rows) => Some(Inserted(tx, rows, memory, row))
  }

  // A record without a match inserts a machine, which flushes the session.
  function Insert(tx: Tx, origin: Origin, record: Record, now: int): Option<Tx>
    requires tx.rows.Keys == tx.memory.Keys
  {
    InsertRow(tx, NewMachine(origin, record), HistoryRow(tx.nextId, origin.id, record.flavor, now))
  }

  // A matched record writes the machine in memory only.
  function Update(tx: Tx, origin: Origin, record: Record, id: int, now: int): Tx
    requires id in tx.memory
  {
    var after := tx.(memory := tx.memory[id := Overwrite(tx.memory[id], origin, record)], updated := tx.updated + 1);
    if tx.memory[id].flavor == record.flavor then after
    else after.(history := tx.history + [HistoryRow(id, origin.id, record.flavor, now)],
                touched := tx.touched + {id}, flavorChanges := tx.flavorChanges + 1)
  }

  function Step(tx: Tx, origin: Origin, raw: Record, now: int): Option<Tx>
    requires tx.Valid()
  {
    var record := NormalizeRecord(raw);
    match FindMachine(tx.rows, origin, record)
    case None => Insert(tx, origin, record, now)
    case Some(id) =>
      FindMachineMeaning(tx.rows, origin, record);
      Some(Update(tx, origin, record, id, now))
  }

  lemma InsertedIsValid(tx: Tx, memory: Machines, row: HistoryRow)
    requires tx.Valid() && Unique(memory) && memory.Keys == tx.memory.Keys + {tx.nextId}
    ensures Inserted(tx, memory, memory, row).Valid()
  {
  }

  lemma InsertRowIsValid(tx: Tx, machine: Machine, row: HistoryRow)
    requires tx.Valid()
    ensures var memory := tx.memory[tx.nextId := machine];
            var after := Inserted(tx, memory, memory, row);
            InsertRow(tx, machine, row).Some? ==> InsertRow(tx, machine, row) == Some(after) && after.Valid()
  {
    var memory := tx.memory[tx.nextId := machine];
    FlushWrites(tx.rows, memory);
    if Flush(tx.rows, memory).Some? {
      InsertedIsValid(tx, memory, row);
    }
  }

  lemma InsertIsValid(tx: Tx, origin: Origin, record: Record, now: int)
    requires tx.Valid()
    ensures var memory := tx.memory[tx.nextId := NewMachine(origin, record)];
            var after := Inserted(tx, memory, memory, HistoryRow(tx.nextId, origin.id, record.flavor, now));
            Insert(tx, origin, record, now).Some? ==> Insert(tx, origin, record, now) == Some(after) && after.Valid()
  {
    InsertRowIsValid(tx, NewMachine(origin, record), HistoryRow(tx.nextId, origin.id, record.flavor, now));
  }

  lemma UpdateIsValid(tx: Tx, origin: Origin, record: Record, id: int, now: int)
    requires tx.Valid() && id in tx.memory
    ensures Update(tx, origin, record, id, now).Valid()
  {
  }

  lemma StepIsValid(tx: Tx, origin: Origin, raw: Record, now: int)
    requires tx.Valid()
    ensures Step(tx, origin, raw, now).Some? ==> Step(tx, origin, raw, now).value.Valid()
  {
    var record := NormalizeRecord(raw);
    FindMachineMeaning(tx.rows, origin, record);
    match FindMachine(tx.rows, origin, record) {
      case None => InsertIsValid(tx, origin, record, now);
      case Some(id) => UpdateIsValid(tx, origin, record, id, now);
    }
  }

  function ProcessAll(tx: Tx, origin: Origin, records: seq<Record>, now: int): (after: Option<Tx>)
    requires tx.Valid()
    ensures after.Some? ==> after.value.Valid()
  {
    if records == [] then Some(tx)
    else
      match ProcessAll(tx, origin, records[..|records| - 1], now)
      case None => None
      case Some(before) =>
        StepIsValid(before, origin, records[|records| - 1], now);
        Step(before, origin, records[|records| - 1], now)
  }

  lemma ProcessAppend(tx: Tx, origin: Origin, records: seq<Record>, raw: Record, now: int)
    requires tx.Valid()
    ensures var before := ProcessAll(tx, origin, records, now);
            ProcessAll(tx, origin, records + [raw], now)
            == if before.None? then None else Step(before.value, origin, raw, now)
  {
    assert (records + [raw])[..|records|] == records;
  }

  // Discovery, upsert and the closing flush; None stands for the exception
  // that rolls everything back.
  function RunInventory(machines: Machines, history: seq<HistoryRow>, nextId: int, origin: Origin,
                        records: seq<Record>, now: int): Option<Tx>
    requires Begin(machines, history, nextId).Valid()
  {
    match ProcessAll(Begin(machines, history, nextId), origin, records, now)
    case None => None
    case Some(tx) =>
      match Flush(tx.rows, tx.memory)
      case None => None
      case Some(rows) => Some(tx.(rows := rows))
  }

  /* Counters and the flavor log */

  // `after` accounts for n more records than `before`.
  ghost predicate Accounts(before: Tx, after: Tx, n: nat) {
    && after.created + after.updated == before.created + before.updated + n
    && |after.history| + before.created + before.flavorChanges == |before.history| + after.created + after.flavorChanges
    && before.history <= after.history
  }

  lemma StepCounts(tx: Tx, origin: Origin, raw: Record, now: int)
    requires tx.Valid()
    ensures Step(tx, origin, raw, now).Some? ==> Accounts(tx, Step(tx, origin, raw, now).value, 1)
  {
  }

  lemma {:induction false} Counters(tx: Tx, origin: Origin, records: seq<Record>, now: int)
    requires tx.Valid()
    ensures var after := ProcessAll(tx, origin, records, now);
            after.Some? ==> Accounts(tx, after.value, |records|)
  {
    if records != [] {
      var before := ProcessAll(tx, origin, records[..|records| - 1], now);
      Counters(tx, origin, records[..|records| - 1], now);
      if before.Some? {
        StepCounts(before.value, origin, records[|records| - 1], now);
      }
    }
  }

  function FlavorLog(history: seq<HistoryRow>, machineId: int): seq<Flavor> {
    if history == [] then []
    else
      var last := history[|history| - 1];
      FlavorLog(history[..|history| - 1], machineId) + if last.machineId == machineId then [last.flavor] else []
  }

  predicate Alternates(log: seq<Flavor>) {
    forall i :: 0 < i < |log| ==> log[i] != log[i - 1]
  }

  // The log of a machine ends with its flavor and never repeats one in a row.
  predicate LogOf(history: seq<HistoryRow>, id: int, flavor: Flavor) {
    var log := FlavorLog(history, id);
    log != [] && log[|log| - 1] == flavor && Alternates(log)
  }

  ghost predicate LogAgrees(machines: Machines, history: seq<HistoryRow>) {
    && (forall id :: id in machines ==> LogOf(history, id, machines[id].flavor))
    && (forall row :: row in history ==> row.machineId in machines)
  }

  lemma LogExtends(history: seq<HistoryRow>, row: HistoryRow, machineId: int)
    ensures FlavorLog(history + [row], machineId) ==
            FlavorLog(history, machineId) + if row.machineId == machineId then [row.flavor] else []
  {
  }

  lemma {:induction false} LogOfStranger(history: seq<HistoryRow>, machineId: int)
    requires forall row :: row in history ==> row.machineId != machineId
    ensures FlavorLog(history, machineId) == []
  {
    if history != [] {
      assert history[|history| - 1] in history;
      LogOfStranger(history[..|history| - 1], machineId);
    }
  }

  lemma LogOfExtends(history: seq<HistoryRow>, row: HistoryRow, id: int, flavor: Flavor)
    requires (row.machineId != id && LogOf(history, id, flavor))
             || (row.machineId == id && row.flavor == flavor && FlavorLog(history, id) == [])
             || (row.machineId == id && row.flavor == flavor && exists was :: LogOf(history, id, was) && was != flavor)
    ensures LogOf(history + [row], id, flavor)
  {
  }

  // Appending the flavor a machine takes, when it differs from the one it had.
  lemma LogAppend(machines: Machines, history: seq<HistoryRow>, machine: Machine, row: HistoryRow)
    requires LogAgrees(machines, history)
    requires row.flavor == machine.flavor
    requires row.machineId in machines ==> machines[row.machineId].flavor != row.flavor
    ensures LogAgrees(machines[row.machineId := machine], history + [row])
  {
    var after := machines[row.machineId := machine];
    if row.machineId !in machines {
      LogOfStranger(history, row.machineId);
    }
    forall id | id in after ensures LogOf(history + [row], id, after[id].flavor) {
      if id == row.machineId && id in machines {
        assert LogOf(history, id, machines[id].flavor);
      }
      LogOfExtends(history, row, id, after[id].flavor);
    }
  }

  lemma LogKeeps(machines: Machines, history: seq<HistoryRow>, id: int, machine: Machine)
    requires LogAgrees(machines, history)
    requires id in machines && machines[id].flavor == machine.flavor
    ensures LogAgrees(machines[id := machine], history)
  {
  }

  lemma InsertKeepsLog(tx: Tx, origin: Origin, record: Record, now: int)
    requires tx.Valid() && LogAgrees(tx.memory, tx.history)
    ensures var after := Insert(tx, origin, record, now);
            after.Some? ==> LogAgrees(after.value.memory, after.value.history)
  {
    LogAppend(tx.memory, tx.history, NewMachine(origin, record), HistoryRow(tx.nextId, origin.id, record.flavor, now));
  }

  lemma UpdateKeepsLog(tx: Tx, origin: Origin, record: Record, id: int, now: int)
    requires tx.Valid() && LogAgrees(tx.memory, tx.history) && id in tx.memory
    ensures LogAgrees(Update(tx, origin, record, id, now).memory, Update(tx, origin, record, id, now).history)
  {
    var machine := Overwrite(tx.memory[id], origin, record);
    if tx.memory[id].flavor == record.flavor {
      LogKeeps(tx.memory, tx.history, id, machine);
    } else {
      LogAppend(tx.memory, tx.history, machine, HistoryRow(id, origin.id, record.flavor, now));
    }
  }

  // A record, seen through the flushed rows, still compares and writes the
  // value in memory, so the log keeps agreeing with memory.
  lemma StepKeepsLog(tx: Tx, origin: Origin, raw: Record, now: int)
    requires tx.Valid() && LogAgrees(tx.memory, tx.history)
    ensures var after := Step(tx, origin, raw, now);
            after.Some? ==> LogAgrees(after.value.memory, after.value.history)
  {
    var record := NormalizeRecord(raw);
    FindMachineMeaning(tx.rows, origin, record);
    match FindMachine(tx.rows, origin, record) {
      case None => InsertKeepsLog(tx, origin, record, now);
      case Some(id) => UpdateKeepsLog(tx, origin, record, id, now);
    }
  }

  lemma {:induction false} ProcessKeepsLog(tx: Tx, origin: Origin, records: seq<Record>, now: int)
    requires tx.Valid() && LogAgrees(tx.memory, tx.history)
    ensures var after := ProcessAll(tx, origin, records, now);
            after.Some? ==> LogAgrees(after.value.memory, after.value.history)
  {
    if records != [] {
      var before := ProcessAll(tx, origin, records[..|records| - 1], now);
      ProcessKeepsLog(tx, origin, records[..|records| - 1], now);
      if before.Some? {
        StepKeepsLog(before.value, origin, records[|records| - 1], now);
      }
    }
  }

  // What a successful run leaves: one report line per record, exactly one
  // history row per creation and per flavor change, rows free of clashes.
  lemma RunAccounts(machines: Machines, history: seq<HistoryRow>, nextId: int, origin: Origin, records: seq<Record>,
                    now: int)
    requires Begin(machines, history, nextId).Valid()
    ensures var run := RunInventory(machines, history, nextId, origin, records, now);
            run.Some? ==>
              && run.value.Valid()
              && run.value.rows == run.value.memory
              && run.value.created + run.value.updated == |records|
              && history <= run.value.history
              && |run.value.history| == |history| + run.value.created + run.value.flavorChanges
  {
    Counters(Begin(machines, history, nextId), origin, records, now);
    var after := ProcessAll(Begin(machines, history, nextId), origin, records, now);
    if after.Some? {
      FlushWrites(after.value.rows, after.value.memory);
    }
  }

  /* Any sequence of runs */

  datatype Database = Database(machines: Machines, history: seq<HistoryRow>, nextId: int)
  {
    ghost predicate Valid() {
      && Unique(machines)
      && (forall id :: id in machines ==> id < nextId)
      && LogAgrees(machines, history)
    }
  }

  // Runs of any provisioner, and deletions of machines with their history.
  datatype Event = Run(origin: Origin, records: seq<Record>, now: int) | Delete(id: int)

  function WithoutMachine(history: seq<HistoryRow>, id: int): seq<HistoryRow> {
    if history == [] then []
    else
      var last := history[|history| - 1];
      WithoutMachine(history[..|history| - 1], id) + if last.machineId == id then [] else [last]
  }

  function Perform(db: Database, event: Event): Database
    requires db.Valid()
  {
    match event
    case Delete(id) => db.(machines := db.machines - {id}, history := WithoutMachine(db.history, id))
    case Run(origin, records, now) =>
      match RunInventory(db.machines, db.history, db.nextId, origin, records, now)
      case None => db
      case Some(tx) => Database(tx.rows, tx.history, tx.nextId)
  }

  lemma {:induction false} WithoutMachineLog(history: seq<HistoryRow>, id: int, other: int)
    requires other != id
    ensures FlavorLog(WithoutMachine(history, id), other) == FlavorLog(history, other)
  {
    if history != [] {
      var init, last := history[..|history| - 1], history[|history| - 1];
      WithoutMachineLog(init, id, other);
      if last.machineId != id {
        LogExtends(WithoutMachine(init, id), last, other);
      } else {
        assert WithoutMachine(history, id) == WithoutMachine(init, id);
      }
    }
  }

  lemma {:induction false} WithoutMachineRows(history: seq<HistoryRow>, id: int)
    ensures forall row :: row in WithoutMachine(history, id) ==> row in history && row.machineId != id
  {
    if history != [] {
      WithoutMachineRows(history[..|history| - 1], id);
      assert history == history[..|history| - 1] + [history[|history| - 1]];
    }
  }

  lemma LogOfSurvivor(history: seq<HistoryRow>, id: int, other: int, flavor: Flavor)
    requires other != id && LogOf(history, other, flavor)
    ensures LogOf(WithoutMachine(history, id), other, flavor)
  {
    WithoutMachineLog(history, id, other);
  }

  lemma DeleteKeepsLogs(machines: Machines, history: seq<HistoryRow>, id: int)
    requires LogAgrees(machines, history)
    ensures LogAgrees(machines - {id}, WithoutMachine(history, id))
  {
    forall other | other in machines - {id} ensures LogOf(WithoutMachine(history, id), other, machines[other].flavor) {
      LogOfSurvivor(history, id, other, machines[other].flavor);
    }
    WithoutMachineRows(history, id);
  }

  lemma DeleteKeepsUnique(machines: Machines, id: int)
    requires Unique(machines)
    ensures Unique(machines - {id})
  {
    var less := machines - {id};
    forall i, j | i in less && j in less && i != j ensures !Clash(less[i], less[j]) {
      assert !Clash(machines[i], machines[j]);
    }
  }

  lemma DeleteKeepsValid(db: Database, id: int)
    requires db.Valid()
    ensures Perform(db, Delete(id)).Valid()
  {
    DeleteKeepsLogs(db.machines, db.history, id);
    DeleteKeepsUnique(db.machines, id);
  }

  lemma RunKeepsValid(db: Database, origin: Origin, records: seq<Record>, now: int)
    requires db.Valid()
    ensures Perform(db, Run(origin, records, now)).Valid()
  {
    RunAccounts(db.machines, db.history, db.nextId, origin, records, now);
    ProcessKeepsLog(Begin(db.machines, db.history, db.nextId), origin, records, now);
  }

  lemma PerformKeepsValid(db: Database, event: Event)
    requires db.Valid()
    ensures Perform(db, event).Valid()
  {
    match event {
      case Delete(id) => DeleteKeepsValid(db, id);
      case Run(origin, records, now) => RunKeepsValid(db, origin, records, now);
    }
  }

  function PerformAll(db: Database, events: seq<Event>): (after: Database)
    requires db.Valid()
    ensures after.Valid()
    decreases |events|
  {
    if events == [] then db
    else
      PerformKeepsValid(db, events[0]);
      PerformAll(Perform(db, events[0]), events[1..])
  }

  lemma EmptyIsValid()
    ensures Database(map[], [], 0).Valid()
  {
  }

  // The database after a history that starts empty.
  function DatabaseAfter(events: seq<Event>): (db: Database)
    ensures db.Valid()
  {
    EmptyIsValid();
    PerformAll(Database(map[], [], 0), events)
  }

  lemma ValidHasLogs(db: Database)
    requires db.Valid()
    ensures forall id :: id in db.machines ==> LogOf(db.history, id, db.machines[id].flavor)
  {
  }

  // After any sequence of runs and deletions, every machine's flavor history
  // is not empty, never repeats a flavor in a row and ends with the flavor
  // the machine has.
  lemma FlavorHistoryIsFaithful(start: Database, events: seq<Event>)
    requires start.Valid()
    ensures var db := PerformAll(start, events);
            forall id :: id in db.machines ==> LogOf(db.history, id, db.machines[id].flavor)
  {
    ValidHasLogs(PerformAll(start, events));
  }

  /* Running again */

  // The machine a record resolves to.
  function Hit(tx: Tx, origin: Origin, raw: Record): int {
    match FindMachine(tx.rows, origin, NormalizeRecord(raw))
    case None => tx.nextId
    case Some(id) => id
  }

  function Hits(tx: Tx, origin: Origin, records: seq<Record>, now: int): seq<int>
    requires tx.Valid()
    requires ProcessAll(tx, origin, records, now).Some?
  {
    if records == [] then []
    else
      var before := ProcessAll(tx, origin, records[..|records| - 1], now).value;
      Hits(tx, origin, records[..|records| - 1], now) + [Hit(before, origin, records[|records| - 1])]
  }

  // The machine holds exactly what the record says, and the record finds it.
  predicate Settled(machines: Machines, origin: Origin, raw: Record, id: int) {
    var record := NormalizeRecord(raw);
    && id in machines
    && machines[id] == Overwrite(machines[id], origin, record)
    && (record.externalId.None? ==> machines[id].platformId == origin.platformId)
  }

  // Flushed rows and memory agree on the platform, which no run changes.
  ghost predicate SamePlatform(tx: Tx) {
    forall id :: id in tx.rows && id in tx.memory ==> tx.rows[id].platformId == tx.memory[id].platformId
  }

  lemma InsertSettles(tx: Tx, origin: Origin, raw: Record, now: int)
    requires tx.Valid()
    requires Insert(tx, origin, NormalizeRecord(raw), now).Some?
    ensures var after := Insert(tx, origin, NormalizeRecord(raw), now).value;
            && Settled(after.memory, origin, raw, tx.nextId)
            && SamePlatform(after)
            && forall id :: id in tx.memory ==> id in after.memory && after.memory[id] == tx.memory[id]
  {
  }

  lemma UpdateSettles(tx: Tx, origin: Origin, raw: Record, id: int, now: int)
    requires tx.Valid() && SamePlatform(tx)
    requires id in tx.memory
    requires NormalizeRecord(raw).externalId.None? ==> tx.rows[id].platformId == origin.platformId
    ensures var after := Update(tx, origin, NormalizeRecord(raw), id, now);
            && Settled(after.memory, origin, raw, id)
            && SamePlatform(after)
            && forall other :: other in tx.memory && other != id ==>
                 other in after.memory && after.memory[other] == tx.memory[other]
  {
  }

  lemma StepSettles(tx: Tx, origin: Origin, raw: Record, now: int)
    requires tx.Valid() && SamePlatform(tx)
    requires Step(tx, origin, raw, now).Some?
    ensures var after := Step(tx, origin, raw, now).value;
            && Settled(after.memory, origin, raw, Hit(tx, origin, raw))
            && SamePlatform(after)
            && forall id :: id in tx.memory && id != Hit(tx, origin, raw) ==>
                 id in after.memory && after.memory[id] == tx.memory[id]
  {
    var record := NormalizeRecord(raw);
    FindMachineMeaning(tx.rows, origin, record);
    match FindMachine(tx.rows, origin, record) {
      case None => InsertSettles(tx, origin, raw, now);
      case Some(id) => UpdateSettles(tx, origin, raw, id, now);
    }
  }

  ghost predicate AllSettled(machines: Machines, origin: Origin, records: seq<Record>, ids: seq<int>) {
    |ids| == |records| && forall i :: 0 <= i < |records| ==> Settled(machines, origin, records[i], ids[i])
  }

  lemma SettledExtends(before: Machines, after: Machines, origin: Origin, records: seq<Record>, ids: seq<int>,
                       raw: Record, id: int)
    requires AllSettled(before, origin, records, ids)
    requires Settled(after, origin, raw, id)
    requires forall other :: other in before && other != id ==> other in after && after[other] == before[other]
    requires Distinct(ids + [id])
    ensures AllSettled(after, origin, records + [raw], ids + [id])
  {
    var all := ids + [id];
    forall i | 0 <= i < |all| ensures Settled(after, origin, (records + [raw])[i], all[i]) {
      if i < |ids| {
        assert all[i] == ids[i] && all[i] != all[|ids|];
        assert Settled(before, origin, records[i], ids[i]);
      }
    }
  }

  lemma HitsUnfold(tx: Tx, origin: Origin, records: seq<Record>, now: int)
    requires tx.Valid() && records != [] && ProcessAll(tx, origin, records, now).Some?
    ensures var init, last := records[..|records| - 1], records[|records| - 1];
            && ProcessAll(tx, origin, init, now).Some?
            && var before := ProcessAll(tx, origin, init, now).value;
            && Step(before, origin, last, now) == ProcessAll(tx, origin, records, now)
            && Hits(tx, origin, records, now) == Hits(tx, origin, init, now) + [Hit(before, origin, last)]
  {
  }

  lemma DistinctPrefix(ids: seq<int>, id: int)
    requires Distinct(ids + [id])
    ensures Distinct(ids)
  {
    assert forall i :: 0 <= i < |ids| ==> (ids + [id])[i] == ids[i];
  }

  lemma SettleOneMore(before: Tx, origin: Origin, records: seq<Record>, hits: seq<int>, now: int)
    requires records != [] && before.Valid() && SamePlatform(before)
    requires var init, last := records[..|records| - 1], records[|records| - 1];
             && Step(before, origin, last, now).Some?
             && AllSettled(before.memory, origin, init, hits)
             && Distinct(hits + [Hit(before, origin, last)])
    ensures var last := records[|records| - 1];
            var after := Step(before, origin, last, now).value;
            SamePlatform(after) && AllSettled(after.memory, origin, records, hits + [Hit(before, origin, last)])
  {
    var init, last := records[..|records| - 1], records[|records| - 1];
    assert records == init + [last];
    StepSettles(before, origin, last, now);
    var memory := Step(before, origin, last, now).value.memory;
    SettledExtends(before.memory, memory, origin, init, hits, last, Hit(before, origin, last));
  }

  // When no machine is hit twice, every record is still settled at the end.
  lemma {:induction false} ProcessSettles(tx: Tx, origin: Origin, records: seq<Record>, now: int)
    requires tx.Valid() && SamePlatform(tx)
    requires ProcessAll(tx, origin, records, now).Some?
    requires Distinct(Hits(tx, origin, records, now))
    ensures SamePlatform(ProcessAll(tx, origin, records, now).value)
    ensures AllSettled(ProcessAll(tx, origin, records, now).value.memory, origin, records, Hits(tx, origin, records, now))
  {
    if records != [] {
      var init, last := records[..|records| - 1], records[|records| - 1];
      HitsUnfold(tx, origin, records, now);
      var before := ProcessAll(tx, origin, init, now).value;
      DistinctPrefix(Hits(tx, origin, init, now), Hit(before, origin, last));
      ProcessSettles(tx, origin, init, now);
      SettleOneMore(before, origin, records, Hits(tx, origin, init, now), now);
    }
  }

  /* Runs that change nothing */

  function Found(machines: Machines, origin: Origin, raw: Record): Option<int> {
    FindMachine(machines, origin, NormalizeRecord(raw))
  }

  function Counted(tx: Tx, n: nat): Tx {
    tx.(updated := tx.updated + n)
  }

  // The record finds a machine, which already has its flavor.
  predicate Quiet(machines: Machines, origin: Origin, raw: Record) {
    var found := Found(machines, origin, raw);
    found.Some? && found.value in machines && machines[found.value].flavor == raw.flavor
  }

  predicate AllQuiet(machines: Machines, origin: Origin, records: seq<Record>) {
    forall i :: 0 <= i < |records| ==> Quiet(machines, origin, records[i])
  }

  // No later record finds the machine of this one.
  predicate IsLast(machines: Machines, origin: Origin, records: seq<Record>, i: nat)
    requires i < |records|
  {
    forall j :: i < j < |records| ==> Found(machines, origin, records[j]) != Found(machines, origin, records[i])
  }

  // The machine the record finds stores exactly what the record says.
  predicate Stored(machines: Machines, origin: Origin, raw: Record) {
    var found := Found(machines, origin, raw);
    && found.Some? && found.value in machines
    && machines[found.value] == Overwrite(machines[found.value], origin, NormalizeRecord(raw))
  }

  predicate Steady(machines: Machines, origin: Origin, records: seq<Record>) {
    && AllQuiet(machines, origin, records)
    && forall i :: 0 <= i < |records| && IsLast(machines, origin, records, i) ==> Stored(machines, origin, records[i])
  }

  // The values in memory when every record only overwrites its machine.
  function Overlaid(machines: Machines, origin: Origin, records: seq<Record>): (memory: Machines)
    requires AllQuiet(machines, origin, records)
    ensures memory.Keys == machines.Keys
    ensures forall id :: id in machines ==>
              memory[id].flavor == machines[id].flavor && memory[id].platformId == machines[id].platformId
  {
    if records == [] then machines
    else
      var last := records[|records| - 1];
      assert Quiet(machines, origin, last);
      var id := Found(machines, origin, last).value;
      var before := Overlaid(machines, origin, records[..|records| - 1]);
      before[id := Overwrite(before[id], origin, NormalizeRecord(last))]
  }

  function Undisturbed(machines: Machines, history: seq<HistoryRow>, nextId: int, memory: Machines, n: nat): Tx {
    Tx(machines, memory, history, nextId, {}, 0, n, 0)
  }

  lemma UpdateQuietly(machines: Machines, history: seq<HistoryRow>, nextId: int, memory: Machines, n: nat,
                      origin: Origin, raw: Record, now: int)
    requires Undisturbed(machines, history, nextId, memory, n).Valid() && Quiet(machines, origin, raw)
    requires forall id :: id in machines ==> memory[id].flavor == machines[id].flavor
    ensures var id := Found(machines, origin, raw).value;
            Step(Undisturbed(machines, history, nextId, memory, n), origin, raw, now)
            == Some(Undisturbed(machines, history, nextId,
                                memory[id := Overwrite(memory[id], origin, NormalizeRecord(raw))], n + 1))
  {
  }

  lemma ProcessUnfolds(tx: Tx, origin: Origin, records: seq<Record>, now: int)
    requires tx.Valid() && records != []
    ensures var before := ProcessAll(tx, origin, records[..|records| - 1], now);
            ProcessAll(tx, origin, records, now)
            == if before.None? then None else Step(before.value, origin, records[|records| - 1], now)
  {
  }

  lemma OverlaidUnfolds(machines: Machines, origin: Origin, records: seq<Record>)
    requires AllQuiet(machines, origin, records) && records != []
    ensures var init, last := records[..|records| - 1], records[|records| - 1];
            && AllQuiet(machines, origin, init) && Quiet(machines, origin, last)
            && var memory, id := Overlaid(machines, origin, init), Found(machines, origin, last).value;
            && Overlaid(machines, origin, records)
               == memory[id := Overwrite(memory[id], origin, NormalizeRecord(last))]
  {
    assert Quiet(machines, origin, records[|records| - 1]);
  }

  // Without a creation and a change of flavor nothing is flushed, so all the
  // records look at the same rows.
  lemma {:induction false} QuietProcess(machines: Machines, history: seq<HistoryRow>, nextId: int, origin: Origin,
                                        records: seq<Record>, now: int)
    requires Begin(machines, history, nextId).Valid() && AllQuiet(machines, origin, records)
    ensures ProcessAll(Begin(machines, history, nextId), origin, records, now)
            == Some(Undisturbed(machines, history, nextId, Overlaid(machines, origin, records), |records|))
  {
    if records != [] {
      var init, last := records[..|records| - 1], records[|records| - 1];
      OverlaidUnfolds(machines, origin, records);
      ProcessUnfolds(Begin(machines, history, nextId), origin, records, now);
      QuietProcess(machines, history, nextId, origin, init, now);
      UpdateQuietly(machines, history, nextId, Overlaid(machines, origin, init), |init|, origin, last, now);
    }
  }

  lemma StepNeverUncounts(tx: Tx, origin: Origin, raw: Record, now: int)
    requires tx.Valid()
    ensures var after := Step(tx, origin, raw, now);
            after.Some? ==> tx.created <= after.value.created && tx.flavorChanges <= after.value.flavorChanges
  {
  }

  lemma StepIsQuiet(machines: Machines, history: seq<HistoryRow>, nextId: int, memory: Machines, n: nat,
                    origin: Origin, raw: Record, now: int)
    requires Undisturbed(machines, history, nextId, memory, n).Valid()
    requires forall id :: id in machines ==> memory[id].flavor == machines[id].flavor
    requires var after := Step(Undisturbed(machines, history, nextId, memory, n), origin, raw, now);
             after.Some? && after.value.created == 0 && after.value.flavorChanges == 0
    ensures Quiet(machines, origin, raw)
  {
    FindMachineMeaning(machines, origin, NormalizeRecord(raw));
  }

  predicate Silent(after: Option<Tx>) {
    after.Some? && after.value.created == 0 && after.value.flavorChanges == 0
  }

  lemma SilentBefore(tx: Tx, origin: Origin, records: seq<Record>, raw: Record, now: int)
    requires tx.Valid() && Silent(ProcessAll(tx, origin, records + [raw], now))
    ensures Silent(ProcessAll(tx, origin, records, now))
  {
    ProcessAppend(tx, origin, records, raw, now);
    StepNeverUncounts(ProcessAll(tx, origin, records, now).value, origin, raw, now);
  }

  lemma LastIsQuiet(machines: Machines, history: seq<HistoryRow>, nextId: int, origin: Origin, records: seq<Record>,
                    raw: Record, now: int)
    requires Begin(machines, history, nextId).Valid() && AllQuiet(machines, origin, records)
    ensures Silent(ProcessAll(Begin(machines, history, nextId), origin, records + [raw], now)) ==>
              Quiet(machines, origin, raw)
  {
    if Silent(ProcessAll(Begin(machines, history, nextId), origin, records + [raw], now)) {
      ProcessAppend(Begin(machines, history, nextId), origin, records, raw, now);
      QuietProcess(machines, history, nextId, origin, records, now);
      StepIsQuiet(machines, history, nextId, Overlaid(machines, origin, records), |records|, origin, raw, now);
    }
  }

  lemma AllQuietAppend(machines: Machines, origin: Origin, records: seq<Record>, raw: Record)
    requires AllQuiet(machines, origin, records) && Quiet(machines, origin, raw)
    ensures AllQuiet(machines, origin, records + [raw])
  {
  }

  lemma {:induction false} SilentIsQuiet(machines: Machines, history: seq<HistoryRow>, nextId: int, origin: Origin,
                                         records: seq<Record>, now: int)
    requires Begin(machines, history, nextId).Valid()
    requires Silent(ProcessAll(Begin(machines, history, nextId), origin, records, now))
    ensures AllQuiet(machines, origin, records)
  {
    if records != [] {
      var init, last := records[..|records| - 1], records[|records| - 1];
      assert records == init + [last];
      SilentBefore(Begin(machines, history, nextId), origin, init, last, now);
      SilentIsQuiet(machines, history, nextId, origin, init, now);
      LastIsQuiet(machines, history, nextId, origin, init, last, now);
      AllQuietAppend(machines, origin, init, last);
    }
  }

  // A machine ends with what the last record that finds it says.
  lemma {:induction false} OverlaidAt(machines: Machines, origin: Origin, records: seq<Record>, i: nat)
    requires AllQuiet(machines, origin, records) && i < |records| && IsLast(machines, origin, records, i)
    ensures Quiet(machines, origin, records[i])
    ensures var id := Found(machines, origin, records[i]).value;
            Overlaid(machines, origin, records)[id] == Overwrite(machines[id], origin, NormalizeRecord(records[i]))
    decreases |records|
  {
    var init := records[..|records| - 1];
    assert Quiet(machines, origin, records[i]);
    if i < |records| - 1 {
      assert init[i] == records[i];
      assert IsLast(machines, origin, init, i);
      OverlaidAt(machines, origin, init, i);
      assert Found(machines, origin, records[|records| - 1]) != Found(machines, origin, records[i]);
      assert Quiet(machines, origin, records[|records| - 1]);
    }
  }

  lemma {:induction false} OverlaidElsewhere(machines: Machines, origin: Origin, records: seq<Record>, id: int)
    requires AllQuiet(machines, origin, records) && id in machines
    requires forall i :: 0 <= i < |records| ==> Found(machines, origin, records[i]) != Some(id)
    ensures Overlaid(machines, origin, records)[id] == machines[id]
  {
    if records != [] {
      OverlaidElsewhere(machines, origin, records[..|records| - 1], id);
    }
  }

  lemma {:induction false} LastFinder(machines: Machines, origin: Origin, records: seq<Record>, i: nat) returns (last: nat)
    requires i < |records|
    ensures last < |records| && IsLast(machines, origin, records, last)
    ensures Found(machines, origin, records[last]) == Found(machines, origin, records[i])
    decreases |records| - i
  {
    if IsLast(machines, origin, records, i) {
      last := i;
    } else {
      var j :| i < j < |records| && Found(machines, origin, records[j]) == Found(machines, origin, records[i]);
      last := LastFinder(machines, origin, records, j);
    }
  }

  lemma SteadyMeansSame(machines: Machines, origin: Origin, records: seq<Record>)
    requires AllQuiet(machines, origin, records)
    ensures Overlaid(machines, origin, records) == machines <==> Steady(machines, origin, records)
  {
    var memory := Overlaid(machines, origin, records);
    forall i | 0 <= i < |records| && IsLast(machines, origin, records, i)
      ensures Quiet(machines, origin, records[i])
      ensures var id := Found(machines, origin, records[i]).value;
              memory[id] == Overwrite(machines[id], origin, NormalizeRecord(records[i]))
    {
      OverlaidAt(machines, origin, records, i);
    }
    if Steady(machines, origin, records) {
      forall id | id in machines ensures memory[id] == machines[id] {
        if i :| 0 <= i < |records| && Found(machines, origin, records[i]) == Some(id) {
          var last := LastFinder(machines, origin, records, i);
          assert Stored(machines, origin, records[last]);
          OverlaidAt(machines, origin, records, last);
        } else {
          OverlaidElsewhere(machines, origin, records, id);
        }
      }
      assert forall id :: id in memory <==> id in memory.Keys;
      assert forall id :: id in memory <==> id in machines;
      MapsEqual(memory, machines);
    }
  }

  lemma RunEndsWithMemory(machines: Machines, history: seq<HistoryRow>, nextId: int, origin: Origin,
                          records: seq<Record>, now: int)
    requires Begin(machines, history, nextId).Valid()
    requires RunInventory(machines, history, nextId, origin, records, now).Some?
    ensures var after := ProcessAll(Begin(machines, history, nextId), origin, records, now);
            && after.Some?
            && RunInventory(machines, history, nextId, origin, records, now)
               == Some(after.value.(rows := after.value.memory))
  {
  }

  lemma UnchangedFlush(machines: Machines, history: seq<HistoryRow>, nextId: int, origin: Origin,
                       records: seq<Record>, now: int, after: Tx)
    requires Begin(machines, history, nextId).Valid()
    requires ProcessAll(Begin(machines, history, nextId), origin, records, now) == Some(after)
    requires after.memory == after.rows
    ensures RunInventory(machines, history, nextId, origin, records, now) == Some(after)
  {
    FlushClean(after.rows);
  }

  lemma UnchangedIsSteady(machines: Machines, history: seq<HistoryRow>, nextId: int, origin: Origin,
                          records: seq<Record>, now: int)
    requires Begin(machines, history, nextId).Valid()
    ensures RunInventory(machines, history, nextId, origin, records, now)
            == Some(Counted(Begin(machines, history, nextId), |records|))
            ==> Steady(machines, origin, records)
  {
    if RunInventory(machines, history, nextId, origin, records, now)
       == Some(Counted(Begin(machines, history, nextId), |records|)) {
      RunEndsWithMemory(machines, history, nextId, origin, records, now);
      SilentIsQuiet(machines, history, nextId, origin, records, now);
      QuietProcess(machines, history, nextId, origin, records, now);
      SteadyMeansSame(machines, origin, records);
    }
  }

  lemma SteadyIsUnchanged(machines: Machines, history: seq<HistoryRow>, nextId: int, origin: Origin,
                          records: seq<Record>, now: int)
    requires Begin(machines, history, nextId).Valid() && Steady(machines, origin, records)
    ensures RunInventory(machines, history, nextId, origin, records, now)
            == Some(Counted(Begin(machines, history, nextId), |records|))
  {
    var after := Undisturbed(machines, history, nextId, machines, |records|);
    SteadyMeansSame(machines, origin, records);
    QuietProcess(machines, history, nextId, origin, records, now);
    UnchangedFlush(machines, history, nextId, origin, records, now, after);
    assert after == Counted(Begin(machines, history, nextId), |records|);
  }

  // A run changes nothing if and only if every record finds a machine that
  // has its flavor, and the last record to find a machine says exactly what
  // the machine stores.
  lemma RunChangesNothingExactly(machines: Machines, history: seq<HistoryRow>, nextId: int, origin: Origin,
                                 records: seq<Record>, now: int)
    requires Begin(machines, history, nextId).Valid()
    ensures RunInventory(machines, history, nextId, origin, records, now)
            == Some(Counted(Begin(machines, history, nextId), |records|))
            <==> Steady(machines, origin, records)
  {
    UnchangedIsSteady(machines, history, nextId, origin, records, now);
    if Steady(machines, origin, records) {
      SteadyIsUnchanged(machines, history, nextId, origin, records, now);
    }
  }

  // A settled record finds its machine.
  lemma SettledIsStored(machines: Machines, origin: Origin, raw: Record, id: int)
    requires Unique(machines) && Settled(machines, origin, raw, id)
    ensures Found(machines, origin, raw) == Some(id)
    ensures Quiet(machines, origin, raw) && Stored(machines, origin, raw)
  {
    FindMachineMeaning(machines, origin, NormalizeRecord(raw));
    OverwriteIsVerbatim(machines[id], origin, raw);
  }

  lemma DistinctHitsAreSteady(machines: Machines, history: seq<HistoryRow>, nextId: int, origin: Origin,
                              records: seq<Record>, now: int)
    requires Begin(machines, history, nextId).Valid()
    requires RunInventory(machines, history, nextId, origin, records, now).Some?
    ensures Distinct(Hits(Begin(machines, history, nextId), origin, records, now)) ==>
              Steady(RunInventory(machines, history, nextId, origin, records, now).value.rows, origin, records)
  {
    var tx := Begin(machines, history, nextId);
    var hits := Hits(tx, origin, records, now);
    if Distinct(hits) {
      RunAccounts(machines, history, nextId, origin, records, now);
      ProcessSettles(tx, origin, records, now);
      var rows := RunInventory(machines, history, nextId, origin, records, now).value.rows;
      forall i | 0 <= i < |records| ensures Quiet(rows, origin, records[i]) && Stored(rows, origin, records[i]) {
        SettledIsStored(rows, origin, records[i], hits[i]);
      }
    }
  }

  // Running the same records again on what a run left, at any later time,
  // changes nothing if and only if they are steady there, which they are if
  // no machine was hit twice.
  lemma RunIsIdempotent(machines: Machines, history: seq<HistoryRow>, nextId: int, origin: Origin,
                        records: seq<Record>, now: int, later: int)
    requires Begin(machines, history, nextId).Valid()
    requires RunInventory(machines, history, nextId, origin, records, now).Some?
    ensures var first := RunInventory(machines, history, nextId, origin, records, now).value;
            var again := Begin(first.rows, first.history, first.nextId);
            && again.Valid()
            && (RunInventory(first.rows, first.history, first.nextId, origin, records, later) == Some(Counted(again, |records|))
                <==> Steady(first.rows, origin, records))
            && (Distinct(Hits(Begin(machines, history, nextId), origin, records, now)) ==> Steady(first.rows, origin, records))
  {
    RunAccounts(machines, history, nextId, origin, records, now);
    DistinctHitsAreSteady(machines, history, nextId, origin, records, now);
    var first := RunInventory(machines, history, nextId, origin, records, now).value;
    RunChangesNothingExactly(first.rows, first.history, first.nextId, origin, records, later);
  }

  // In particular, two records of one machine with different flavors are
  // never steady, nor is a record that finds no machine any more.
  lemma RepeatedMachineIsNotIdempotent(machines: Machines, history: seq<HistoryRow>, nextId: int, origin: Origin,
                                       records: seq<Record>, now: int, i: nat, j: nat)
    requires Begin(machines, history, nextId).Valid() && i < |records| && j < |records|
    requires || Found(machines, origin, records[i]).None?
             || (Found(machines, origin, records[i]) == Found(machines, origin, records[j])
                 && records[i].flavor != records[j].flavor)
    ensures RunInventory(machines, history, nextId, origin, records, now)
            != Some(Counted(Begin(machines, history, nextId), |records|))
  {
    RunChangesNothingExactly(machines, history, nextId, origin, records, now);
    assert !Quiet(machines, origin, records[i]) || !Quiet(machines, origin, records[j]);
  }

  /* Inputs that fail */

  lemma ProcessTwo(tx: Tx, origin: Origin, raw1: Record, raw2: Record, now: int)
    requires tx.Valid()
    ensures var first := Step(tx, origin, raw1, now);
            first.Some? ==>
              first.value.Valid() && ProcessAll(tx, origin, [raw1, raw2], now) == Step(first.value, origin, raw2, now)
  {
    StepIsValid(tx, origin, raw1, now);
    assert [raw1, raw2] == [] + [raw1] + [raw2];
    ProcessAppend(tx, origin, [], raw1, now);
    ProcessAppend(tx, origin, [] + [raw1], raw2, now);
  }

  // Two records that find two machines overwrite them in memory.
  lemma TwoUpdates(begin: Tx, origin: Origin, raw1: Record, raw2: Record, p: int, q: int, now: int)
    requires begin.Valid() && begin.rows == begin.memory && p != q
    requires Found(begin.rows, origin, raw1) == Some(p) && Found(begin.rows, origin, raw2) == Some(q)
    requires p in begin.rows && q in begin.rows
    ensures var after := ProcessAll(begin, origin, [raw1, raw2], now);
            && after.Some? && after.value.rows == begin.rows && after.value.Valid()
            && after.value.memory[p] == Overwrite(begin.rows[p], origin, NormalizeRecord(raw1))
            && after.value.memory[q] == Overwrite(begin.rows[q], origin, NormalizeRecord(raw2))
  {
    var tx1 := Update(begin, origin, NormalizeRecord(raw1), p, now);
    UpdateIsValid(begin, origin, NormalizeRecord(raw1), p, now);
    UpdateIsValid(tx1, origin, NormalizeRecord(raw2), q, now);
    ProcessTwo(begin, origin, raw1, raw2, now);
  }

  // Discovering two machines of a provisioner with their hostnames exchanged
  // aborts the run, whatever else the table holds.
  lemma ExchangedHostnamesFail(machines: Machines, history: seq<HistoryRow>, nextId: int, origin: Origin,
                               raw1: Record, raw2: Record, p: int, q: int, now: int)
    requires Begin(machines, history, nextId).Valid()
    requires p in machines && q in machines && p != q
    requires machines[p].platformId == machines[q].platformId
    requires HasExternalId(machines[p], origin, NormalizeRecord(raw1))
    requires HasExternalId(machines[q], origin, NormalizeRecord(raw2))
    requires NormalizeRecord(raw1).hostname == machines[q].hostname
    requires NormalizeRecord(raw2).hostname == machines[p].hostname
    ensures RunInventory(machines, history, nextId, origin, [raw1, raw2], now).None?
  {
    var begin := Begin(machines, history, nextId);
    FindMachineMeaning(machines, origin, NormalizeRecord(raw1));
    FindMachineMeaning(machines, origin, NormalizeRecord(raw2));
    TwoUpdates(begin, origin, raw1, raw2, p, q, now);
    OverwriteIsVerbatim(machines[p], origin, raw1);
    OverwriteIsVerbatim(machines[q], origin, raw2);
    var memory := ProcessAll(begin, origin, [raw1, raw2], now).value.memory;
    TakenHostnameFails(machines, memory, if p < q then p else q, if p < q then q else p);
  }

  lemma FlushOne(rows: Machines, machine: Machine)
    requires rows.Keys == {0}
    ensures Flush(rows, map[0 := machine]) == Some(map[0 := machine])
  {
    var memory := map[0 := machine];
    var ids := Statements(rows, memory);
    assert rows.Keys * memory.Keys == {0} && memory.Keys - rows.Keys == {};
    assert ids == [0];
    assert ids[1..] == [];
    assert rows[0 := memory[0]] == memory;
    assert Accepted(memory, memory, ids[1..]);
  }

  // A database of one machine, hit by hostname with another flavor.
  lemma HitOnlyMachine(tx: Tx, origin: Origin, raw: Record, now: int)
    requires tx.Valid() && tx.memory.Keys == {0}
    requires raw.externalId.None? && HasHostname(tx.rows[0], origin, NormalizeRecord(raw))
    requires tx.memory[0].flavor != raw.flavor
    ensures var after := Step(tx, origin, raw, now);
            && after.Some?
            && after.value.Valid()
            && after.value.rows == tx.rows
            && after.value.memory == map[0 := Overwrite(tx.memory[0], origin, NormalizeRecord(raw))]
            && after.value.flavorChanges == tx.flavorChanges + 1
  {
    FindMachineMeaning(tx.rows, origin, NormalizeRecord(raw));
    StepIsValid(tx, origin, raw, now);
    var machine := Overwrite(tx.memory[0], origin, NormalizeRecord(raw));
    assert tx.memory[0 := machine] == map[0 := machine];
  }

  // Two records of one machine, by its hostname, change its flavor twice and
  // leave the flavor of the second one, so they do it again on every run.
  lemma TwoFlavorsAlternate(origin: Origin, machine: Machine, raw1: Record, raw2: Record, history: seq<HistoryRow>, now: int)
    requires raw1.externalId.None? && raw2.externalId.None?
    requires NormalizeHostname(raw1.hostname) == NormalizeHostname(raw2.hostname) == machine.hostname
    requires machine.platformId == origin.platformId && machine.flavor == raw2.flavor != raw1.flavor
    ensures Begin(map[0 := machine], history, 1).Valid()
    ensures var run := RunInventory(map[0 := machine], history, 1, origin, [raw1, raw2], now);
            && run.Some?
            && run.value.flavorChanges == 2
            && run.value.rows.Keys == {0}
            && run.value.rows[0].flavor == raw2.flavor
  {
    var tx := Begin(map[0 := machine], history, 1);
    HitOnlyMachine(tx, origin, raw1, now);
    var tx1 := Step(tx, origin, raw1, now).value;
    HitOnlyMachine(tx1, origin, raw2, now);
    ProcessTwo(tx, origin, raw1, raw2, now);
    FlushOne(tx1.rows, Overwrite(tx1.memory[0], origin, NormalizeRecord(raw2)));
  }
}
