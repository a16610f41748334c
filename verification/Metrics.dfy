// Metric collection for one provider and machine: the daily table behaves
// as a map keyed by (provider, machine, date), although the session looks
// rows up in the flushed table and inserts only at the flush.
module Metrics {
  import opened Wrappers
  import opened Domain
  import opened Extensionality
  import opened Fleet
  import opened Optimization

  datatype MetricRecord = MetricRecord(
    value: real,
    date: Option<int>,
    machineId: Option<int>,
    machineExternalId: Option<string>,
    hostname: Option<string>)

  datatype Sample = Sample(key: MetricKey, value: int)

  // Conversion to an integer drops the fraction on both sides of zero.
  function Truncate(x: real): int {
    if x >= 0.0 then x.Floor else -((-x).Floor)
  }

  predicate Matches(record: MetricRecord, machine: Machine) {
    var externalId := NormalizeExternalId(record.machineExternalId);
    var hostname := NormalizeOptional(record.hostname, Upper);
    (externalId.Some? && machine.externalId == externalId) || (hostname.Some? && Some(machine.hostname) == hostname)
  }

  // An explicit machine id wins, then the external id, then the hostname;
  // the collection looks in the list of the one machine it was started for.
  function ResolveMachineId(record: MetricRecord, machineId: int, machine: Machine): Option<int> {
    if record.machineId.Some? then record.machineId
    else if Matches(record, machine) then Some(machineId)
    else None
  }

  // The sample a record asks to store; `today` is the clock at that moment.
  function ToSample(record: MetricRecord, today: int, providerId: int, machineId: int,
                    machine: Machine): Option<Sample> {
    match ResolveMachineId(record, machineId, machine)
    case None => None
    case Some(target) =>
      var date := if record.date.Some? then record.date.value else today;
      Some(Sample(MetricKey(providerId, target, date), Truncate(record.value)))
  }

  function ToSamples(records: seq<MetricRecord>, today: seq<int>, providerId: int, machineId: int,
                     machine: Machine): (samples: seq<Option<Sample>>)
    requires |today| == |records|
    ensures |samples| == |records|
    ensures forall i :: 0 <= i < |records| ==>
              samples[i] == ToSample(records[i], today[i], providerId, machineId, machine)
  {
    seq(|records|, i requires 0 <= i < |records| => ToSample(records[i], today[i], providerId, machineId, machine))
  }

  lemma TruncateMeaning(x: real)
    ensures x >= 0.0 ==> 0 <= Truncate(x) && Truncate(x) as real <= x < Truncate(x) as real + 1.0
    ensures x <= 0.0 ==> Truncate(x) <= 0 && Truncate(x) as real - 1.0 < x <= Truncate(x) as real
  {
  }

  // Whose day a record stores, and what: its own machine id and date first,
  // else the collected machine if one of the two names fits, else nothing.
  lemma ToSampleMeaning(record: MetricRecord, today: int, providerId: int, machineId: int, machine: Machine)
    ensures var sample := ToSample(record, today, providerId, machineId, machine);
            var sameId := record.machineExternalId.Some? && machine.externalId.Some?
                          && NormalizeExternalId(record.machineExternalId) == machine.externalId;
            var sameName := record.hostname.Some? && NormalizeOptional(record.hostname, Upper) == Some(machine.hostname);
            && (sample.None? <==> record.machineId.None? && !sameId && !sameName)
            && (sample.Some? ==>
                  && sample.value.key.providerId == providerId
                  && (record.machineId.Some? ==> sample.value.key.machineId == record.machineId.value)
                  && (record.machineId.None? ==> sample.value.key.machineId == machineId)
                  && (record.date.Some? ==> sample.value.key.date == record.date.value)
                  && (record.date.None? ==> sample.value.key.date == today)
                  && sample.value.value == Truncate(record.value))
  {
  }

  /* What a batch means */

  // The batch as map override: a later sample of a day replaces an earlier one.
  function Override(table: MetricTable, samples: seq<Option<Sample>>): MetricTable {
    if samples == [] then table
    else
      var before := Override(table, samples[..|samples| - 1]);
      match samples[|samples| - 1]
      case None => before
      case Some(sample) => before[sample.key := sample.value]
  }

  function CountSkipped(samples: seq<Option<Sample>>): nat {
    if samples == [] then 0
    else CountSkipped(samples[..|samples| - 1]) + if samples[|samples| - 1].None? then 1 else 0
  }

  function CountFresh(table: MetricTable, samples: seq<Option<Sample>>): nat {
    if samples == [] then 0
    else
      var last := samples[|samples| - 1];
      CountFresh(table, samples[..|samples| - 1]) + if last.Some? && last.value.key !in table then 1 else 0
  }

  predicate Occurs(samples: seq<Option<Sample>>, key: MetricKey) {
    exists i :: 0 <= i < |samples| && samples[i].Some? && samples[i].value.key == key
  }

  // No day that is missing from the table is asked for twice.
  predicate FreshDaysAreDistinct(table: MetricTable, samples: seq<Option<Sample>>) {
    forall i, j :: 0 <= i < j < |samples| && samples[i].Some? && samples[j].Some? && samples[i].value.key == samples[j].value.key
                   ==> samples[i].value.key in table
  }

  // Every sample that needs a new row names an existing machine.
  predicate FreshMachinesExist(table: MetricTable, machines: set<int>, samples: seq<Option<Sample>>) {
    forall i :: 0 <= i < |samples| && samples[i].Some? && samples[i].value.key !in table ==>
      samples[i].value.key.machineId in machines
  }

  predicate Storable(table: MetricTable, machines: set<int>, samples: seq<Option<Sample>>) {
    FreshDaysAreDistinct(table, samples) && FreshMachinesExist(table, machines, samples)
  }

  lemma {:induction false} OverrideKeys(table: MetricTable, samples: seq<Option<Sample>>)
    ensures forall key :: key in Override(table, samples) <==>
              key in table || exists i :: 0 <= i < |samples| && samples[i].Some? && samples[i].value.key == key
  {
    if samples != [] {
      var init := samples[..|samples| - 1];
      OverrideKeys(table, init);
      forall key
        ensures key in Override(table, samples) <==>
              key in table || exists i :: 0 <= i < |samples| && samples[i].Some? && samples[i].value.key == key
      {
        if i :| 0 <= i < |samples| && samples[i].Some? && samples[i].value.key == key {
          if i < |init| { assert init[i] == samples[i]; }
        }
        if key in Override(table, init) && key !in table {
          var i :| 0 <= i < |init| && init[i].Some? && init[i].value.key == key;
          assert samples[i] == init[i];
        }
      }
    }
  }

  // The value of a day is that of its last sample in the batch.
  lemma {:induction false} OverrideValue(table: MetricTable, samples: seq<Option<Sample>>, i: nat)
    requires i < |samples| && samples[i].Some?
    requires forall j :: i < j < |samples| && samples[j].Some? ==> samples[j].value.key != samples[i].value.key
    ensures samples[i].value.key in Override(table, samples)
    ensures Override(table, samples)[samples[i].value.key] == samples[i].value.value
  {
    if i < |samples| - 1 {
      OverrideValue(table, samples[..|samples| - 1], i);
    }
  }

  lemma {:induction false} OverrideElsewhere(table: MetricTable, samples: seq<Option<Sample>>, key: MetricKey)
    requires forall i :: 0 <= i < |samples| && samples[i].Some? ==> samples[i].value.key != key
    ensures key in Override(table, samples) <==> key in table
    ensures key in table ==> Override(table, samples)[key] == table[key]
  {
    if samples != [] {
      OverrideElsewhere(table, samples[..|samples| - 1], key);
    }
  }

  // Storable batches grow the table by exactly the rows counted as created.
  lemma {:induction false} GrowthIsFresh(table: MetricTable, samples: seq<Option<Sample>>)
    requires FreshDaysAreDistinct(table, samples)
    ensures |Override(table, samples)| == |table| + CountFresh(table, samples)
  {
    if samples != [] {
      var init := samples[..|samples| - 1];
      var last := samples[|samples| - 1];
      assert FreshDaysAreDistinct(table, init);
      GrowthIsFresh(table, init);
      OverrideKeys(table, init);
      if last.Some? && last.value.key !in table {
        forall i | 0 <= i < |init| && init[i].Some? ensures init[i].value.key != last.value.key {
          assert samples[i] == init[i];
        }
        assert last.value.key !in Override(table, init);
      } else if last.Some? {
        assert Override(table, samples).Keys == Override(table, init).Keys;
        assert |Override(table, samples).Keys| == |Override(table, init).Keys|;
      }
    }
  }

  /* The session */

  // The session after some samples: rows changed in memory, rows waiting for
  // the flush, and the report.
  datatype Progress = Progress(memory: MetricTable, added: seq<Sample>, created: nat, updated: nat, skipped: nat)

  predicate DistinctKeys(added: seq<Sample>) {
    forall i, j :: 0 <= i < j < |added| ==> added[i].key != added[j].key
  }

  function Rows(added: seq<Sample>): MetricTable {
    if added == [] then map[] else Rows(added[..|added| - 1])[added[|added| - 1].key := added[|added| - 1].value]
  }

  // The rows changed in memory and the rows waiting for the flush, against
  // the samples handled so far.
  ghost predicate Reflects(table: MetricTable, samples: seq<Option<Sample>>, memory: MetricTable, added: seq<Sample>) {
    && memory.Keys == table.Keys
    && (forall v: Sample :: v in added <==> Some(v) in samples && v.key !in table)
    && (DistinctKeys(added) <==> FreshDaysAreDistinct(table, samples))
    && memory + Rows(added) == Override(table, samples)
  }

  ghost predicate Tallied(table: MetricTable, samples: seq<Option<Sample>>, created: nat, updated: nat, skipped: nat) {
    created == CountFresh(table, samples) && skipped == CountSkipped(samples) && created + updated + skipped == |samples|
  }

  ghost predicate Handled(table: MetricTable, samples: seq<Option<Sample>>, progress: Progress) {
    && Reflects(table, samples, progress.memory, progress.added)
    && Tallied(table, samples, progress.created, progress.updated, progress.skipped)
  }

  lemma NothingHandled(table: MetricTable, samples: seq<Option<Sample>>)
    ensures Handled(table, samples[..0], Progress(table, [], 0, 0, 0))
  {
  }

  lemma EverythingHandled(table: MetricTable, samples: seq<Option<Sample>>, progress: Progress)
    requires Handled(table, samples[..|samples|], progress)
    ensures Handled(table, samples, progress)
  {
    assert samples[..|samples|] == samples;
  }

  lemma FreshDaysExtend(table: MetricTable, samples: seq<Option<Sample>>, last: Option<Sample>)
    ensures FreshDaysAreDistinct(table, samples + [last]) <==>
            && FreshDaysAreDistinct(table, samples)
            && (last.Some? && last.value.key !in table ==> !Occurs(samples, last.value.key))
  {
    var more := samples + [last];
    assert forall k :: 0 <= k < |samples| ==> more[k] == samples[k];
    assert more[|samples|] == last;
    if FreshDaysAreDistinct(table, more) {
      assert FreshDaysAreDistinct(table, samples);
    }
  }

  lemma ReflectSkipped(table: MetricTable, samples: seq<Option<Sample>>, memory: MetricTable, added: seq<Sample>)
    requires Reflects(table, samples, memory, added)
    ensures Reflects(table, samples + [None], memory, added)
  {
    FreshDaysExtend(table, samples, None);
    assert (samples + [None])[..|samples|] == samples;
  }

  lemma OccursWhenAdded(table: MetricTable, samples: seq<Option<Sample>>, memory: MetricTable, added: seq<Sample>,
                        key: MetricKey)
    requires Reflects(table, samples, memory, added) && key !in table
    ensures Occurs(samples, key) <==> exists v :: v in added && v.key == key
  {
  }

  lemma AddedExtends(table: MetricTable, samples: seq<Option<Sample>>, added: seq<Sample>, sample: Sample)
    requires forall v: Sample :: v in added <==> Some(v) in samples && v.key !in table
    requires sample.key !in table
    ensures forall v: Sample :: v in added + [sample] <==> Some(v) in samples + [Some(sample)] && v.key !in table
  {
  }

  lemma OverrideExtends(table: MetricTable, samples: seq<Option<Sample>>, memory: MetricTable, added: seq<Sample>,
                        sample: Sample)
    requires memory + Rows(added) == Override(table, samples)
    ensures memory + Rows(added + [sample]) == Override(table, samples + [Some(sample)])
  {
  }

  lemma DistinctExtend(added: seq<Sample>, sample: Sample)
    ensures DistinctKeys(added + [sample]) <==> DistinctKeys(added) && !exists v :: v in added && v.key == sample.key
  {
    var more := added + [sample];
    assert forall k :: 0 <= k < |added| ==> more[k] == added[k];
    assert more[|added|] == sample;
    if DistinctKeys(more) {
      assert DistinctKeys(added);
    }
  }

  lemma ReflectFresh(table: MetricTable, samples: seq<Option<Sample>>, memory: MetricTable, added: seq<Sample>,
                     sample: Sample)
    requires Reflects(table, samples, memory, added) && sample.key !in table
    ensures Reflects(table, samples + [Some(sample)], memory, added + [sample])
  {
    FreshDaysExtend(table, samples, Some(sample));
    DistinctExtend(added, sample);
    OccursWhenAdded(table, samples, memory, added, sample.key);
    AddedExtends(table, samples, added, sample);
    OverrideExtends(table, samples, memory, added, sample);
  }

  lemma {:induction false} RowsKeys(added: seq<Sample>)
    ensures forall key :: key in Rows(added) ==> exists k :: 0 <= k < |added| && added[k].key == key
  {
    if added != [] {
      RowsKeys(added[..|added| - 1]);
    }
  }

  lemma ReflectKnown(table: MetricTable, samples: seq<Option<Sample>>, memory: MetricTable, added: seq<Sample>,
                     sample: Sample)
    requires Reflects(table, samples, memory, added) && sample.key in table
    ensures Reflects(table, samples + [Some(sample)], memory[sample.key := sample.value], added)
  {
    var more := samples + [Some(sample)];
    FreshDaysExtend(table, samples, Some(sample));
    RowsKeys(added);
    assert more[..|samples|] == samples;
    assert sample.key !in Rows(added);
    assert memory[sample.key := sample.value] + Rows(added) == (memory + Rows(added))[sample.key := sample.value];
  }

  lemma ReflectNext(table: MetricTable, samples: seq<Option<Sample>>, memory: MetricTable, added: seq<Sample>,
                    next: Option<Sample>)
    requires Reflects(table, samples, memory, added)
    ensures next.None? ==> Reflects(table, samples + [next], memory, added)
    ensures next.Some? && next.value.key !in table ==> Reflects(table, samples + [next], memory, added + [next.value])
    ensures next.Some? && next.value.key in table ==>
              Reflects(table, samples + [next], memory[next.value.key := next.value.value], added)
  {
    match next {
      case None => ReflectSkipped(table, samples, memory, added);
      case Some(sample) =>
        if sample.key !in table {
          ReflectFresh(table, samples, memory, added, sample);
        } else {
          ReflectKnown(table, samples, memory, added, sample);
        }
    }
  }

  lemma TallyExtends(table: MetricTable, samples: seq<Option<Sample>>, created: nat, updated: nat, skipped: nat,
                     next: Option<Sample>)
    requires Tallied(table, samples, created, updated, skipped)
    ensures next.None? ==> Tallied(table, samples + [next], created, updated, skipped + 1)
    ensures next.Some? && next.value.key !in table ==> Tallied(table, samples + [next], created + 1, updated, skipped)
    ensures next.Some? && next.value.key in table ==> Tallied(table, samples + [next], created, updated + 1, skipped)
  {
  }

  // A record without a machine is skipped, a stored day is overwritten in
  // memory, a new day is added to the session.
  method StoreSample(table: MetricTable, samples: seq<Option<Sample>>, i: nat,
                     progress: Progress) returns (after: Progress)
    requires i < |samples| && Handled(table, samples[..i], progress)
    ensures Handled(table, samples[..i + 1], after)
  {
    assert samples[..i + 1] == samples[..i] + [samples[i]];
    TallyExtends(table, samples[..i], progress.created, progress.updated, progress.skipped, samples[i]);
    ReflectNext(table, samples[..i], progress.memory, progress.added, samples[i]);
    after := progress;
    match samples[i] {
      case None =>
        after := after.(skipped := progress.skipped + 1);
      case Some(sample) =>
        if sample.key !in table {
          after := after.(added := progress.added + [sample]);
          after := after.(created := progress.created + 1);
        } else {
          after := after.(memory := progress.memory[sample.key := sample.value]);
          after := after.(updated := progress.updated + 1);
        }
    }
  }

  // The loop over the samples: rows are looked up in the flushed table.
  method Accumulate(table: MetricTable, samples: seq<Option<Sample>>) returns (progress: Progress)
    ensures Handled(table, samples, progress)
  {
    progress := Progress(table, [], 0, 0, 0);
    NothingHandled(table, samples);
    for i := 0 to |samples|
      invariant Handled(table, samples[..i], progress)
    {
      progress := StoreSample(table, samples, i, progress);
    }
    EverythingHandled(table, samples, progress);
  }

  lemma AddedMachines(table: MetricTable, machines: set<int>, samples: seq<Option<Sample>>, added: seq<Sample>)
    requires forall v: Sample :: v in added <==> Some(v) in samples && v.key !in table
    ensures (forall k :: 0 <= k < |added| ==> added[k].key.machineId in machines) <==>
            FreshMachinesExist(table, machines, samples)
  {
  }

  // One collection inside a transaction. The flush fails exactly for a batch
  // that is not storable, and otherwise the table is the map override.
  method StoreBatch(table: MetricTable, machines: set<int>, samples: seq<Option<Sample>>)
    returns (result: Option<MetricTable>, created: nat, updated: nat, skipped: nat)
    ensures result == if Storable(table, machines, samples) then Some(Override(table, samples)) else None
    ensures created == CountFresh(table, samples) && skipped == CountSkipped(samples)
    ensures created + updated + skipped == |samples|
  {
    var progress := Accumulate(table, samples);
    created, updated, skipped := progress.created, progress.updated, progress.skipped;
    var added := progress.added;
    AddedMachines(table, machines, samples, added);
    if DistinctKeys(added) && forall k :: 0 <= k < |added| ==> added[k].key.machineId in machines {
      result := Some(progress.memory + Rows(added));
    } else {
      result := None;
    }
  }

  /* What the counters count */

  lemma {:induction false} CountSkippedMeaning(samples: seq<Option<Sample>>)
    ensures CountSkipped(samples) == |set i | 0 <= i < |samples| && samples[i].None?|
  {
    if samples != [] {
      var n := |samples| - 1;
      CountSkippedMeaning(samples[..n]);
      var before := set i | 0 <= i < n && samples[..n][i].None?;
      var all := set i | 0 <= i < |samples| && samples[i].None?;
      var more := before + if samples[n].None? then {n} else {};
      forall i ensures i in all <==> i in more {
      }
      SetsEqual(all, more);
      assert n !in before;
    }
  }

  predicate IsNewDay(table: MetricTable, sample: Option<Sample>) {
    sample.Some? && sample.value.key !in table
  }

  lemma {:induction false} CountFreshMeaning(table: MetricTable, samples: seq<Option<Sample>>)
    ensures CountFresh(table, samples)
            == |set i | 0 <= i < |samples| && IsNewDay(table, samples[i])|
  {
    if samples != [] {
      var n := |samples| - 1;
      CountFreshMeaning(table, samples[..n]);
      var before := set i | 0 <= i < n && IsNewDay(table, samples[..n][i]);
      var all := set i | 0 <= i < |samples| && IsNewDay(table, samples[i]);
      var more := before + if IsNewDay(table, samples[n]) then {n} else {};
      forall i ensures i in all <==> i in more {
      }
      SetsEqual(all, more);
      assert n !in before;
    }
  }

  /* Consequences */

  lemma {:induction false} NoneFresh(table: MetricTable, samples: seq<Option<Sample>>)
    requires forall i :: 0 <= i < |samples| && samples[i].Some? ==> samples[i].value.key in table
    ensures CountFresh(table, samples) == 0
  {
    if samples != [] {
      NoneFresh(table, samples[..|samples| - 1]);
    }
  }

  // A day in the batch ends with the same value whatever was stored before.
  lemma {:induction false} LastSampleDecides(t1: MetricTable, t2: MetricTable, samples: seq<Option<Sample>>,
                                             key: MetricKey)
    requires Occurs(samples, key)
    ensures key in Override(t1, samples) && key in Override(t2, samples)
    ensures Override(t2, samples)[key] == Override(t1, samples)[key]
  {
    var init, last := samples[..|samples| - 1], samples[|samples| - 1];
    if !(last.Some? && last.value.key == key) {
      var i :| 0 <= i < |samples| && samples[i].Some? && samples[i].value.key == key;
      assert init[i] == samples[i];
      LastSampleDecides(t1, t2, init, key);
    }
  }

  // Collecting the same samples again creates nothing, changes nothing and
  // cannot fail.
  lemma CollectingAgainChangesNothing(table: MetricTable, machines: set<int>, samples: seq<Option<Sample>>)
    ensures var stored := Override(table, samples);
            && CountFresh(stored, samples) == 0
            && Storable(stored, machines, samples)
            && Override(stored, samples) == stored
  {
    var stored := Override(table, samples);
    OverrideKeys(table, samples);
    NoneFresh(stored, samples);
    OverrideKeys(stored, samples);
    forall key | key in stored
      ensures key in Override(stored, samples) && Override(stored, samples)[key] == stored[key]
    {
      if Occurs(samples, key) {
        LastSampleDecides(table, stored, samples, key);
      } else {
        OverrideElsewhere(stored, samples, key);
      }
    }
    assert Override(stored, samples).Keys == stored.Keys;
  }
}
