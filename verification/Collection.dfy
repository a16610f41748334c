// One metric collection of a provider for a machine, as a database session:
// either the whole batch and the refreshed optimization are committed, or
// only the provider's error is.
module Collection {
  import opened Wrappers
  import opened Fleet
  import opened Recommendation
  import opened Optimization
  import opened Metrics

  datatype Failure = ConnectorFailed | IntegrityViolated

  datatype Outcome =
    | ProviderNotFound
    | MachineNotFound
    | MachineOutOfScope
    | Collected(created: nat, updated: nat, skipped: nat)
    | Failed(failure: Failure)

  function WithTable(telemetry: Telemetry, scope: Scope, table: MetricTable): Telemetry {
    match scope
    case Cpu => telemetry.(cpu := table)
    case Ram => telemetry.(ram := table)
    case Disk => telemetry.(disk := table)
  }

  lemma {:induction false} CountsFit(table: MetricTable, samples: seq<Option<Sample>>)
    ensures CountFresh(table, samples) + CountSkipped(samples) <= |samples|
  {
    if samples != [] {
      CountsFit(table, samples[..|samples| - 1]);
    }
  }

  // The rows after a collection, and what it reports.
  function Collect(telemetry: Telemetry, machines: map<int, Machine>, providerId: int, machineId: int,
                   collected: Option<seq<MetricRecord>>, today: seq<int>): (Outcome, Telemetry)
    requires collected.Some? ==> |today| == |collected.value|
  {
    if providerId !in telemetry.providers then (ProviderNotFound, telemetry)
    else if machineId !in machines then (MachineNotFound, telemetry)
    else if !telemetry.providers[providerId].Sees(machines[machineId]) then (MachineOutOfScope, telemetry)
    else if collected.None? then (Failed(ConnectorFailed), telemetry)
    else
      var scope := telemetry.providers[providerId].scope;
      var table := telemetry.Table(scope);
      var samples := ToSamples(collected.value, today, providerId, machineId, machines[machineId]);
      if !Storable(table, machines.Keys, samples) then (Failed(IntegrityViolated), telemetry)
      else
        var added := CountFresh(table, samples);
        var idle := CountSkipped(samples);
        CountsFit(table, samples);
        (Collected(added, |samples| - added - idle, if samples == [] then 1 else idle),
         WithTable(telemetry, scope, Override(table, samples)))
  }

  lemma WithTableReads(telemetry: Telemetry, scope: Scope, table: MetricTable)
    ensures WithTable(telemetry, scope, table).Table(scope) == table
    ensures forall other :: other != scope ==> WithTable(telemetry, scope, table).Table(other) == telemetry.Table(other)
    ensures WithTable(telemetry, scope, table).providers == telemetry.providers
    ensures forall again :: WithTable(WithTable(telemetry, scope, table), scope, again) == WithTable(telemetry, scope, again)
  {
  }

  // A successful collection changes the table of the provider's scope only,
  // grows it by exactly the reported creations, and accounts for every
  // record; any other one changes no table.
  lemma CollectionAccounts(telemetry: Telemetry, machines: map<int, Machine>, providerId: int, machineId: int,
                           collected: Option<seq<MetricRecord>>, today: seq<int>)
    requires collected.Some? ==> |today| == |collected.value|
    ensures var (outcome, after) := Collect(telemetry, machines, providerId, machineId, collected, today);
            && after.providers == telemetry.providers
            && (!outcome.Collected? ==> after == telemetry)
            && (outcome.Collected? ==>
                  && var scope := telemetry.providers[providerId].scope;
                  && |after.Table(scope)| == |telemetry.Table(scope)| + outcome.created
                  && (forall other :: other != scope ==> after.Table(other) == telemetry.Table(other))
                  && outcome.created + outcome.updated + outcome.skipped
                     == (if collected.value == [] then 1 else |collected.value|))
  {
    var (outcome, after) := Collect(telemetry, machines, providerId, machineId, collected, today);
    if outcome.Collected? {
      var scope := telemetry.providers[providerId].scope;
      var samples := ToSamples(collected.value, today, providerId, machineId, machines[machineId]);
      WithTableReads(telemetry, scope, Override(telemetry.Table(scope), samples));
      GrowthIsFresh(telemetry.Table(scope), samples);
      CountsFit(telemetry.Table(scope), samples);
    }
  }

  predicate LastOfDay(samples: seq<Option<Sample>>, i: nat)
    requires i < |samples| && samples[i].Some?
  {
    forall j :: i < j < |samples| && samples[j].Some? ==> samples[j].value.key != samples[i].value.key
  }

  // Which outcome a collection has, and what a successful one stores: each
  // day holds the value of the last record for it, and the skipped records
  // are those without a machine, or one for an empty answer.
  lemma CollectMeaning(telemetry: Telemetry, machines: map<int, Machine>, providerId: int, machineId: int,
                       collected: Option<seq<MetricRecord>>, today: seq<int>)
    requires collected.Some? ==> |today| == |collected.value|
    ensures var (outcome, after) := Collect(telemetry, machines, providerId, machineId, collected, today);
            && (outcome.ProviderNotFound? <==> providerId !in telemetry.providers)
            && (outcome.MachineNotFound? <==> providerId in telemetry.providers && machineId !in machines)
            && (outcome.MachineOutOfScope? <==> providerId in telemetry.providers && machineId in machines
                                                && !telemetry.providers[providerId].Sees(machines[machineId]))
            && (outcome == Failed(ConnectorFailed) ==> collected.None?)
            && (outcome == Failed(IntegrityViolated) ==> collected.Some?)
            && (outcome.Collected? ==> collected.Some?)
            && (outcome.Collected? || outcome == Failed(IntegrityViolated) ==>
                  var table := telemetry.Table(telemetry.providers[providerId].scope);
                  var samples := ToSamples(collected.value, today, providerId, machineId, machines[machineId]);
                  (outcome.Collected? <==>
                   forall i :: 0 <= i < |samples| && samples[i].Some? && samples[i].value.key !in table ==>
                     LastOfDay(samples, i) && samples[i].value.key.machineId in machines))
    ensures var (outcome, after) := Collect(telemetry, machines, providerId, machineId, collected, today);
            outcome.Collected? ==>
              && var scope := telemetry.providers[providerId].scope;
              && var samples := ToSamples(collected.value, today, providerId, machineId, machines[machineId]);
              && |samples| == |collected.value|
              && (forall i :: 0 <= i < |samples| && samples[i].Some? && LastOfDay(samples, i) ==>
                    samples[i].value.key in after.Table(scope)
                    && after.Table(scope)[samples[i].value.key] == samples[i].value.value)
              && outcome.skipped == (if samples == [] then 1 else |set i | 0 <= i < |samples| && samples[i].None?|)
  {
    var (outcome, after) := Collect(telemetry, machines, providerId, machineId, collected, today);
    if outcome.Collected? {
      var scope := telemetry.providers[providerId].scope;
      var samples := ToSamples(collected.value, today, providerId, machineId, machines[machineId]);
      WithTableReads(telemetry, scope, Override(telemetry.Table(scope), samples));
      CountSkippedMeaning(samples);
      forall i | 0 <= i < |samples| && samples[i].Some? && LastOfDay(samples, i)
        ensures samples[i].value.key in after.Table(scope)
        ensures after.Table(scope)[samples[i].value.key] == samples[i].value.value
      {
        OverrideValue(telemetry.Table(scope), samples, i);
      }
    }
  }

  // Repeating a successful collection on the same days succeeds, creates
  // nothing and leaves the same tables.
  lemma CollectionIsIdempotent(telemetry: Telemetry, machines: map<int, Machine>, providerId: int, machineId: int,
                               collected: Option<seq<MetricRecord>>, today: seq<int>)
    requires collected.Some? ==> |today| == |collected.value|
    requires Collect(telemetry, machines, providerId, machineId, collected, today).0.Collected?
    ensures var (outcome, after) := Collect(telemetry, machines, providerId, machineId, collected, today);
            Collect(after, machines, providerId, machineId, collected, today)
            == (Collected(0, outcome.created + outcome.updated, outcome.skipped), after)
  {
    var scope := telemetry.providers[providerId].scope;
    var samples := ToSamples(collected.value, today, providerId, machineId, machines[machineId]);
    var stored := Override(telemetry.Table(scope), samples);
    WithTableReads(telemetry, scope, stored);
    CollectingAgainChangesNothing(telemetry.Table(scope), machines.Keys, samples);
    CountsFit(telemetry.Table(scope), samples);
  }

  class CollectionSession {
    var telemetry: Telemetry
    var machines: map<int, Machine>
    var lastSuccessAt: map<int, int>
    var lastError: map<int, Failure>
    const optimizations: OptimizationTable

    constructor (telemetry: Telemetry, machines: map<int, Machine>, optimizations: OptimizationTable)
      ensures this.telemetry == telemetry && this.machines == machines && this.optimizations == optimizations
      ensures lastSuccessAt == map[] && lastError == map[]
    {
      this.telemetry, this.machines, this.optimizations := telemetry, machines, optimizations;
      lastSuccessAt, lastError := map[], map[];
    }

    // `collected` is what the connector returned, `today` the clock at each
    // record, `now` the clock when the batch is complete.
    method Run(providerId: int, machineId: int, collected: Option<seq<MetricRecord>>, today: seq<int>, now: int,
               settings: Settings)
      returns (outcome: Outcome)
      requires settings.Valid()
      requires collected.Some? ==> |today| == |collected.value|
      modifies this, optimizations
      ensures machines == old(machines)
      ensures (outcome, telemetry) == Collect(old(telemetry), machines, providerId, machineId, collected, today)
      ensures lastError == if outcome.Failed? then old(lastError)[providerId := outcome.failure] else old(lastError)
      ensures !outcome.Collected? ==>
                lastSuccessAt == old(lastSuccessAt) && optimizations.rows == old(optimizations.rows)
      ensures outcome.Collected? ==>
                && lastSuccessAt == old(lastSuccessAt)[providerId := now]
                && machineId in machines
                && optimizations.rows ==
                   old(optimizations.rows)[machineId := BuildSnapshot(telemetry, machineId, machines[machineId], settings, now)]
    {
      if providerId !in telemetry.providers {
        return ProviderNotFound;
      }
      if machineId !in machines {
        return MachineNotFound;
      }
      var provider := telemetry.providers[providerId];
      if !provider.Sees(machines[machineId]) {
        return MachineOutOfScope;
      }
      if collected.None? {
        lastError := lastError[providerId := ConnectorFailed];
        return Failed(ConnectorFailed);
      }
      var samples := ToSamples(collected.value, today, providerId, machineId, machines[machineId]);
      var stored, created, updated, skipped := StoreBatch(telemetry.Table(provider.scope), machines.Keys, samples);
      if collected.value == [] {
        skipped := 1;
      }
      if stored.None? {
        lastError := lastError[providerId := IntegrityViolated];
        return Failed(IntegrityViolated);
      }
      telemetry := WithTable(telemetry, provider.scope, stored.value);
      lastSuccessAt := lastSuccessAt[providerId := now];
      var _ := optimizations.Refresh(machines, telemetry, settings, machineId, now);
      return Collected(created, updated, skipped);
    }
  }
}
