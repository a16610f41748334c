// The stored optimization of a machine: metric window, evaluation of one
// scope, aggregation, and the table holding one row per machine.
module Optimization {
  import opened Wrappers
  import opened Ordering
  import opened Extensionality
  import opened Fleet
  import opened Recommendation

  datatype MetricKey = MetricKey(providerId: int, machineId: int, date: int)

  // One daily value per provider, machine and date.
  type MetricTable = map<MetricKey, int>

  // Everything the engine reads besides the machine itself.
  datatype Telemetry = Telemetry(providers: map<int, Provider>, cpu: MetricTable, ram: MetricTable, disk: MetricTable)
  {
    function Table(scope: Scope): MetricTable {
      match scope
      case Cpu => cpu
      case Ram => ram
      case Disk => disk
    }
  }

  lemma TableMeaning(telemetry: Telemetry)
    ensures telemetry == Telemetry(telemetry.providers, telemetry.Table(Cpu), telemetry.Table(Ram), telemetry.Table(Disk))
  {
  }

  /* Metric window */

  function SampleDates(table: MetricTable, providerId: int, machineId: int): set<int> {
    set key | key in table && key.providerId == providerId && key.machineId == machineId :: key.date
  }

  function WindowDates(table: MetricTable, providerId: int, machineId: int, limit: nat): seq<int> {
    Newest(SampleDates(table, providerId, machineId), limit)
  }

  lemma SampleDateIsStored(table: MetricTable, providerId: int, machineId: int, date: int)
    ensures date in SampleDates(table, providerId, machineId) <==> MetricKey(providerId, machineId, date) in table
  {
  }

  function Samples(table: MetricTable, providerId: int, machineId: int, limit: nat): (samples: seq<int>)
    ensures |samples| == |WindowDates(table, providerId, machineId, limit)|
  {
    var dates := WindowDates(table, providerId, machineId, limit);
    seq(|dates|, i requires 0 <= i < |dates| =>
      SampleDateIsStored(table, providerId, machineId, dates[i]);
      table[MetricKey(providerId, machineId, dates[i])])
  }

  function Sum(values: seq<int>): int {
    if values == [] then 0 else values[0] + Sum(values[1..])
  }

  function Average(values: seq<int>): real {
    if values == [] then 0.0 else Sum(values) as real / |values| as real
  }

  lemma {:induction false} SumWithin(values: seq<int>, lo: int, hi: int)
    requires forall v :: v in values ==> lo <= v <= hi
    ensures lo * |values| <= Sum(values) <= hi * |values|
  {
    if values != [] {
      assert forall i :: 0 <= i < |values| ==> values[i] in values;
      SumWithin(values[1..], lo, hi);
      assert lo * |values| == lo + lo * |values[1..]|;
      assert hi * |values| == hi + hi * |values[1..]|;
    }
  }

  lemma QuotientWithin(sum: real, n: real, lo: real, hi: real)
    requires n > 0.0 && lo * n <= sum <= hi * n
    ensures lo <= sum / n <= hi
  {
    assert sum / n * n == sum;
  }

  // The utilization of a window lies between its smallest and largest sample.
  lemma AverageWithin(values: seq<int>, lo: int, hi: int)
    requires values != []
    requires forall v :: v in values ==> lo <= v <= hi
    ensures lo as real <= Average(values) <= hi as real
  {
    SumWithin(values, lo, hi);
    var n := |values| as real;
    QuotientWithin(Sum(values) as real, n, lo as real, hi as real);
  }

  lemma {:induction false} SumOfChange(values: seq<int>, i: nat, v: int)
    requires i < |values|
    ensures Sum(values[i := v]) == Sum(values) - values[i] + v
  {
    if i > 0 {
      SumOfChange(values[1..], i - 1, v);
      assert values[i := v][1..] == values[1..][i - 1 := v];
    } else {
      assert values[0 := v][1..] == values[1..];
    }
  }

  lemma {:induction false} SumAppend(values: seq<int>, v: int)
    ensures Sum(values + [v]) == Sum(values) + v
  {
    if values == [] {
      assert [] + [v] == [v];
    } else {
      SumAppend(values[1..], v);
      assert (values + [v])[1..] == values[1..] + [v];
    }
  }

  lemma Quotient(sum: real, n: real)
    requires n != 0.0
    ensures sum / n * n == sum
  {
  }

  // Changing one sample of a window moves the average by its share.
  lemma AverageOfChange(values: seq<int>, i: nat, v: int)
    requires i < |values|
    ensures (Average(values[i := v]) - Average(values)) * |values| as real == (v - values[i]) as real
  {
    SumOfChange(values, i, v);
    Quotient(Sum(values) as real, |values| as real);
    Quotient(Sum(values[i := v]) as real, |values| as real);
  }

  lemma {:induction false} SumOfEqual(values: seq<int>, v: int)
    requires forall i :: 0 <= i < |values| ==> values[i] == v
    ensures Sum(values) == v * |values|
  {
    if values != [] {
      SumOfEqual(values[1..], v);
      assert v * |values| == v + v * |values[1..]|;
    }
  }

  lemma AverageOfEqual(values: seq<int>, v: int)
    requires values != [] && forall i :: 0 <= i < |values| ==> values[i] == v
    ensures Average(values) == v as real
  {
    SumOfEqual(values, v);
    QuotientWithin(Sum(values) as real, |values| as real, v as real, v as real);
  }

  lemma {:induction false} SumWithout(values: seq<int>, k: nat)
    requires k < |values|
    ensures Sum(values) == values[k] + Sum(values[..k] + values[k + 1..])
  {
    if k > 0 {
      SumWithout(values[1..], k - 1);
      assert (values[..k] + values[k + 1..])[1..] == values[1..][..k - 1] + values[1..][k..];
    } else {
      assert values[..0] + values[1..] == values[1..];
    }
  }

  lemma PermutationWithoutHead(a: seq<int>, b: seq<int>) returns (k: nat)
    requires a != [] && multiset(a) == multiset(b)
    ensures k < |b| && b[k] == a[0] && multiset(a[1..]) == multiset(b[..k] + b[k + 1..])
  {
    assert a[0] in multiset(b);
    k :| 0 <= k < |b| && b[k] == a[0];
    assert a == [a[0]] + a[1..];
    assert b == b[..k] + [b[k]] + b[k + 1..];
    assert multiset(a[1..]) == multiset(a) - multiset{a[0]};
    assert multiset(b[..k] + b[k + 1..]) == multiset(b) - multiset{b[k]};
  }

  lemma {:induction false} SumOfPermutation(a: seq<int>, b: seq<int>)
    requires multiset(a) == multiset(b)
    ensures Sum(a) == Sum(b) && |a| == |b|
    decreases |a|
  {
    assert |multiset(a)| == |a| && |multiset(b)| == |b|;
    if a != [] {
      var k := PermutationWithoutHead(a, b);
      SumOfPermutation(a[1..], b[..k] + b[k + 1..]);
      SumWithout(b, k);
    }
  }

  // The order of the samples does not matter.
  lemma AverageOfPermutation(a: seq<int>, b: seq<int>)
    requires multiset(a) == multiset(b)
    ensures Average(a) == Average(b)
  {
    SumOfPermutation(a, b);
  }

  // The samples are the stored values at the dates of the window.
  lemma SamplesAreStored(table: MetricTable, providerId: int, machineId: int, limit: nat, i: nat)
    requires i < |WindowDates(table, providerId, machineId, limit)|
    ensures var key := MetricKey(providerId, machineId, WindowDates(table, providerId, machineId, limit)[i]);
            key in table && Samples(table, providerId, machineId, limit)[i] == table[key]
  {
    SampleDateIsStored(table, providerId, machineId, WindowDates(table, providerId, machineId, limit)[i]);
  }

  // The rows of a window added up, newest last.
  function Total(table: MetricTable, providerId: int, machineId: int, dates: seq<int>): int
    requires forall i :: 0 <= i < |dates| ==> MetricKey(providerId, machineId, dates[i]) in table
  {
    if dates == [] then 0
    else
      Total(table, providerId, machineId, dates[..|dates| - 1])
      + table[MetricKey(providerId, machineId, dates[|dates| - 1])]
  }

  lemma {:induction false} TotalIsSum(table: MetricTable, providerId: int, machineId: int, dates: seq<int>, samples: seq<int>)
    requires forall i :: 0 <= i < |dates| ==> MetricKey(providerId, machineId, dates[i]) in table
    requires |samples| == |dates|
    requires forall i :: 0 <= i < |dates| ==> samples[i] == table[MetricKey(providerId, machineId, dates[i])]
    ensures Total(table, providerId, machineId, dates) == Sum(samples)
  {
    if dates != [] {
      var n := |dates| - 1;
      TotalIsSum(table, providerId, machineId, dates[..n], samples[..n]);
      SumAppend(samples[..n], samples[n]);
      assert samples == samples[..n] + [samples[n]];
    }
  }

  // The average of a window times its size is the total of its stored rows.
  lemma AverageIsMean(table: MetricTable, providerId: int, machineId: int, limit: nat)
    requires Samples(table, providerId, machineId, limit) != []
    ensures var dates := WindowDates(table, providerId, machineId, limit);
            && (forall i :: 0 <= i < |dates| ==> MetricKey(providerId, machineId, dates[i]) in table)
            && Average(Samples(table, providerId, machineId, limit)) * |dates| as real
               == Total(table, providerId, machineId, dates) as real
  {
    var dates := WindowDates(table, providerId, machineId, limit);
    var samples := Samples(table, providerId, machineId, limit);
    forall i | 0 <= i < |dates|
      ensures MetricKey(providerId, machineId, dates[i]) in table
      ensures samples[i] == table[MetricKey(providerId, machineId, dates[i])]
    {
      SamplesAreStored(table, providerId, machineId, limit, i);
    }
    TotalIsSum(table, providerId, machineId, dates, samples);
    Quotient(Sum(samples) as real, |samples| as real);
  }

  // The window holds the newest stored dates, as many as there are up to the
  // limit.
  lemma WindowMeaning(table: MetricTable, providerId: int, machineId: int, limit: nat, date: int, i: nat)
    ensures var dates := WindowDates(table, providerId, machineId, limit);
            && |dates| == (if |SampleDates(table, providerId, machineId)| < limit
                           then |SampleDates(table, providerId, machineId)| else limit)
            && (date in SampleDates(table, providerId, machineId) <==> MetricKey(providerId, machineId, date) in table)
            && (date in dates ==> MetricKey(providerId, machineId, date) in table)
            && (MetricKey(providerId, machineId, date) in table && date !in dates && i < |dates| ==> date < dates[i])
            && (0 < i < |dates| ==> dates[i] < dates[i - 1])
  {
    SampleDateIsStored(table, providerId, machineId, date);
    var dates := WindowDates(table, providerId, machineId, limit);
    if i < |dates| && date in SampleDates(table, providerId, machineId) && date !in dates {
      NewestAreNewer(SampleDates(table, providerId, machineId), limit, i, date);
    }
  }

  // Two tables that agree on every sample of this provider and machine not
  // older than a full window have the same window.
  predicate AgreeSince(t1: MetricTable, t2: MetricTable, providerId: int, machineId: int, oldest: int) {
    && (forall key :: key in t1 && key.providerId == providerId && key.machineId == machineId && oldest <= key.date
                      ==> key in t2 && t2[key] == t1[key])
    && (forall key :: key in t2 && key.providerId == providerId && key.machineId == machineId && oldest <= key.date
                      ==> key in t1)
  }

  lemma WindowIsLocal(t1: MetricTable, t2: MetricTable, providerId: int, machineId: int, limit: nat)
    requires limit > 0 && |WindowDates(t1, providerId, machineId, limit)| == limit
    requires AgreeSince(t1, t2, providerId, machineId, WindowDates(t1, providerId, machineId, limit)[limit - 1])
    ensures WindowDates(t2, providerId, machineId, limit) == WindowDates(t1, providerId, machineId, limit)
    ensures Samples(t2, providerId, machineId, limit) == Samples(t1, providerId, machineId, limit)
  {
    var dates := WindowDates(t1, providerId, machineId, limit);
    var oldest := dates[limit - 1];
    forall date | oldest <= date
      ensures date in SampleDates(t1, providerId, machineId) <==> date in SampleDates(t2, providerId, machineId)
    {
      SampleDateIsStored(t1, providerId, machineId, date);
      SampleDateIsStored(t2, providerId, machineId, date);
    }
    NewestIsLocal(SampleDates(t1, providerId, machineId), SampleDates(t2, providerId, machineId), limit, oldest);
    forall i | 0 <= i < limit
      ensures Samples(t2, providerId, machineId, limit)[i] == Samples(t1, providerId, machineId, limit)[i]
    {
      SampleDateIsStored(t1, providerId, machineId, dates[i]);
      assert oldest <= MetricKey(providerId, machineId, dates[i]).date;
    }
  }

  /* One scope */

  datatype ScopeStatus = Calculable | MissingProvider | Ambiguous | NoData | MissingCapacity

  datatype ScopeDetails = ScopeDetails(
    providerId: Option<int>,
    status: ScopeStatus,
    samplesUsed: nat,
    windowSize: int,
    lastMetricDate: Option<int>,
    utilization: Option<real>,
    currentCapacity: Option<real>,
    rawTarget: Option<real>,
    boundedTarget: Option<real>,
    action: Action,
    reason: Reason)

  function EvaluateScope(telemetry: Telemetry, machineId: int, machine: Machine, scope: Scope,
                         settings: Settings): ScopeDetails
    requires settings.Valid()
  {
    var visible := VisibleProviders(telemetry.providers, machine, scope);
    var capacity := machine.Capacity(scope);
    var blank := ScopeDetails(if |visible| == 1 then Some(Least(visible)) else None, Calculable, 0, settings.windowSize,
                              None, None, capacity, None, None, Keep, WithinHysteresis);
    if visible == {} then
      blank.(status := MissingProvider, action := Unavailable, reason := NoProvider)
    else if |visible| > 1 then
      blank.(status := Ambiguous, action := Unavailable, reason := AmbiguousProvider)
    else if capacity.None? then
      blank.(status := MissingCapacity, action := Unavailable, reason := MissingCurrentCapacity)
    else
      var samples := Samples(telemetry.Table(scope), Least(visible), machineId, settings.windowSize);
      var dates := WindowDates(telemetry.Table(scope), Least(visible), machineId, settings.windowSize);
      if samples == [] then
        blank.(status := NoData, action := InsufficientData, reason := NoSamples)
      else
        var utilization := Average(samples);
        var verdict := Decide(scope, capacity.value, utilization, settings, |samples| < settings.windowSize);
        blank.(samplesUsed := |samples|, lastMetricDate := Some(dates[0]), utilization := Some(utilization),
               rawTarget := Some(RawTarget(capacity.value, utilization)), boundedTarget := verdict.bounded,
               action := verdict.action, reason := verdict.reason)
  }

  // The evaluation as the engine performs it, filling one details record.
  method FillScopeDetails(telemetry: Telemetry, machineId: int, machine: Machine, scope: Scope, settings: Settings)
    returns (details: ScopeDetails)
    requires settings.Valid()
    ensures details == EvaluateScope(telemetry, machineId, machine, scope, settings)
  {
    var providers := Ascending(VisibleProviders(telemetry.providers, machine, scope));
    var capacity := machine.Capacity(scope);
    var providerId := None;
    if |providers| == 1 {
      providerId := Some(providers[0]);
    }
    details := ScopeDetails(providerId, Calculable, 0, settings.windowSize, None, None,
                            capacity, None, None, Keep, WithinHysteresis);
    if providers == [] {
      details := details.(status := MissingProvider);
      details := details.(action := Unavailable);
      details := details.(reason := NoProvider);
      return;
    }
    if |providers| > 1 {
      details := details.(status := Ambiguous);
      details := details.(action := Unavailable);
      details := details.(reason := AmbiguousProvider);
      return;
    }
    if capacity.None? {
      details := details.(status := MissingCapacity);
      details := details.(action := Unavailable);
      details := details.(reason := MissingCurrentCapacity);
      return;
    }
    var samples := Samples(telemetry.Table(scope), providers[0], machineId, settings.windowSize);
    var dates := WindowDates(telemetry.Table(scope), providers[0], machineId, settings.windowSize);
    details := details.(samplesUsed := |samples|);
    if samples == [] {
      details := details.(status := NoData);
      details := details.(action := InsufficientData);
      details := details.(reason := NoSamples);
      return;
    }
    details := details.(lastMetricDate := Some(dates[0]));
    var utilization := Average(samples);
    var raw := RawTarget(capacity.value, utilization);
    var (bounded, boundReason) := BoundedTarget(scope, raw, settings);
    var limited := |samples| < settings.windowSize;
    details := details.(utilization := Some(utilization));
    details := details.(rawTarget := Some(raw));
    if !scope.Disk? && capacity.value < settings.Minimum(scope).value as real {
      details := details.(boundedTarget := Some(settings.Minimum(scope).value as real));
      details := details.(action := ScaleUp);
      details := details.(reason := RaisedToMinimum(scope));
      return;
    }
    details := details.(boundedTarget := bounded);
    if utilization >= UPSCALE_UTILIZATION_THRESHOLD && bounded.Some? {
      if bounded.value > capacity.value * UPSCALE_CAPACITY_MARGIN && bounded.value > capacity.value {
        details := details.(action := ScaleUp);
        details := details.(reason := Or(boundReason, if limited then LimitedHistory else PressureHigh));
        return;
      }
    }
    if !scope.Disk? && utilization <= DOWNSCALE_UTILIZATION_THRESHOLD && bounded.Some? {
      if bounded.value < capacity.value * DOWNSCALE_CAPACITY_MARGIN && bounded.value < capacity.value {
        details := details.(action := ScaleDown);
        details := details.(reason := Or(boundReason, if limited then LimitedHistory else PressureLow));
        return;
      }
    }
    details := details.(reason := Or(boundReason, if limited then LimitedHistory else WithinHysteresis));
  }

  // The evaluation reads a metric table through one window only.
  lemma EvaluationReadsWindow(t1: Telemetry, t2: Telemetry, machineId: int, machine: Machine, scope: Scope,
                              settings: Settings)
    requires settings.Valid() && t1.providers == t2.providers
    requires var visible := VisibleProviders(t1.providers, machine, scope);
             |visible| == 1 ==>
               var a, b, p, n := t1.Table(scope), t2.Table(scope), Least(visible), settings.windowSize;
               && WindowDates(b, p, machineId, n) == WindowDates(a, p, machineId, n)
               && Samples(b, p, machineId, n) == Samples(a, p, machineId, n)
    ensures EvaluateScope(t2, machineId, machine, scope, settings) == EvaluateScope(t1, machineId, machine, scope, settings)
  {
  }

  // Inserting, changing or removing samples older than a full window, or
  // samples of other providers and machines, changes nothing.
  lemma EvaluationIsLocal(t1: Telemetry, t2: Telemetry, machineId: int, machine: Machine, scope: Scope,
                          settings: Settings)
    requires settings.Valid()
    requires t1.providers == t2.providers
    requires forall providerId :: providerId in VisibleProviders(t1.providers, machine, scope) ==>
               var dates := WindowDates(t1.Table(scope), providerId, machineId, settings.windowSize);
               && |dates| == settings.windowSize
               && AgreeSince(t1.Table(scope), t2.Table(scope), providerId, machineId, dates[settings.windowSize - 1])
    ensures EvaluateScope(t2, machineId, machine, scope, settings) == EvaluateScope(t1, machineId, machine, scope, settings)
  {
    var visible := VisibleProviders(t1.providers, machine, scope);
    if |visible| == 1 {
      WindowIsLocal(t1.Table(scope), t2.Table(scope), Least(visible), machineId, settings.windowSize);
    }
    EvaluationReadsWindow(t1, t2, machineId, machine, scope, settings);
  }

  lemma Singleton(s: set<int>, x: int)
    requires |s| == 1 && x in s
    ensures s == {x}
  {
    assert |s - {x}| == 0;
    forall y ensures y in s <==> y in {x} {
      assert y in s && y != x ==> y in s - {x};
    }
    SetsEqual(s, {x});
  }

  // What an evaluation says, column by column, when the scope cannot be
  // calculated ...
  lemma UncalculableMeaning(telemetry: Telemetry, machineId: int, machine: Machine, scope: Scope, settings: Settings)
    requires settings.Valid()
    ensures var visible := VisibleProviders(telemetry.providers, machine, scope);
            var details := EvaluateScope(telemetry, machineId, machine, scope, settings);
            && details.windowSize == settings.windowSize && details.currentCapacity == machine.Capacity(scope)
            && (forall p :: details.providerId == Some(p) <==> visible == {p})
            && (details.status.MissingProvider? <==> visible == {})
            && (details.status.Ambiguous? <==> |visible| > 1)
            && (details.status.MissingCapacity? <==> |visible| == 1 && machine.Capacity(scope).None?)
            && (!details.status.Calculable? ==>
                  && details.samplesUsed == 0 && details.lastMetricDate.None? && details.utilization.None?
                  && details.rawTarget.None? && details.boundedTarget.None?
                  && details.action == (if details.status.NoData? then InsufficientData else Unavailable)
                  && details.reason == match details.status
                                       case MissingProvider => NoProvider
                                       case Ambiguous => AmbiguousProvider
                                       case MissingCapacity => MissingCurrentCapacity
                                       case _ => NoSamples)
  {
    var visible := VisibleProviders(telemetry.providers, machine, scope);
    forall p ensures visible == {p} <==> |visible| == 1 && Least(visible) == p {
      if |visible| == 1 && Least(visible) == p {
        Singleton(visible, p);
      }
    }
  }

  // ... and when it can: the mean of the newest stored samples, the newest
  // date, and the decision on them.
  ghost predicate Evaluated(table: MetricTable, p: int, machineId: int, scope: Scope, capacity: real, settings: Settings,
                            details: ScopeDetails)
    requires settings.Valid()
  {
    var dates := WindowDates(table, p, machineId, settings.windowSize);
    && details.samplesUsed == |dates| > 0
    && details.lastMetricDate == Some(dates[0])
    && (forall i :: 0 <= i < |dates| ==> MetricKey(p, machineId, dates[i]) in table)
    && details.utilization.Some? && details.rawTarget.Some?
    && details.utilization.value * details.samplesUsed as real == Total(table, p, machineId, dates) as real
    && details.rawTarget.value == RawTarget(capacity, details.utilization.value)
    && Verdict(details.action, details.boundedTarget, details.reason)
       == Decide(scope, capacity, details.utilization.value, settings, details.samplesUsed < settings.windowSize)
  }

  lemma NoSamplesMeaning(table: MetricTable, p: int, machineId: int, limit: nat)
    requires limit > 0
    ensures Samples(table, p, machineId, limit) == [] <==> forall date :: MetricKey(p, machineId, date) !in table
  {
    var stored := SampleDates(table, p, machineId);
    forall date ensures MetricKey(p, machineId, date) in table <==> date in stored {
      SampleDateIsStored(table, p, machineId, date);
    }
    var dates := WindowDates(table, p, machineId, limit);
    if dates != [] {
      assert dates[0] in stored;
    } else {
      assert |stored| == 0;
    }
  }

  lemma EvaluatesSamples(telemetry: Telemetry, machineId: int, machine: Machine, scope: Scope, settings: Settings, p: int)
    requires settings.Valid()
    requires VisibleProviders(telemetry.providers, machine, scope) == {p} && machine.Capacity(scope).Some?
    ensures var details := EvaluateScope(telemetry, machineId, machine, scope, settings);
            var samples := Samples(telemetry.Table(scope), p, machineId, settings.windowSize);
            var dates := WindowDates(telemetry.Table(scope), p, machineId, settings.windowSize);
            && details.status == (if samples == [] then NoData else Calculable)
            && (samples != [] ==>
                  && details.samplesUsed == |dates| && details.lastMetricDate == Some(dates[0])
                  && details.utilization == Some(Average(samples))
                  && details.rawTarget == Some(RawTarget(machine.Capacity(scope).value, Average(samples)))
                  && Verdict(details.action, details.boundedTarget, details.reason)
                     == Decide(scope, machine.Capacity(scope).value, Average(samples), settings, |dates| < settings.windowSize))
  {
    assert Least({p}) == p;
  }

  lemma IsEvaluated(table: MetricTable, p: int, machineId: int, scope: Scope, capacity: real, settings: Settings,
                    details: ScopeDetails, mean: real)
    requires settings.Valid()
    requires var dates := WindowDates(table, p, machineId, settings.windowSize);
             && dates != []
             && (forall i :: 0 <= i < |dates| ==> MetricKey(p, machineId, dates[i]) in table)
             && mean * |dates| as real == Total(table, p, machineId, dates) as real
             && details.samplesUsed == |dates| && details.lastMetricDate == Some(dates[0])
    requires details.utilization == Some(mean) && details.rawTarget == Some(RawTarget(capacity, mean))
    requires Verdict(details.action, details.boundedTarget, details.reason)
             == Decide(scope, capacity, mean, settings, details.samplesUsed < settings.windowSize)
    ensures Evaluated(table, p, machineId, scope, capacity, settings, details)
  {
  }

  lemma CalculableMeaning(telemetry: Telemetry, machineId: int, machine: Machine, scope: Scope, settings: Settings, p: int)
    requires settings.Valid()
    requires VisibleProviders(telemetry.providers, machine, scope) == {p} && machine.Capacity(scope).Some?
    ensures var details := EvaluateScope(telemetry, machineId, machine, scope, settings);
            var table := telemetry.Table(scope);
            && (details.status.NoData? <==> forall date :: MetricKey(p, machineId, date) !in table)
            && (!details.status.NoData? ==>
                  details.status.Calculable?
                  && Evaluated(table, p, machineId, scope, machine.Capacity(scope).value, settings, details))
  {
    var table := telemetry.Table(scope);
    EvaluatesSamples(telemetry, machineId, machine, scope, settings, p);
    NoSamplesMeaning(table, p, machineId, settings.windowSize);
    var samples := Samples(table, p, machineId, settings.windowSize);
    if samples != [] {
      AverageIsMean(table, p, machineId, settings.windowSize);
      IsEvaluated(table, p, machineId, scope, machine.Capacity(scope).value, settings,
                  EvaluateScope(telemetry, machineId, machine, scope, settings), Average(samples));
    }
  }

  lemma UtilizationWithinWindow(telemetry: Telemetry, machineId: int, machine: Machine, scope: Scope,
                                settings: Settings, lo: int, hi: int)
    requires settings.Valid()
    requires EvaluateScope(telemetry, machineId, machine, scope, settings).status.Calculable?
    requires var provider := Least(VisibleProviders(telemetry.providers, machine, scope));
             forall v :: v in Samples(telemetry.Table(scope), provider, machineId, settings.windowSize) ==> lo <= v <= hi
    ensures var details := EvaluateScope(telemetry, machineId, machine, scope, settings);
            details.utilization.Some? && lo as real <= details.utilization.value <= hi as real
  {
    var visible := VisibleProviders(telemetry.providers, machine, scope);
    AverageWithin(Samples(telemetry.Table(scope), Least(visible), machineId, settings.windowSize), lo, hi);
  }

  /* The effective target */

  function EffectiveTarget(capacity: Option<real>, details: ScopeDetails): Option<real> {
    if capacity.None? then None
    else if !details.status.Calculable? then None
    else if details.action.ScaleUp? || details.action.ScaleDown? then details.boundedTarget
    else capacity
  }

  // A stored target is missing exactly when the scope could not be
  // calculated, repeats the current capacity exactly when the scope says
  // keep, and otherwise is a sound size in the announced direction.
  lemma EffectiveTargetMeaning(telemetry: Telemetry, machineId: int, machine: Machine, scope: Scope, settings: Settings)
    requires settings.Valid()
    ensures var details := EvaluateScope(telemetry, machineId, machine, scope, settings);
            var current := machine.Capacity(scope);
            var target := EffectiveTarget(current, details);
            && (target.None? <==> !details.status.Calculable?)
            && (details.status.Calculable? ==>
                  && current.Some?
                  && (target == current <==> details.action.Keep?)
                  && (target.value > current.value <==> details.action.ScaleUp?)
                  && (target.value < current.value <==> details.action.ScaleDown?)
                  && (target != current ==> WholeUnits(scope, target.value) && WithinCatalog(scope, target.value, settings)))
  {
    var visible := VisibleProviders(telemetry.providers, machine, scope);
    var capacity := machine.Capacity(scope);
    if |visible| == 1 && capacity.Some? {
      var samples := Samples(telemetry.Table(scope), Least(visible), machineId, settings.windowSize);
      ActionableTargetIsSound(scope, capacity.value, Average(samples), settings, |samples| < settings.windowSize);
    }
  }

  /* Aggregation */

  datatype Status = Ready | Partial | Error

  datatype OverallAction = Grow | Shrink | Mixed | Stay | Unknown | NotAvailable

  datatype Scopes = Scopes(cpu: ScopeDetails, ram: ScopeDetails, disk: ScopeDetails)
  {
    function All(): seq<ScopeDetails> {
      [cpu, ram, disk]
    }
  }

  function CalculableActions(scopes: seq<ScopeDetails>): set<Action> {
    set i | 0 <= i < |scopes| && scopes[i].status.Calculable? :: scopes[i].action
  }

  function ActionFromSet(actions: set<Action>): OverallAction {
    if ScaleUp in actions && ScaleDown in actions then Mixed
    else if ScaleUp in actions then Grow
    else if ScaleDown in actions then Shrink
    else if actions != {} then Stay
    else Unknown
  }

  function Aggregate(scopes: Scopes): (Status, OverallAction) {
    var actions := CalculableActions(scopes.All());
    var ambiguous := exists i :: 0 <= i < 3 && scopes.All()[i].status.Ambiguous?;
    if ambiguous && actions == {} then (Error, NotAvailable)
    else if ambiguous then (Error, ActionFromSet(actions))
    else if actions == {} then (Partial, Unknown)
    else if exists i :: 0 <= i < 3 && !scopes.All()[i].status.Calculable? then (Partial, ActionFromSet(actions))
    else (Ready, ActionFromSet(actions))
  }

  // What the global answer says about the three scopes.
  lemma AggregateMeaning(scopes: Scopes)
    ensures var (status, action) := Aggregate(scopes);
            var Says := (wanted: Action) => exists s :: s in scopes.All() && s.status.Calculable? && s.action == wanted;
            && (status.Ready? <==> forall s :: s in scopes.All() ==> s.status.Calculable?)
            && (status.Error? <==> exists s :: s in scopes.All() && s.status.Ambiguous?)
            && (action.Mixed? <==> Says(ScaleUp) && Says(ScaleDown))
            && (action.Grow? <==> Says(ScaleUp) && !Says(ScaleDown))
            && (action.Shrink? <==> Says(ScaleDown) && !Says(ScaleUp))
            && (action.Unknown? || action.NotAvailable? <==> forall s :: s in scopes.All() ==> !s.status.Calculable?)
            && (action.NotAvailable? ==> status.Error?)
  {
    var all := scopes.All();
    var actions := CalculableActions(all);
    forall s | s in all && s.status.Calculable?
      ensures s.action in actions
    {
      var i :| 0 <= i < |all| && all[i] == s;
    }
    assert all[0] in all && all[1] in all && all[2] in all;
  }

  /* The stored row */

  datatype Snapshot = Snapshot(
    status: Status,
    action: OverallAction,
    settings: Settings,
    computedAt: int,
    current: Flavor,
    target: Flavor,
    details: Scopes)

  function BuildSnapshot(telemetry: Telemetry, machineId: int, machine: Machine, settings: Settings, now: int): Snapshot
    requires settings.Valid()
  {
    var scopes := Scopes(EvaluateScope(telemetry, machineId, machine, Cpu, settings),
                         EvaluateScope(telemetry, machineId, machine, Ram, settings),
                         EvaluateScope(telemetry, machineId, machine, Disk, settings));
    var (status, action) := Aggregate(scopes);
    Snapshot(status, action, settings, now, machine.flavor,
             Flavor(EffectiveTarget(machine.flavor.cpu, scopes.cpu),
                    EffectiveTarget(machine.flavor.ramMb, scopes.ram),
                    EffectiveTarget(machine.flavor.diskMb, scopes.disk)),
             scopes)
  }

  // The stored target of a scope: none, the capacity, or the bounded target.
  predicate Targeted(current: Option<real>, details: ScopeDetails, target: Option<real>) {
    && (current.None? || !details.status.Calculable? ==> target.None?)
    && (current.Some? && details.status.Calculable? ==>
          target == if details.action in {ScaleUp, ScaleDown} then details.boundedTarget else current)
  }

  // Each column of a snapshot comes from its own scope.
  lemma SnapshotMeaning(telemetry: Telemetry, machineId: int, machine: Machine, settings: Settings, now: int)
    requires settings.Valid()
    ensures var row := BuildSnapshot(telemetry, machineId, machine, settings, now);
            && row.details.cpu == EvaluateScope(telemetry, machineId, machine, Cpu, settings)
            && row.details.ram == EvaluateScope(telemetry, machineId, machine, Ram, settings)
            && row.details.disk == EvaluateScope(telemetry, machineId, machine, Disk, settings)
            && row.current == machine.flavor && row.settings == settings && row.computedAt == now
            && Targeted(machine.flavor.cpu, row.details.cpu, row.target.cpu)
            && Targeted(machine.flavor.ramMb, row.details.ram, row.target.ramMb)
            && Targeted(machine.flavor.diskMb, row.details.disk, row.target.diskMb)
            && (row.status, row.action) == Aggregate(row.details)
  {
  }

  // The comparison of a stored row with a new snapshot ignores the timestamp.
  predicate SnapshotMatches(row: Snapshot, snapshot: Snapshot) {
    && row.status == snapshot.status
    && row.action == snapshot.action
    && row.settings.windowSize == snapshot.settings.windowSize
    && row.settings.minCpu == snapshot.settings.minCpu
    && row.settings.maxCpu == snapshot.settings.maxCpu
    && row.settings.minRamMb == snapshot.settings.minRamMb
    && row.settings.maxRamMb == snapshot.settings.maxRamMb
    && row.current.cpu == snapshot.current.cpu
    && row.current.ramMb == snapshot.current.ramMb
    && row.current.diskMb == snapshot.current.diskMb
    && row.target.cpu == snapshot.target.cpu
    && row.target.ramMb == snapshot.target.ramMb
    && row.target.diskMb == snapshot.target.diskMb
    && row.details == snapshot.details
  }

  datatype RefreshOutcome = NotFound | Created | Updated

  // setattr for every field of the snapshot, one after another.
  method SetFields(current: Snapshot, snapshot: Snapshot) returns (row: Snapshot)
    ensures row == snapshot
  {
    row := current;
    row := row.(status := snapshot.status);
    row := row.(action := snapshot.action);
    row := row.(settings := snapshot.settings);
    row := row.(computedAt := snapshot.computedAt);
    row := row.(current := snapshot.current);
    row := row.(target := snapshot.target);
    row := row.(details := snapshot.details);
  }

  // The machine_optimizations table; machine_id is unique.
  class OptimizationTable {
    var rows: map<int, Snapshot>

    constructor ()
      ensures rows == map[]
    {
      rows := map[];
    }

    // Create, touch or overwrite: every branch leaves the machine's row equal
    // to the snapshot computed now, and every other row alone.
    method Refresh(machines: map<int, Machine>, telemetry: Telemetry, settings: Settings, machineId: int, now: int)
      returns (outcome: RefreshOutcome)
      requires settings.Valid()
      modifies this
      ensures machineId !in machines ==> outcome == NotFound && rows == old(rows)
      ensures machineId in machines ==>
                && outcome == (if machineId in old(rows) then Updated else Created)
                && rows == old(rows)[machineId := BuildSnapshot(telemetry, machineId, machines[machineId], settings, now)]
    {
      if machineId !in machines {
        return NotFound;
      }
      var snapshot := BuildSnapshot(telemetry, machineId, machines[machineId], settings, now);
      if machineId !in rows {
        rows := rows[machineId := snapshot];
        return Created;
      }
      var row := rows[machineId];
      if SnapshotMatches(row, snapshot) {
        row := row.(computedAt := now);
      } else {
        row := SetFields(row, snapshot);
      }
      rows := rows[machineId := row];
      return Updated;
    }
  }
}
