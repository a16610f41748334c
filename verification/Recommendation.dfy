// The arithmetic of one capacity recommendation: rounding to catalog units,
// catalog bounds and hysteresis. Capacities and utilizations are exact reals.
module Recommendation {
  import opened Wrappers
  import opened Fleet

  const TARGET_UTILIZATION_PERCENT := 65.0
  const UPSCALE_UTILIZATION_THRESHOLD := 85.0
  const DOWNSCALE_UTILIZATION_THRESHOLD := 40.0
  const UPSCALE_CAPACITY_MARGIN := 1.1
  const DOWNSCALE_CAPACITY_MARGIN := 0.8
  const CAPACITY_STEP_MB := 1024

  datatype Settings = Settings(windowSize: int, minCpu: int, maxCpu: int, minRamMb: int, maxRamMb: int)
  {
    // What the settings validators accept.
    predicate Valid() {
      && windowSize > 0
      && 0 < minCpu <= maxCpu
      && 0 < minRamMb <= maxRamMb
      && minRamMb % CAPACITY_STEP_MB == 0
      && maxRamMb % CAPACITY_STEP_MB == 0
    }

    // Disk has no catalog bounds.
    function Minimum(scope: Scope): Option<int> {
      match scope
      case Cpu => Some(minCpu)
      case Ram => Some(minRamMb)
      case Disk => None
    }

    function Maximum(scope: Scope): Option<int> {
      match scope
      case Cpu => Some(maxCpu)
      case Ram => Some(maxRamMb)
      case Disk => None
    }
  }

  datatype Action = ScaleUp | ScaleDown | Keep | InsufficientData | Unavailable

  datatype Reason =
    | NoProvider | AmbiguousProvider | MissingCurrentCapacity | NoSamples
    | WithinHysteresis | LimitedHistory | PressureHigh | PressureLow
    | RaisedToMinimum(scope: Scope) | AboveMaximum(scope: Scope)

  datatype Verdict = Verdict(action: Action, bounded: Option<real>, reason: Reason)

  function Ceil(x: real): int {
    -((-x).Floor)
  }

  function Max(a: int, b: int): int {
    if a < b then b else a
  }

  // The unit a scope is sold in.
  function CapacityUnit(scope: Scope): int {
    if scope.Cpu? then 1 else CAPACITY_STEP_MB
  }

  function RawTarget(capacity: real, utilization: real): real {
    capacity * utilization / TARGET_UTILIZATION_PERCENT
  }

  function RoundedTarget(scope: Scope, raw: real): Option<real> {
    if raw <= 0.0 then None
    else if scope.Cpu? then Some(Max(1, Ceil(raw)) as real)
    else Some(Max(CAPACITY_STEP_MB, Ceil(raw / CAPACITY_STEP_MB as real) * CAPACITY_STEP_MB) as real)
  }

  function BoundedTarget(scope: Scope, raw: real, settings: Settings): (Option<real>, Option<Reason>) {
    match RoundedTarget(scope, raw)
    case None => (None, None)
    case Some(rounded) =>
      if scope.Disk? then (Some(rounded), None)
      else if rounded < settings.Minimum(scope).value as real then
        (Some(settings.Minimum(scope).value as real), Some(RaisedToMinimum(scope)))
      else if rounded > settings.Maximum(scope).value as real then (None, Some(AboveMaximum(scope)))
      else (Some(rounded), None)
  }

  predicate BelowMinimum(scope: Scope, capacity: real, settings: Settings) {
    settings.Minimum(scope).Some? && capacity < settings.Minimum(scope).value as real
  }

  function Or(reason: Option<Reason>, default: Reason): Reason {
    if reason.Some? then reason.value else default
  }

  function DecideFor(scope: Scope, capacity: real, utilization: real, raw: real, settings: Settings,
                     limited: bool): Verdict {
    var (bounded, boundReason) := BoundedTarget(scope, raw, settings);
    if BelowMinimum(scope, capacity, settings) then
      Verdict(ScaleUp, Some(settings.Minimum(scope).value as real), RaisedToMinimum(scope))
    else if && utilization >= UPSCALE_UTILIZATION_THRESHOLD
            && bounded.Some?
            && bounded.value > capacity * UPSCALE_CAPACITY_MARGIN
            && bounded.value > capacity then
      Verdict(ScaleUp, bounded, Or(boundReason, if limited then LimitedHistory else PressureHigh))
    else if && !scope.Disk?
            && utilization <= DOWNSCALE_UTILIZATION_THRESHOLD
            && bounded.Some?
            && bounded.value < capacity * DOWNSCALE_CAPACITY_MARGIN
            && bounded.value < capacity then
      Verdict(ScaleDown, bounded, Or(boundReason, if limited then LimitedHistory else PressureLow))
    else
      Verdict(Keep, bounded, Or(boundReason, if limited then LimitedHistory else WithinHysteresis))
  }

  // The decision for a scope whose capacity and utilization are known;
  // `limited` says that the metric window is not full.
  function Decide(scope: Scope, capacity: real, utilization: real, settings: Settings, limited: bool): Verdict {
    DecideFor(scope, capacity, utilization, RawTarget(capacity, utilization), settings, limited)
  }

  // At its raw target a capacity would be filled to 65 percent.
  lemma RawTargetMeaning(capacity: real, utilization: real)
    ensures RawTarget(capacity, utilization) * 65.0 == capacity * utilization
  {
  }

  /* Rounding */

  lemma CeilBounds(x: real)
    ensures x <= Ceil(x) as real < x + 1.0
  {
  }

  lemma CeilMonotone(x: real, y: real)
    requires x <= y
    ensures Ceil(x) <= Ceil(y)
  {
  }

  // Rounding lands on the next whole unit: never below the raw target and
  // less than one unit above it, so the unit floor never bites.
  lemma RoundedTargetIsNextUnit(scope: Scope, raw: real)
    ensures RoundedTarget(scope, raw).None? <==> raw <= 0.0
    ensures RoundedTarget(scope, raw).Some? ==>
              var rounded := RoundedTarget(scope, raw).value;
              && raw <= rounded < raw + CapacityUnit(scope) as real
              && exists units: int :: units > 0 && rounded == (units * CapacityUnit(scope)) as real
  {
    if raw > 0.0 {
      if scope.Cpu? {
        CeilBounds(raw);
        assert Ceil(raw) > 0;
        assert RoundedTarget(scope, raw).value == (Ceil(raw) * CapacityUnit(scope)) as real;
      } else {
        var units := Ceil(raw / 1024.0);
        CeilBounds(raw / 1024.0);
        assert units > 0;
        assert RoundedTarget(scope, raw).value == (units * CapacityUnit(scope)) as real;
      }
    }
  }

  lemma RoundedTargetMonotone(scope: Scope, raw1: real, raw2: real)
    requires 0.0 < raw1 <= raw2
    ensures RoundedTarget(scope, raw1).value <= RoundedTarget(scope, raw2).value
  {
    CeilMonotone(raw1, raw2);
    CeilMonotone(raw1 / 1024.0, raw2 / 1024.0);
  }

  /* Soundness of an actionable target */

  predicate WholeUnits(scope: Scope, target: real) {
    target.Floor as real == target && target.Floor % CapacityUnit(scope) == 0
  }

  predicate WithinCatalog(scope: Scope, target: real, settings: Settings) {
    && (settings.Minimum(scope).Some? ==> settings.Minimum(scope).value as real <= target)
    && (settings.Maximum(scope).Some? ==> target <= settings.Maximum(scope).value as real)
  }

  lemma BoundedTargetIsSound(scope: Scope, raw: real, settings: Settings)
    requires settings.Valid()
    ensures var bounded := BoundedTarget(scope, raw, settings).0;
            bounded.Some? ==>
              && raw > 0.0
              && WholeUnits(scope, bounded.value)
              && WithinCatalog(scope, bounded.value, settings)
              && raw <= bounded.value
              && (bounded.value < raw + CapacityUnit(scope) as real
                  || (settings.Minimum(scope).Some? && bounded.value == settings.Minimum(scope).value as real))
  {
    RoundedTargetIsNextUnit(scope, raw);
    var bounded := BoundedTarget(scope, raw, settings).0;
    if bounded.Some? && bounded == RoundedTarget(scope, raw) {
      var units :| units > 0 && bounded.value == (units * CapacityUnit(scope)) as real;
      assert bounded.value.Floor == units * CapacityUnit(scope);
    }
  }

  // The sizes a scope is sold in: multiples of a unit between two bounds.
  datatype Catalog = Catalog(unit: int, smallest: int, largest: Option<int>)

  function CatalogOf(scope: Scope, settings: Settings): Catalog {
    match scope
    case Cpu => Catalog(1, settings.minCpu, Some(settings.maxCpu))
    case Ram => Catalog(1024, settings.minRamMb, Some(settings.maxRamMb))
    case Disk => Catalog(1024, 1024, None)
  }

  predicate IsSize(catalog: Catalog, size: int)
    requires catalog.unit > 0
  {
    size >= catalog.smallest && size % catalog.unit == 0
  }

  // The smallest size of the catalog that holds the load.
  ghost predicate IsLeastSize(catalog: Catalog, raw: real, size: int)
    requires catalog.unit > 0
  {
    && IsSize(catalog, size) && raw <= size as real
    && forall other :: IsSize(catalog, other) && raw <= other as real ==> size <= other
  }

  lemma Scaled(unit: int, x: int, y: int)
    requires unit > 0 && x <= y
    ensures unit * x <= unit * y && unit * (x + 1) == unit * x + unit
  {
  }

  lemma MultiplesAreApart(unit: int, a: int, b: int)
    requires unit > 0 && a % unit == 0 && b % unit == 0 && a < b
    ensures a + unit <= b
  {
    assert a == unit * (a / unit) && b == unit * (b / unit);
    if b / unit <= a / unit {
      Scaled(unit, b / unit, a / unit);
    } else {
      Scaled(unit, a / unit, a / unit);
      Scaled(unit, a / unit + 1, b / unit);
    }
  }

  lemma NextUnitIsLeast(unit: int, raw: real, size: int, other: int)
    requires unit > 0 && size % unit == 0 && other % unit == 0
    requires raw <= size as real < raw + unit as real && raw <= other as real
    ensures size <= other
  {
    if other < size {
      MultiplesAreApart(unit, other, size);
    }
  }

  // A bounded target is the smallest size of the catalog that holds the load,
  // if there is a load and the catalog has such a size.
  lemma BoundedTargetIsLeast(scope: Scope, raw: real, settings: Settings, size: int)
    requires settings.Valid()
    ensures CatalogOf(scope, settings).unit > 0
    ensures BoundedTarget(scope, raw, settings).0 == Some(size as real) <==>
            && raw > 0.0
            && IsLeastSize(CatalogOf(scope, settings), raw, size)
            && (CatalogOf(scope, settings).largest.Some? ==> size <= CatalogOf(scope, settings).largest.value)
  {
    var catalog := CatalogOf(scope, settings);
    var unit := catalog.unit;
    RoundedTargetIsNextUnit(scope, raw);
    if raw > 0.0 {
      var rounded := RoundedTarget(scope, raw).value;
      var units :| units > 0 && rounded == (units * CapacityUnit(scope)) as real;
      var whole := units * unit;
      assert whole % unit == 0 && whole >= unit;
      var least := if whole < catalog.smallest then catalog.smallest else whole;
      forall other | IsSize(catalog, other) && raw <= other as real ensures least <= other {
        NextUnitIsLeast(unit, raw, whole, other);
      }
      assert IsLeastSize(catalog, raw, least);
      assert IsLeastSize(catalog, raw, size) <==> size == least;
    }
  }

  lemma BoundReasonMeaning(scope: Scope, raw: real, settings: Settings)
    requires settings.Valid()
    ensures var catalog := CatalogOf(scope, settings);
            var reason := BoundedTarget(scope, raw, settings).1;
            && (reason == Some(RaisedToMinimum(scope)) <==>
                  !scope.Disk? && raw > 0.0 && raw <= (catalog.smallest - catalog.unit) as real)
            && (reason == Some(AboveMaximum(scope)) <==> catalog.largest.Some? && raw > catalog.largest.value as real)
            && (reason.Some? ==> reason == Some(RaisedToMinimum(scope)) || reason == Some(AboveMaximum(scope)))
  {
    var catalog := CatalogOf(scope, settings);
    RoundedTargetIsNextUnit(scope, raw);
    if raw > 0.0 && !scope.Disk? {
      var rounded := RoundedTarget(scope, raw).value;
      var units :| units > 0 && rounded == (units * CapacityUnit(scope)) as real;
      var whole := units * catalog.unit;
      assert whole % catalog.unit == 0;
      if whole < catalog.smallest {
        MultiplesAreApart(catalog.unit, whole, catalog.smallest);
      }
      if catalog.largest.value < whole {
        MultiplesAreApart(catalog.unit, catalog.largest.value, whole);
      }
    }
  }

  // The recommendation explains itself: by the bound that decided it, else by
  // a short history, else by the pressure.
  lemma ReasonMeaning(scope: Scope, capacity: real, utilization: real, settings: Settings, limited: bool)
    requires settings.Valid()
    ensures var verdict := Decide(scope, capacity, utilization, settings, limited);
            var catalog := CatalogOf(scope, settings);
            var raw := capacity * utilization / 65.0;
            if !scope.Disk? && capacity < catalog.smallest as real then
              verdict == Verdict(ScaleUp, Some(catalog.smallest as real), RaisedToMinimum(scope))
            else if !scope.Disk? && 0.0 < raw <= (catalog.smallest - catalog.unit) as real then
              verdict.reason == RaisedToMinimum(scope)
            else if !scope.Disk? && raw > catalog.largest.value as real then
              verdict == Verdict(Keep, None, AboveMaximum(scope))
            else if limited then verdict.reason == LimitedHistory
            else verdict.reason == match verdict.action
                                   case ScaleUp => PressureHigh
                                   case ScaleDown => PressureLow
                                   case _ => WithinHysteresis
  {
    BoundReasonMeaning(scope, RawTarget(capacity, utilization), settings);
  }

  // A recommendation to change capacity moves it strictly in the announced
  // direction, to a whole catalog size. Unless the machine is below the
  // catalog minimum, the new size keeps utilization at or below the target
  // percentage and wastes less than one unit or is the minimum itself.
  lemma ActionableTargetIsSound(scope: Scope, capacity: real, utilization: real, settings: Settings, limited: bool)
    requires settings.Valid()
    ensures var verdict := Decide(scope, capacity, utilization, settings, limited);
            verdict.action.ScaleUp? || verdict.action.ScaleDown? ==>
              && verdict.bounded.Some?
              && var target := verdict.bounded.value;
              && (verdict.action.ScaleUp? ==> target > capacity)
              && (verdict.action.ScaleDown? ==> target < capacity)
              && target > 0.0
              && WholeUnits(scope, target)
              && WithinCatalog(scope, target, settings)
              && (!BelowMinimum(scope, capacity, settings) ==>
                    && capacity * utilization <= TARGET_UTILIZATION_PERCENT * target
                    && (target < RawTarget(capacity, utilization) + CapacityUnit(scope) as real
                        || (settings.Minimum(scope).Some? && target == settings.Minimum(scope).value as real)))
  {
    BoundedTargetIsSound(scope, RawTarget(capacity, utilization), settings);
  }

  // Disk is never proposed for a downscale.
  lemma DiskNeverShrinks(capacity: real, utilization: real, settings: Settings, limited: bool)
    ensures !Decide(Disk, capacity, utilization, settings, limited).action.ScaleDown?
  {
  }

  /* Convergence under a constant load */

  // A machine under a load that does not depend on its size.
  datatype Point = Point(capacity: real, utilization: real)

  function Verdicted(scope: Scope, point: Point, settings: Settings): Verdict {
    Decide(scope, point.capacity, point.utilization, settings, false)
  }

  // The same load fills another share of another size.
  function Resize(point: Point, target: real): Point
    requires target != 0.0
  {
    Point(target, point.capacity * point.utilization / target)
  }

  // Apply the recommended size, if there is one.
  function Apply(scope: Scope, point: Point, settings: Settings): Point {
    var verdict := Verdicted(scope, point, settings);
    if verdict.action.Keep? || verdict.bounded.None? || verdict.bounded.value == 0.0 then point
    else Resize(point, verdict.bounded.value)
  }

  function ApplyTimes(scope: Scope, point: Point, settings: Settings, n: nat): Point
    decreases n
  {
    if n == 0 then point else ApplyTimes(scope, Apply(scope, point, settings), settings, n - 1)
  }

  predicate Settled(scope: Scope, point: Point, settings: Settings) {
    Verdicted(scope, point, settings).action.Keep?
  }

  lemma SameLoad(load: real, target: real)
    requires target != 0.0
    ensures target * (load / target) == load
  {
  }

  lemma ResizeKeepsRawTarget(point: Point, target: real)
    requires target != 0.0
    ensures RawTarget(target, Resize(point, target).utilization) == RawTarget(point.capacity, point.utilization)
  {
    SameLoad(point.capacity * point.utilization, target);
  }

  // Once the capacity is the size this raw target asks for, no utilization
  // makes the same raw target ask for another one.
  lemma ReachedTargetIsKept(scope: Scope, capacity: real, u1: real, u2: real, raw: real, settings: Settings)
    requires settings.Valid()
    requires !BelowMinimum(scope, capacity, settings)
    ensures var verdict := DecideFor(scope, capacity, u1, raw, settings, false);
            !verdict.action.Keep? ==>
              && verdict.bounded.Some? && verdict.bounded.value > 0.0
              && DecideFor(scope, verdict.bounded.value, u2, raw, settings, false).action.Keep?
  {
    BoundedTargetIsSound(scope, raw, settings);
  }

  lemma SettlesInOne(scope: Scope, point: Point, settings: Settings)
    requires settings.Valid()
    requires !BelowMinimum(scope, point.capacity, settings)
    ensures Settled(scope, Apply(scope, point, settings), settings)
  {
    var raw := RawTarget(point.capacity, point.utilization);
    var verdict := Verdicted(scope, point, settings);
    ReachedTargetIsKept(scope, point.capacity, point.utilization, point.utilization, raw, settings);
    if !verdict.action.Keep? {
      var next := Resize(point, verdict.bounded.value);
      ResizeKeepsRawTarget(point, verdict.bounded.value);
      ReachedTargetIsKept(scope, point.capacity, point.utilization, next.utilization, raw, settings);
    }
  }

  lemma RaisedIsAtMinimum(scope: Scope, point: Point, settings: Settings)
    requires settings.Valid()
    requires BelowMinimum(scope, point.capacity, settings)
    ensures Apply(scope, point, settings) == Resize(point, settings.Minimum(scope).value as real)
    ensures !BelowMinimum(scope, Apply(scope, point, settings).capacity, settings)
  {
  }

  lemma {:induction false} SettledIsFixed(scope: Scope, point: Point, settings: Settings, n: nat)
    requires Settled(scope, point, settings)
    ensures ApplyTimes(scope, point, settings, n) == point
  {
    if n > 0 {
      SettledIsFixed(scope, point, settings, n - 1);
    }
  }

  // The engine never oscillates: from any size and utilization, after two
  // applications (one from the catalog minimum up) it says keep, and says so
  // for ever after at the same size.
  lemma Converges(scope: Scope, point: Point, settings: Settings, n: nat)
    requires settings.Valid()
    requires n >= if BelowMinimum(scope, point.capacity, settings) then 2 else 1
    ensures Settled(scope, ApplyTimes(scope, point, settings, n), settings)
    ensures BelowMinimum(scope, point.capacity, settings) ==>
              ApplyTimes(scope, point, settings, n) == ApplyTimes(scope, point, settings, 2)
    ensures !BelowMinimum(scope, point.capacity, settings) ==>
              ApplyTimes(scope, point, settings, n) == ApplyTimes(scope, point, settings, 1)
  {
    var first := Apply(scope, point, settings);
    assert ApplyTimes(scope, point, settings, n) == ApplyTimes(scope, first, settings, n - 1);
    assert ApplyTimes(scope, point, settings, 1) == ApplyTimes(scope, first, settings, 0) == first;
    if BelowMinimum(scope, point.capacity, settings) {
      RaisedIsAtMinimum(scope, point, settings);
      SettlesInOne(scope, first, settings);
      var second := Apply(scope, first, settings);
      assert ApplyTimes(scope, point, settings, 2) == ApplyTimes(scope, first, settings, 1)
          == ApplyTimes(scope, second, settings, 0) == second;
      assert ApplyTimes(scope, first, settings, n - 1) == ApplyTimes(scope, second, settings, n - 2);
      SettledIsFixed(scope, second, settings, n - 2);
    } else {
      SettlesInOne(scope, point, settings);
      SettledIsFixed(scope, first, settings, n - 1);
    }
  }

  // The load fills the catalog minimum to the upscale threshold, and a size
  // more than 10% above the minimum is in the catalog.
  predicate GrowsFromMinimum(scope: Scope, load: real, raw: real, settings: Settings)
    requires settings.Minimum(scope).Some?
  {
    var minimum := settings.Minimum(scope).value as real;
    var bounded := BoundedTarget(scope, raw, settings).0;
    && load >= UPSCALE_UTILIZATION_THRESHOLD * minimum
    && bounded.Some?
    && bounded.value > minimum * UPSCALE_CAPACITY_MARGIN
  }

  lemma UtilizationOfLoad(load: real, capacity: real)
    requires capacity > 0.0
    ensures load / capacity >= UPSCALE_UTILIZATION_THRESHOLD <==> load >= UPSCALE_UTILIZATION_THRESHOLD * capacity
  {
    SameLoad(load, capacity);
    var utilization := load / capacity;
    if utilization >= 85.0 {
      assert capacity * utilization >= capacity * 85.0;
    } else {
      assert capacity * utilization < capacity * 85.0;
    }
  }

  lemma AtMinimum(scope: Scope, load: real, raw: real, settings: Settings)
    requires settings.Valid() && settings.Minimum(scope).Some?
    ensures var minimum := settings.Minimum(scope).value as real;
            !DecideFor(scope, minimum, load / minimum, raw, settings, false).action.Keep?
            <==> GrowsFromMinimum(scope, load, raw, settings)
  {
    BoundedTargetIsSound(scope, raw, settings);
    UtilizationOfLoad(load, settings.Minimum(scope).value as real);
  }

  lemma RaisedVerdict(scope: Scope, point: Point, settings: Settings, load: real, raw: real)
    requires settings.Valid()
    requires BelowMinimum(scope, point.capacity, settings)
    requires load == point.capacity * point.utilization && raw == RawTarget(point.capacity, point.utilization)
    ensures var minimum := settings.Minimum(scope).value as real;
            Verdicted(scope, Apply(scope, point, settings), settings)
            == DecideFor(scope, minimum, load / minimum, raw, settings, false)
  {
    var minimum := settings.Minimum(scope).value as real;
    RaisedIsAtMinimum(scope, point, settings);
    ResizeKeepsRawTarget(point, minimum);
    assert RawTarget(minimum, Resize(point, minimum).utilization) == raw;
    assert Resize(point, minimum).utilization == load / minimum;
  }

  // The second application is needed exactly when the machine starts below
  // the minimum and its load asks the minimum to grow at once.
  lemma SecondApplicationIsNeeded(scope: Scope, point: Point, settings: Settings, load: real, raw: real)
    requires settings.Valid()
    requires load == point.capacity * point.utilization && raw == RawTarget(point.capacity, point.utilization)
    ensures !Settled(scope, Apply(scope, point, settings), settings) <==>
            BelowMinimum(scope, point.capacity, settings) && GrowsFromMinimum(scope, load, raw, settings)
  {
    if BelowMinimum(scope, point.capacity, settings) {
      RaisedVerdict(scope, point, settings, load, raw);
      AtMinimum(scope, load, raw, settings);
    } else {
      SettlesInOne(scope, point, settings);
    }
  }

  // One core at 200 percent in a catalog from two to eight cores: the first
  // application raises it to two, which are then full, so it needs a second.
  lemma RaisedMachineGrowsAgain(settings: Settings)
    requires settings == Settings(30, 2, 8, 1024, 2048)
    ensures var point := Point(1.0, 200.0);
            && settings.Valid()
            && Apply(Cpu, point, settings) == Point(2.0, 100.0)
            && !Settled(Cpu, Apply(Cpu, point, settings), settings)
            && Apply(Cpu, Apply(Cpu, point, settings), settings).capacity == 4.0
  {
    assert Ceil(RawTarget(2.0, 100.0)) == 4;
  }

  /* Monotonicity in the utilization */

  function Rank(action: Action): int {
    match action
    case ScaleDown => -1
    case ScaleUp => 1
    case _ => 0
  }

  predicate AboveCatalog(scope: Scope, capacity: real, utilization: real, settings: Settings) {
    BoundedTarget(scope, RawTarget(capacity, utilization), settings).1 == Some(AboveMaximum(scope))
  }

  lemma RawTargetMonotone(capacity: real, utilization1: real, utilization2: real)
    requires capacity > 0.0 && utilization1 <= utilization2
    ensures RawTarget(capacity, utilization1) <= RawTarget(capacity, utilization2)
    ensures utilization1 > 0.0 <==> RawTarget(capacity, utilization1) > 0.0
  {
    assert capacity * utilization1 <= capacity * utilization2;
    if utilization1 > 0.0 {
      assert capacity * utilization1 > 0.0;
    } else {
      assert capacity * utilization1 <= 0.0;
    }
  }

  lemma BoundedTargetMonotone(scope: Scope, raw1: real, raw2: real, settings: Settings)
    requires settings.Valid()
    requires 0.0 < raw1 <= raw2
    ensures var b1, b2 := BoundedTarget(scope, raw1, settings), BoundedTarget(scope, raw2, settings);
            && (b1.0.None? <==> b1.1 == Some(AboveMaximum(scope)))
            && (b2.0.Some? ==> b1.0.Some? && b1.0.value <= b2.0.value)
  {
    RoundedTargetMonotone(scope, raw1, raw2);
  }

  // The guards of the two branches that act.
  predicate AsksToGrow(scope: Scope, capacity: real, utilization: real, settings: Settings) {
    var bounded := BoundedTarget(scope, RawTarget(capacity, utilization), settings).0;
    utilization >= 85.0 && bounded.Some? && bounded.value > capacity * 1.1
  }

  predicate AsksToShrink(scope: Scope, capacity: real, utilization: real, settings: Settings) {
    var bounded := BoundedTarget(scope, RawTarget(capacity, utilization), settings).0;
    !scope.Disk? && utilization <= 40.0 && bounded.Some? && bounded.value < capacity * 0.8
  }

  // Every bounded target is positive, and so is the capacity, so each margin
  // decides its branch.
  lemma GuardsDecide(scope: Scope, capacity: real, utilization: real, settings: Settings, limited: bool)
    requires settings.Valid()
    requires capacity > 0.0 && !BelowMinimum(scope, capacity, settings)
    ensures var action := Decide(scope, capacity, utilization, settings, limited).action;
            && (action.ScaleUp? <==> AsksToGrow(scope, capacity, utilization, settings))
            && (action.ScaleDown? <==> AsksToShrink(scope, capacity, utilization, settings))
            && (action.ScaleUp? || action.ScaleDown? || action.Keep?)
  {
    BoundedTargetIsSound(scope, RawTarget(capacity, utilization), settings);
  }

  // A higher utilization asks for less only in two families: it rounds past
  // the catalog maximum, where the engine keeps instead of growing, or the
  // lower utilization is not positive, where the engine keeps instead of
  // shrinking. For a machine at or above the minimum nothing else breaks
  // the order shrink, keep, grow.
  lemma ActionMonotoneExactly(scope: Scope, capacity: real, u1: real, u2: real, settings: Settings, l1: bool, l2: bool)
    requires settings.Valid()
    requires capacity > 0.0 && !BelowMinimum(scope, capacity, settings)
    requires u1 <= u2
    ensures Rank(Decide(scope, capacity, u1, settings, l1).action) > Rank(Decide(scope, capacity, u2, settings, l2).action)
            <==>
            || (AsksToGrow(scope, capacity, u1, settings) && AboveCatalog(scope, capacity, u2, settings))
            || (u1 <= 0.0 && AsksToShrink(scope, capacity, u2, settings))
  {
    GuardsDecide(scope, capacity, u1, settings, l1);
    GuardsDecide(scope, capacity, u2, settings, l2);
    RawTargetMonotone(capacity, u1, u2);
    RawTargetMonotone(capacity, u2, u2);
    if u1 > 0.0 {
      BoundedTargetMonotone(scope, RawTarget(capacity, u1), RawTarget(capacity, u2), settings);
      BoundedTargetMonotone(scope, RawTarget(capacity, u2), RawTarget(capacity, u2), settings);
    }
  }

  // Four cores in a catalog of at most six: at 85 percent the engine asks for
  // six, at 100 percent it would need seven and keeps four.
  lemma GrowthStopsPastTheMaximum(settings: Settings)
    requires settings == Settings(30, 1, 6, 1024, 2048)
    ensures settings.Valid()
    ensures Decide(Cpu, 4.0, 85.0, settings, false).action.ScaleUp?
    ensures Decide(Cpu, 4.0, 100.0, settings, false).action.Keep?
  {
    assert Ceil(RawTarget(4.0, 85.0)) == 6;
    assert Ceil(RawTarget(4.0, 100.0)) == 7;
  }

  // Four idle cores are kept, four cores at 10 percent shrink to one.
  lemma IdleIsKept(settings: Settings)
    requires settings == Settings(30, 1, 6, 1024, 2048)
    ensures Decide(Cpu, 4.0, 0.0, settings, false).action.Keep?
    ensures Decide(Cpu, 4.0, 10.0, settings, false).action.ScaleDown?
  {
    assert Ceil(RawTarget(4.0, 10.0)) == 1;
  }

  lemma ActionMonotone(scope: Scope, capacity: real, u1: real, u2: real, settings: Settings, l1: bool, l2: bool)
    requires settings.Valid()
    requires capacity > 0.0 && !BelowMinimum(scope, capacity, settings)
    requires 0.0 < u1 <= u2
    requires !AboveCatalog(scope, capacity, u2, settings)
    ensures Rank(Decide(scope, capacity, u1, settings, l1).action) <= Rank(Decide(scope, capacity, u2, settings, l2).action)
  {
    ActionMonotoneExactly(scope, capacity, u1, u2, settings, l1, l2);
  }
}
