// The dispatcher of application metric syncs: batch size, selection of due
// rows, reservation, and release of the rows that were never published.
module ApplicationDispatch {
  import opened Extensionality
  import opened Lists
  import opened Wrappers

  const SECONDS_PER_DAY := 86400

  datatype SyncError = DispatchFailed | SyncFailed

  datatype Row = Row(syncAt: Option<int>, scheduledAt: Option<int>, error: Option<SyncError>)

  type Rows = map<int, Row>

  datatype Config = Config(windowDays: int, tickSeconds: int, batchSize: int, retryAfterSeconds: int)

  /* Batch size */

  function Max(a: int, b: int): int {
    if a < b then b else a
  }

  function TicksPerWindow(config: Config): (ticks: int)
    ensures ticks >= 1
  {
    var windowSeconds := Max(1, config.windowDays * SECONDS_PER_DAY);
    Max(1, windowSeconds / Max(1, config.tickSeconds))
  }

  function CeilDiv(a: nat, b: nat): nat
    requires b > 0
  {
    (a + b - 1) / b
  }

  function BatchSize(total: nat, config: Config): nat {
    if total == 0 then 0
    else if config.batchSize > 0 then config.batchSize
    else Max(1, CeilDiv(total, TicksPerWindow(config)))
  }

  lemma CeilDivBounds(a: nat, b: nat)
    requires a > 0 && b > 0
    ensures CeilDiv(a, b) >= 1
    ensures CeilDiv(a, b) * b >= a > (CeilDiv(a, b) - 1) * b
  {
    var q := (a + b - 1) / b;
    assert a + b - 1 == b * q + (a + b - 1) % b;
    assert q * b == b * q;
    if q == 0 {
      assert false;
    }
    assert (q - 1) * b == q * b - b;
  }

  // The automatic batch is the smallest one whose window of ticks reaches
  // every application.
  lemma BatchSizeIsMinimal(total: nat, config: Config)
    requires total > 0 && config.batchSize <= 0
    ensures var batch, ticks := BatchSize(total, config), TicksPerWindow(config);
            batch >= 1 && batch * ticks >= total > (batch - 1) * ticks
  {
    CeilDivBounds(total, TicksPerWindow(config));
  }

  // The window is cut into as many whole ticks as it holds, at least one; a
  // window or a tick of no length counts as one second.
  lemma TicksMeaning(config: Config)
    ensures var window := if config.windowDays * 86400 < 1 then 1 else config.windowDays * 86400;
            var tick := if config.tickSeconds < 1 then 1 else config.tickSeconds;
            && (TicksPerWindow(config) * tick <= window || TicksPerWindow(config) == 1)
            && window < (TicksPerWindow(config) + 1) * tick
  {
    var window := if config.windowDays * 86400 < 1 then 1 else config.windowDays * 86400;
    var tick := if config.tickSeconds < 1 then 1 else config.tickSeconds;
    var whole := window / tick;
    assert window == tick * whole + window % tick;
    assert (whole + 1) * tick == tick * whole + tick;
    if whole < 1 {
      assert tick * whole <= 0;
      assert (1 + 1) * tick == tick + tick;
    }
  }

  lemma BatchSizeMeaning(total: nat, config: Config)
    ensures total == 0 ==> BatchSize(total, config) == 0
    ensures total > 0 && config.batchSize > 0 ==> BatchSize(total, config) == config.batchSize
    ensures total > 0 ==> BatchSize(total, config) > 0
  {
  }

  /* Selection */

  predicate Due(row: Row, now: int, config: Config) {
    row.syncAt.None? || row.syncAt.value <= now - config.windowDays * SECONDS_PER_DAY
  }

  // Not reserved, or reserved so long ago that the reservation is lost.
  predicate Available(row: Row, now: int, config: Config) {
    row.scheduledAt.None? || row.scheduledAt.value <= now - config.retryAfterSeconds
  }

  function Eligible(rows: Rows, now: int, config: Config): set<int> {
    set id | id in rows && Due(rows[id], now, config) && Available(rows[id], now, config)
  }

  // Never synced first, then the oldest sync, then the smallest id.
  predicate Before(rows: Rows, a: int, b: int)
    requires a in rows && b in rows
  {
    var x, y := rows[a].syncAt, rows[b].syncAt;
    if x == y then a < b else x.None? || (y.Some? && x.value < y.value)
  }

  predicate IsFirst(rows: Rows, s: set<int>, a: int)
    requires s <= rows.Keys
  {
    a in s && forall b :: b in s && b != a ==> Before(rows, a, b)
  }

  lemma {:induction false} FirstExists(rows: Rows, s: set<int>)
    requires s <= rows.Keys && s != {}
    ensures exists a :: IsFirst(rows, s, a)
  {
    assert (forall x :: x !in s) ==> s == {};
    var x :| x in s;
    var rest := s - {x};
    assert forall y :: y in s ==> y == x || y in rest;
    if rest == {} {
      assert IsFirst(rows, s, x);
    } else {
      FirstExists(rows, rest);
      var y :| IsFirst(rows, rest, y);
      if Before(rows, x, y) {
        forall b | b in s && b != x ensures Before(rows, x, b) {
          assert b == y || Before(rows, y, b);
        }
        assert IsFirst(rows, s, x);
      } else {
        assert Before(rows, y, x);
        assert IsFirst(rows, s, y);
      }
    }
  }

  function First(rows: Rows, s: set<int>): (a: int)
    requires s <= rows.Keys && s != {}
    ensures IsFirst(rows, s, a)
  {
    FirstExists(rows, s);
    var a :| a in s && forall b :: b in s && b != a ==> Before(rows, a, b);
    a
  }

  // ORDER BY ... LIMIT limit.
  function Select(rows: Rows, s: set<int>, limit: nat): (ids: seq<int>)
    requires s <= rows.Keys
    ensures |ids| == if |s| < limit then |s| else limit
    ensures forall i :: 0 <= i < |ids| ==> ids[i] in s
    ensures Distinct(ids)
    decreases limit
  {
    if limit == 0 || s == {} then []
    else
      var rest := Select(rows, s - {First(rows, s)}, limit - 1);
      assert forall i :: 0 <= i < |rest| ==> rest[i] in s - {First(rows, s)};
      [First(rows, s)] + rest
  }

  // The selection is in order and everything left out comes after it.
  lemma {:induction false} SelectTakesTheFirst(rows: Rows, s: set<int>, limit: nat, i: nat, other: int)
    requires s <= rows.Keys && i < |Select(rows, s, limit)|
    requires other in s && other !in Select(rows, s, limit)[..i + 1]
    ensures Before(rows, Select(rows, s, limit)[i], other)
    decreases limit
  {
    var first := First(rows, s);
    var ids := Select(rows, s, limit);
    assert ids[0] == first;
    assert ids[..i + 1][0] == first;
    if i > 0 {
      var rest := Select(rows, s - {first}, limit - 1);
      assert ids == [first] + rest;
      assert ids[..i + 1] == [first] + rest[..i];
      SelectTakesTheFirst(rows, s - {first}, limit - 1, i - 1, other);
    }
  }

  function Batch(rows: Rows, now: int, config: Config): seq<int> {
    Select(rows, Eligible(rows, now, config), BatchSize(|rows|, config))
  }

  /* What is selected, in terms of the stored columns */

  // Never synced or last synced a whole window ago, and not reserved or
  // reserved a whole retry delay ago.
  predicate MustSync(row: Row, now: int, config: Config) {
    && (row.syncAt == None || row.syncAt.value + config.windowDays * 86400 <= now)
    && (row.scheduledAt == None || row.scheduledAt.value + config.retryAfterSeconds <= now)
  }

  function Waiting(rows: Rows, now: int, config: Config): set<int> {
    set id | id in rows && MustSync(rows[id], now, config)
  }

  lemma WaitingIsEligible(rows: Rows, now: int, config: Config)
    ensures Waiting(rows, now, config) == Eligible(rows, now, config)
  {
    forall id ensures id in Waiting(rows, now, config) <==> id in Eligible(rows, now, config) {
    }
    SetsEqual(Waiting(rows, now, config), Eligible(rows, now, config));
  }

  // Rows never synced come first, then those synced longest ago; equals go by id.
  predicate Precedes(a: int, x: Row, b: int, y: Row) {
    || (x.syncAt.None? && y.syncAt.Some?)
    || (x.syncAt.Some? && y.syncAt.Some? && x.syncAt.value < y.syncAt.value)
    || (x.syncAt == y.syncAt && a < b)
  }

  // A dispatcher takes as many of the waiting rows as the batch has room for,
  // and whoever it leaves out comes after everyone it takes.
  lemma BatchMeaning(rows: Rows, now: int, config: Config)
    ensures var ids := Batch(rows, now, config);
            && Distinct(ids)
            && |ids| == (if |Waiting(rows, now, config)| < BatchSize(|rows|, config)
                         then |Waiting(rows, now, config)| else BatchSize(|rows|, config))
            && (forall i :: 0 <= i < |ids| ==> ids[i] in rows && MustSync(rows[ids[i]], now, config))
            && (forall i, other :: 0 <= i < |ids| && other in Waiting(rows, now, config) && other !in ids ==>
                  Precedes(ids[i], rows[ids[i]], other, rows[other]))
  {
    WaitingIsEligible(rows, now, config);
    var ids, limit := Batch(rows, now, config), BatchSize(|rows|, config);
    forall i | 0 <= i < |ids| ensures ids[i] in Waiting(rows, now, config) {
    }
    forall i, other | 0 <= i < |ids| && other in Waiting(rows, now, config) && other !in ids
      ensures Precedes(ids[i], rows[ids[i]], other, rows[other])
    {
      SelectTakesTheFirst(rows, Eligible(rows, now, config), limit, i, other);
    }
  }

  ghost predicate TakesWaiting(rows: Rows, ids: seq<int>, now: int, config: Config) {
    forall id :: id in ids <==> id in rows && MustSync(rows[id], now, config)
  }

  lemma SameSize(a: set<int>, b: set<int>)
    requires a <= b && |a| >= |b|
    ensures a == b
  {
    assert |b - a| == |b| - |a|;
    forall x ensures x in a <==> x in b {
      assert x in b && x !in a ==> x in b - a;
    }
    SetsEqual(a, b);
  }

  // With room in the batch a row is selected if and only if it is waiting.
  lemma BatchTakesAllWaiting(rows: Rows, now: int, config: Config)
    ensures |Waiting(rows, now, config)| <= BatchSize(|rows|, config) ==>
              TakesWaiting(rows, Batch(rows, now, config), now, config)
  {
    var waiting := Waiting(rows, now, config);
    if |waiting| <= BatchSize(|rows|, config) {
      BatchMeaning(rows, now, config);
      var ids := Batch(rows, now, config);
      CountDistinct(ids);
      forall id | id in Elements(ids) ensures id in waiting {
      }
      assert Elements(ids) <= waiting;
      SameSize(Elements(ids), waiting);
      assert forall id :: id in ids <==> id in Elements(ids);
    }
  }

  /* Reservation and release */

  function MarkReserved(rows: Rows, ids: seq<int>, now: int): Rows {
    map id | id in rows :: if id in ids then rows[id].(scheduledAt := Some(now)) else rows[id]
  }

  function Release(rows: Rows, ids: seq<int>): Rows {
    map id | id in rows :: if id in ids then rows[id].(scheduledAt := None, error := Some(DispatchFailed)) else rows[id]
  }

  lemma ReserveNext(rows: Rows, ids: seq<int>, i: nat, now: int)
    requires i < |ids| && ids[i] in rows
    ensures var before := MarkReserved(rows, ids[..i], now);
            MarkReserved(rows, ids[..i + 1], now) == before[ids[i] := before[ids[i]].(scheduledAt := Some(now))]
  {
  }

  // How many of the rows get published when the publish call at position
  // `failAt` raises.
  function Published(ids: seq<int>, failAt: Option<nat>): nat {
    if failAt.Some? && failAt.value < |ids| then failAt.value else |ids|
  }

  function Dispatched(rows: Rows, now: int, config: Config, failAt: Option<nat>): Rows {
    var ids := Batch(rows, now, config);
    Release(MarkReserved(rows, ids, now), ids[Published(ids, failAt)..])
  }

  // A partial publish keeps the published prefix reserved, releases exactly
  // the rest with the dispatch error, and touches no other row.
  lemma PartialPublish(rows: Rows, now: int, config: Config, failAt: Option<nat>)
    ensures var ids := Batch(rows, now, config);
            var n := Published(ids, failAt);
            var after := Dispatched(rows, now, config, failAt);
            && after.Keys == rows.Keys
            && (forall i :: 0 <= i < |ids| ==> ids[i] in rows)
            && (forall i :: 0 <= i < n ==> after[ids[i]] == rows[ids[i]].(scheduledAt := Some(now)))
            && (forall i :: n <= i < |ids| ==>
                  after[ids[i]] == rows[ids[i]].(scheduledAt := None, error := Some(DispatchFailed)))
            && (forall id :: id in rows && id !in ids ==> after[id] == rows[id])
  {
  }

  lemma ReleaseNothing(rows: Rows, ids: seq<int>)
    ensures Release(rows, ids[|ids|..]) == rows
  {
  }

  lemma EmptyBatch(rows: Rows, now: int, config: Config, failAt: Option<nat>)
    requires BatchSize(|rows|, config) == 0
    ensures Batch(rows, now, config) == [] && Dispatched(rows, now, config, failAt) == rows
  {
  }

  class ApplicationTable {
    var rows: Rows

    constructor (rows: Rows)
      ensures this.rows == rows
    {
      this.rows := rows;
    }

    method Reserve(due: seq<int>, now: int)
      requires forall i :: 0 <= i < |due| ==> due[i] in rows
      modifies this
      ensures rows == MarkReserved(old(rows), due, now)
    {
      ghost var start := rows;
      for i := 0 to |due|
        invariant rows == MarkReserved(start, due[..i], now)
      {
        ReserveNext(start, due, i, now);
        rows := rows[due[i] := rows[due[i]].(scheduledAt := Some(now))];
      }
      assert due[..|due|] == due;
    }

    // One dispatcher run; `failAt` is the publish call that raises, if any.
    method DispatchDue(now: int, config: Config, failAt: Option<nat>) returns (enqueued: seq<int>, raised: bool)
      modifies this
      ensures var ids := Batch(old(rows), now, config);
              && enqueued == ids[..Published(ids, failAt)]
              && raised == (Published(ids, failAt) < |ids|)
      ensures rows == Dispatched(old(rows), now, config, failAt)
      ensures failAt.None? && |Waiting(old(rows), now, config)| <= BatchSize(|old(rows)|, config) ==>
                TakesWaiting(old(rows), enqueued, now, config)
    {
      BatchTakesAllWaiting(rows, now, config);
      ghost var start := rows;
      var batchSize := BatchSize(|rows|, config);
      enqueued, raised := [], false;
      if batchSize == 0 {
        EmptyBatch(rows, now, config, failAt);
        return;
      }
      var due := Select(rows, Eligible(rows, now, config), batchSize);
      Reserve(due, now);
      for i := 0 to |due|
        invariant enqueued == due[..i]
        invariant failAt.Some? ==> i <= failAt.value
        invariant rows == MarkReserved(start, due, now)
      {
        if failAt == Some(i) {
          rows := Release(rows, due[|enqueued|..]);
          raised := true;
          return;
        }
        enqueued := enqueued + [due[i]];
      }
      ReleaseNothing(rows, due);
    }
  }
}
