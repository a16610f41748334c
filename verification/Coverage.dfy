// What the batch size buys: how many of the applications due at one tick the
// following ticks reach, when every published sync succeeds before the next.
module Coverage {
  import opened Wrappers
  import opened ApplicationDispatch
  import opened Extensionality
  import opened Lists
  import DispatchProtocol

  function Spacing(config: Config): (seconds: int)
    ensures seconds >= 1
  {
    Max(1, config.tickSeconds)
  }

  function Chosen(rows: Rows, now: int, config: Config): set<int> {
    Elements(Batch(rows, now, config))
  }

  predicate Unreserved(rows: Rows) {
    forall id :: id in rows ==> rows[id].scheduledAt.None?
  }

  // One tick: the chosen rows are synced at some later moment, and the others
  // keep what they had.
  ghost predicate Synced(before: Rows, after: Rows, now: int, config: Config) {
    && after.Keys == before.Keys
    && (forall id :: id in before && id in Chosen(before, now, config) ==>
          after[id].syncAt.Some? && after[id].syncAt.value >= now && after[id].scheduledAt.None?)
    && (forall id :: id in before && id !in Chosen(before, now, config) ==> after[id] == before[id])
  }

  // The published syncs end one after the other, each at its own time.
  function SyncAll(rows: Rows, ids: seq<int>, at: int -> int): Rows {
    if ids == [] then rows
    else
      var last := ids[|ids| - 1];
      DispatchProtocol.Finish(SyncAll(rows, ids[..|ids| - 1], at), last, Some(at(last)))
  }

  lemma {:induction false} SyncAllMeaning(rows: Rows, ids: seq<int>, at: int -> int)
    ensures var after := SyncAll(rows, ids, at);
            && after.Keys == rows.Keys
            && (forall id :: id in rows && id in ids ==> after[id] == Row(Some(at(id)), None, None))
            && (forall id :: id in rows && id !in ids ==> after[id] == rows[id])
  {
    if ids != [] {
      var init := ids[..|ids| - 1];
      SyncAllMeaning(rows, init, at);
      assert ids == init + [ids[|ids| - 1]];
      var before := SyncAll(rows, init, at);
      var after := SyncAll(rows, ids, at);
      assert forall id :: id in after <==> id in before;
      SetsEqual(after.Keys, before.Keys);
    }
  }

  // A dispatch without failures whose syncs all succeed later is such a tick.
  lemma DispatchThenSyncIsTick(rows: Rows, now: int, config: Config, at: int -> int)
    requires forall id :: at(id) >= now
    ensures Synced(rows, SyncAll(Dispatched(rows, now, config, None), Batch(rows, now, config), at), now, config)
  {
    PartialPublish(rows, now, config, None);
    SyncAllMeaning(Dispatched(rows, now, config, None), Batch(rows, now, config), at);
  }

  // The time of tick number `j`.
  function TickTime(now: int, j: nat, config: Config): int {
    if j == 0 then now else TickTime(now, j - 1, config) + Spacing(config)
  }

  ghost predicate TickAt(states: seq<Rows>, now: int, j: nat, config: Config)
    requires j + 1 < |states|
  {
    Synced(states[j], states[j + 1], TickTime(now, j, config), config)
  }

  // The tables seen by consecutive ticks from `now` on.
  ghost predicate Ticks(states: seq<Rows>, now: int, config: Config) {
    states != [] && forall j :: 0 <= j < |states| - 1 ==> TickAt(states, now, j, config)
  }

  // Tick number `j` publishes the application.
  predicate ChosenAt(states: seq<Rows>, now: int, j: nat, config: Config, id: int)
    requires j < |states|
  {
    id in Chosen(states[j], TickTime(now, j, config), config)
  }

  // Some tick publishes the application.
  predicate Reached(states: seq<Rows>, now: int, config: Config, id: int) {
    exists j :: 0 <= j < |states| - 1 && ChosenAt(states, now, j, config, id)
  }

  // The applications due at time `start`.
  function Backlog(rows: Rows, start: int, config: Config): set<int> {
    set id | id in rows && Due(rows[id], start, config)
  }

  function Excess(a: int, b: int): nat {
    if a <= b then 0 else a - b
  }

  /* One tick */

  lemma BeforeIsOneWay(rows: Rows, a: int, b: int)
    requires a in rows && b in rows && a != b
    ensures Before(rows, a, b) <==> !Before(rows, b, a)
  {
  }

  // Everyone in the group comes before every other candidate.
  ghost predicate Ahead(rows: Rows, group: set<int>, s: set<int>)
    requires group <= rows.Keys && s <= rows.Keys
  {
    forall a, b :: a in group && b in s && b !in group ==> Before(rows, a, b)
  }

  // If a member of the group is left out, nobody else gets in.
  lemma OnlyGroup(rows: Rows, group: set<int>, s: set<int>, limit: nat, missed: int, i: nat)
    requires group <= s <= rows.Keys && Ahead(rows, group, s)
    requires missed in group && missed !in Select(rows, s, limit)
    requires i < |Select(rows, s, limit)|
    ensures Select(rows, s, limit)[i] in group
  {
    var ids := Select(rows, s, limit);
    SelectTakesTheFirst(rows, s, limit, i, missed);
    BeforeIsOneWay(rows, ids[i], missed);
  }

  // A group that comes before the other candidates is taken first.
  lemma TakesGroupFirst(rows: Rows, group: set<int>, s: set<int>, limit: nat)
    requires group <= s <= rows.Keys && Ahead(rows, group, s)
    ensures |group - Elements(Select(rows, s, limit))| == Excess(|group|, limit)
  {
    var ids := Select(rows, s, limit);
    var taken := Elements(ids);
    CountDistinct(ids);
    if group <= taken {
      SubsetSize(group, taken);
      assert group - taken == {};
    } else {
      assert (forall a :: a in group ==> a in taken) ==> group <= taken;
      var missed :| missed in group && missed !in taken;
      forall i | 0 <= i < |ids| ensures ids[i] in group {
        OnlyGroup(rows, group, s, limit, missed, i);
      }
      assert taken <= group;
      SubsetSize(taken + {missed}, s);
      assert |taken + {missed}| == |taken| + 1;
    }
  }

  lemma TickShrinksBacklog(rows: Rows, start: int, now: int, config: Config)
    requires Unreserved(rows) && start <= now
    ensures |Backlog(rows, start, config) - Chosen(rows, now, config)|
            == Excess(|Backlog(rows, start, config)|, BatchSize(|rows|, config))
  {
    var due := Eligible(rows, now, config);
    var backlog := Backlog(rows, start, config);
    forall id | id in backlog ensures id in due {
      assert rows[id].scheduledAt.None?;
    }
    assert Ahead(rows, backlog, due);
    TakesGroupFirst(rows, backlog, due, BatchSize(|rows|, config));
  }

  lemma TickKeepsUnreserved(before: Rows, after: Rows, now: int, config: Config)
    requires Unreserved(before) && Synced(before, after, now, config)
    ensures Unreserved(after) && |after| == |before|
  {
    assert |after.Keys| == |before.Keys|;
  }

  lemma TickKeepsTheRest(before: Rows, after: Rows, start: int, now: int, config: Config)
    requires start <= now && config.windowDays > 0
    requires Synced(before, after, now, config)
    ensures Backlog(after, start, config) == Backlog(before, start, config) - Chosen(before, now, config)
  {
    forall id
      ensures id in Backlog(after, start, config) <==>
              id in Backlog(before, start, config) - Chosen(before, now, config)
    {
    }
    SetsEqual(Backlog(after, start, config), Backlog(before, start, config) - Chosen(before, now, config));
  }

  /* All ticks */

  // The room in a number of batches.
  function Room(batch: nat, ticks: nat): nat {
    if ticks == 0 then 0 else batch + Room(batch, ticks - 1)
  }

  lemma {:induction false} RoomIsProduct(batch: nat, ticks: nat)
    ensures Room(batch, ticks) == batch * ticks
  {
    if ticks > 0 {
      RoomIsProduct(batch, ticks - 1);
      assert batch * ticks == batch + batch * (ticks - 1);
    }
  }

  lemma ExcessTwice(n: int, a: nat, b: nat)
    ensures Excess(Excess(n, a), b) == Excess(n, a + b)
  {
  }

  lemma {:induction false} TickTimeMeaning(now: int, j: nat, config: Config)
    ensures TickTime(now, j, config) == now + j * Spacing(config) >= now
  {
    if j > 0 {
      TickTimeMeaning(now, j - 1, config);
      assert j * Spacing(config) == (j - 1) * Spacing(config) + Spacing(config);
    }
  }

  // What is left of a set after the first `n` of some removals.
  function Left(ids: set<int>, removed: seq<set<int>>, n: nat): set<int>
    requires n <= |removed|
  {
    if n == 0 then ids else Left(ids, removed, n - 1) - removed[n - 1]
  }

  predicate TakesBatch(waiting: set<int>, taken: set<int>, batch: nat) {
    |waiting - taken| == Excess(|waiting|, batch)
  }

  predicate StepTakesBatch(ids: set<int>, removed: seq<set<int>>, batch: nat, j: nat)
    requires j < |removed|
  {
    TakesBatch(Left(ids, removed, j), removed[j], batch)
  }

  lemma TakeOneMore(total: nat, waiting: set<int>, taken: set<int>, batch: nat, n: nat)
    requires |waiting| == Excess(total, Room(batch, n)) && TakesBatch(waiting, taken, batch)
    ensures |waiting - taken| == Excess(total, Room(batch, n + 1))
  {
    ExcessTwice(total, Room(batch, n), batch);
  }

  lemma {:induction false} LeftCount(ids: set<int>, removed: seq<set<int>>, batch: nat, n: nat)
    requires n <= |removed|
    requires forall j :: 0 <= j < n ==> StepTakesBatch(ids, removed, batch, j)
    ensures |Left(ids, removed, n)| == Excess(|ids|, Room(batch, n))
  {
    if n > 0 {
      LeftCount(ids, removed, batch, n - 1);
      assert StepTakesBatch(ids, removed, batch, n - 1);
      TakeOneMore(|ids|, Left(ids, removed, n - 1), removed[n - 1], batch, n - 1);
    }
  }

  // The applications each tick publishes, and those due at `now` it finds.
  function ChosenSets(states: seq<Rows>, now: int, config: Config): (sets: seq<set<int>>)
    requires states != []
    ensures |sets| == |states| - 1
  {
    seq(|states| - 1, j requires 0 <= j < |states| - 1 => Chosen(states[j], TickTime(now, j, config), config))
  }

  function DueSets(states: seq<Rows>, now: int, config: Config): (sets: seq<set<int>>)
    ensures |sets| == |states|
  {
    seq(|states|, j requires 0 <= j < |states| => Backlog(states[j], now, config))
  }

  lemma {:induction false} StatesUnreserved(states: seq<Rows>, now: int, config: Config, n: nat)
    requires Ticks(states, now, config) && Unreserved(states[0]) && n < |states|
    ensures Unreserved(states[n]) && |states[n]| == |states[0]|
  {
    if n > 0 {
      StatesUnreserved(states, now, config, n - 1);
      assert TickAt(states, now, n - 1, config);
      TickKeepsUnreserved(states[n - 1], states[n], TickTime(now, n - 1, config), config);
    }
  }

  lemma DueSetShrinks(states: seq<Rows>, now: int, config: Config, j: nat)
    requires Ticks(states, now, config) && Unreserved(states[0]) && j < |states| - 1
    ensures var due, chosen := DueSets(states, now, config), ChosenSets(states, now, config);
            && TakesBatch(due[j], chosen[j], BatchSize(|states[0]|, config))
            && (config.windowDays > 0 ==> due[j + 1] == due[j] - chosen[j])
  {
    var time := TickTime(now, j, config);
    TickTimeMeaning(now, j, config);
    StatesUnreserved(states, now, config, j);
    TickShrinksBacklog(states[j], now, time, config);
    if config.windowDays > 0 {
      assert TickAt(states, now, j, config);
      TickKeepsTheRest(states[j], states[j + 1], now, time, config);
    }
  }

  lemma {:induction false} LeftIsDue(due: seq<set<int>>, removed: seq<set<int>>, n: nat)
    requires |due| == |removed| + 1 && n <= |removed|
    requires forall j :: 0 <= j < n ==> due[j + 1] == due[j] - removed[j]
    ensures Left(due[0], removed, n) == due[n]
  {
    if n > 0 {
      LeftIsDue(due, removed, n - 1);
      assert due[n - 1 + 1] == due[n - 1] - removed[n - 1];
    }
  }

  lemma AllTakeBatch(due: seq<set<int>>, removed: seq<set<int>>, batch: nat, n: nat)
    requires |due| == |removed| + 1 && n <= |removed|
    requires forall j :: 0 <= j < n ==> TakesBatch(due[j], removed[j], batch)
    requires n <= 1 || forall j :: 0 <= j < n ==> due[j + 1] == due[j] - removed[j]
    ensures |Left(due[0], removed, n)| == Excess(|due[0]|, Room(batch, n))
  {
    forall j | 0 <= j < n ensures StepTakesBatch(due[0], removed, batch, j) {
      if j > 0 {
        LeftIsDue(due, removed, j);
      }
    }
    LeftCount(due[0], removed, batch, n);
  }

  // Each tick takes a full batch off the backlog for as long as it lasts.
  lemma WaitingExactly(states: seq<Rows>, now: int, config: Config, n: nat)
    requires Ticks(states, now, config) && Unreserved(states[0]) && n < |states|
    requires config.windowDays > 0 || n <= 1
    ensures |Left(Backlog(states[0], now, config), ChosenSets(states, now, config), n)|
            == Excess(|Backlog(states[0], now, config)|, Room(BatchSize(|states[0]|, config), n))
  {
    var due, chosen := DueSets(states, now, config), ChosenSets(states, now, config);
    forall j | 0 <= j < n
      ensures TakesBatch(due[j], chosen[j], BatchSize(|states[0]|, config))
      ensures config.windowDays > 0 ==> due[j + 1] == due[j] - chosen[j]
    {
      DueSetShrinks(states, now, config, j);
    }
    AllTakeBatch(due, chosen, BatchSize(|states[0]|, config), n);
  }

  lemma {:induction false} LeftMeaning(ids: set<int>, removed: seq<set<int>>, n: nat, id: int)
    requires n <= |removed|
    ensures id in Left(ids, removed, n) <==> id in ids && forall j :: 0 <= j < n ==> id !in removed[j]
  {
    if n > 0 {
      LeftMeaning(ids, removed, n - 1, id);
    }
  }

  lemma UnreachedMeaning(states: seq<Rows>, now: int, config: Config, id: int)
    requires states != []
    ensures var chosen := ChosenSets(states, now, config);
            !Reached(states, now, config, id) <==> forall j :: 0 <= j < |chosen| ==> id !in chosen[j]
  {
    var chosen := ChosenSets(states, now, config);
    forall j | 0 <= j < |chosen| ensures id in chosen[j] <==> ChosenAt(states, now, j, config, id) {
    }
  }

  lemma IsEmpty(s: set<int>)
    ensures |s| == 0 <==> forall id :: id !in s
  {
    assert (forall id :: id !in s) ==> s == {};
  }

  lemma NobodyLeft(states: seq<Rows>, now: int, config: Config, ids: set<int>)
    requires states != []
    ensures (forall id :: id in ids ==> Reached(states, now, config, id)) <==>
            |Left(ids, ChosenSets(states, now, config), |states| - 1)| == 0
  {
    var chosen := ChosenSets(states, now, config);
    var left := Left(ids, chosen, |chosen|);
    forall id ensures id in left <==> id in ids && !Reached(states, now, config, id) {
      LeftMeaning(ids, chosen, |chosen|, id);
      UnreachedMeaning(states, now, config, id);
    }
    IsEmpty(left);
  }

  // A number of ticks publishes every application due at the first of them if
  // and only if that many batches hold the whole backlog.
  lemma CoverageExactly(states: seq<Rows>, now: int, config: Config)
    requires Ticks(states, now, config) && Unreserved(states[0])
    requires config.windowDays > 0 || |states| <= 2
    ensures (forall id :: id in Backlog(states[0], now, config) ==> Reached(states, now, config, id)) <==>
            BatchSize(|states[0]|, config) * (|states| - 1) >= |Backlog(states[0], now, config)|
  {
    NobodyLeft(states, now, config, Backlog(states[0], now, config));
    WaitingExactly(states, now, config, |states| - 1);
    RoomIsProduct(BatchSize(|states[0]|, config), |states| - 1);
  }

  lemma BacklogIsBounded(rows: Rows, now: int, config: Config)
    ensures |Backlog(rows, now, config)| <= |rows|
  {
    SubsetSize(Backlog(rows, now, config), rows.Keys);
  }

  // With the automatic batch size, one window of ticks publishes every
  // application due when it opens.
  lemma WindowCoversBacklog(states: seq<Rows>, now: int, config: Config)
    requires config.batchSize <= 0
    requires Ticks(states, now, config) && Unreserved(states[0])
    requires |states| == TicksPerWindow(config) + 1
    ensures forall id :: id in states[0]
              && (states[0][id].syncAt == None || states[0][id].syncAt.value + config.windowDays * 86400 <= now)
              ==> Reached(states, now, config, id)
  {
    var backlog := Backlog(states[0], now, config);
    BacklogIsBounded(states[0], now, config);
    CoverageExactly(states, now, config);
    if |states[0]| > 0 {
      BatchSizeIsMinimal(|states[0]|, config);
    }
    forall id | id in states[0]
      && (states[0][id].syncAt == None || states[0][id].syncAt.value + config.windowDays * 86400 <= now)
      ensures Reached(states, now, config, id)
    {
      assert id in backlog;
    }
  }

  lemma Monotone(a: int, b: int, c: nat)
    requires a <= b
    ensures a * c <= b * c
  {
  }

  // ... and any smaller batch would leave somebody out whenever all the
  // applications are due at once.
  lemma SmallerBatchMisses(states: seq<Rows>, now: int, config: Config)
    requires config.batchSize > 0
    requires Ticks(states, now, config) && Unreserved(states[0])
    requires |states| == TicksPerWindow(config) + 1
    ensures && config.batchSize < BatchSize(|states[0]|, config.(batchSize := 0))
            && Backlog(states[0], now, config) == states[0].Keys
            ==> exists id :: id in states[0] && !Reached(states, now, config, id)
  {
    var total, ticks := |states[0]|, TicksPerWindow(config);
    var enough := BatchSize(total, config.(batchSize := 0));
    if config.batchSize < enough && Backlog(states[0], now, config) == states[0].Keys {
      BatchSizeIsMinimal(total, config.(batchSize := 0));
      Monotone(config.batchSize, enough - 1, ticks);
      CoverageExactly(states, now, config);
    }
  }

  /* Once per window */

  lemma WindowIsLong(config: Config, j: nat)
    requires j < TicksPerWindow(config) && j > 0
    ensures j * Spacing(config) < config.windowDays * SECONDS_PER_DAY
  {
    var window := Max(1, config.windowDays * SECONDS_PER_DAY);
    var spacing := Spacing(config);
    var ticks := TicksPerWindow(config);
    assert ticks == window / spacing;
    assert window == spacing * ticks + window % spacing;
    Monotone(j, ticks - 1, spacing);
    assert (ticks - 1) * spacing == spacing * ticks - spacing;
  }

  predicate SyncedSince(rows: Rows, id: int, since: int) {
    id in rows && rows[id].syncAt.Some? && rows[id].syncAt.value >= since
  }

  lemma FreshIsNotDue(rows: Rows, id: int, since: int, now: int, config: Config)
    requires SyncedSince(rows, id, since)
    requires now < since + config.windowDays * SECONDS_PER_DAY
    ensures id !in Chosen(rows, now, config)
  {
  }

  lemma WithinWindow(now: int, i: nat, j: nat, config: Config)
    requires i < j < TicksPerWindow(config)
    ensures TickTime(now, j, config) < TickTime(now, i, config) + config.windowDays * SECONDS_PER_DAY
  {
    TickTimeMeaning(now, i, config);
    TickTimeMeaning(now, j, config);
    WindowIsLong(config, j - i);
    assert j * Spacing(config) == i * Spacing(config) + (j - i) * Spacing(config);
  }

  lemma PublishedIsFresh(before: Rows, after: Rows, id: int, now: int, config: Config)
    requires Synced(before, after, now, config) && id in Chosen(before, now, config)
    ensures SyncedSince(after, id, now)
  {
    assert id in Batch(before, now, config);
  }

  lemma FreshStaysFresh(before: Rows, after: Rows, id: int, since: int, now: int, config: Config)
    requires Synced(before, after, now, config) && SyncedSince(before, id, since)
    requires now < since + config.windowDays * SECONDS_PER_DAY
    ensures SyncedSince(after, id, since)
  {
    FreshIsNotDue(before, id, since, now, config);
  }

  // A published row keeps its sync time for the rest of the window.
  lemma {:induction false} StaysFresh(states: seq<Rows>, now: int, config: Config, id: int, i: nat, k: nat)
    requires Ticks(states, now, config) && |states| <= TicksPerWindow(config) + 1
    requires i < k < |states| && ChosenAt(states, now, i, config, id)
    ensures SyncedSince(states[k], id, TickTime(now, i, config))
    decreases k
  {
    assert TickAt(states, now, k - 1, config);
    var time := TickTime(now, k - 1, config);
    if k - 1 == i {
      PublishedIsFresh(states[k - 1], states[k], id, time, config);
    } else {
      StaysFresh(states, now, config, id, i, k - 1);
      WithinWindow(now, i, k - 1, config);
      FreshStaysFresh(states[k - 1], states[k], id, TickTime(now, i, config), time, config);
    }
  }

  // Within one window of ticks no application is published twice.
  lemma ChosenOnce(states: seq<Rows>, now: int, config: Config, id: int, i: nat, j: nat)
    requires Ticks(states, now, config) && |states| <= TicksPerWindow(config) + 1
    requires i < j < |states| - 1 && ChosenAt(states, now, i, config, id)
    ensures !ChosenAt(states, now, j, config, id)
  {
    StaysFresh(states, now, config, id, i, j);
    WithinWindow(now, i, j, config);
    FreshIsNotDue(states[j], id, TickTime(now, i, config), TickTime(now, j, config), config);
  }
}
