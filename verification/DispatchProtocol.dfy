// Dispatchers and workers interleaving over the application table. A ticket is
// a reservation some dispatcher has yet to publish, or a published task some
// worker has yet to finish.
module DispatchProtocol {
  import opened Lists
  import opened Wrappers
  import opened ApplicationDispatch

  // A dispatcher between its reservation commit and the end of its publishes.
  datatype Publishing = Publishing(stamp: int, remaining: seq<int>)

  datatype Task = Task(application: int, stamp: int)

  datatype System = System(
    clock: int,
    rows: Rows,
    nextApplication: int,
    dispatchers: map<int, Publishing>,
    tasks: map<int, Task>)

  datatype Holder = Dispatcher(id: int) | Worker(id: int)

  datatype Move =
    | Tick(clock: int)
    | Reserve(dispatcher: int, now: int, ids: seq<int>)
    | Publish(dispatcher: int, task: int)
    | FailPublish(dispatcher: int)
    | Leave(dispatcher: int)
    | Complete(task: int, at: int)
    | FailTask(task: int)
    | Lose(task: int)
    | CreateApplication
    | DeleteApplication(id: int)

  /* Tickets */

  predicate Live(s: System, h: Holder) {
    match h
    case Dispatcher(d) => d in s.dispatchers
    case Worker(t) => t in s.tasks
  }

  predicate Holds(s: System, h: Holder, app: int) {
    match h
    case Dispatcher(d) => d in s.dispatchers && app in s.dispatchers[d].remaining
    case Worker(t) => t in s.tasks && s.tasks[t].application == app
  }

  function Stamp(s: System, h: Holder): int
    requires Live(s, h)
  {
    match h
    case Dispatcher(d) => s.dispatchers[d].stamp
    case Worker(t) => s.tasks[t].stamp
  }

  ghost predicate OneTicket(s: System) {
    forall g, h, app :: Holds(s, g, app) && Holds(s, h, app) ==> g == h
  }

  // A live ticket is its row's current reservation, made when the row was due.
  ghost predicate Stamped(s: System, config: Config) {
    forall h, app :: Holds(s, h, app) ==>
      && Stamp(s, h) <= s.clock
      && app < s.nextApplication
      && (app in s.rows ==> s.rows[app].scheduledAt == Some(Stamp(s, h)) && Due(s.rows[app], Stamp(s, h), config))
  }

  predicate ReservedBy(row: Row, clock: int) {
    row.scheduledAt.Some? ==> row.scheduledAt.value <= clock
  }

  predicate Tidy(s: System) {
    && (forall d :: d in s.dispatchers ==> Distinct(s.dispatchers[d].remaining))
    && (forall app :: app in s.rows ==> app < s.nextApplication && ReservedBy(s.rows[app], s.clock))
  }

  ghost predicate Invariant(s: System, config: Config) {
    OneTicket(s) && Stamped(s, config) && Tidy(s)
  }

  // Every ticket alive now is younger than the retry delay.
  ghost predicate Timely(s: System, config: Config) {
    forall h, app :: Holds(s, h, app) ==> s.clock < Stamp(s, h) + config.retryAfterSeconds
  }

  predicate Idle(s: System) {
    s.dispatchers == map[] && s.tasks == map[]
  }

  lemma IdleIsInvariant(s: System, config: Config)
    requires Idle(s) && Tidy(s)
    ensures Invariant(s, config)
  {
  }

  /* Moves */

  // A reservation commits any of the due rows nobody else has locked, so `ids`
  // is an arbitrary part of the eligible ones; `now` was read before.
  predicate Enabled(s: System, m: Move, config: Config) {
    match m
    case Tick(clock) => s.clock <= clock
    case Reserve(d, now, ids) =>
      && d !in s.dispatchers
      && now <= s.clock
      && Distinct(ids)
      && (forall i :: 0 <= i < |ids| ==> ids[i] in Eligible(s.rows, now, config))
    case Publish(d, t) => d in s.dispatchers && s.dispatchers[d].remaining != [] && t !in s.tasks
    case FailPublish(d) => d in s.dispatchers && s.dispatchers[d].remaining != []
    case Leave(d) => d in s.dispatchers
    case Complete(t, _) => t in s.tasks
    case FailTask(t) => t in s.tasks
    case Lose(t) => t in s.tasks
    case CreateApplication => true
    case DeleteApplication(id) => id in s.rows
  }

  // What a worker writes when its task ends; a row deleted meanwhile stays so.
  function Finish(rows: Rows, app: int, at: Option<int>): Rows {
    if app !in rows then rows
    else if at.Some? then rows[app := Row(at, None, None)]
    else rows[app := rows[app].(scheduledAt := None, error := Some(SyncFailed))]
  }

  // `Leave` is both a dispatcher that published everything and one that
  // crashed; `Lose` is a worker that died or a message that vanished.
  function Apply(s: System, m: Move, config: Config): System
    requires Enabled(s, m, config)
  {
    match m
    case Tick(clock) => s.(clock := clock)
    case Reserve(d, now, ids) =>
      s.(rows := MarkReserved(s.rows, ids, now), dispatchers := s.dispatchers[d := Publishing(now, ids)])
    case Publish(d, t) =>
      var p := s.dispatchers[d];
      s.(dispatchers := s.dispatchers[d := p.(remaining := p.remaining[1..])],
         tasks := s.tasks[t := Task(p.remaining[0], p.stamp)])
    case FailPublish(d) =>
      s.(rows := Release(s.rows, s.dispatchers[d].remaining), dispatchers := s.dispatchers - {d})
    case Leave(d) => s.(dispatchers := s.dispatchers - {d})
    case Complete(t, at) =>
      s.(rows := Finish(s.rows, s.tasks[t].application, Some(at)), tasks := s.tasks - {t})
    case FailTask(t) =>
      s.(rows := Finish(s.rows, s.tasks[t].application, None), tasks := s.tasks - {t})
    case Lose(t) => s.(tasks := s.tasks - {t})
    case CreateApplication =>
      s.(rows := s.rows[s.nextApplication := Row(None, None, None)], nextApplication := s.nextApplication + 1)
    case DeleteApplication(id) => s.(rows := s.rows - {id})
  }

  /* What each move does to the columns */

  ghost predicate OthersAsBefore(before: Rows, after: Rows, ids: seq<int>) {
    && (forall id :: id in before <==> id in after)
    && (forall id :: id in before && id !in ids ==> after[id] == before[id])
  }

  lemma ReserveEffect(s: System, d: int, now: int, ids: seq<int>, config: Config)
    requires Enabled(s, Reserve(d, now, ids), config)
    ensures var after := Apply(s, Reserve(d, now, ids), config);
            && OthersAsBefore(s.rows, after.rows, ids)
            && (forall i :: 0 <= i < |ids| ==>
                  && ids[i] in s.rows && MustSync(s.rows[ids[i]], now, config)
                  && after.rows[ids[i]] == Row(s.rows[ids[i]].syncAt, Some(now), s.rows[ids[i]].error))
            && (forall app :: Holds(after, Dispatcher(d), app) <==> app in ids)
            && after.tasks == s.tasks
  {
    WaitingIsEligible(s.rows, now, config);
    forall i | 0 <= i < |ids| ensures ids[i] in Waiting(s.rows, now, config) {
    }
  }

  lemma PublishEffect(s: System, d: int, t: int, config: Config)
    requires Enabled(s, Publish(d, t), config)
    ensures var after := Apply(s, Publish(d, t), config);
            && after.rows == s.rows
            && after.tasks == s.tasks[t := Task(s.dispatchers[d].remaining[0], s.dispatchers[d].stamp)]
            && after.dispatchers[d].remaining == s.dispatchers[d].remaining[1..]
  {
  }

  lemma FailPublishEffect(s: System, d: int, config: Config)
    requires Enabled(s, FailPublish(d), config)
    ensures var after := Apply(s, FailPublish(d), config);
            var left := s.dispatchers[d].remaining;
            && OthersAsBefore(s.rows, after.rows, left) && d !in after.dispatchers && after.tasks == s.tasks
            && (forall app :: app in left && app in s.rows ==>
                  after.rows[app] == Row(s.rows[app].syncAt, None, Some(DispatchFailed)))
  {
  }

  // A sync that ends well dates the row and clears its reservation and error;
  // one that fails clears the reservation and notes the error. A ticket that
  // is lost, like a dispatcher that leaves, changes no row.
  lemma EndEffect(s: System, t: int, at: int, config: Config)
    requires t in s.tasks
    ensures var app := s.tasks[t].application;
            var done := Apply(s, Complete(t, at), config);
            var failed := Apply(s, FailTask(t), config);
            && OthersAsBefore(s.rows, done.rows, [app]) && OthersAsBefore(s.rows, failed.rows, [app])
            && (app in s.rows ==> done.rows[app] == Row(Some(at), None, None))
            && (app in s.rows ==> failed.rows[app] == Row(s.rows[app].syncAt, None, Some(SyncFailed)))
            && Apply(s, Lose(t), config).rows == s.rows
            && t !in done.tasks && t !in failed.tasks && t !in Apply(s, Lose(t), config).tasks
            && done.dispatchers == s.dispatchers && failed.dispatchers == s.dispatchers
  {
  }

  /* Every move keeps the invariant */

  lemma ReserveKeeps(s: System, d: int, now: int, ids: seq<int>, config: Config)
    requires Invariant(s, config) && Enabled(s, Reserve(d, now, ids), config)
    requires forall h, app :: Holds(s, h, app) ==> app !in ids
    ensures Invariant(Apply(s, Reserve(d, now, ids), config), config)
  {
    var after := Apply(s, Reserve(d, now, ids), config);
    forall h, app
      ensures Holds(after, h, app) <==> (if h == Dispatcher(d) then app in ids else Holds(s, h, app))
    {
    }
  }

  lemma PublishMovesTicket(s: System, d: int, t: int, config: Config)
    requires Invariant(s, config) && Enabled(s, Publish(d, t), config)
    ensures var first := s.dispatchers[d].remaining[0];
            var after := Apply(s, Publish(d, t), config);
            && (forall h :: Holds(after, h, first) <==> h == Worker(t))
            && (forall h, app :: app != first ==> (Holds(after, h, app) <==> Holds(s, h, app)))
            && Distinct(after.dispatchers[d].remaining)
  {
    var remaining := s.dispatchers[d].remaining;
    var after := Apply(s, Publish(d, t), config);
    assert Holds(s, Dispatcher(d), remaining[0]);
    assert remaining == [remaining[0]] + remaining[1..];
    TailMembership(remaining, 1, 0);
    forall h, app | app != remaining[0] ensures Holds(after, h, app) <==> Holds(s, h, app) {
    }
    forall h ensures Holds(after, h, remaining[0]) <==> h == Worker(t) {
      if h != Dispatcher(d) && h != Worker(t) {
        assert Holds(after, h, remaining[0]) <==> Holds(s, h, remaining[0]);
      }
    }
  }

  lemma PublishKeeps(s: System, d: int, t: int, config: Config)
    requires Invariant(s, config) && Enabled(s, Publish(d, t), config)
    ensures Invariant(Apply(s, Publish(d, t), config), config)
  {
    PublishMovesTicket(s, d, t, config);
    assert Holds(s, Dispatcher(d), s.dispatchers[d].remaining[0]);
  }

  // Ending a ticket by failure, crash or completion leaves the others alone.
  lemma EndKeeps(s: System, m: Move, config: Config)
    requires Invariant(s, config) && Enabled(s, m, config)
    requires m.FailPublish? || m.Leave? || m.Complete? || m.FailTask? || m.Lose?
    ensures Invariant(Apply(s, m, config), config)
  {
    var after := Apply(s, m, config);
    var gone := if m.FailPublish? || m.Leave? then Dispatcher(m.dispatcher) else Worker(m.task);
    forall h, app ensures Holds(after, h, app) <==> h != gone && Holds(s, h, app) {
    }
    forall h, app | Holds(after, h, app) && app in after.rows
      ensures after.rows[app] == s.rows[app]
    {
      assert !Holds(s, gone, app);
    }
  }

  lemma TableKeeps(s: System, m: Move, config: Config)
    requires Invariant(s, config) && Enabled(s, m, config)
    requires m.Tick? || m.CreateApplication? || m.DeleteApplication?
    ensures Invariant(Apply(s, m, config), config)
  {
    var after := Apply(s, m, config);
    forall h, app ensures Holds(after, h, app) <==> Holds(s, h, app) {
    }
  }

  // A held row looks available only to a dispatcher whose clock is already
  // past the retry delay.
  lemma HeldIsNotAvailable(s: System, h: Holder, app: int, now: int, config: Config)
    requires Invariant(s, config) && Holds(s, h, app) && app in s.rows
    ensures Available(s.rows[app], now, config) <==> now >= Stamp(s, h) + config.retryAfterSeconds
  {
  }

  lemma MoveKeeps(s: System, m: Move, config: Config)
    requires Invariant(s, config) && Timely(s, config) && Enabled(s, m, config)
    ensures Invariant(Apply(s, m, config), config)
  {
    match m
    case Reserve(d, now, ids) =>
      forall h, app | Holds(s, h, app) ensures app !in ids {
        if app in s.rows { HeldIsNotAvailable(s, h, app, now, config); }
      }
      ReserveKeeps(s, d, now, ids, config);
    case Publish(d, t) => PublishKeeps(s, d, t, config);
    case Tick(_) => TableKeeps(s, m, config);
    case CreateApplication => TableKeeps(s, m, config);
    case DeleteApplication(_) => TableKeeps(s, m, config);
    case _ => EndKeeps(s, m, config);
  }

  /* Runs */

  predicate Possible(s: System, moves: seq<Move>, config: Config)
    decreases |moves|
  {
    moves == [] || (Enabled(s, moves[0], config) && Possible(Apply(s, moves[0], config), moves[1..], config))
  }

  function Run(s: System, moves: seq<Move>, config: Config): System
    requires Possible(s, moves, config)
    decreases |moves|
  {
    if moves == [] then s else Run(Apply(s, moves[0], config), moves[1..], config)
  }

  // No ticket reaches the retry delay before it ends.
  ghost predicate TimelyRun(s: System, moves: seq<Move>, config: Config)
    requires Possible(s, moves, config)
    decreases |moves|
  {
    Timely(s, config) && (moves == [] || TimelyRun(Apply(s, moves[0], config), moves[1..], config))
  }

  // In every interleaving of timely dispatchers and workers, an application
  // has at most one live ticket, and that ticket is its row's reservation.
  lemma {:induction false} AtMostOneTicket(s: System, moves: seq<Move>, config: Config)
    requires Invariant(s, config) && Possible(s, moves, config) && TimelyRun(s, moves, config)
    ensures Invariant(Run(s, moves, config), config)
    decreases |moves|
  {
    if moves != [] {
      MoveKeeps(s, moves[0], config);
      AtMostOneTicket(Apply(s, moves[0], config), moves[1..], config);
    }
  }

  // The retry delay is the exact limit: a dispatcher can reserve a row whose
  // ticket is still alive if and only if the ticket is that old, and doing so
  // breaks the invariant.
  lemma DoubleTicketExactly(s: System, h: Holder, app: int, d: int, config: Config)
    requires Invariant(s, config) && Holds(s, h, app) && d !in s.dispatchers
    requires app in s.rows
    ensures Enabled(s, Reserve(d, s.clock, [app]), config) <==> s.clock >= Stamp(s, h) + config.retryAfterSeconds
    ensures Enabled(s, Reserve(d, s.clock, [app]), config) ==>
              !OneTicket(Apply(s, Reserve(d, s.clock, [app]), config))
  {
    HeldIsNotAvailable(s, h, app, s.clock, config);
    var m := Reserve(d, s.clock, [app]);
    assert [app][0] == app;
    if Enabled(s, m, config) {
      var after := Apply(s, m, config);
      assert Holds(after, h, app) && Holds(after, Dispatcher(d), app) && h != Dispatcher(d);
    }
  }

  lemma RunStarts(s: System, m: Move, rest: seq<Move>, config: Config)
    requires Enabled(s, m, config) && Possible(Apply(s, m, config), rest, config)
    ensures Possible(s, [m] + rest, config)
    ensures Run(s, [m] + rest, config) == Run(Apply(s, m, config), rest, config)
  {
    assert ([m] + rest)[1..] == rest;
  }

  // From an idle table with one row: a dispatcher publishes it, the worker is
  // still busy when the retry delay is over, and a second dispatcher reserves
  // the row again.
  function LateRun(late: int): seq<Move> {
    [Reserve(0, 0, [1])] + ([Publish(0, 0)] + ([Tick(late)] + ([Reserve(1, late, [1])] + [])))
  }

  function OneRow(row: Row, clock: int, dispatchers: map<int, Publishing>, tasks: map<int, Task>): System {
    System(clock, map[1 := row], 2, dispatchers, tasks)
  }

  lemma ReserveOneRow(row: Row, now: int, d: int, dispatchers: map<int, Publishing>, tasks: map<int, Task>, config: Config)
    requires d !in dispatchers && Due(row, now, config) && Available(row, now, config)
    ensures var s := OneRow(row, now, dispatchers, tasks);
            && Enabled(s, Reserve(d, now, [1]), config)
            && Apply(s, Reserve(d, now, [1]), config)
               == OneRow(row.(scheduledAt := Some(now)), now, dispatchers[d := Publishing(now, [1])], tasks)
  {
    var s := OneRow(row, now, dispatchers, tasks);
    assert 1 in [1];
    assert MarkReserved(s.rows, [1], now) == map[1 := row.(scheduledAt := Some(now))];
  }

  lemma LateWorkerIsDoubled(config: Config)
    ensures var start := OneRow(Row(None, None, None), 0, map[], map[]);
            var late := Max(0, config.retryAfterSeconds);
            && Idle(start) && Invariant(start, config)
            && Possible(start, LateRun(late), config)
            && !OneTicket(Run(start, LateRun(late), config))
  {
    var late := Max(0, config.retryAfterSeconds);
    var row := Row(None, Some(0), None);
    var s0 := OneRow(Row(None, None, None), 0, map[], map[]);
    var s1 := OneRow(row, 0, map[0 := Publishing(0, [1])], map[]);
    var s2 := Apply(s1, Publish(0, 0), config);
    var s3 := Apply(s2, Tick(late), config);
    ReserveOneRow(Row(None, None, None), 0, 0, map[], map[], config);
    ReserveOneRow(row, late, 1, s3.dispatchers, s3.tasks, config);
    var s4 := Apply(s3, Reserve(1, late, [1]), config);
    RunStarts(s3, Reserve(1, late, [1]), [], config);
    RunStarts(s2, Tick(late), [Reserve(1, late, [1])] + [], config);
    RunStarts(s1, Publish(0, 0), [Tick(late)] + ([Reserve(1, late, [1])] + []), config);
    RunStarts(s0, Reserve(0, 0, [1]), [Publish(0, 0)] + ([Tick(late)] + ([Reserve(1, late, [1])] + [])), config);
    assert Holds(s4, Worker(0), 1) && Holds(s4, Dispatcher(1), 1);
  }

  /* Recovery */

  ghost predicate Unheld(s: System, app: int) {
    forall h :: !Holds(s, h, app)
  }

  predicate Reserves(m: Move, app: int) {
    m.Reserve? && app in m.ids
  }

  lemma UnheldIsFrozen(s: System, m: Move, app: int, config: Config)
    requires Unheld(s, app) && Enabled(s, m, config) && !Reserves(m, app) && app < s.nextApplication
    ensures var after := Apply(s, m, config);
            && Unheld(after, app)
            && s.nextApplication <= after.nextApplication
            && (app in after.rows ==> app in s.rows && after.rows[app] == s.rows[app])
  {
    var after := Apply(s, m, config);
    forall h ensures !Holds(after, h, app) {
      assert !Holds(s, h, app);
      if m.Publish? {
        assert !Holds(s, Dispatcher(m.dispatcher), app);
        assert s.dispatchers[m.dispatcher].remaining[0] in s.dispatchers[m.dispatcher].remaining;
      }
    }
    if m.FailPublish? {
      assert !Holds(s, Dispatcher(m.dispatcher), app);
    } else if m.Complete? || m.FailTask? {
      assert !Holds(s, Worker(m.task), app);
    }
  }

  lemma {:induction false} UnheldStaysFrozen(s: System, moves: seq<Move>, app: int, config: Config)
    requires Unheld(s, app) && app < s.nextApplication && Possible(s, moves, config)
    requires forall i :: 0 <= i < |moves| ==> !Reserves(moves[i], app)
    ensures var after := Run(s, moves, config);
            app in after.rows ==> app in s.rows && after.rows[app] == s.rows[app]
    decreases |moves|
  {
    if moves != [] {
      UnheldIsFrozen(s, moves[0], app, config);
      UnheldStaysFrozen(Apply(s, moves[0], config), moves[1..], app, config);
    }
  }

  // A dispatcher that dies before publishing a row leaves it reserved, and
  // until somebody reserves it again the row can be selected exactly from
  // `retryAfterSeconds` after the lost reservation on.
  lemma CrashedReservationRecovers(s: System, d: int, moves: seq<Move>, app: int, config: Config)
    requires Invariant(s, config) && Holds(s, Dispatcher(d), app)
    requires Possible(Apply(s, Leave(d), config), moves, config)
    requires forall i :: 0 <= i < |moves| ==> !Reserves(moves[i], app)
    ensures var after := Run(Apply(s, Leave(d), config), moves, config);
            var stamp := s.dispatchers[d].stamp;
            app in after.rows ==> forall now :: now >= stamp ==>
              (app in Eligible(after.rows, now, config) <==> now >= stamp + config.retryAfterSeconds)
  {
    var crashed := Apply(s, Leave(d), config);
    forall h ensures !Holds(crashed, h, app) {
      assert Holds(crashed, h, app) ==> Holds(s, h, app);
    }
    UnheldStaysFrozen(crashed, moves, app, config);
  }

  // No application is lost for good: whatever happened to its tickets, a row
  // is available again once the delay has passed since the present.
  lemma NothingIsStuck(s: System, app: int, now: int, config: Config)
    requires Invariant(s, config) && app in s.rows && now >= s.clock + config.retryAfterSeconds
    ensures Available(s.rows[app], now, config)
  {
  }

  /* One dispatcher run as a sequence of moves */

  function Publishes(d: int, tasks: seq<int>): seq<Move> {
    seq(|tasks|, i requires 0 <= i < |tasks| => Publish(d, tasks[i]))
  }

  predicate HasTask(s: System, t: int, task: Task) {
    t in s.tasks && s.tasks[t] == task
  }

  // `after` is `before` once dispatcher `d` has published a row to each task.
  ghost predicate Delivered(before: System, after: System, d: int, tasks: seq<int>)
    requires d in before.dispatchers && |tasks| <= |before.dispatchers[d].remaining|
  {
    var p := before.dispatchers[d];
    && after.rows == before.rows && after.clock == before.clock
    && d in after.dispatchers && after.dispatchers[d] == Publishing(p.stamp, p.remaining[|tasks|..])
    && (forall i :: 0 <= i < |tasks| ==> HasTask(after, tasks[i], Task(p.remaining[i], p.stamp)))
    && (forall t :: t in before.tasks ==> HasTask(after, t, before.tasks[t]))
  }

  lemma DeliveredUnfolds(s: System, after: System, d: int, tasks: seq<int>, config: Config)
    requires d in s.dispatchers && 0 < |tasks| <= |s.dispatchers[d].remaining| && tasks[0] !in s.tasks
    requires var next := Apply(s, Publish(d, tasks[0]), config); Delivered(next, after, d, tasks[1..])
    ensures Delivered(s, after, d, tasks)
  {
    var p := s.dispatchers[d];
    var next := Apply(s, Publish(d, tasks[0]), config);
    assert HasTask(next, tasks[0], Task(p.remaining[0], p.stamp));
    assert p.remaining[1..][|tasks| - 1..] == p.remaining[|tasks|..];
    forall i | 0 <= i < |tasks| ensures HasTask(after, tasks[i], Task(p.remaining[i], p.stamp)) {
      if i > 0 {
        assert HasTask(after, tasks[1..][i - 1], Task(p.remaining[1..][i - 1], p.stamp));
      }
    }
    forall t | t in s.tasks ensures HasTask(after, t, s.tasks[t]) {
      assert t in next.tasks;
    }
  }

  lemma {:induction false} PublishesDeliver(s: System, d: int, tasks: seq<int>, config: Config)
    requires d in s.dispatchers && |tasks| <= |s.dispatchers[d].remaining|
    requires Distinct(tasks) && forall i :: 0 <= i < |tasks| ==> tasks[i] !in s.tasks
    ensures Possible(s, Publishes(d, tasks), config)
    ensures Delivered(s, Run(s, Publishes(d, tasks), config), d, tasks)
    decreases |tasks|
  {
    if tasks != [] {
      assert Publishes(d, tasks)[0] == Publish(d, tasks[0]);
      assert Publishes(d, tasks)[1..] == Publishes(d, tasks[1..]);
      var next := Apply(s, Publish(d, tasks[0]), config);
      forall i | 0 <= i < |tasks[1..]| ensures tasks[1..][i] !in next.tasks {
        assert tasks[1..][i] == tasks[i + 1];
      }
      PublishesDeliver(next, d, tasks[1..], config);
      DeliveredUnfolds(s, Run(next, Publishes(d, tasks[1..]), config), d, tasks, config);
    }
  }

  // The sequential dispatcher is one path of the protocol: reserve the batch,
  // publish its prefix, then release the rest or stop. Its table is the one
  // `DispatchDue` leaves, and each published row has its own task.
  lemma DispatcherFollowsProtocol(s: System, d: int, now: int, tasks: seq<int>, failAt: Option<nat>, config: Config)
    requires Invariant(s, config) && d !in s.dispatchers && now <= s.clock
    requires Distinct(tasks) && forall i :: 0 <= i < |tasks| ==> tasks[i] !in s.tasks
    requires |tasks| == Published(Batch(s.rows, now, config), failAt)
    ensures var ids := Batch(s.rows, now, config);
            && Enabled(s, Reserve(d, now, ids), config)
            && var reserved := Apply(s, Reserve(d, now, ids), config);
            && Possible(reserved, Publishes(d, tasks), config)
            && var published := Run(reserved, Publishes(d, tasks), config);
            && (forall i :: 0 <= i < |tasks| ==> HasTask(published, tasks[i], Task(ids[i], now)))
            && var last := if |tasks| < |ids| then FailPublish(d) else Leave(d);
            && Enabled(published, last, config)
            && Apply(published, last, config).rows == Dispatched(s.rows, now, config, failAt)
  {
    var ids := Batch(s.rows, now, config);
    var reserved := Apply(s, Reserve(d, now, ids), config);
    PublishesDeliver(reserved, d, tasks, config);
    if |tasks| == |ids| {
      ReleaseNothing(reserved.rows, ids);
    }
  }
}
