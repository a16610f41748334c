// The table of execution rows: publish handlers and worker signals load and
// commit in separate steps, and a unique key decides who inserts the row.
module TaskTable {
  import opened Lists
  import opened Wrappers
  import opened TaskTracking
  import Sanitization

  /* Interleavings on one task id */

  // A signal being recorded, with the row its handler loaded.
  datatype Handling = Handling(signal: Signal, seen: Option<Row>)

  // `base` and `done` are history: the row as first inserted, and the signals
  // recorded since, in order.
  datatype State = State(
    row: Option<Row>,
    publishers: map<int, Row>,
    worker: Option<Handling>,
    base: Option<Row>,
    done: seq<Signal>)

  datatype Move =
    | PublishLoad(publisher: int, context: Context, queuedAt: int)
    | PublishCommit(publisher: int)
    | SignalLoad(signal: Signal)
    | SignalCommit

  const EMPTY := State(None, map[], None, None, [])

  predicate Enabled(s: State, m: Move) {
    match m
    case PublishLoad(p, _, _) => p !in s.publishers
    case PublishCommit(p) => p in s.publishers
    case SignalLoad(_) => s.worker.None?
    case SignalCommit => s.worker.Some?
  }

  // The row a handler inserts when it found none.
  function FirstRow(signal: Signal): Row {
    Pending(signal.context, signal.now)
  }

  // An insert fails on the unique key if the row appeared meanwhile; the
  // publisher then gives up, and the worker reloads and applies its signal.
  function Apply(s: State, m: Move): State
    requires Enabled(s, m)
  {
    match m
    case PublishLoad(p, context, queuedAt) =>
      if s.row.Some? then s else s.(publishers := s.publishers[p := Pending(context, queuedAt)])
    case PublishCommit(p) =>
      var left := s.(publishers := s.publishers - {p});
      if s.row.Some? then left else left.(row := Some(s.publishers[p]), base := Some(s.publishers[p]))
    case SignalLoad(signal) => s.(worker := Some(Handling(signal, s.row)))
    case SignalCommit =>
      var signal := s.worker.value.signal;
      var seen := s.worker.value.seen;
      var recorded := s.(worker := None, done := s.done + [signal]);
      if seen.Some? then recorded.(row := Some(Mutate(seen.value, signal)))
      else if s.row.Some? then recorded.(row := Some(Mutate(s.row.value, signal)))
      else recorded.(row := Some(Mutate(FirstRow(signal), signal)), base := Some(FirstRow(signal)))
  }

  predicate Possible(s: State, moves: seq<Move>)
    decreases |moves|
  {
    moves == [] || (Enabled(s, moves[0]) && Possible(Apply(s, moves[0]), moves[1..]))
  }

  function Run(s: State, moves: seq<Move>): State
    requires Possible(s, moves)
    decreases |moves|
  {
    if moves == [] then s else Run(Apply(s, moves[0]), moves[1..])
  }

  predicate IsPending(row: Row) {
    row == Pending(row.context, row.queuedAt)
  }

  // The row is its first version with the recorded signals applied in order,
  // and what a handler loaded is never stale.
  predicate Invariant(s: State) {
    && s.row.Some? == s.base.Some?
    && (s.row.None? ==> s.done == [])
    && (s.row.Some? ==> IsPending(s.base.value) && s.row.value == Fold(s.base.value, s.done))
    && (forall p :: p in s.publishers ==> IsPending(s.publishers[p]))
    && (s.worker.Some? && s.worker.value.seen.Some? ==> s.worker.value.seen == s.row)
  }

  lemma FoldNext(base: Row, done: seq<Signal>, signal: Signal)
    ensures Fold(base, done + [signal]) == Mutate(Fold(base, done), signal)
  {
  }

  lemma MoveKeeps(s: State, m: Move)
    requires Invariant(s) && Enabled(s, m)
    ensures Invariant(Apply(s, m))
  {
    if m.SignalCommit? {
      var signal := s.worker.value.signal;
      FoldNext(if s.base.Some? then s.base.value else FirstRow(signal), s.done, signal);
    }
  }

  lemma {:induction false} RunKeeps(s: State, moves: seq<Move>)
    requires Invariant(s) && Possible(s, moves)
    ensures Invariant(Run(s, moves))
    decreases |moves|
  {
    if moves != [] {
      MoveKeeps(s, moves[0]);
      RunKeeps(Apply(s, moves[0]), moves[1..]);
    }
  }

  function Loaded(m: Move): seq<Signal> {
    if m.SignalLoad? then [m.signal] else []
  }

  function Loads(moves: seq<Move>): seq<Signal> {
    if moves == [] then [] else Loaded(moves[0]) + Loads(moves[1..])
  }

  function InHand(s: State): seq<Signal> {
    if s.worker.Some? then [s.worker.value.signal] else []
  }

  lemma StepRecordsInOrder(s: State, m: Move)
    requires Enabled(s, m)
    ensures var after := Apply(s, m); after.done + InHand(after) == s.done + InHand(s) + Loaded(m)
  {
  }

  lemma {:induction false} SignalsAreRecordedInOrder(s: State, moves: seq<Move>)
    requires Possible(s, moves)
    ensures var after := Run(s, moves); after.done + InHand(after) == s.done + InHand(s) + Loads(moves)
    decreases |moves|
  {
    if moves == [] {
      assert s.done + InHand(s) + [] == s.done + InHand(s);
    } else {
      StepRecordsInOrder(s, moves[0]);
      SignalsAreRecordedInOrder(Apply(s, moves[0]), moves[1..]);
      Associate(s.done + InHand(s), Loaded(moves[0]), Loads(moves[1..]));
    }
  }

  // Whatever the interleaving, no signal is lost, duplicated or reordered,
  // and the row is its first version with all the recorded signals applied.
  lemma RaceRefinesSequence(moves: seq<Move>)
    requires Possible(EMPTY, moves)
    ensures var after := Run(EMPTY, moves);
            && after.done + InHand(after) == Loads(moves)
            && (after.done != [] ==> after.row.Some?)
            && after.row.Some? == after.base.Some?
            && (after.row.Some? ==> IsPending(after.base.value) && after.row.value == Fold(after.base.value, after.done))
  {
    RunKeeps(EMPTY, moves);
    SignalsAreRecordedInOrder(EMPTY, moves);
  }

  // A publish handler never touches a row that is there.
  lemma {:induction false} PublishNeverResets(s: State, moves: seq<Move>)
    requires Possible(s, moves) && s.row.Some?
    requires forall i :: 0 <= i < |moves| ==> moves[i].PublishLoad? || moves[i].PublishCommit?
    ensures Run(s, moves).row == s.row
    decreases |moves|
  {
    if moves != [] {
      PublishNeverResets(Apply(s, moves[0]), moves[1..]);
    }
  }

  /* Both orders of the race */

  predicate Carries(m: Move, context: Context) {
    (m.PublishLoad? ==> m.context == context) && (m.SignalLoad? ==> m.signal.context == context)
  }

  predicate CarriedBy(s: State, context: Context) {
    && (s.base.Some? ==> s.base.value.context == context)
    && (forall p :: p in s.publishers ==> s.publishers[p].context == context)
    && (s.worker.Some? ==> s.worker.value.signal.context == context)
  }

  lemma {:induction false} RunCarries(s: State, moves: seq<Move>, context: Context)
    requires Possible(s, moves) && CarriedBy(s, context)
    requires forall i :: 0 <= i < |moves| ==> Carries(moves[i], context)
    ensures CarriedBy(Run(s, moves), context)
    decreases |moves|
  {
    if moves != [] {
      assert Carries(moves[0], context);
      RunCarries(Apply(s, moves[0]), moves[1..], context);
    }
  }

  lemma {:induction false} QueueTimeIsIgnored(base: Row, queuedAt: int, signals: seq<Signal>)
    ensures Fold(base.(queuedAt := queuedAt), signals) == Fold(base, signals).(queuedAt := queuedAt)
  {
    if signals != [] {
      QueueTimeIsIgnored(base, queuedAt, signals[..|signals| - 1]);
    }
  }

  // When both sides carry the same context, any two interleavings that have
  // recorded the same signals agree on everything but the queue time.
  lemma InterleavingsAgree(a: seq<Move>, b: seq<Move>, context: Context)
    requires Possible(EMPTY, a) && Possible(EMPTY, b)
    requires forall i :: 0 <= i < |a| ==> Carries(a[i], context)
    requires forall i :: 0 <= i < |b| ==> Carries(b[i], context)
    requires Run(EMPTY, a).row.Some? && Run(EMPTY, b).row.Some? && Run(EMPTY, a).done == Run(EMPTY, b).done
    ensures var x, y := Run(EMPTY, a).row.value, Run(EMPTY, b).row.value;
            x == y.(queuedAt := x.queuedAt)
  {
    var s := Run(EMPTY, a);
    var t := Run(EMPTY, b);
    RunKeeps(EMPTY, a);
    RunKeeps(EMPTY, b);
    RunCarries(EMPTY, a, context);
    RunCarries(EMPTY, b, context);
    QueueTimeIsIgnored(t.base.value, s.base.value.queuedAt, s.done);
    QueueTimeIsKept(s.base.value, s.done);
  }

  /* Attempts under the race */

  lemma PrefixOfPrefix(a: seq<Signal>, b: seq<Signal>, c: seq<Signal>)
    requires a + b <= c
    ensures |a| <= |c| && c[..|a|] == a
  {
    assert (a + b)[..|a|] == a;
  }

  // While a worker records the signals of some attempts, in whatever
  // interleaving with publishers, the row never holds a result it should not
  // and no duration but the elapsed time.
  lemma AttemptsUnderRace(moves: seq<Move>, attempts: seq<Attempt>)
    requires Possible(EMPTY, moves) && Loads(moves) <= AllSignals(attempts)
    requires forall i :: 0 <= i < |attempts| ==> attempts[i].Valid()
    ensures var after := Run(EMPTY, moves); after.row.Some? ==> Consistent(after.row.value) && Timed(after.row.value)
  {
    var after := Run(EMPTY, moves);
    RaceRefinesSequence(moves);
    if after.row.Some? {
      PrefixOfPrefix(after.done, InHand(after), AllSignals(attempts));
      AttemptsAreOrderly(after.base.value, attempts, |after.done|);
      DurationIsElapsed(after.base.value, after.done);
    }
  }

  lemma AllSignalsNotEmpty(attempts: seq<Attempt>)
    requires attempts != []
    ensures AllSignals(attempts) != []
  {
  }

  // Once all of them are recorded, the row tells the last attempt.
  lemma LastAttemptUnderRace(moves: seq<Move>, attempts: seq<Attempt>)
    requires Possible(EMPTY, moves) && Loads(moves) == AllSignals(attempts) && Run(EMPTY, moves).worker.None?
    requires attempts != [] && attempts[|attempts| - 1].Valid()
    ensures var after := Run(EMPTY, moves);
            && after.row.Some?
            && var row := after.row.value;
               row == AttemptRow(attempts[|attempts| - 1], row.context, row.queuedAt) && Consistent(row) && Timed(row)
  {
    var after := Run(EMPTY, moves);
    RaceRefinesSequence(moves);
    assert after.done + [] == after.done;
    AllSignalsNotEmpty(attempts);
    LastAttemptDecides(after.base.value, attempts);
  }

  /* One row, updated in place */

  class Execution {
    var status: string
    var resourceType: Option<string>
    var resourceId: Option<int>
    var queuedAt: int
    var startedAt: Option<int>
    var finishedAt: Option<int>
    var duration: Option<int>
    var result: Option<Sanitization.Value>
    var error: Option<string>

    function Contents(): Row
      reads this
    {
      Row(status, Context(resourceType, resourceId), queuedAt, startedAt, finishedAt, duration, result, error)
    }

    constructor (row: Row)
      ensures Contents() == row
    {
      status, resourceType, resourceId := row.status, row.context.resourceType, row.context.resourceId;
      queuedAt, startedAt, finishedAt := row.queuedAt, row.startedAt, row.finishedAt;
      duration, result, error := row.duration, row.result, row.error;
    }

    method AttachTo(context: Context)
      modifies this
      ensures Contents() == old(Contents()).(context := Link(old(Contents()).context, context))
    {
      if resourceType.None? || resourceType.value == "" {
        resourceType := context.resourceType;
      }
      if resourceId.None? {
        resourceId := context.resourceId;
      }
    }

    method Start(context: Context, now: int)
      modifies this
      ensures Contents() == Mutate(old(Contents()), TaskTracking.Start(context, now))
      ensures Running(Contents(), now) && queuedAt == old(queuedAt)
    {
      status := "STARTED";
      AttachTo(context);
      startedAt := Some(now);
      finishedAt, duration, result, error := None, None, None, None;
    }

    method Finish(context: Context, now: int, state: string, retval: Sanitization.Value)
      modifies this
      ensures Contents() == Mutate(old(Contents()), TaskTracking.Finish(context, now, state, retval))
      ensures status == state && queuedAt == old(queuedAt) && startedAt == old(startedAt)
      ensures finishedAt == if state in {"SUCCESS", "FAILURE", "REVOKED"} then Some(now) else old(finishedAt)
      ensures state == "SUCCESS" ==> result == Sanitization.SanitizeResult(retval) && error.None?
      ensures state != "SUCCESS" ==> result == old(result) && error == old(error)
    {
      status := state;
      AttachTo(context);
      if state in TERMINAL_STATES {
        finishedAt := Some(now);
        if startedAt.Some? {
          duration := Some(Elapsed(startedAt.value, now));
        }
      }
      if state == "SUCCESS" {
        result := Sanitization.SanitizeResult(retval);
        error := None;
      }
    }

    method Fail(context: Context, now: int, reason: Option<string>)
      modifies this
      ensures Contents() == Mutate(old(Contents()), TaskTracking.Fail(context, now, reason))
      ensures status == "FAILURE" && error == reason && queuedAt == old(queuedAt) && startedAt == old(startedAt)
      ensures finishedAt == old(finishedAt) && duration == old(duration) && result == old(result)
    {
      status := "FAILURE";
      AttachTo(context);
      error := reason;
    }

    method Retry(context: Context, now: int, reason: Option<string>)
      modifies this
      ensures Contents() == Mutate(old(Contents()), TaskTracking.Retry(context, now, reason))
      ensures status == "RETRY" && error == reason && queuedAt == old(queuedAt) && startedAt == old(startedAt)
      ensures finishedAt == old(finishedAt) && duration == old(duration) && result == old(result)
    {
      status := "RETRY";
      AttachTo(context);
      error := reason;
    }

    method Record(signal: Signal)
      modifies this
      ensures Contents() == Mutate(old(Contents()), signal)
    {
      match signal
      case Start(context, now) => Start(context, now);
      case Finish(context, now, state, retval) => Finish(context, now, state, retval);
      case Fail(context, now, reason) => Fail(context, now, reason);
      case Retry(context, now, reason) => Retry(context, now, reason);
    }
  }

  class ExecutionTable {
    var rows: map<string, Row>

    constructor ()
      ensures rows == map[]
    {
      rows := map[];
    }

    // The unique key rejects a second row for a task.
    method Insert(taskId: string, row: Row) returns (inserted: bool)
      modifies this
      ensures inserted == (taskId !in old(rows))
      ensures rows == if inserted then old(rows)[taskId := row] else old(rows)
    {
      inserted := taskId !in rows;
      if inserted {
        rows := rows[taskId := row];
      }
    }

    // `rival` is the row another process inserts between load and commit.
    method CreateIfMissing(taskId: string, context: Context, queuedAt: int, rival: Option<Row>)
      modifies this
      ensures rows == if taskId in old(rows) then old(rows)
                      else old(rows)[taskId := if rival.Some? then rival.value else Pending(context, queuedAt)]
      ensures taskId !in old(rows) && rival.None? ==>
                rows[taskId] == Row("PENDING", context, queuedAt, None, None, None, None, None)
    {
      if taskId in rows {
        return;
      }
      if rival.Some? {
        rows := rows[taskId := rival.value];
      }
      var inserted := Insert(taskId, Pending(context, queuedAt));
    }

    method MutateExecution(taskId: string, signal: Signal, rival: Option<Row>)
      modifies this
      ensures var found :=
                if taskId in old(rows) then old(rows)[taskId] else if rival.Some? then rival.value else FirstRow(signal);
              rows == old(rows)[taskId := Mutate(found, signal)]
      ensures rows[taskId].status == Announced(signal)
      ensures signal.Start? ==> Running(rows[taskId], signal.now)
    {
      if taskId in rows {
        var execution := new Execution(rows[taskId]);
        execution.Record(signal);
        rows := rows[taskId := execution.Contents()];
        return;
      }
      var execution := new Execution(FirstRow(signal));
      if rival.Some? {
        rows := rows[taskId := rival.value];
      }
      execution.Record(signal);
      var inserted := Insert(taskId, execution.Contents());
      if !inserted {
        execution := new Execution(rows[taskId]);
        execution.Record(signal);
        rows := rows[taskId := execution.Contents()];
      }
    }
  }
}
