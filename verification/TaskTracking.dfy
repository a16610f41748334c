// Execution rows of background tasks: the transitions written by the worker's
// signals, and the race between the publisher and the worker to insert a row.
module TaskTracking {
  import opened Wrappers
  import opened Sanitization

  /* Resource context */

  // A header or argument of a message, as far as resolving a context cares.
  datatype Payload = Absent | Flag(flag: bool) | Number(number: int) | Text(text: string) | Unknown

  datatype Headers = Headers(resourceType: Payload, resourceId: Payload)

  datatype Context = Context(resourceType: Option<string>, resourceId: Option<int>)

  const RESOURCE_TYPES: map<string, string> := map[
    "providers.run_machine" := "provider",
    "providers.run" := "provider",
    "provisioners.run" := "provisioner",
    "applications.sync_metrics" := "application",
    "machines.recalculate_optimizations" := "machine"
  ]

  function KnownType(taskName: string): Option<string> {
    if taskName in RESOURCE_TYPES then Some(RESOURCE_TYPES[taskName]) else None
  }

  predicate IsDigits(s: string) {
    s != "" && forall i :: 0 <= i < |s| ==> '0' <= s[i] <= '9'
  }

  function Parse(s: string): nat
    requires forall i :: 0 <= i < |s| ==> '0' <= s[i] <= '9'
  {
    if s == "" then 0 else Parse(s[..|s| - 1]) * 10 + (s[|s| - 1] as int - '0' as int)
  }

  function CoerceId(value: Payload): Option<int> {
    match value
    case Number(n) => Some(n)
    case Text(s) => if IsDigits(s) then Some(Parse(s)) else None
    case _ => None
  }

  function NonEmptyText(value: Payload): Option<string> {
    if value.Text? && value.text != "" then Some(value.text) else None
  }

  function BuildHeaders(taskName: string, args: seq<Payload>): Headers {
    var id := if args == [] then None else CoerceId(args[0]);
    Headers(match KnownType(taskName) case Some(t) => Text(t) case None => Absent,
            match id case Some(n) => Number(n) case None => Absent)
  }

  function Resolve(taskName: string, headers: Option<Headers>, args: seq<Payload>): Context {
    var named := if headers.Some? then NonEmptyText(headers.value.resourceType) else None;
    var resourceType := if named.Some? then named else KnownType(taskName);
    var given := if headers.Some? then CoerceId(headers.value.resourceId) else None;
    var resourceId := if given.None? && resourceType.Some? && args != [] then CoerceId(args[0]) else given;
    Context(resourceType, resourceId)
  }

  // The headers built at publish time lead every later signal to the context
  // of the published arguments, whatever arguments that signal sees, as long
  // as these arguments named a resource.
  lemma HeadersCarryContext(taskName: string, args: seq<Payload>, seen: seq<Payload>)
    requires args != [] && CoerceId(args[0]).Some?
    ensures Resolve(taskName, Some(BuildHeaders(taskName, args)), seen) == Context(KnownType(taskName), CoerceId(args[0]))
  {
  }

  // A message with headers and one without resolve to the same context except
  // for a task of no known type whose first argument looks like an id.
  lemma HeadersAgreeExactly(taskName: string, args: seq<Payload>)
    ensures Resolve(taskName, Some(BuildHeaders(taskName, args)), args) == Resolve(taskName, None, args) <==>
            KnownType(taskName).Some? || args == [] || CoerceId(args[0]).None?
  {
  }

  /* Rows and transitions */

  const TERMINAL_STATES: set<string> := {"SUCCESS", "FAILURE", "REVOKED"}

  datatype Row = Row(
    status: string,
    context: Context,
    queuedAt: int,
    startedAt: Option<int>,
    finishedAt: Option<int>,
    duration: Option<int>,
    result: Option<Value>,
    error: Option<string>)

  datatype Signal =
    | Start(context: Context, now: int)
    | Finish(context: Context, now: int, state: string, retval: Value)
    | Fail(context: Context, now: int, reason: Option<string>)
    | Retry(context: Context, now: int, reason: Option<string>)

  function Pending(context: Context, queuedAt: int): Row {
    Row("PENDING", context, queuedAt, None, None, None, None, None)
  }

  // Both columns are written once: a value already there is kept.
  function Link(kept: Context, offered: Context): Context {
    Context(if kept.resourceType.Some? && kept.resourceType.value != "" then kept.resourceType else offered.resourceType,
            if kept.resourceId.Some? then kept.resourceId else offered.resourceId)
  }

  function Elapsed(start: int, finish: int): nat {
    if finish < start then 0 else finish - start
  }

  function Mutate(row: Row, signal: Signal): Row {
    var linked := row.(context := Link(row.context, signal.context));
    match signal
    case Start(_, now) =>
      linked.(status := "STARTED", startedAt := Some(now), finishedAt := None, duration := None, result := None, error := None)
    case Finish(_, now, state, retval) =>
      var timed :=
        if state !in TERMINAL_STATES then linked
        else linked.(finishedAt := Some(now),
                     duration := if row.startedAt.Some? then Some(Elapsed(row.startedAt.value, now)) else row.duration);
      var closed := timed.(status := state);
      if state == "SUCCESS" then closed.(result := SanitizeResult(retval), error := None) else closed
    case Fail(_, _, reason) => linked.(status := "FAILURE", error := reason)
    case Retry(_, _, reason) => linked.(status := "RETRY", error := reason)
  }

  // The status a signal announces.
  function Announced(signal: Signal): string {
    match signal
    case Start(_, _) => "STARTED"
    case Finish(_, _, state, _) => state
    case Fail(_, _, _) => "FAILURE"
    case Retry(_, _, _) => "RETRY"
  }

  // A task that runs: nothing of an earlier attempt is left.
  predicate Running(row: Row, since: int) {
    && row.status == "STARTED" && row.startedAt == Some(since)
    && row.finishedAt.None? && row.duration.None? && row.result.None? && row.error.None?
  }

  // A failure or retry notice came, but not yet the end of the attempt.
  predicate Interrupted(row: Row, since: int, notice: Signal) {
    && (notice.Fail? || notice.Retry?)
    && row.status == (if notice.Fail? then "FAILURE" else "RETRY") && row.error == notice.reason
    && row.startedAt == Some(since) && row.finishedAt.None? && row.duration.None? && row.result.None?
  }

  // The row after a worker's signals, one after the other.
  function Fold(base: Row, signals: seq<Signal>): Row {
    if signals == [] then base else Mutate(Fold(base, signals[..|signals| - 1]), signals[|signals| - 1])
  }

  lemma {:induction false} FoldConcat(base: Row, a: seq<Signal>, b: seq<Signal>)
    ensures Fold(base, a + b) == Fold(Fold(base, a), b)
  {
    if b == [] {
      assert a + b == a;
    } else {
      FoldConcat(base, a, b[..|b| - 1]);
      assert (a + b)[..|a + b| - 1] == a + b[..|b| - 1];
    }
  }

  /* What every sequence of signals keeps */

  // A link once set never changes.
  lemma {:induction false} LinkIsWrittenOnce(base: Row, signals: seq<Signal>)
    ensures var after := Fold(base, signals).context;
            && (base.context.resourceId.Some? ==> after.resourceId == base.context.resourceId)
            && (base.context.resourceType.Some? && base.context.resourceType.value != "" ==>
                  after.resourceType == base.context.resourceType)
  {
    if signals != [] {
      LinkIsWrittenOnce(base, signals[..|signals| - 1]);
    }
  }

  predicate Timed(row: Row) {
    row.duration.Some? ==>
      row.startedAt.Some? && row.finishedAt.Some? && row.duration.value == Elapsed(row.startedAt.value, row.finishedAt.value)
  }

  // A duration is the elapsed time between two timestamps that are both set.
  lemma {:induction false} DurationIsElapsed(base: Row, signals: seq<Signal>)
    requires Timed(base)
    ensures Timed(Fold(base, signals))
  {
    if signals != [] {
      DurationIsElapsed(base, signals[..|signals| - 1]);
    }
  }

  // A stored result belongs to a successful row without error.
  predicate Consistent(row: Row) {
    row.result.Some? ==> row.status == "SUCCESS" && row.error.None?
  }

  predicate Delivers(signal: Signal) {
    signal.Start? || (signal.Finish? && signal.state == "SUCCESS")
  }

  // The result left by the signals.
  function ResultOf(base: Option<Value>, signals: seq<Signal>): Option<Value> {
    if signals == [] then base
    else
      var last := signals[|signals| - 1];
      if last.Start? then None
      else if last.Finish? && last.state == "SUCCESS" then SanitizeResult(last.retval)
      else ResultOf(base, signals[..|signals| - 1])
  }

  // No failure, retry or unsuccessful end follows a result before the next start.
  predicate Orderly(base: Option<Value>, signals: seq<Signal>) {
    forall i :: 0 <= i < |signals| && !Delivers(signals[i]) ==> ResultOf(base, signals[..i]).None?
  }

  lemma {:induction false} FoldResult(base: Row, signals: seq<Signal>)
    ensures Fold(base, signals).result == ResultOf(base.result, signals)
  {
    if signals != [] {
      FoldResult(base, signals[..|signals| - 1]);
    }
  }

  lemma StepConsistentExactly(row: Row, signal: Signal)
    requires Consistent(row)
    ensures Consistent(Mutate(row, signal)) <==> Delivers(signal) || row.result.None?
  {
  }

  lemma {:induction false} OrderlyIsConsistent(base: Row, signals: seq<Signal>)
    requires Consistent(base) && Orderly(base.result, signals)
    ensures Consistent(Fold(base, signals))
  {
    if signals != [] {
      var rest := signals[..|signals| - 1];
      forall i | 0 <= i < |rest| && !Delivers(rest[i]) ensures ResultOf(base.result, rest[..i]).None? {
        assert rest[..i] == signals[..i] && rest[i] == signals[i];
      }
      OrderlyIsConsistent(base, rest);
      FoldResult(base, rest);
      StepConsistentExactly(Fold(base, rest), signals[|signals| - 1]);
    }
  }

  // Through a whole sequence of signals, results appear only on successful
  // rows without error if and only if the signals are orderly.
  lemma ConsistentExactly(base: Row, signals: seq<Signal>)
    requires Consistent(base)
    ensures (forall n :: 0 <= n <= |signals| ==> Consistent(Fold(base, signals[..n]))) <==> Orderly(base.result, signals)
  {
    if Orderly(base.result, signals) {
      forall n | 0 <= n <= |signals| ensures Consistent(Fold(base, signals[..n])) {
        forall i | 0 <= i < n && !Delivers(signals[..n][i]) ensures ResultOf(base.result, signals[..n][..i]).None? {
          assert signals[..n][..i] == signals[..i];
        }
        OrderlyIsConsistent(base, signals[..n]);
      }
    } else {
      var i :| 0 <= i < |signals| && !Delivers(signals[i]) && !ResultOf(base.result, signals[..i]).None?;
      assert signals[..i + 1][..i] == signals[..i];
      FoldResult(base, signals[..i]);
      if Consistent(Fold(base, signals[..i])) {
        StepConsistentExactly(Fold(base, signals[..i]), signals[i]);
      }
      assert !Consistent(Fold(base, signals[..i])) || !Consistent(Fold(base, signals[..i + 1]));
    }
  }

  /* Attempts */

  // One execution of the task: a start, at most one failure or retry notice,
  // and the end with the state the worker reports.
  datatype Attempt = Attempt(start: Signal, notice: Option<Signal>, finish: Signal) {
    predicate Valid() {
      && start.Start? && finish.Finish?
      && (notice.Some? ==> notice.value.Fail? || notice.value.Retry?)
    }

    function Signals(): seq<Signal> {
      [start] + (if notice.Some? then [notice.value] else []) + [finish]
    }
  }

  function AllSignals(attempts: seq<Attempt>): seq<Signal> {
    if attempts == [] then [] else AllSignals(attempts[..|attempts| - 1]) + attempts[|attempts| - 1].Signals()
  }

  // The row an attempt leaves, whatever the row was before: only the link and
  // the queue time are inherited.
  function AttemptRow(attempt: Attempt, context: Context, queuedAt: int): Row
    requires attempt.Valid()
  {
    var state := attempt.finish.state;
    var done := state in TERMINAL_STATES;
    Row(state, context, queuedAt, Some(attempt.start.now),
        if done then Some(attempt.finish.now) else None,
        if done then Some(Elapsed(attempt.start.now, attempt.finish.now)) else None,
        if state == "SUCCESS" then SanitizeResult(attempt.finish.retval) else None,
        if state == "SUCCESS" || attempt.notice.None? then None else attempt.notice.value.reason)
  }

  lemma AttemptUnfolds(row: Row, attempt: Attempt)
    ensures Fold(row, attempt.Signals()) ==
            if attempt.notice.Some? then Mutate(Mutate(Mutate(row, attempt.start), attempt.notice.value), attempt.finish)
            else Mutate(Mutate(row, attempt.start), attempt.finish)
  {
    var s := attempt.Signals();
    assert Fold(row, []) == row;
    assert s[..1] == [attempt.start] && s[..1][..0] == [];
    assert Fold(row, s[..1]) == Mutate(row, attempt.start);
    if attempt.notice.Some? {
      assert s[..2][..1] == s[..1] && s[..2][1] == attempt.notice.value;
      assert s[..3] == s && s[..3][..2] == s[..2];
      assert Fold(row, s[..2]) == Mutate(Fold(row, s[..1]), attempt.notice.value);
    } else {
      assert s[..2] == s && s[..2][..1] == s[..1];
    }
  }

  lemma AttemptDecides(row: Row, attempt: Attempt)
    requires attempt.Valid()
    ensures var after := Fold(row, attempt.Signals());
            after == AttemptRow(attempt, after.context, row.queuedAt)
  {
    AttemptUnfolds(row, attempt);
  }

  lemma {:induction false} QueueTimeIsKept(base: Row, signals: seq<Signal>)
    ensures Fold(base, signals).queuedAt == base.queuedAt
  {
    if signals != [] {
      QueueTimeIsKept(base, signals[..|signals| - 1]);
    }
  }

  // However often a task was retried, its row tells the last attempt, and
  // holds a result only if that attempt succeeded.
  lemma LastAttemptDecides(base: Row, attempts: seq<Attempt>)
    requires attempts != [] && attempts[|attempts| - 1].Valid()
    ensures var after := Fold(base, AllSignals(attempts));
            && after == AttemptRow(attempts[|attempts| - 1], after.context, base.queuedAt)
            && Consistent(after) && Timed(after)
  {
    var earlier := AllSignals(attempts[..|attempts| - 1]);
    var last := attempts[|attempts| - 1];
    FoldConcat(base, earlier, last.Signals());
    AttemptDecides(Fold(base, earlier), last);
    QueueTimeIsKept(base, earlier);
  }

  lemma WithinAttempt(row: Row, attempt: Attempt, k: nat)
    requires attempt.Valid() && 0 < k <= |attempt.Signals()|
    ensures Consistent(Fold(row, attempt.Signals()[..k]))
  {
    var s := attempt.Signals();
    assert s[..1][..0] == [] && Fold(row, []) == row;
    assert Fold(row, s[..1]) == Mutate(row, attempt.start);
    if k == |s| {
      assert s[..k] == s;
      AttemptUnfolds(row, attempt);
    } else if k == 2 {
      assert s[..2][..1] == s[..1];
      assert Fold(row, s[..2]) == Mutate(Fold(row, s[..1]), attempt.notice.value);
    }
  }

  lemma {:induction false} AttemptsAreOrderly(base: Row, attempts: seq<Attempt>, n: nat)
    requires Consistent(base) && n <= |AllSignals(attempts)|
    requires forall i :: 0 <= i < |attempts| ==> attempts[i].Valid()
    ensures Consistent(Fold(base, AllSignals(attempts)[..n]))
    decreases |attempts|
  {
    if attempts == [] {
      assert AllSignals(attempts)[..n] == [];
    } else {
      var rest := attempts[..|attempts| - 1];
      var earlier := AllSignals(rest);
      var last := attempts[|attempts| - 1];
      if n <= |earlier| {
        AttemptsAreOrderly(base, rest, n);
        assert AllSignals(attempts)[..n] == earlier[..n];
      } else {
        var k := n - |earlier|;
        assert AllSignals(attempts)[..n] == earlier + last.Signals()[..k];
        FoldConcat(base, earlier, last.Signals()[..k]);
        WithinAttempt(Fold(base, earlier), last, k);
      }
    }
  }

  // The signals of any number of attempts are orderly.
  lemma AttemptsKeepResultsConsistent(base: Row, attempts: seq<Attempt>)
    requires Consistent(base) && forall i :: 0 <= i < |attempts| ==> attempts[i].Valid()
    ensures Orderly(base.result, AllSignals(attempts))
  {
    forall n | 0 <= n <= |AllSignals(attempts)| ensures Consistent(Fold(base, AllSignals(attempts)[..n])) {
      AttemptsAreOrderly(base, attempts, n);
    }
    ConsistentExactly(base, AllSignals(attempts));
  }

  // Without the start in between, a late failure notice spoils a delivered
  // result.
  lemma LateFailureSpoils(context: Context, retval: Value)
    requires SanitizeResult(retval).Some?
    ensures var row := Mutate(Pending(context, 0), Finish(context, 1, "SUCCESS", retval));
            Consistent(row) && !Consistent(Mutate(row, Fail(context, 2, None)))
  {
  }
}
