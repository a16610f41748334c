// What every column of an execution row tells about the signals recorded so
// far, and what the identifiers in a message resolve to.
module TaskColumns {
  import opened Wrappers
  import opened TaskTracking
  import opened TaskTable
  import opened Sanitization

  /* The resource of a message */

  lemma KnownTypeMeaning(taskName: string)
    ensures KnownType(taskName) == Some("provider") <==> taskName == "providers.run" || taskName == "providers.run_machine"
    ensures KnownType(taskName) == Some("provisioner") <==> taskName == "provisioners.run"
    ensures KnownType(taskName) == Some("application") <==> taskName == "applications.sync_metrics"
    ensures KnownType(taskName) == Some("machine") <==> taskName == "machines.recalculate_optimizations"
    ensures KnownType(taskName).Some? ==> KnownType(taskName).value in {"provider", "provisioner", "application", "machine"}
  {
    assert taskName in RESOURCE_TYPES <==>
      taskName in {"providers.run", "providers.run_machine", "provisioners.run", "applications.sync_metrics",
                   "machines.recalculate_optimizations"};
  }

  // The decimal notation of a number.
  function Decimal(n: nat): string {
    var digit := ['0' + (n % 10) as char];
    if n < 10 then digit else Decimal(n / 10) + digit
  }

  lemma {:induction false} DecimalIsRead(n: nat)
    ensures IsDigits(Decimal(n)) && Parse(Decimal(n)) == n
  {
    if n < 10 {
      assert Parse("") == 0;
      assert Decimal(n)[..0] == "";
    } else {
      DecimalIsRead(n / 10);
      assert Decimal(n)[..|Decimal(n)| - 1] == Decimal(n / 10);
    }
  }

  lemma {:induction false} LeadingZero(s: string)
    requires forall i :: 0 <= i < |s| ==> '0' <= s[i] <= '9'
    ensures Parse("0" + s) == Parse(s)
  {
    var padded := "0" + s;
    if s == "" {
      assert padded[..0] == "";
    } else {
      LeadingZero(s[..|s| - 1]);
      assert padded[..|padded| - 1] == "0" + s[..|s| - 1];
    }
  }

  // An identifier is a number, or a text of digits with the number it notates;
  // anything else, a boolean included, is none.
  lemma IdentifierMeaning(value: Payload, n: nat)
    ensures CoerceId(Number(n)) == Some(n) && CoerceId(Text(Decimal(n))) == Some(n)
    ensures CoerceId(value).Some? <==>
            value.Number? ||
            (value.Text? && value.text != "" && forall i :: 0 <= i < |value.text| ==> '0' <= value.text[i] <= '9')
  {
    DecimalIsRead(n);
  }

  // A header wins over the name and the arguments of a message.
  lemma ResolveMeaning(taskName: string, headers: Headers, args: seq<Payload>)
    ensures var context := Resolve(taskName, Some(headers), args);
            && (headers.resourceType.Text? && headers.resourceType.text != "" ==>
                  context.resourceType == Some(headers.resourceType.text))
            && (!headers.resourceType.Text? || headers.resourceType.text == "" ==>
                  context.resourceType == KnownType(taskName))
            && (headers.resourceId.Number? ==> context.resourceId == Some(headers.resourceId.number))
            && (headers.resourceId.Absent? ==>
                  context.resourceId == if context.resourceType.Some? && args != [] then CoerceId(args[0]) else None)
  {
  }

  /* Columns after any signals */

  predicate Terminal(signal: Signal) {
    signal.Finish? && (signal.state == "SUCCESS" || signal.state == "FAILURE" || signal.state == "REVOKED")
  }

  predicate Succeeds(signal: Signal) {
    signal.Finish? && signal.state == "SUCCESS"
  }

  predicate NoStart(signals: seq<Signal>) {
    forall i :: 0 <= i < |signals| ==> !signals[i].Start?
  }

  predicate NoEnd(signals: seq<Signal>) {
    forall i :: 0 <= i < |signals| ==> !signals[i].Start? && !Terminal(signals[i])
  }

  predicate NoResult(signals: seq<Signal>) {
    forall i :: 0 <= i < |signals| ==> !signals[i].Start? && !Succeeds(signals[i])
  }

  predicate NoReason(signals: seq<Signal>) {
    forall i :: 0 <= i < |signals| ==> signals[i].Finish? && signals[i].state != "SUCCESS"
  }

  // What signals that do not write a column leave there.
  predicate Untouched(before: Row, after: Row, signals: seq<Signal>) {
    && after.queuedAt == before.queuedAt
    && (signals == [] ==> after.status == before.status)
    && (NoStart(signals) ==> after.startedAt == before.startedAt)
    && (NoEnd(signals) ==> after.finishedAt == before.finishedAt && after.duration == before.duration)
    && (NoResult(signals) ==> after.result == before.result)
    && (NoReason(signals) ==> after.error == before.error)
  }

  // What a signal has left in the timestamps, and in the status, result and
  // error, as far as the later signals do not write the same column.
  predicate TellsTimes(row: Row, signal: Signal, later: seq<Signal>) {
    && (signal.Start? && NoStart(later) ==> row.startedAt == Some(signal.now))
    && (signal.Start? && NoEnd(later) ==> row.finishedAt.None? && row.duration.None?)
    && (Terminal(signal) && NoEnd(later) ==>
          && row.finishedAt == Some(signal.now)
          && (row.startedAt.Some? ==>
                var started := row.startedAt.value;
                row.duration == Some(if signal.now < started then 0 else signal.now - started)))
  }

  predicate TellsOutcome(row: Row, signal: Signal, later: seq<Signal>) {
    && (later == [] ==> row.status == Announced(signal))
    && (signal.Start? && NoResult(later) ==> row.result.None?)
    && (Succeeds(signal) && NoResult(later) ==> row.result == SanitizeResult(signal.retval))
    && ((signal.Start? || Succeeds(signal)) && NoReason(later) ==> row.error.None?)
    && ((signal.Fail? || signal.Retry?) && NoReason(later) ==> row.error == signal.reason)
  }

  predicate Tells(row: Row, signals: seq<Signal>, i: nat)
    requires i < |signals|
  {
    TellsTimes(row, signals[i], signals[i + 1..]) && TellsOutcome(row, signals[i], signals[i + 1..])
  }

  lemma {:induction false} SilentSignals(base: Row, signals: seq<Signal>)
    ensures Untouched(base, Fold(base, signals), signals)
  {
    if signals != [] {
      SilentSignals(base, signals[..|signals| - 1]);
    }
  }

  lemma StepTellsTimes(row: Row, signal: Signal, after: Row, later: seq<Signal>)
    requires Untouched(Mutate(row, signal), after, later)
    ensures TellsTimes(after, signal, later)
  {
    if NoEnd(later) { assert NoStart(later); }
  }

  lemma StepTellsOutcome(row: Row, signal: Signal, after: Row, later: seq<Signal>)
    requires Untouched(Mutate(row, signal), after, later)
    ensures TellsOutcome(after, signal, later)
  {
  }

  lemma FirstTells(base: Row, signals: seq<Signal>)
    requires signals != []
    ensures Tells(Fold(base, signals), signals, 0)
  {
    var first, later := signals[..1], signals[1..];
    assert first[..0] == [];
    assert Fold(base, []) == base;
    assert Fold(base, first) == Mutate(base, signals[0]);
    FoldConcat(base, first, later);
    assert first + later == signals;
    SilentSignals(Fold(base, first), later);
    StepTellsTimes(base, signals[0], Fold(base, signals), later);
    StepTellsOutcome(base, signals[0], Fold(base, signals), later);
  }

  // Each column holds what the last signal to write it said, and what the row
  // had before if none did.
  lemma ColumnsTellSignals(base: Row, signals: seq<Signal>)
    ensures Untouched(base, Fold(base, signals), signals)
    ensures forall i :: 0 <= i < |signals| ==> Tells(Fold(base, signals), signals, i)
  {
    SilentSignals(base, signals);
    forall i | 0 <= i < |signals| ensures Tells(Fold(base, signals), signals, i) {
      assert signals[..i] + signals[i..] == signals;
      FoldConcat(base, signals[..i], signals[i..]);
      FirstTells(Fold(base, signals[..i]), signals[i..]);
      assert signals[i..][1..] == signals[i + 1..];
    }
  }

  /* The link */

  predicate Unnamed(resourceType: Option<string>) {
    resourceType.None? || resourceType.value == ""
  }

  // No type, or no id, is named before the signal at position `i`.
  predicate NoTypeBefore(base: Row, signals: seq<Signal>, i: nat)
    requires i <= |signals|
  {
    Unnamed(base.context.resourceType) && forall j :: 0 <= j < i ==> Unnamed(signals[j].context.resourceType)
  }

  predicate NoIdBefore(base: Row, signals: seq<Signal>, i: nat)
    requires i <= |signals|
  {
    base.context.resourceId.None? && forall j :: 0 <= j < i ==> signals[j].context.resourceId.None?
  }

  // A type or id that the row was inserted without is the one of the first
  // signal that offers one, and stays missing as long as none does.
  lemma {:induction false} LinkTakesFirstOffer(base: Row, signals: seq<Signal>, i: nat)
    requires i <= |signals|
    ensures var link := Fold(base, signals).context;
            if i == |signals| then
              && (NoTypeBefore(base, signals, i) ==> Unnamed(link.resourceType))
              && (NoIdBefore(base, signals, i) ==> link.resourceId.None?)
            else
              var offer := signals[i].context;
              && (NoTypeBefore(base, signals, i) && !Unnamed(offer.resourceType) ==> link.resourceType == offer.resourceType)
              && (NoIdBefore(base, signals, i) && offer.resourceId.Some? ==> link.resourceId == offer.resourceId)
  {
    if signals != [] {
      var earlier := signals[..|signals| - 1];
      LinkTakesFirstOffer(base, earlier, if i < |signals| then i else i - 1);
    }
  }

  /* Attempts that are not over */

  lemma OngoingAttempt(base: Row, earlier: seq<Signal>, attempt: Attempt)
    requires attempt.Valid()
    ensures Running(Fold(base, earlier + [attempt.start]), attempt.start.now)
    ensures attempt.notice.Some? ==>
              Interrupted(Fold(base, earlier + [attempt.start, attempt.notice.value]), attempt.start.now, attempt.notice.value)
  {
    var started := earlier + [attempt.start];
    ColumnsTellSignals(base, started);
    assert started[|earlier|] == attempt.start;
    assert Tells(Fold(base, started), started, |earlier|);
    assert started[|earlier| + 1..] == [];
    if attempt.notice.Some? {
      var noticed := earlier + [attempt.start, attempt.notice.value];
      ColumnsTellSignals(base, noticed);
      assert noticed[|earlier|] == attempt.start && noticed[|earlier| + 1] == attempt.notice.value;
      assert noticed[|earlier| + 1..] == [attempt.notice.value];
      assert noticed[|earlier| + 2..] == [];
      assert Tells(Fold(base, noticed), noticed, |earlier|) && Tells(Fold(base, noticed), noticed, |earlier| + 1);
    }
  }

  /* Under the race */

  predicate IsNew(row: Row, context: Context, queuedAt: int) {
    && row.status == "PENDING" && row.context == context && row.queuedAt == queuedAt
    && row.startedAt.None? && row.finishedAt.None? && row.duration.None? && row.result.None? && row.error.None?
  }

  // The row a handler inserts when it finds none.
  predicate Offered(row: Row, m: Move) {
    match m
    case PublishLoad(_, context, queuedAt) => IsNew(row, context, queuedAt)
    case SignalLoad(signal) => IsNew(row, signal.context, signal.now)
    case _ => false
  }

  predicate OfferedBy(row: Row, moves: seq<Move>) {
    exists i :: 0 <= i < |moves| && Offered(row, moves[i])
  }

  // Every row a handler holds or has inserted is one that a handler offered.
  predicate Sourced(s: State, past: seq<Move>) {
    && (s.base.Some? ==> OfferedBy(s.base.value, past))
    && (forall p :: p in s.publishers ==> OfferedBy(s.publishers[p], past))
    && (s.worker.Some? ==> OfferedBy(Pending(s.worker.value.signal.context, s.worker.value.signal.now), past))
  }

  lemma OfferedLater(row: Row, past: seq<Move>, m: Move)
    ensures OfferedBy(row, past) || Offered(row, m) ==> OfferedBy(row, past + [m])
  {
    if OfferedBy(row, past) {
      var i :| 0 <= i < |past| && Offered(row, past[i]);
      assert (past + [m])[i] == past[i];
    } else {
      assert (past + [m])[|past|] == m;
    }
  }

  lemma StepIsSourced(s: State, past: seq<Move>, m: Move)
    requires Sourced(s, past) && Enabled(s, m)
    ensures Sourced(Apply(s, m), past + [m])
  {
    forall row: Row ensures OfferedBy(row, past) || Offered(row, m) ==> OfferedBy(row, past + [m]) {
      OfferedLater(row, past, m);
    }
  }

  lemma {:induction false} RunIsSourced(s: State, past: seq<Move>, moves: seq<Move>)
    requires Sourced(s, past) && Possible(s, moves)
    ensures Sourced(Run(s, moves), past + moves)
    decreases |moves|
  {
    if moves == [] {
      assert past + moves == past;
    } else {
      StepIsSourced(s, past, moves[0]);
      RunIsSourced(Apply(s, moves[0]), past + [moves[0]], moves[1..]);
      assert past + [moves[0]] + moves[1..] == past + moves;
    }
  }

  predicate Commits(m: Move) {
    m.PublishCommit? || m.SignalCommit?
  }

  lemma {:induction false} CommitLeavesRow(s: State, moves: seq<Move>)
    requires Possible(s, moves)
    ensures Run(s, moves).row.Some? <==> s.row.Some? || exists i :: 0 <= i < |moves| && Commits(moves[i])
    decreases |moves|
  {
    if moves != [] {
      CommitLeavesRow(Apply(s, moves[0]), moves[1..]);
      assert Apply(s, moves[0]).row.Some? <==> s.row.Some? || Commits(moves[0]);
      if i :| 0 <= i < |moves| && Commits(moves[i]) {
        assert i > 0 ==> Commits(moves[1..][i - 1]);
      }
      if i :| 0 <= i < |moves[1..]| && Commits(moves[1..][i]) {
        assert Commits(moves[i + 1]);
      }
    }
  }

  // In every interleaving there is a row exactly once a handler has committed.
  // It began as the pending row one of the handlers offered, and every column
  // tells the recorded signals.
  lemma RunTellsSignals(moves: seq<Move>)
    requires Possible(EMPTY, moves)
    ensures var after := Run(EMPTY, moves);
            && (after.row.Some? <==> exists i :: 0 <= i < |moves| && Commits(moves[i]))
            && after.row.Some? == after.base.Some?
            && (after.row.Some? ==>
                  && OfferedBy(after.base.value, moves)
                  && Untouched(after.base.value, after.row.value, after.done)
                  && forall i :: 0 <= i < |after.done| ==> Tells(after.row.value, after.done, i))
  {
    var after := Run(EMPTY, moves);
    RaceRefinesSequence(moves);
    CommitLeavesRow(EMPTY, moves);
    RunIsSourced(EMPTY, [], moves);
    assert [] + moves == moves;
    if after.row.Some? {
      ColumnsTellSignals(after.base.value, after.done);
    }
  }

  // Between two signals of an attempt the row shows a running or interrupted
  // task, whoever inserted it and whatever earlier attempts left.
  lemma OngoingUnderRace(moves: seq<Move>, earlier: seq<Signal>, attempt: Attempt)
    requires Possible(EMPTY, moves) && attempt.Valid()
    ensures var after := Run(EMPTY, moves);
            && (after.done == earlier + [attempt.start] ==>
                  after.row.Some? && Running(after.row.value, attempt.start.now))
            && (attempt.notice.Some? && after.done == earlier + [attempt.start, attempt.notice.value] ==>
                  after.row.Some? && Interrupted(after.row.value, attempt.start.now, attempt.notice.value))
  {
    var after := Run(EMPTY, moves);
    RaceRefinesSequence(moves);
    if after.row.Some? {
      OngoingAttempt(after.base.value, earlier, attempt);
    }
  }

  // The row's resource is the one it was inserted with, else the first one a
  // recorded signal offered.
  lemma LinkUnderRace(moves: seq<Move>, i: nat)
    requires Possible(EMPTY, moves) && i < |Run(EMPTY, moves).done|
    ensures var after := Run(EMPTY, moves);
            && after.row.Some? && after.base.Some?
            && var base, link, offer := after.base.value, after.row.value.context, after.done[i].context;
            && (base.context.resourceId.Some? ==> link.resourceId == base.context.resourceId)
            && (!Unnamed(base.context.resourceType) ==> link.resourceType == base.context.resourceType)
            && (NoIdBefore(base, after.done, i) && offer.resourceId.Some? ==> link.resourceId == offer.resourceId)
            && (NoTypeBefore(base, after.done, i) && !Unnamed(offer.resourceType) ==> link.resourceType == offer.resourceType)
  {
    var after := Run(EMPTY, moves);
    RaceRefinesSequence(moves);
    LinkIsWrittenOnce(after.base.value, after.done);
    LinkTakesFirstOffer(after.base.value, after.done, i);
  }
}
