// Dispatch of provisioners by their cron expressions. A calendar stands for
// the cron library: `next(cron, t)` is the first fire strictly after `t`.
module Scheduler {
  import opened Extensionality
  import opened Lists
  import opened Wrappers

  type Calendar = (string, int) -> int

  ghost predicate Lawful(next: Calendar) {
    && (forall cron, t :: next(cron, t) > t)
    && (forall cron, t, u :: t <= u < next(cron, t) ==> next(cron, u) == next(cron, t))
  }

  predicate IsFire(next: Calendar, cron: string, x: int) {
    next(cron, x - 1) == x
  }

  datatype Provisioner = Provisioner(enabled: bool, cron: string, last: Option<int>)

  type Rows = map<int, Provisioner>

  predicate IsDue(next: Calendar, cron: string, last: Option<int>, now: int) {
    last.None? || next(cron, last.value) <= now
  }

  lemma NextIsFire(next: Calendar, cron: string, t: int)
    requires Lawful(next)
    ensures t < next(cron, t) && IsFire(next, cron, next(cron, t))
    ensures forall x :: t < x && IsFire(next, cron, x) ==> next(cron, t) <= x
  {
  }

  // Due means never dispatched, or at least one fire since the last dispatch:
  // any number of missed slots make one due run.
  lemma DueExactly(next: Calendar, cron: string, last: Option<int>, now: int)
    requires Lawful(next)
    ensures IsDue(next, cron, last, now) <==>
            last.None? || exists x :: last.value < x <= now && IsFire(next, cron, x)
  {
    if last.Some? {
      NextIsFire(next, cron, last.value);
    }
  }

  /* One dispatch */

  // How one dispatch ends: every publish succeeds, the publish at a position
  // raises, or the process dies before that position.
  datatype Ending = Finished | Raised(at: nat) | Died(at: nat)

  // The unlocked enabled rows, in whatever order the query returns them.
  predicate Candidates(rows: Rows, order: seq<int>) {
    Distinct(order) && forall i :: 0 <= i < |order| ==> order[i] in rows && rows[order[i]].enabled
  }

  function DueIds(next: Calendar, rows: Rows, order: seq<int>, now: int): (ids: seq<int>)
    requires forall i :: 0 <= i < |order| ==> order[i] in rows
    ensures forall i :: 0 <= i < |ids| ==> ids[i] in rows
    ensures forall id :: id in ids <==> id in order && IsDue(next, rows[id].cron, rows[id].last, now)
  {
    if order == [] then []
    else
      var id := order[|order| - 1];
      var before := order[..|order| - 1];
      assert order == before + [id];
      DueIds(next, rows, before, now) + if IsDue(next, rows[id].cron, rows[id].last, now) then [id] else []
  }

  lemma {:induction false} DueIdsAreDistinct(next: Calendar, rows: Rows, order: seq<int>, now: int)
    requires Candidates(rows, order)
    ensures Distinct(DueIds(next, rows, order, now))
  {
    if order != [] {
      var before := order[..|order| - 1];
      DueIdsAreDistinct(next, rows, before, now);
      assert order[|order| - 1] !in before;
      assert forall i :: 0 <= i < |DueIds(next, rows, before, now)| ==> DueIds(next, rows, before, now)[i] in before;
    }
  }

  function PublishedCount(ids: seq<int>, ending: Ending): nat {
    if ending.Finished? || ending.at >= |ids| then |ids| else ending.at
  }

  function Stamp(rows: Rows, ids: seq<int>, now: int): Rows {
    map id | id in rows :: if id in ids then rows[id].(last := Some(now)) else rows[id]
  }

  // What a dispatch leaves behind: the published rows are stamped. If a
  // publish raised, the others have exactly their former values; if the
  // process died, all the reserved ones stay stamped.
  function Dispatched(next: Calendar, rows: Rows, order: seq<int>, now: int, ending: Ending): Rows
    requires forall i :: 0 <= i < |order| ==> order[i] in rows
  {
    var due := DueIds(next, rows, order, now);
    Stamp(rows, if ending.Died? then due else due[..PublishedCount(due, ending)], now)
  }

  // A provisioner whose publish never happened is due at every later time.
  lemma UnpublishedStaysDue(next: Calendar, rows: Rows, order: seq<int>, now: int, at: nat, id: int, later: int)
    requires Candidates(rows, order) && now <= later
    requires id in order && IsDue(next, rows[id].cron, rows[id].last, now)
    requires var due := DueIds(next, rows, order, now); id !in due[..PublishedCount(due, Raised(at))]
    ensures var after := Dispatched(next, rows, order, now, Raised(at));
            && after[id] == rows[id]
            && IsDue(next, after[id].cron, after[id].last, later)
  {
  }

  // A finished dispatch publishes exactly the due candidates, and each of
  // them is due again exactly from its next fire on.
  lemma FinishedPublishesDue(next: Calendar, rows: Rows, order: seq<int>, now: int, id: int, later: int)
    requires Lawful(next) && Candidates(rows, order) && id in order && now <= later
    ensures var due := DueIds(next, rows, order, now);
            var after := Dispatched(next, rows, order, now, Finished);
            && (id in due <==> rows[id].last.None? ||
                               exists x :: rows[id].last.value < x <= now && IsFire(next, rows[id].cron, x))
            && (id in due ==> rows[id].enabled && after[id].last == Some(now))
            && (id in due ==>
                  (IsDue(next, after[id].cron, after[id].last, later) <==>
                   exists x :: now < x <= later && IsFire(next, rows[id].cron, x)))
  {
    var due := DueIds(next, rows, order, now);
    assert due[..|due|] == due;
    DueExactly(next, rows[id].cron, rows[id].last, now);
    DueExactly(next, rows[id].cron, Some(now), later);
  }

  // Never dispatched, or the next fire after the last dispatch has come.
  predicate Overdue(next: Calendar, row: Provisioner, now: int) {
    row.last.Some? ==> next(row.cron, row.last.value) <= now
  }

  // A dispatch that finishes, and one whose process dies, stamps exactly the
  // overdue candidates; one whose publish raises stamps none of the others.
  lemma DispatchMeaning(next: Calendar, rows: Rows, order: seq<int>, now: int, ending: Ending, id: int)
    requires Candidates(rows, order)
    ensures var after := Dispatched(next, rows, order, now, ending);
            && (id in after <==> id in rows)
            && (id in rows ==>
                  var due := id in order && Overdue(next, rows[id], now);
                  && after[id].enabled == rows[id].enabled && after[id].cron == rows[id].cron
                  && (due && !ending.Raised? ==> after[id].last == Some(now))
                  && (due && ending.Raised? ==> after[id].last == Some(now) || after[id].last == rows[id].last)
                  && (!due ==> after[id].last == rows[id].last))
  {
    var due := DueIds(next, rows, order, now);
    assert due[..|due|] == due;
  }

  // The due candidates are published in the order in which the query returned
  // them.
  lemma {:induction false} DueKeepsOrder(next: Calendar, rows: Rows, order: seq<int>, now: int, i: nat, j: nat)
    returns (a: nat, b: nat)
    requires Candidates(rows, order) && i <= j < |order|
    requires Overdue(next, rows[order[i]], now) && Overdue(next, rows[order[j]], now)
    ensures var due := DueIds(next, rows, order, now);
            a <= b < |due| && due[a] == order[i] && due[b] == order[j]
  {
    var before := order[..|order| - 1];
    var due := DueIds(next, rows, before, now);
    if j < |before| {
      a, b := DueKeepsOrder(next, rows, before, now, i, j);
    } else {
      b := |due|;
      if i < j {
        var c: nat;
        a, c := DueKeepsOrder(next, rows, before, now, i, i);
      } else {
        a := b;
      }
    }
  }

  /* The table updated in place */

  datatype Reservation = Reservation(id: int, previous: Option<int>)

  // The reservations of the due rows from position `n` on.
  predicate Records(rows: Rows, due: seq<int>, n: nat, reserved: seq<Reservation>) {
    && n + |reserved| == |due|
    && (forall k :: 0 <= k < |due| ==> due[k] in rows)
    && forall k :: 0 <= k < |reserved| ==> reserved[k] == Reservation(due[n + k], rows[due[n + k]].last)
  }

  lemma StampOne(rows: Rows, ids: seq<int>, id: int, now: int)
    requires id in rows && id !in ids
    ensures Stamp(rows, ids, now)[id] == rows[id]
    ensures Stamp(rows, ids + [id], now) == Stamp(rows, ids, now)[id := rows[id].(last := Some(now))]
  {
  }

  lemma UnstampOne(rows: Rows, ids: seq<int>, n: nat, j: nat, now: int)
    requires Distinct(ids) && n <= j < |ids| && ids[j] in rows
    ensures var before := Stamp(rows, ids[..n] + ids[j..], now);
            && ids[j] in before
            && before[ids[j] := before[ids[j]].(last := rows[ids[j]].last)] == Stamp(rows, ids[..n] + ids[j + 1..], now)
  {
  }

  lemma UnstampNext(rows: Rows, ids: seq<int>, n: nat, unpublished: seq<Reservation>, j: nat, now: int)
    requires Distinct(ids) && Records(rows, ids, n, unpublished) && j < |unpublished|
    ensures var before := Stamp(rows, ids[..n] + ids[n + j..], now);
            var next := unpublished[j];
            && next.id in before
            && before[next.id := before[next.id].(last := next.previous)] == Stamp(rows, ids[..n] + ids[n + j + 1..], now)
  {
    UnstampOne(rows, ids, n, n + j, now);
  }

  lemma StampNothingMore(rows: Rows, ids: seq<int>, n: nat, now: int)
    requires n <= |ids|
    ensures Stamp(rows, ids[..n] + ids[n..], now) == Stamp(rows, ids, now)
    ensures Stamp(rows, ids[..n] + ids[|ids|..], now) == Stamp(rows, ids[..n], now)
  {
  }

  lemma DueNext(next: Calendar, rows: Rows, order: seq<int>, i: nat, now: int)
    requires Candidates(rows, order) && i < |order|
    ensures var due := DueIds(next, rows, order[..i], now);
            var row := rows[order[i]];
            && order[i] !in due
            && DueIds(next, rows, order[..i + 1], now) == if IsDue(next, row.cron, row.last, now) then due + [order[i]] else due
  {
    assert order[..i + 1][..i] == order[..i];
    assert order[i] !in order[..i];
  }

  lemma RecordNext(rows: Rows, due: seq<int>, reserved: seq<Reservation>, id: int)
    requires Records(rows, due, 0, reserved) && id in rows
    ensures Records(rows, due + [id], 0, reserved + [Reservation(id, rows[id].last)])
  {
  }

  function EndingOf(failAt: Option<nat>): Ending {
    if failAt.Some? then Raised(failAt.value) else Finished
  }

  lemma PublishedAll(next: Calendar, rows: Rows, order: seq<int>, now: int, failAt: Option<nat>)
    requires forall i :: 0 <= i < |order| ==> order[i] in rows
    requires var due := DueIds(next, rows, order, now); failAt.Some? ==> |due| <= failAt.value
    ensures var due := DueIds(next, rows, order, now);
            && PublishedCount(due, EndingOf(failAt)) == |due| && due[..|due|] == due
            && Dispatched(next, rows, order, now, EndingOf(failAt)) == Stamp(rows, due, now)
  {
  }

  class ProvisionerTable {
    var rows: Rows

    constructor (rows: Rows)
      ensures this.rows == rows
    {
      this.rows := rows;
    }

    method Reserve(next: Calendar, order: seq<int>, now: int) returns (reserved: seq<Reservation>)
      requires Candidates(rows, order)
      modifies this
      ensures var due := DueIds(next, old(rows), order, now);
              rows == Stamp(old(rows), due, now) && Records(old(rows), due, 0, reserved)
    {
      reserved := [];
      ghost var start := rows;
      ghost var due: seq<int> := [];
      for i := 0 to |order|
        invariant due == DueIds(next, start, order[..i], now)
        invariant rows == Stamp(start, due, now)
        invariant Records(start, due, 0, reserved)
      {
        DueNext(next, start, order, i, now);
        StampOne(start, due, order[i], now);
        RecordNext(start, due, reserved, order[i]);
        var row := rows[order[i]];
        if IsDue(next, row.cron, row.last, now) {
          reserved := reserved + [Reservation(order[i], row.last)];
          rows := rows[order[i] := row.(last := Some(now))];
          due := due + [order[i]];
        }
      }
      assert order[..|order|] == order;
    }

    // Gives the reservations whose publish never happened their old values.
    method Restore(unpublished: seq<Reservation>, ghost start: Rows, ghost due: seq<int>, ghost n: nat, ghost now: int)
      requires Distinct(due) && rows == Stamp(start, due, now)
      requires Records(start, due, n, unpublished)
      modifies this
      ensures rows == Stamp(start, due[..n], now)
    {
      StampNothingMore(start, due, n, now);
      for j := 0 to |unpublished|
        invariant rows == Stamp(start, due[..n] + due[n + j..], now)
      {
        var id := unpublished[j].id;
        UnstampNext(start, due, n, unpublished, j, now);
        if id in rows {
          rows := rows[id := rows[id].(last := unpublished[j].previous)];
        }
      }
    }

    method DispatchDueJobs(next: Calendar, order: seq<int>, now: int, failAt: Option<nat>)
      returns (enqueued: seq<int>, raised: bool)
      requires Candidates(rows, order)
      modifies this
      ensures var due := DueIds(next, old(rows), order, now);
              var ending := EndingOf(failAt);
              && enqueued == due[..PublishedCount(due, ending)]
              && raised == (PublishedCount(due, ending) < |due|)
              && rows == Dispatched(next, old(rows), order, now, ending)
    {
      ghost var start := rows;
      var reserved := Reserve(next, order, now);
      ghost var due := DueIds(next, start, order, now);
      DueIdsAreDistinct(next, start, order, now);
      enqueued, raised := [], false;
      for i := 0 to |reserved|
        invariant enqueued == due[..i]
        invariant failAt.Some? ==> i <= failAt.value
        invariant rows == Stamp(start, due, now)
      {
        if failAt == Some(i) {
          Restore(reserved[i..], start, due, i, now);
          raised := true;
          return;
        }
        enqueued := enqueued + [reserved[i].id];
      }
      PublishedAll(next, start, order, now, failAt);
    }
  }

  /* Runs */

  datatype Event =
    | Dispatch(now: int, order: seq<int>, ending: Ending)
    | Create(cron: string)
    | SetEnabled(id: int, enabled: bool)
    | SetCron(id: int, cron: string)
    | Delete(id: int)

  datatype State = State(clock: int, nextId: int, rows: Rows)

  datatype Publication = Publication(id: int, cron: string, at: int)

  // Dispatches do not overlap and the clock never goes back.
  predicate Possible(s: State, e: Event) {
    match e
    case Dispatch(now, order, _) => s.clock <= now && Candidates(s.rows, order)
    case Create(_) => true
    case SetEnabled(id, _) => id in s.rows
    case SetCron(id, _) => id in s.rows
    case Delete(id) => id in s.rows
  }

  function After(next: Calendar, s: State, e: Event): State
    requires Possible(s, e)
  {
    match e
    case Dispatch(now, order, ending) =>
      s.(clock := now, rows := Dispatched(next, s.rows, order, now, ending))
    case Create(cron) => s.(nextId := s.nextId + 1, rows := s.rows[s.nextId := Provisioner(false, cron, None)])
    case SetEnabled(id, enabled) => s.(rows := s.rows[id := s.rows[id].(enabled := enabled)])
    case SetCron(id, cron) => s.(rows := s.rows[id := s.rows[id].(cron := cron)])
    case Delete(id) => s.(rows := s.rows - {id})
  }

  function Publications(next: Calendar, s: State, e: Event): seq<Publication>
    requires Possible(s, e)
  {
    if !e.Dispatch? then []
    else
      var due := DueIds(next, s.rows, e.order, e.now);
      var k := PublishedCount(due, e.ending);
      seq(k, i requires 0 <= i < k => Publication(due[i], s.rows[due[i]].cron, e.now))
  }

  predicate AllPossible(next: Calendar, s: State, events: seq<Event>)
    decreases |events|
  {
    events == [] || (Possible(s, events[0]) && AllPossible(next, After(next, s, events[0]), events[1..]))
  }

  function History(next: Calendar, s: State, events: seq<Event>): seq<Publication>
    requires AllPossible(next, s, events)
    decreases |events|
  {
    if events == [] then []
    else Publications(next, s, events[0]) + History(next, After(next, s, events[0]), events[1..])
  }

  // The publications of a dispatch are overdue candidates under the cron in
  // force; a finished one publishes all of them, a failing one as many as its
  // position says.
  lemma PublicationsMeaning(next: Calendar, s: State, now: int, order: seq<int>, ending: Ending, id: int)
    requires Possible(s, Dispatch(now, order, ending))
    ensures var log := Publications(next, s, Dispatch(now, order, ending));
            && (forall i :: 0 <= i < |log| ==>
                  && log[i].id in order && log[i].id in s.rows && s.rows[log[i].id].enabled
                  && Overdue(next, s.rows[log[i].id], now)
                  && log[i].cron == s.rows[log[i].id].cron && log[i].at == now)
            && (ending.Finished? && id in order && Overdue(next, s.rows[id], now) ==>
                  exists i :: 0 <= i < |log| && log[i].id == id)
            && (!ending.Finished? ==>
                  |log| <= ending.at && (|log| < ending.at ==> |log| == |DueIds(next, s.rows, order, now)|))
  {
    var log := Publications(next, s, Dispatch(now, order, ending));
    var due := DueIds(next, s.rows, order, now);
    if ending.Finished? && id in order && Overdue(next, s.rows[id], now) {
      var i :| 0 <= i < |due| && due[i] == id;
      assert log[i].id == id;
    }
  }

  // What the edits of a provisioner do to the table.
  lemma EditMeaning(next: Calendar, s: State, e: Event, id: int)
    requires Possible(s, e) && !e.Dispatch?
    ensures var after := After(next, s, e);
            && Publications(next, s, e) == [] && after.clock == s.clock
            && (e.Create? ==> after.rows == s.rows[s.nextId := Provisioner(false, e.cron, None)] && after.nextId > s.nextId)
            && (!e.Create? ==>
                  && (id in after.rows <==> id in s.rows && !(e.Delete? && e.id == id))
                  && (id in after.rows ==>
                        var before := s.rows[id];
                        && after.rows[id].last == before.last
                        && after.rows[id].enabled == (if e.SetEnabled? && e.id == id then e.enabled else before.enabled)
                        && after.rows[id].cron == (if e.SetCron? && e.id == id then e.cron else before.cron)))
  {
  }

  function Reached(next: Calendar, s: State, events: seq<Event>): State
    requires AllPossible(next, s, events)
    decreases |events|
  {
    if events == [] then s else Reached(next, After(next, s, events[0]), events[1..])
  }

  // The history is the publications of every event, in order.
  lemma {:induction false} HistoryGrows(next: Calendar, s: State, events: seq<Event>, e: Event)
    requires AllPossible(next, s, events) && Possible(Reached(next, s, events), e)
    ensures AllPossible(next, s, events + [e])
    ensures History(next, s, events + [e]) == History(next, s, events) + Publications(next, Reached(next, s, events), e)
    decreases |events|
  {
    var longer := events + [e];
    if events == [] {
      assert longer == [e] && longer[1..] == [];
    } else {
      HistoryGrows(next, After(next, s, events[0]), events[1..], e);
      assert longer[0] == events[0] && longer[1..] == events[1..] + [e];
      Associate(Publications(next, s, events[0]), History(next, After(next, s, events[0]), events[1..]),
                Publications(next, Reached(next, s, events), e));
    }
  }

  predicate Covered(s: State, p: Publication) {
    p.id in s.rows ==> s.rows[p.id].last.Some? && p.at <= s.rows[p.id].last.value
  }

  // The table remembers every publication made so far.
  predicate Remembers(s: State, log: seq<Publication>) {
    && (forall id :: id in s.rows ==> id < s.nextId)
    && (forall i :: 0 <= i < |log| ==> log[i].id < s.nextId && Covered(s, log[i]))
  }

  // Between two publications of one provisioner its cron fires.
  predicate FireBetween(next: Calendar, p: Publication, q: Publication) {
    p.id == q.id ==> next(q.cron, p.at) <= q.at
  }

  predicate Separated(next: Calendar, log: seq<Publication>) {
    forall i, j :: 0 <= i < j < |log| ==> FireBetween(next, log[i], log[j])
  }

  predicate Clocked(s: State) {
    forall id :: id in s.rows && s.rows[id].last.Some? ==> s.rows[id].last.value <= s.clock
  }

  lemma EventRemembers(next: Calendar, s: State, log: seq<Publication>, e: Event)
    requires Remembers(s, log) && Clocked(s) && Possible(s, e)
    ensures Remembers(After(next, s, e), log + Publications(next, s, e)) && Clocked(After(next, s, e))
  {
  }

  lemma PublicationIsSeparate(next: Calendar, s: State, p: Publication, e: Event, i: nat)
    requires Lawful(next) && Covered(s, p) && Possible(s, e) && i < |Publications(next, s, e)|
    ensures FireBetween(next, p, Publications(next, s, e)[i])
  {
  }

  lemma EventSeparates(next: Calendar, s: State, log: seq<Publication>, e: Event)
    requires Lawful(next) && Remembers(s, log) && Separated(next, log) && Possible(s, e)
    ensures Separated(next, log + Publications(next, s, e))
  {
    var more := Publications(next, s, e);
    forall i, j | 0 <= i < |log| && 0 <= j < |more| ensures FireBetween(next, log[i], more[j]) {
      PublicationIsSeparate(next, s, log[i], e, j);
    }
    if e.Dispatch? {
      DueIdsAreDistinct(next, s.rows, e.order, e.now);
    }
  }

  lemma HistoryUnfolds(next: Calendar, s: State, log: seq<Publication>, events: seq<Event>)
    requires events != [] && AllPossible(next, s, events)
    ensures log + History(next, s, events)
            == log + Publications(next, s, events[0]) + History(next, After(next, s, events[0]), events[1..])
  {
    Associate(log, Publications(next, s, events[0]), History(next, After(next, s, events[0]), events[1..]));
  }

  lemma {:induction false} HistorySeparated(next: Calendar, s: State, log: seq<Publication>, events: seq<Event>)
    requires Lawful(next) && Remembers(s, log) && Clocked(s) && Separated(next, log)
    requires AllPossible(next, s, events)
    ensures Separated(next, log + History(next, s, events))
    decreases |events|
  {
    if events == [] {
      assert log + History(next, s, events) == log;
    } else {
      EventRemembers(next, s, log, events[0]);
      EventSeparates(next, s, log, events[0]);
      HistoryUnfolds(next, s, log, events);
      HistorySeparated(next, After(next, s, events[0]), log + Publications(next, s, events[0]), events[1..]);
    }
  }

  // Over any sequence of dispatches, edits and crashes, the cron in force at
  // a publication fired after the previous publication of that provisioner.
  lemma FireBetweenPublications(next: Calendar, s: State, events: seq<Event>, i: nat, j: nat)
    requires Lawful(next) && Remembers(s, []) && Clocked(s) && AllPossible(next, s, events)
    requires i < j < |History(next, s, events)|
    requires History(next, s, events)[i].id == History(next, s, events)[j].id
    ensures var log := History(next, s, events);
            exists x :: log[i].at < x <= log[j].at && IsFire(next, log[j].cron, x)
  {
    var log := History(next, s, events);
    HistorySeparated(next, s, [], events);
    assert [] + log == log;
    assert FireBetween(next, log[i], log[j]);
    NextIsFire(next, log[j].cron, log[i].at);
  }

  /* Counting */

  predicate Matches(p: Publication, id: int, lo: int, hi: int) {
    p.id == id && lo <= p.at <= hi
  }

  function Count(log: seq<Publication>, id: int, lo: int, hi: int): nat {
    if log == [] then 0
    else Count(log[..|log| - 1], id, lo, hi) + if Matches(log[|log| - 1], id, lo, hi) then 1 else 0
  }

  lemma {:induction false} CountIsNumber(log: seq<Publication>, id: int, lo: int, hi: int)
    ensures Count(log, id, lo, hi) == |set i: nat | i < |log| && log[i].id == id && lo <= log[i].at <= hi|
  {
    var all := set i: nat | i < |log| && log[i].id == id && lo <= log[i].at <= hi;
    if log == [] {
      assert forall i :: i !in all;
      SetsEqual(all, {});
    } else {
      var n := |log| - 1;
      var before := log[..n];
      CountIsNumber(before, id, lo, hi);
      var earlier := set i: nat | i < |before| && before[i].id == id && lo <= before[i].at <= hi;
      var last: set<nat> := if Matches(log[n], id, lo, hi) then {n} else {};
      assert forall i :: i in earlier ==> before[i] == log[i];
      forall i: nat ensures i in all <==> i in earlier + last {
        if i < n { assert before[i] == log[i]; }
      }
      SetsEqual(all, earlier + last);
      assert n !in earlier;
    }
  }

  function Latest(log: seq<Publication>, id: int, lo: int, hi: int): (r: Option<nat>)
    ensures r.Some? ==> r.value < |log| && Matches(log[r.value], id, lo, hi)
  {
    if log == [] then None
    else if Matches(log[|log| - 1], id, lo, hi) then Some(|log| - 1)
    else Latest(log[..|log| - 1], id, lo, hi)
  }

  function Fires(next: Calendar, cron: string, lo: int, hi: int): set<int> {
    set x | lo < x <= hi && IsFire(next, cron, x)
  }

  lemma MoreFires(next: Calendar, cron: string, lo: int, mid: int, hi: int)
    requires Lawful(next) && lo <= mid && next(cron, mid) <= hi
    ensures |Fires(next, cron, lo, mid)| < |Fires(next, cron, lo, hi)|
  {
    var x := next(cron, mid);
    NextIsFire(next, cron, mid);
    SubsetSize(Fires(next, cron, lo, mid) + {x}, Fires(next, cron, lo, hi));
  }

  lemma {:induction false} CountedByFires(next: Calendar, log: seq<Publication>, id: int, cron: string, lo: int,
                                          hi: int)
    requires Lawful(next) && Separated(next, log)
    requires forall i :: 0 <= i < |log| && Matches(log[i], id, lo, hi) ==> log[i].cron == cron
    ensures var last := Latest(log, id, lo, hi);
            Count(log, id, lo, hi) <= if last.None? then 0 else |Fires(next, cron, lo, log[last.value].at)| + 1
  {
    if log != [] {
      var before := log[..|log| - 1];
      var p := log[|log| - 1];
      CountedByFires(next, before, id, cron, lo, hi);
      var last := Latest(before, id, lo, hi);
      if Matches(p, id, lo, hi) && last.Some? {
        assert FireBetween(next, log[last.value], p);
        MoreFires(next, cron, lo, before[last.value].at, p.at);
      }
    }
  }

  // In any interval a provisioner is published at most once more than its
  // cron fires there.
  lemma PublicationsBoundedByFires(next: Calendar, s: State, events: seq<Event>, id: int, cron: string, lo: int,
                                   hi: int)
    requires Lawful(next) && Remembers(s, []) && Clocked(s) && AllPossible(next, s, events)
    requires var log := History(next, s, events);
             forall i :: 0 <= i < |log| && Matches(log[i], id, lo, hi) ==> log[i].cron == cron
    ensures Count(History(next, s, events), id, lo, hi) <= |Fires(next, cron, lo, hi)| + 1
  {
    var log := History(next, s, events);
    HistorySeparated(next, s, [], events);
    assert [] + log == log;
    CountedByFires(next, log, id, cron, lo, hi);
    var last := Latest(log, id, lo, hi);
    if last.Some? {
      SubsetSize(Fires(next, cron, lo, log[last.value].at), Fires(next, cron, lo, hi));
    }
  }
}
