// Publishing the outbox (worker/outbox_publisher.go, outbox/repository.go) by
// any number of publishers, with crashes and stale recoveries between any two
// steps.  A row's id is its position in creation order.
module Outbox {
  import opened Wrappers
  import opened IdSorting

  datatype Status = Pending | Processing | Retry | Sent | Failed

  datatype Row = Row(status: Status, retryCount: nat, nextRetryAt: int, updatedAt: int)

  // The copy of a row that LockPending returns.
  datatype Event = Event(id: nat, retryCount: nat)

  // The event a publisher has published but not marked yet, with the outcome.
  datatype Current = Nothing | Delivered(e: Event) | Refused(e: Event)

  // A publisher between two steps of processBatch.
  datatype Publisher = Publisher(waiting: seq<Event>, current: Current)

  const IDLE := Publisher([], Nothing)

  // successes and failures count the publishes of each row's event.
  datatype State = State(rows: seq<Row>, successes: seq<nat>, failures: seq<nat>, publishers: seq<Publisher>)

  // ---- The statements on one row ---------------------------------------------

  predicate Lockable(r: Row, now: int) {
    (r.status == Pending || r.status == Retry) && r.nextRetryAt <= now
  }

  function Power2(n: nat): nat {
    if n == 0 then 1 else 2 * Power2(n - 1)
  }

  // Seconds until the next attempt.
  function RetryDelay(retryCount: nat): nat {
    if retryCount == 0 then 1
    else
      var delay := Power2(if retryCount <= 6 then retryCount else 6);
      if delay > 60 then 60 else delay
  }

  function Marked(r: Row, current: Current, maxRetries: nat, now: int): Row {
    match current
    case Nothing => r
    case Delivered(_) => r.(status := Sent, updatedAt := now)
    case Refused(e) =>
      var next := e.retryCount + 1;
      if next >= maxRetries then r.(status := Failed, retryCount := next, updatedAt := now)
      else r.(status := Retry, retryCount := next, nextRetryAt := now + RetryDelay(next), updatedAt := now)
  }

  function Recovered(r: Row, staleBefore: int, now: int): Row {
    if r.status == Processing && r.updatedAt < staleBefore then r.(status := Retry, nextRetryAt := now, updatedAt := now) else r
  }

  // ---- Steps -----------------------------------------------------------------

  datatype Action =
    | Enqueue(now: int)
    | Lock(p: nat, ids: seq<nat>, now: int)
    | Publish(p: nat, ok: bool)
    | Mark(p: nat, now: int)
    | MarkError(p: nat)
    | Crash(p: nat)
    | Recover(staleBefore: int, now: int)

  predicate Enabled(st: State, a: Action) {
    match a
    case Enqueue(_) => true
    case Lock(p, ids, now) =>
      && p < |st.publishers| && st.publishers[p] == IDLE
      && (forall i | 0 <= i < |ids| :: ids[i] < |st.rows| && Lockable(st.rows[ids[i]], now))
      && (forall i, j | 0 <= i < j < |ids| :: ids[i] != ids[j])
    case Publish(p, _) =>
      && p < |st.publishers| && st.publishers[p].current.Nothing? && st.publishers[p].waiting != []
      && st.publishers[p].waiting[0].id < |st.successes| && |st.failures| == |st.successes|
    case Mark(p, _) => p < |st.publishers| && !st.publishers[p].current.Nothing? && st.publishers[p].current.e.id < |st.rows|
    case MarkError(p) => p < |st.publishers| && !st.publishers[p].current.Nothing?
    case Crash(p) => p < |st.publishers|
    case Recover(_, _) => true
  }

  function Locked(rows: seq<Row>, ids: seq<nat>, now: int): seq<Row> {
    seq(|rows|, k requires 0 <= k < |rows| => if k in ids then rows[k].(status := Processing, updatedAt := now) else rows[k])
  }

  function Taken(rows: seq<Row>, ids: seq<nat>): seq<Event>
    requires forall i | 0 <= i < |ids| :: ids[i] < |rows|
  {
    seq(|ids|, i requires 0 <= i < |ids| => Event(ids[i], rows[ids[i]].retryCount))
  }

  function RecoveredRows(rows: seq<Row>, staleBefore: int, now: int): seq<Row> {
    seq(|rows|, k requires 0 <= k < |rows| => Recovered(rows[k], staleBefore, now))
  }

  function Bump(counts: seq<nat>, id: nat): seq<nat>
    requires id < |counts|
  {
    counts[id := counts[id] + 1]
  }

  function After(st: State, a: Action, maxRetries: nat): State
    requires Enabled(st, a)
  {
    match a
    case Enqueue(now) =>
      st.(rows := st.rows + [Row(Pending, 0, now, now)], successes := st.successes + [0], failures := st.failures + [0])
    case Lock(p, ids, now) =>
      st.(rows := Locked(st.rows, ids, now), publishers := st.publishers[p := Publisher(Taken(st.rows, ids), Nothing)])
    case Publish(p, ok) =>
      var e := st.publishers[p].waiting[0];
      st.(successes := if ok then Bump(st.successes, e.id) else st.successes,
          failures := if ok then st.failures else Bump(st.failures, e.id),
          publishers := st.publishers[p := Publisher(st.publishers[p].waiting[1..], if ok then Delivered(e) else Refused(e))])
    case Mark(p, now) =>
      var id := st.publishers[p].current.e.id;
      st.(rows := st.rows[id := Marked(st.rows[id], st.publishers[p].current, maxRetries, now)],
          publishers := st.publishers[p := st.publishers[p].(current := Nothing)])
    case MarkError(p) => st.(publishers := st.publishers[p := st.publishers[p].(current := Nothing)])
    case Crash(p) => st.(publishers := st.publishers[p := IDLE])
    case Recover(staleBefore, now) => st.(rows := RecoveredRows(st.rows, staleBefore, now))
  }

  ghost predicate IsRun(st: State, actions: seq<Action>, maxRetries: nat)
    decreases |actions|
  {
    actions == [] || (Enabled(st, actions[0]) && IsRun(After(st, actions[0], maxRetries), actions[1..], maxRetries))
  }

  ghost function Run(st: State, actions: seq<Action>, maxRetries: nat): State
    requires IsRun(st, actions, maxRetries)
    decreases |actions|
  {
    if actions == [] then st else Run(After(st, actions[0], maxRetries), actions[1..], maxRetries)
  }

  // n publishers over an empty table.
  function Start(n: nat): State {
    State([], [], [], seq(n, _ => IDLE))
  }

  // ---- Safety with any number of publishers ----------------------------------

  ghost predicate Shape(st: State) {
    |st.rows| == |st.successes| == |st.failures|
  }

  ghost predicate RowSafe(st: State, maxRetries: nat, k: nat)
    requires Shape(st) && k < |st.rows|
  {
    && st.rows[k].retryCount <= st.failures[k]
    && (st.rows[k].status == Sent ==> st.successes[k] > 0)
    && (st.rows[k].status == Failed ==> maxRetries <= st.rows[k].retryCount)
  }

  ghost predicate EventSafe(st: State, e: Event)
    requires Shape(st)
  {
    e.id < |st.rows| && e.retryCount <= st.failures[e.id]
  }

  ghost predicate PublisherSafe(st: State, p: Publisher)
    requires Shape(st)
  {
    && (forall i | 0 <= i < |p.waiting| :: EventSafe(st, p.waiting[i]))
    && match p.current
       case Nothing => true
       case Delivered(e) => EventSafe(st, e) && st.successes[e.id] > 0
       case Refused(e) => EventSafe(st, e) && e.retryCount < st.failures[e.id]
  }

  // retry_count never exceeds the failures seen, sent rows were published and
  // failed rows used up their attempts.
  ghost predicate Safe(st: State, maxRetries: nat) {
    && Shape(st)
    && (forall k | 0 <= k < |st.rows| :: RowSafe(st, maxRetries, k))
    && (forall p | 0 <= p < |st.publishers| :: PublisherSafe(st, st.publishers[p]))
  }

  // No step removes a row or forgets a publish.
  ghost predicate Grows(before: State, after: State) {
    && |before.publishers| == |after.publishers|
    && |before.rows| <= |after.rows| && |before.successes| <= |after.successes| && |before.failures| <= |after.failures|
    && (forall k | 0 <= k < |before.successes| :: before.successes[k] <= after.successes[k])
    && (forall k | 0 <= k < |before.failures| :: before.failures[k] <= after.failures[k])
  }

  lemma StepGrows(st: State, a: Action, maxRetries: nat)
    requires Enabled(st, a)
    ensures Grows(st, After(st, a, maxRetries))
  {
  }

  lemma PublisherStaysSafe(st: State, after: State, p: Publisher)
    requires Shape(st) && Shape(after) && Grows(st, after) && PublisherSafe(st, p)
    ensures PublisherSafe(after, p)
  {
  }

  lemma StepSafe(st: State, a: Action, maxRetries: nat)
    requires Safe(st, maxRetries) && Enabled(st, a)
    ensures Safe(After(st, a, maxRetries), maxRetries)
  {
    hide PublisherSafe, RowSafe, Grows, Enabled;
    var after := After(st, a, maxRetries);
    StepGrows(st, a, maxRetries);
    RowsStaySafe(st, a, maxRetries);
    forall p | 0 <= p < |after.publishers|
      ensures PublisherSafe(after, after.publishers[p])
    {
      PublishersStaySafe(st, a, maxRetries, p);
    }
  }

  lemma RowsStaySafe(st: State, a: Action, maxRetries: nat)
    requires Safe(st, maxRetries) && Enabled(st, a)
    ensures Shape(After(st, a, maxRetries))
    ensures forall k | 0 <= k < |After(st, a, maxRetries).rows| :: RowSafe(After(st, a, maxRetries), maxRetries, k)
  {
    hide RetryDelay;
    var after := After(st, a, maxRetries);
    if a.Mark? {
      assert PublisherSafe(st, st.publishers[a.p]);
    }
    forall k | 0 <= k < |after.rows|
      ensures RowSafe(after, maxRetries, k)
    {
      assert k < |st.rows| ==> RowSafe(st, maxRetries, k);
    }
  }

  lemma PublishersStaySafe(st: State, a: Action, maxRetries: nat, p: nat)
    requires Safe(st, maxRetries) && Enabled(st, a) && p < |st.publishers|
    requires Shape(After(st, a, maxRetries))
    ensures PublisherSafe(After(st, a, maxRetries), After(st, a, maxRetries).publishers[p])
  {
    hide RowSafe, Marked, Recovered, RetryDelay;
    var after := After(st, a, maxRetries);
    StepGrows(st, a, maxRetries);
    PublisherStaysSafe(st, after, st.publishers[p]);
    if a.Lock? && a.p == p {
      forall i | 0 <= i < |a.ids|
        ensures EventSafe(after, after.publishers[p].waiting[i])
      {
        var id := a.ids[i];
        assert RowSafe(st, maxRetries, id) && st.rows[id].retryCount <= st.failures[id] by { RowCount(st, maxRetries, id); }
      }
    }
  }

  lemma RowCount(st: State, maxRetries: nat, k: nat)
    requires Safe(st, maxRetries) && k < |st.rows|
    ensures RowSafe(st, maxRetries, k) && st.rows[k].retryCount <= st.failures[k]
  {
  }

  // In every reachable state: a sent event was published successfully, a failed
  // one was refused at least maxRetries times, retry_count is at most the number
  // of refusals.
  lemma {:induction false} RunSafe(st: State, actions: seq<Action>, maxRetries: nat)
    requires Safe(st, maxRetries) && IsRun(st, actions, maxRetries)
    ensures var r := Run(st, actions, maxRetries); Safe(r, maxRetries) && Grows(st, r)
    decreases |actions|
  {
    hide Safe, Grows, After;
    GrowsSame(st);
    if actions != [] {
      StepSafe(st, actions[0], maxRetries);
      StepGrows(st, actions[0], maxRetries);
      var next := After(st, actions[0], maxRetries);
      RunSafe(next, actions[1..], maxRetries);
      GrowsTrans(st, next, Run(st, actions, maxRetries));
    }
  }

  lemma GrowsSame(st: State)
    ensures Grows(st, st)
  {
  }

  lemma GrowsTrans(a: State, b: State, c: State)
    requires Grows(a, b) && Grows(b, c)
    ensures Grows(a, c)
  {
  }

  lemma ReachableSafe(n: nat, actions: seq<Action>, maxRetries: nat, k: nat)
    requires IsRun(Start(n), actions, maxRetries)
    requires var st := Run(Start(n), actions, maxRetries); k < |st.rows| && Shape(st)
    ensures var st := Run(Start(n), actions, maxRetries);
            && st.rows[k].retryCount <= st.failures[k]
            && (st.rows[k].status == Sent ==> st.successes[k] > 0)
            && (st.rows[k].status == Failed ==> st.failures[k] >= maxRetries)
  {
    RunSafe(Start(n), actions, maxRetries);
    assert RowSafe(Run(Start(n), actions, maxRetries), maxRetries, k);
  }

  // ---- When a final status is final ------------------------------------------

  predicate Final(s: Status) {
    s == Sent || s == Failed
  }

  // The status the mark after this publish will write.
  function MarkStatus(current: Current, maxRetries: nat): Status
    requires !current.Nothing?
  {
    match current
    case Delivered(_) => Sent
    case Refused(e) => if e.retryCount + 1 >= maxRetries then Failed else Retry
  }

  predicate Waits(p: Publisher, id: nat) {
    exists i :: 0 <= i < |p.waiting| && p.waiting[i].id == id
  }

  // The publisher will not write another status to the row: it does not hold
  // the event, or it is about to repeat the status.
  predicate Harmless(p: Publisher, id: nat, s: Status, maxRetries: nat) {
    && !Waits(p, id)
    && (!p.current.Nothing? && p.current.e.id == id ==> MarkStatus(p.current, maxRetries) == s)
  }

  predicate Settled(st: State, id: nat, s: Status, maxRetries: nat) {
    && id < |st.rows| && st.rows[id].status == s
    && forall p | 0 <= p < |st.publishers| :: Harmless(st.publishers[p], id, s, maxRetries)
  }

  lemma StepSettled(st: State, a: Action, id: nat, s: Status, maxRetries: nat)
    requires Final(s) && Settled(st, id, s, maxRetries) && Enabled(st, a)
    ensures Settled(After(st, a, maxRetries), id, s, maxRetries)
  {
    hide Harmless, RetryDelay;
    var after := After(st, a, maxRetries);
    if a.Mark? {
      HarmlessMark(st.publishers[a.p], st.rows[st.publishers[a.p].current.e.id], id, s, maxRetries, a.now);
    }
    forall p | 0 <= p < |after.publishers|
      ensures Harmless(after.publishers[p], id, s, maxRetries)
    {
      HarmlessStays(st, a, p, id, s, maxRetries);
    }
  }

  lemma HarmlessMark(p: Publisher, r: Row, id: nat, s: Status, maxRetries: nat, now: int)
    requires Harmless(p, id, s, maxRetries) && !p.current.Nothing?
    ensures p.current.e.id == id ==> Marked(r, p.current, maxRetries, now).status == s
  {
  }

  lemma HarmlessStays(st: State, a: Action, p: nat, id: nat, s: Status, maxRetries: nat)
    requires Final(s) && Settled(st, id, s, maxRetries) && Enabled(st, a) && p < |st.publishers|
    ensures Harmless(After(st, a, maxRetries).publishers[p], id, s, maxRetries)
  {
    hide RetryDelay, Marked;
    var before := st.publishers[p];
    assert Harmless(before, id, s, maxRetries);
    if a.Publish? && a.p == p {
      assert before.waiting[0].id != id;
      assert forall i | 0 <= i < |before.waiting[1..]| :: before.waiting[1..][i] == before.waiting[i + 1];
    }
  }

  lemma {:induction false} SettledStays(st: State, actions: seq<Action>, id: nat, s: Status, maxRetries: nat)
    requires Final(s) && Settled(st, id, s, maxRetries) && IsRun(st, actions, maxRetries)
    ensures Settled(Run(st, actions, maxRetries), id, s, maxRetries)
    decreases |actions|
  {
    hide Settled, After;
    if actions != [] {
      StepSettled(st, actions[0], id, s, maxRetries);
      SettledStays(After(st, actions[0], maxRetries), actions[1..], id, s, maxRetries);
    }
  }

  // A publisher that still holds the event can overwrite the status.
  lemma {:induction false} CanOverwrite(st: State, p: nat, id: nat, s: Status, maxRetries: nat) returns (actions: seq<Action>)
    requires Final(s) && Safe(st, maxRetries) && id < |st.rows| && st.rows[id].status == s
    requires p < |st.publishers| && !Harmless(st.publishers[p], id, s, maxRetries)
    ensures IsRun(st, actions, maxRetries)
    ensures var r := Run(st, actions, maxRetries); id < |r.rows| && r.rows[id].status != s
    decreases |st.publishers[p].waiting|, !st.publishers[p].current.Nothing?
  {
    hide RowSafe, RetryDelay;
    var publisher := st.publishers[p];
    assert PublisherSafe(st, publisher);
    if publisher.current.Nothing? {
      var e := publisher.waiting[0];
      assert EventSafe(st, e);
      var a := Publish(p, e.id != id || s == Failed);
      var next := After(st, a, maxRetries);
      StepSafe(st, a, maxRetries);
      assert next.publishers[p].current == if a.ok then Delivered(e) else Refused(e);
      if e.id != id {
        WaitsTail(publisher, id);
      }
      var more := CanOverwrite(next, p, id, s, maxRetries);
      actions := Extended(st, a, more, maxRetries);
    } else if publisher.current.e.id == id && MarkStatus(publisher.current, maxRetries) != s {
      var a := Mark(p, 0);
      actions := Extended(st, a, [], maxRetries);
    } else {
      var a := MarkError(p);
      StepSafe(st, a, maxRetries);
      var more := CanOverwrite(After(st, a, maxRetries), p, id, s, maxRetries);
      actions := Extended(st, a, more, maxRetries);
    }
  }

  lemma WaitsTail(p: Publisher, id: nat)
    requires Waits(p, id) && p.waiting[0].id != id
    ensures Waits(p.(waiting := p.waiting[1..]), id)
    ensures forall c :: Waits(Publisher(p.waiting[1..], c), id)
  {
    var i :| 0 <= i < |p.waiting| && p.waiting[i].id == id;
    assert p.waiting[1..][i - 1] == p.waiting[i];
  }

  lemma Extended(st: State, a: Action, more: seq<Action>, maxRetries: nat) returns (actions: seq<Action>)
    requires Enabled(st, a) && IsRun(After(st, a, maxRetries), more, maxRetries)
    ensures IsRun(st, actions, maxRetries)
    ensures Run(st, actions, maxRetries) == Run(After(st, a, maxRetries), more, maxRetries)
  {
    actions := [a] + more;
    assert actions[1..] == more;
  }

  // Exactly when a sent or failed row stays so whatever happens next: when no
  // publisher still holds its event, except to repeat the same mark.
  lemma FinalExactlyWhenSettled(st: State, id: nat, s: Status, maxRetries: nat)
    requires Final(s) && Safe(st, maxRetries) && id < |st.rows| && st.rows[id].status == s
    ensures Settled(st, id, s, maxRetries)
            <==> forall actions :: IsRun(st, actions, maxRetries) ==>
                   id < |Run(st, actions, maxRetries).rows| && Run(st, actions, maxRetries).rows[id].status == s
  {
    hide Safe, Run, IsRun, Harmless;
    if Settled(st, id, s, maxRetries) {
      forall actions | IsRun(st, actions, maxRetries)
        ensures id < |Run(st, actions, maxRetries).rows| && Run(st, actions, maxRetries).rows[id].status == s
      {
        SettledStays(st, actions, id, s, maxRetries);
      }
    } else {
      var p :| 0 <= p < |st.publishers| && !Harmless(st.publishers[p], id, s, maxRetries);
      var actions := CanOverwrite(st, p, id, s, maxRetries);
    }
  }

  // Two publishers reach a state whose sent row the next steps overwrite: the
  // event is recovered while the first still holds it, the second sends it, and
  // the first is refused.
  lemma SentOverwritten()
    ensures exists actions, more ::
              && IsRun(Start(2), actions, 5)
              && var sent := Run(Start(2), actions, 5);
                 && |sent.rows| == 1 && sent.rows[0].status == Sent
                 && IsRun(sent, more, 5)
                 && var later := Run(sent, more, 5);
                    |later.rows| == 1 && later.rows[0].status == Retry
  {
    hide After, Enabled, Run, IsRun;
    var e := Event(0, 0);
    var held, sending, idle := Publisher([e], Nothing), Publisher([], Delivered(e)), IDLE;
    var s0 := Start(2);
    var s1 := State([Row(Pending, 0, 0, 0)], [0], [0], [idle, idle]);
    var s2 := State([Row(Processing, 0, 0, 0)], [0], [0], [held, idle]);
    var s3 := State([Row(Retry, 0, 1, 1)], [0], [0], [held, idle]);
    var s4 := State([Row(Processing, 0, 1, 1)], [0], [0], [held, held]);
    var s5 := State([Row(Processing, 0, 1, 1)], [1], [0], [held, sending]);
    var s6 := State([Row(Sent, 0, 1, 1)], [1], [0], [held, idle]);
    EnqueuedAndLocked(s0, s1, s2, e);
    RecoveredAndLocked(s2, s3, s4, e);
    SentByOther(s4, s5, s6, e);
    var t: seq<Action> := [];
    EmptyRun(s0, 5);
    t := RunMore(s0, t, s0, Enqueue(0), 5);
    t := RunMore(s0, t, s1, Lock(0, [0], 0), 5);
    t := RunMore(s0, t, s2, Recover(1, 1), 5);
    t := RunMore(s0, t, s3, Lock(1, [0], 1), 5);
    t := RunMore(s0, t, s4, Publish(1, true), 5);
    t := RunMore(s0, t, s5, Mark(1, 1), 5);
    var s7 := State([Row(Sent, 0, 1, 1)], [1], [1], [Publisher([], Refused(e)), idle]);
    var s8 := State([Row(Retry, 1, 4, 2)], [1], [1], [idle, idle]);
    RefusedByFirst(s6, s7, s8, e);
    var u: seq<Action> := [];
    EmptyRun(s6, 5);
    u := RunMore(s6, u, s6, Publish(0, false), 5);
    u := RunMore(s6, u, s7, Mark(0, 2), 5);
  }

  lemma EmptyRun(st: State, maxRetries: nat)
    ensures IsRun(st, [], maxRetries) && Run(st, [], maxRetries) == st
  {
  }

  lemma EnqueuedAndLocked(s0: State, s1: State, s2: State, e: Event)
    requires s0 == Start(2) && e == Event(0, 0)
    requires s1 == State([Row(Pending, 0, 0, 0)], [0], [0], [IDLE, IDLE])
    requires s2 == State([Row(Processing, 0, 0, 0)], [0], [0], [Publisher([e], Nothing), IDLE])
    ensures Enabled(s0, Enqueue(0)) && After(s0, Enqueue(0), 5) == s1
    ensures Enabled(s1, Lock(0, [0], 0)) && After(s1, Lock(0, [0], 0), 5) == s2
  {
    assert Start(2).publishers == [IDLE, IDLE];
    assert Taken(s1.rows, [0]) == [e] && Locked(s1.rows, [0], 0) == s2.rows;
    assert After(s1, Lock(0, [0], 0), 5).publishers == s2.publishers;
  }

  lemma RecoveredAndLocked(s2: State, s3: State, s4: State, e: Event)
    requires e == Event(0, 0)
    requires s2 == State([Row(Processing, 0, 0, 0)], [0], [0], [Publisher([e], Nothing), IDLE])
    requires s3 == State([Row(Retry, 0, 1, 1)], [0], [0], [Publisher([e], Nothing), IDLE])
    requires s4 == State([Row(Processing, 0, 1, 1)], [0], [0], [Publisher([e], Nothing), Publisher([e], Nothing)])
    ensures Enabled(s2, Recover(1, 1)) && After(s2, Recover(1, 1), 5) == s3
    ensures Enabled(s3, Lock(1, [0], 1)) && After(s3, Lock(1, [0], 1), 5) == s4
  {
    assert RecoveredRows(s2.rows, 1, 1) == s3.rows;
    assert Taken(s3.rows, [0]) == [e] && Locked(s3.rows, [0], 1) == s4.rows;
    assert After(s3, Lock(1, [0], 1), 5).publishers == s4.publishers;
  }

  lemma SentByOther(s4: State, s5: State, s6: State, e: Event)
    requires e == Event(0, 0)
    requires s4 == State([Row(Processing, 0, 1, 1)], [0], [0], [Publisher([e], Nothing), Publisher([e], Nothing)])
    requires s5 == State([Row(Processing, 0, 1, 1)], [1], [0], [Publisher([e], Nothing), Publisher([], Delivered(e))])
    requires s6 == State([Row(Sent, 0, 1, 1)], [1], [0], [Publisher([e], Nothing), IDLE])
    ensures Enabled(s4, Publish(1, true)) && After(s4, Publish(1, true), 5) == s5
    ensures Enabled(s5, Mark(1, 1)) && After(s5, Mark(1, 1), 5) == s6
  {
    assert [e][1..] == [];
    assert s4.publishers[1] == Publisher([e], Nothing);
    assert After(s4, Publish(1, true), 5).successes == [1];
    assert After(s4, Publish(1, true), 5).publishers == s5.publishers;
    assert After(s5, Mark(1, 1), 5).publishers == s6.publishers;
  }

  lemma RefusedByFirst(s6: State, s7: State, s8: State, e: Event)
    requires e == Event(0, 0)
    requires s6 == State([Row(Sent, 0, 1, 1)], [1], [0], [Publisher([e], Nothing), IDLE])
    requires s7 == State([Row(Sent, 0, 1, 1)], [1], [1], [Publisher([], Refused(e)), IDLE])
    requires s8 == State([Row(Retry, 1, 4, 2)], [1], [1], [IDLE, IDLE])
    ensures Enabled(s6, Publish(0, false)) && After(s6, Publish(0, false), 5) == s7
    ensures Enabled(s7, Mark(0, 2)) && After(s7, Mark(0, 2), 5) == s8
  {
    assert [e][1..] == [];
    assert After(s6, Publish(0, false), 5).failures == [1];
    assert After(s6, Publish(0, false), 5).publishers == s7.publishers;
    assert After(s7, Mark(0, 2), 5).publishers == s8.publishers;
    assert Power2(1) == 2;
  }

  // ---- One publisher ---------------------------------------------------------

  // A held event's row is still open, and no event is held twice.
  ghost predicate HeldOpen(st: State) {
    && |st.publishers| == 1
    && var p := st.publishers[0];
       && (forall i | 0 <= i < |p.waiting| :: p.waiting[i].id < |st.rows| && !Final(st.rows[p.waiting[i].id].status))
       && (forall i, j | 0 <= i < j < |p.waiting| :: p.waiting[i].id != p.waiting[j].id)
       && (!p.current.Nothing? ==> p.current.e.id < |st.rows| && !Final(st.rows[p.current.e.id].status) && !Waits(p, p.current.e.id))
  }

  lemma StepHeldOpen(st: State, a: Action, maxRetries: nat)
    requires HeldOpen(st) && Enabled(st, a)
    ensures HeldOpen(After(st, a, maxRetries))
  {
    hide RetryDelay;
    var p := st.publishers[0];
    match a {
      case Publish(_, ok) =>
        PublishHeldOpen(st, ok, maxRetries);
      case Lock(_, ids, now) =>
        LockHeldOpen(st, ids, now, maxRetries);
      case Mark(_, now) =>
        MarkHeldOpen(st, now, maxRetries);
      case Recover(staleBefore, now) =>
        assert forall k | 0 <= k < |st.rows| :: Final(st.rows[k].status) <==> Final(RecoveredRows(st.rows, staleBefore, now)[k].status);
      case Enqueue(_) =>
      case MarkError(_) =>
      case Crash(_) =>
    }
  }

  lemma PublishHeldOpen(st: State, ok: bool, maxRetries: nat)
    requires HeldOpen(st) && Enabled(st, Publish(0, ok))
    ensures HeldOpen(After(st, Publish(0, ok), maxRetries))
  {
    var waiting := st.publishers[0].waiting;
    assert forall i | 0 <= i < |waiting[1..]| :: waiting[1..][i] == waiting[i + 1];
  }

  lemma LockHeldOpen(st: State, ids: seq<nat>, now: int, maxRetries: nat)
    requires HeldOpen(st) && Enabled(st, Lock(0, ids, now))
    ensures HeldOpen(After(st, Lock(0, ids, now), maxRetries))
  {
    forall i | 0 <= i < |ids|
      ensures Locked(st.rows, ids, now)[ids[i]].status == Processing
    {
      assert ids[i] in ids;
    }
  }

  lemma MarkHeldOpen(st: State, now: int, maxRetries: nat)
    requires HeldOpen(st) && Enabled(st, Mark(0, now))
    ensures HeldOpen(After(st, Mark(0, now), maxRetries))
  {
    hide Marked;
  }

  lemma OpenSettled(st: State, id: nat, s: Status, maxRetries: nat)
    requires HeldOpen(st) && Final(s) && id < |st.rows| && st.rows[id].status == s
    ensures Settled(st, id, s, maxRetries)
  {
  }

  lemma {:induction false} RunHeldOpen(st: State, actions: seq<Action>, maxRetries: nat)
    requires HeldOpen(st) && IsRun(st, actions, maxRetries)
    ensures HeldOpen(Run(st, actions, maxRetries))
    decreases |actions|
  {
    hide HeldOpen, After;
    if actions != [] {
      StepHeldOpen(st, actions[0], maxRetries);
      RunHeldOpen(After(st, actions[0], maxRetries), actions[1..], maxRetries);
    }
  }

  // With a single publisher, sent and failed are terminal, also with recoveries
  // and crashes at any moment.
  lemma SinglePublisherTerminal(actions: seq<Action>, more: seq<Action>, maxRetries: nat, id: nat)
    requires IsRun(Start(1), actions, maxRetries)
    requires var st := Run(Start(1), actions, maxRetries);
             IsRun(st, more, maxRetries) && id < |st.rows| && Final(st.rows[id].status)
    ensures var st := Run(Start(1), actions, maxRetries);
            var later := Run(st, more, maxRetries);
            id < |later.rows| && later.rows[id].status == st.rows[id].status
  {
    hide HeldOpen, Settled;
    assert HeldOpen(Start(1)) by { StartHeldOpen(); }
    RunHeldOpen(Start(1), actions, maxRetries);
    var st := Run(Start(1), actions, maxRetries);
    OpenSettled(st, id, st.rows[id].status, maxRetries);
    SettledStays(st, more, id, st.rows[id].status, maxRetries);
    SettledStatus(Run(st, more, maxRetries), id, st.rows[id].status, maxRetries);
  }

  lemma StartHeldOpen()
    ensures HeldOpen(Start(1))
  {
  }

  lemma SettledStatus(st: State, id: nat, s: Status, maxRetries: nat)
    requires Settled(st, id, s, maxRetries)
    ensures id < |st.rows| && st.rows[id].status == s
  {
  }

  // ---- The code --------------------------------------------------------------

  // LockPending: the first lockable rows in creation order.
  function Pick(rows: seq<Row>, now: int, limit: nat, k: nat): seq<nat>
    requires k <= |rows|
  {
    if k == 0 then []
    else
      var earlier := Pick(rows, now, limit, k - 1);
      if |earlier| < limit && Lockable(rows[k - 1], now) then earlier + [k - 1] else earlier
  }

  lemma {:induction false} PickFacts(rows: seq<Row>, now: int, limit: nat, k: nat)
    requires k <= |rows|
    ensures var ids := Pick(rows, now, limit, k);
            && |ids| <= limit
            && (forall i | 0 <= i < |ids| ::
                  && ids[i] < k && (rows[ids[i]].status == Pending || rows[ids[i]].status == Retry)
                  && rows[ids[i]].nextRetryAt <= now)
            && (forall i, j | 0 <= i < j < |ids| :: ids[i] < ids[j])
    ensures var ids := Pick(rows, now, limit, k);
            |ids| < limit ==>
              forall i | 0 <= i < k && (rows[i].status == Pending || rows[i].status == Retry) && rows[i].nextRetryAt <= now :: i in ids
  {
    if k > 0 {
      PickFacts(rows, now, limit, k - 1);
    }
  }

  class Repository {
    var rows: seq<Row>

    constructor (rows: seq<Row>)
      ensures this.rows == rows
    {
      this.rows := rows;
    }

    method LockPending(limit: nat, now: int) returns (events: seq<Event>, ghost ids: seq<nat>)
      modifies this
      ensures ids == Pick(old(rows), now, if limit == 0 then 50 else limit, |old(rows)|)
      ensures forall i | 0 <= i < |ids| :: ids[i] < |old(rows)|
      ensures rows == Locked(old(rows), ids, now) && events == Taken(old(rows), ids)
    {
      var bound := if limit == 0 then 50 else limit;
      PickFacts(rows, now, bound, |rows|);
      var picked := Pick(rows, now, bound, |rows|);
      ids := picked;
      events := Taken(rows, picked);
      rows := Locked(rows, picked, now);
    }

    method MarkCurrent(current: Current, maxRetries: nat, now: int)
      requires !current.Nothing? && current.e.id < |rows|
      modifies this
      ensures rows == old(rows)[current.e.id := Marked(old(rows)[current.e.id], current, maxRetries, now)]
    {
      var id := current.e.id;
      match current {
        case Delivered(_) =>
          rows := rows[id := rows[id].(status := Sent, updatedAt := now)];
        case Refused(e) =>
          var next := e.retryCount + 1;
          if next >= maxRetries {
            rows := rows[id := rows[id].(status := Failed, retryCount := next, updatedAt := now)];
          } else {
            rows := rows[id := rows[id].(status := Retry, retryCount := next, nextRetryAt := now + RetryDelay(next), updatedAt := now)];
          }
      }
    }

    method RecoverStaleProcessing(staleBefore: int, now: int)
      modifies this
      ensures rows == RecoveredRows(old(rows), staleBefore, now)
      ensures forall k | 0 <= k < |rows| :: old(rows)[k].status != Processing || old(rows)[k].updatedAt >= staleBefore ==>
                                              rows[k] == old(rows)[k]
      ensures forall k | 0 <= k < |rows| :: old(rows)[k].status == Processing && old(rows)[k].updatedAt < staleBefore ==>
                                              Lockable(rows[k], now) && rows[k].retryCount == old(rows)[k].retryCount
      ensures forall k | 0 <= k < |rows| :: rows[k].status == Processing ==> rows[k].updatedAt >= staleBefore
    {
      rows := RecoveredRows(rows, staleBefore, now);
    }
  }

  // The first k of the locked events were published since state st, and no
  // other row was touched.
  ghost predicate Counted(st: State, r: State, ids: seq<nat>, accepted: nat -> bool, k: nat)
    requires Shape(st) && k <= |ids| && forall i | 0 <= i < |ids| :: ids[i] < |st.rows|
  {
    && Shape(r) && |r.rows| == |st.rows|
    && (forall i | 0 <= i < |ids| ::
          && r.successes[ids[i]] == st.successes[ids[i]] + (if i < k && accepted(ids[i]) then 1 else 0)
          && r.failures[ids[i]] == st.failures[ids[i]] + (if i < k && !accepted(ids[i]) then 1 else 0))
    && (forall i | 0 <= i < |st.rows| && i !in ids ::
          r.rows[i] == st.rows[i] && r.successes[i] == st.successes[i] && r.failures[i] == st.failures[i])
  }

  // State r after the first k of the locked events were tried from state st.
  ghost predicate Tried(st: State, r: State, p: nat, ids: seq<nat>, accepted: nat -> bool, k: nat)
    requires Shape(st) && p < |st.publishers| && k <= |ids| && forall i | 0 <= i < |ids| :: ids[i] < |st.rows|
  {
    Counted(st, r, ids, accepted, k) && r.publishers == st.publishers[p := Publisher(Taken(st.rows, ids)[k..], Nothing)]
  }

  lemma TriedNone(st: State, p: nat, ids: seq<nat>, accepted: nat -> bool, now: int, maxRetries: nat)
    requires Shape(st) && p < |st.publishers| && st.publishers[p] == IDLE && Enabled(st, Lock(p, ids, now))
    ensures Tried(st, After(st, Lock(p, ids, now), maxRetries), p, ids, accepted, 0)
    ensures After(st, Lock(p, ids, now), maxRetries).rows == Locked(st.rows, ids, now)
  {
    var taken := Taken(st.rows, ids);
    assert taken[0..] == taken;
  }

  function CurrentOf(e: Event, ok: bool): Current {
    if ok then Delivered(e) else Refused(e)
  }

  // One more publish counted.
  lemma CountedOnce(st: State, r: State, mid: State, ids: seq<nat>, accepted: nat -> bool, k: nat)
    requires Shape(st) && k < |ids| && forall i | 0 <= i < |ids| :: ids[i] < |st.rows|
    requires (forall i, j | 0 <= i < j < |ids| :: ids[i] < ids[j]) && Counted(st, r, ids, accepted, k)
    requires mid.rows == r.rows
    requires mid.successes == if accepted(ids[k]) then Bump(r.successes, ids[k]) else r.successes
    requires mid.failures == if accepted(ids[k]) then r.failures else Bump(r.failures, ids[k])
    ensures Counted(st, mid, ids, accepted, k + 1)
  {
    assert ids[k] in ids;
  }

  lemma PublishCounts(st: State, r: State, p: nat, ids: seq<nat>, accepted: nat -> bool, k: nat, maxRetries: nat)
    requires Shape(st) && p < |st.publishers| && k < |ids| && forall i | 0 <= i < |ids| :: ids[i] < |st.rows|
    requires (forall i, j | 0 <= i < j < |ids| :: ids[i] < ids[j]) && Tried(st, r, p, ids, accepted, k)
    ensures var publish := Publish(p, accepted(ids[k]));
            && Enabled(r, publish)
            && var mid := After(r, publish, maxRetries);
               && Counted(st, mid, ids, accepted, k + 1) && mid.rows == r.rows
               && mid.publishers == st.publishers[p := Publisher(Taken(st.rows, ids)[k + 1..],
                                                                 CurrentOf(Taken(st.rows, ids)[k], accepted(ids[k])))]
  {
    hide Taken;
    var taken := Taken(st.rows, ids);
    var e := TakenAt(st, ids, k);
    assert taken[k..][0] == taken[k] && taken[k..][1..] == taken[k + 1..];
    var mid := After(r, Publish(p, accepted(ids[k])), maxRetries);
    assert Counted(st, mid, ids, accepted, k + 1) by { CountedOnce(st, r, mid, ids, accepted, k); }
  }

  lemma MarkCounts(st: State, mid: State, p: nat, ids: seq<nat>, accepted: nat -> bool, k: nat, stored: bool, now: int, maxRetries: nat)
    requires Shape(st) && p < |st.publishers| && k < |ids| && forall i | 0 <= i < |ids| :: ids[i] < |st.rows|
    requires Counted(st, mid, ids, accepted, k + 1)
    requires mid.publishers == st.publishers[p := Publisher(Taken(st.rows, ids)[k + 1..],
                                                            CurrentOf(Taken(st.rows, ids)[k], accepted(ids[k])))]
    ensures var mark := if stored then Mark(p, now) else MarkError(p);
            && Enabled(mid, mark)
            && var after := After(mid, mark, maxRetries);
               && Tried(st, after, p, ids, accepted, k + 1)
               && var e := Taken(st.rows, ids)[k];
                  after.rows == if stored then mid.rows[e.id := Marked(mid.rows[e.id], CurrentOf(e, accepted(e.id)), maxRetries, now)]
                                else mid.rows
  {
    hide Marked, Taken;
    var e := TakenAt(st, ids, k);
    assert ids[k] in ids;
  }

  lemma TryNext(st: State, r: State, p: nat, ids: seq<nat>, accepted: nat -> bool, k: nat, stored: bool, now: int, maxRetries: nat)
    requires Shape(st) && p < |st.publishers| && k < |ids| && forall i | 0 <= i < |ids| :: ids[i] < |st.rows|
    requires (forall i, j | 0 <= i < j < |ids| :: ids[i] < ids[j]) && Tried(st, r, p, ids, accepted, k)
    ensures var publish, mark := Publish(p, accepted(ids[k])), if stored then Mark(p, now) else MarkError(p);
            && Enabled(r, publish)
            && var mid := After(r, publish, maxRetries);
               && Enabled(mid, mark)
               && var after := After(mid, mark, maxRetries);
                  && Tried(st, after, p, ids, accepted, k + 1)
                  && var e := Taken(st.rows, ids)[k];
                     after.rows == if stored then r.rows[e.id := Marked(r.rows[e.id], CurrentOf(e, accepted(e.id)), maxRetries, now)]
                                   else r.rows
  {
    hide After, Enabled, Marked, Tried, Counted;
    PublishCounts(st, r, p, ids, accepted, k, maxRetries);
    MarkCounts(st, After(r, Publish(p, accepted(ids[k])), maxRetries), p, ids, accepted, k, stored, now, maxRetries);
    assert |r.rows| == |st.rows| by { TriedShape(st, r, p, ids, accepted, k); }
  }

  lemma TriedShape(st: State, r: State, p: nat, ids: seq<nat>, accepted: nat -> bool, k: nat)
    requires Shape(st) && p < |st.publishers| && k <= |ids| && forall i | 0 <= i < |ids| :: ids[i] < |st.rows|
    requires Tried(st, r, p, ids, accepted, k)
    ensures Shape(r) && |r.rows| == |st.rows|
  {
  }

  lemma TakenAt(st: State, ids: seq<nat>, k: nat) returns (e: Event)
    requires k < |ids| && forall i | 0 <= i < |ids| :: ids[i] < |st.rows|
    ensures |Taken(st.rows, ids)| == |ids| && e == Taken(st.rows, ids)[k] && e.id == ids[k]
  {
    e := Taken(st.rows, ids)[k];
  }

  lemma TryInRun(st: State, trace: seq<Action>, r: State, p: nat, ids: seq<nat>, accepted: nat -> bool, k: nat, stored: bool, now: int, maxRetries: nat)
    returns (more: seq<Action>, next: State)
    requires Shape(st) && p < |st.publishers| && k < |ids| && forall i | 0 <= i < |ids| :: ids[i] < |st.rows|
    requires (forall i, j | 0 <= i < j < |ids| :: ids[i] < ids[j]) && Tried(st, r, p, ids, accepted, k)
    requires IsRun(st, trace, maxRetries) && Run(st, trace, maxRetries) == r
    ensures IsRun(st, more, maxRetries) && Run(st, more, maxRetries) == next && Tried(st, next, p, ids, accepted, k + 1)
    ensures var e := Taken(st.rows, ids)[k];
            && |r.rows| == |st.rows| == |next.rows|
            && next.rows == if stored then r.rows[e.id := Marked(r.rows[e.id], CurrentOf(e, accepted(e.id)), maxRetries, now)] else r.rows
  {
    hide After, Enabled, Run, IsRun, Marked;
    var publish, mark := Publish(p, accepted(ids[k])), if stored then Mark(p, now) else MarkError(p);
    TryNext(st, r, p, ids, accepted, k, stored, now, maxRetries);
    var mid := After(r, publish, maxRetries);
    more := RunMore(st, trace, r, publish, maxRetries);
    more := RunMore(st, more, mid, mark, maxRetries);
    next := After(mid, mark, maxRetries);
  }

  // processBatch of publisher p: publish every locked event in turn and mark the
  // outcome.  `accepted` and `stored` answer whether the broker took an event
  // and whether the mark reached the database.  The batch is a run of the steps
  // above that tries each locked event once.
  method ProcessBatch(repo: Repository, batchSize: nat, maxRetries: nat, accepted: nat -> bool, stored: nat -> bool, now: int,
                      ghost st: State, ghost p: nat)
    returns (ghost trace: seq<Action>, ghost ids: seq<nat>)
    requires Shape(st) && st.rows == repo.rows && p < |st.publishers| && st.publishers[p] == IDLE
    modifies repo
    ensures ids == Pick(st.rows, now, if batchSize == 0 then 50 else batchSize, |st.rows|)
    ensures IsRun(st, trace, maxRetries) && Run(st, trace, maxRetries).rows == repo.rows
    ensures Run(st, trace, maxRetries).publishers == st.publishers
    ensures forall i | 0 <= i < |ids| :: ids[i] < |st.rows|
    ensures Tried(st, Run(st, trace, maxRetries), p, ids, accepted, |ids|)
  {
    hide After, Enabled, Tried, Run, IsRun, Marked, Pick;
    var events;
    events, ids := repo.LockPending(batchSize, now);
    PickFacts(st.rows, now, if batchSize == 0 then 50 else batchSize, |st.rows|);
    ghost var lock := Lock(p, ids, now);
    assert Enabled(st, lock) by { LockEnabled(st, p, ids, now); }
    TriedNone(st, p, ids, accepted, now, maxRetries);
    ghost var reached := After(st, lock, maxRetries);
    trace := [lock];
    RunOne(st, lock, maxRetries);
    for k := 0 to |events|
      invariant IsRun(st, trace, maxRetries) && Run(st, trace, maxRetries) == reached
      invariant Tried(st, reached, p, ids, accepted, k) && reached.rows == repo.rows && |repo.rows| == |st.rows|
    {
      var event := events[k];
      trace, reached := TryInRun(st, trace, reached, p, ids, accepted, k, stored(event.id), now, maxRetries);
      if stored(event.id) {
        repo.MarkCurrent(CurrentOf(event, accepted(event.id)), maxRetries, now);
      }
    }
    TriedAll(st, reached, p, ids, accepted);
  }

  lemma LockEnabled(st: State, p: nat, ids: seq<nat>, now: int)
    requires p < |st.publishers| && st.publishers[p] == IDLE
    requires forall i | 0 <= i < |ids| :: ids[i] < |st.rows| && Lockable(st.rows[ids[i]], now)
    requires forall i, j | 0 <= i < j < |ids| :: ids[i] < ids[j]
    ensures Enabled(st, Lock(p, ids, now))
  {
  }

  lemma TriedAll(st: State, r: State, p: nat, ids: seq<nat>, accepted: nat -> bool)
    requires Shape(st) && p < |st.publishers| && st.publishers[p] == IDLE && forall i | 0 <= i < |ids| :: ids[i] < |st.rows|
    requires Tried(st, r, p, ids, accepted, |ids|)
    ensures r.publishers == st.publishers
  {
    assert Taken(st.rows, ids)[|ids|..] == [];
  }

  lemma RunOne(st: State, a: Action, maxRetries: nat)
    requires Enabled(st, a)
    ensures IsRun(st, [a], maxRetries) && Run(st, [a], maxRetries) == After(st, a, maxRetries)
  {
    hide After;
    assert [a][1..] == [];
  }

  lemma {:induction false} RunMore(st: State, trace: seq<Action>, reached: State, a: Action, maxRetries: nat) returns (more: seq<Action>)
    requires IsRun(st, trace, maxRetries) && Run(st, trace, maxRetries) == reached && Enabled(reached, a)
    ensures more == trace + [a] && IsRun(st, more, maxRetries) && Run(st, more, maxRetries) == After(reached, a, maxRetries)
    decreases |trace|
  {
    hide After, Enabled;
    more := trace + [a];
    if trace == [] {
      assert more == [a];
      RunOne(st, a, maxRetries);
    } else {
      var rest := RunMore(After(st, trace[0], maxRetries), trace[1..], reached, a, maxRetries);
      assert more[1..] == rest;
    }
  }
}
