// What each publish does to its row, and how many refusals make a row failed
// (worker/outbox_publisher.go, outbox/repository.go).
module OutboxOutcomes {
  import opened Wrappers
  import opened Outbox

  // Seconds before attempt number n + 1: 2, 4, 8, 16, 32 and then always 60.
  lemma RetryDelays(n: nat)
    ensures n == 1 ==> RetryDelay(n) == 2
    ensures n == 2 ==> RetryDelay(n) == 4
    ensures n == 3 ==> RetryDelay(n) == 8
    ensures n == 4 ==> RetryDelay(n) == 16
    ensures n == 5 ==> RetryDelay(n) == 32
    ensures n >= 6 ==> RetryDelay(n) == 60
  {
    assert Power2(1) == 2;
    assert Power2(2) == 4;
    assert Power2(3) == 8;
    assert Power2(4) == 16;
    assert Power2(5) == 32;
    assert Power2(6) == 64;
  }

  // The mark after a publish: sent after a success; after a refusal the count of
  // the locked copy goes up by one, and the row becomes failed if that reaches
  // maxRetries and else waits for its next attempt.  No other row is touched.
  lemma MarkOutcome(st: State, p: nat, now: int, maxRetries: nat)
    requires Enabled(st, Mark(p, now))
    ensures var after, current := After(st, Mark(p, now), maxRetries), st.publishers[p].current;
            var id := current.e.id;
            && |after.rows| == |st.rows|
            && (forall k | 0 <= k < |st.rows| && k != id :: after.rows[k] == st.rows[k])
            && (!current.Nothing? ==> after.rows[id].updatedAt == now)
            && (current.Delivered? ==> after.rows[id].status == Sent && after.rows[id].retryCount == st.rows[id].retryCount)
            && (current.Refused? ==> after.rows[id].retryCount == current.e.retryCount + 1)
            && (current.Refused? && current.e.retryCount + 1 >= maxRetries ==> after.rows[id].status == Failed)
            && (current.Refused? && current.e.retryCount + 1 < maxRetries ==>
                  && after.rows[id].status == Retry
                  && after.rows[id].nextRetryAt == now + RetryDelay(current.e.retryCount + 1))
  {
    hide RetryDelay;
  }

  // A lock takes only due rows, pending or waiting with their time come, and
  // stamps them, so that a recovery counts from the lock.
  lemma LockTakesDueRows(st: State, p: nat, ids: seq<nat>, now: int, maxRetries: nat, k: nat)
    requires Enabled(st, Lock(p, ids, now)) && k < |st.rows|
    ensures var after := After(st, Lock(p, ids, now), maxRetries);
            && |after.rows| == |st.rows|
            && (k in ids ==>
                  && (st.rows[k].status == Pending || st.rows[k].status == Retry) && st.rows[k].nextRetryAt <= now
                  && after.rows[k].status == Processing && after.rows[k].updatedAt == now
                  && after.rows[k].retryCount == st.rows[k].retryCount && after.rows[k].nextRetryAt == st.rows[k].nextRetryAt)
            && (k !in ids ==> after.rows[k] == st.rows[k])
  {
  }

  // ---- One publisher whose marks are stored ----------------------------------

  // No crash and no failed mark; recoveries may happen at any time.
  predicate Reliable(actions: seq<Action>) {
    forall i | 0 <= i < |actions| :: !actions[i].Crash? && !actions[i].MarkError?
  }

  predicate Refusing(st: State, k: nat)
    requires |st.publishers| == 1
  {
    st.publishers[0].current.Refused? && st.publishers[0].current.e.id == k
  }

  // The stored counts are the refusals, but for the one about to be marked, and
  // the copies the publisher holds are up to date.
  ghost predicate Exact(st: State, maxRetries: nat) {
    && Shape(st) && HeldOpen(st)
    && (forall i | 0 <= i < |st.publishers[0].waiting| :: CopyCurrent(st, st.publishers[0].waiting[i]))
    && (!st.publishers[0].current.Nothing? ==>
          && st.publishers[0].current.e.id < |st.rows|
          && st.publishers[0].current.e.retryCount == st.rows[st.publishers[0].current.e.id].retryCount)
    && (forall k | 0 <= k < |st.rows| :: Tallied(st, maxRetries, k))
  }

  predicate CopyCurrent(st: State, e: Event) {
    e.id < |st.rows| && e.retryCount == st.rows[e.id].retryCount
  }

  predicate Tallied(st: State, maxRetries: nat, k: nat)
    requires k < |st.rows| == |st.failures| && |st.publishers| == 1
  {
    && st.failures[k] == st.rows[k].retryCount + (if Refusing(st, k) then 1 else 0)
    && (st.rows[k].status == Failed <==> st.rows[k].retryCount >= maxRetries)
  }

  lemma StepExact(st: State, a: Action, maxRetries: nat)
    requires Exact(st, maxRetries) && maxRetries > 0 && Enabled(st, a) && !a.Crash? && !a.MarkError?
    ensures Exact(After(st, a, maxRetries), maxRetries)
  {
    hide RetryDelay;
    StepHeldOpen(st, a, maxRetries);
    match a {
      case Enqueue(_) => EnqueueExact(st, a, maxRetries);
      case Lock(_, _, _) => LockExact(st, a, maxRetries);
      case Publish(_, _) => PublishExact(st, a, maxRetries);
      case Mark(_, _) => MarkExact(st, a, maxRetries);
      case Recover(_, _) => RecoverExact(st, a, maxRetries);
    }
  }

  lemma EnqueueExact(st: State, a: Action, maxRetries: nat)
    requires Exact(st, maxRetries) && maxRetries > 0 && a.Enqueue? && HeldOpen(After(st, a, maxRetries))
    ensures Exact(After(st, a, maxRetries), maxRetries)
  {
    var after := After(st, a, maxRetries);
    forall k | 0 <= k < |after.rows|
      ensures Tallied(after, maxRetries, k)
    {
      assert k < |st.rows| ==> Tallied(st, maxRetries, k);
    }
    assert forall i | 0 <= i < |st.publishers[0].waiting| :: CopyCurrent(st, st.publishers[0].waiting[i]);
  }

  lemma LockExact(st: State, a: Action, maxRetries: nat)
    requires Exact(st, maxRetries) && a.Lock? && Enabled(st, a) && HeldOpen(After(st, a, maxRetries))
    ensures Exact(After(st, a, maxRetries), maxRetries)
  {
    var after := After(st, a, maxRetries);
    forall k | 0 <= k < |after.rows|
      ensures Tallied(after, maxRetries, k)
    {
      assert Tallied(st, maxRetries, k);
      if k in a.ids {
        var i :| 0 <= i < |a.ids| && a.ids[i] == k;
        assert Lockable(st.rows[k], a.now);
      }
    }
    forall i | 0 <= i < |a.ids|
      ensures CopyCurrent(after, after.publishers[0].waiting[i])
    {
      assert a.ids[i] < |st.rows|;
    }
  }

  lemma PublishExact(st: State, a: Action, maxRetries: nat)
    requires Exact(st, maxRetries) && a.Publish? && Enabled(st, a) && HeldOpen(After(st, a, maxRetries))
    ensures Exact(After(st, a, maxRetries), maxRetries)
  {
    var after, waiting := After(st, a, maxRetries), st.publishers[0].waiting;
    assert CopyCurrent(st, waiting[0]);
    forall k | 0 <= k < |after.rows|
      ensures Tallied(after, maxRetries, k)
    {
      assert Tallied(st, maxRetries, k);
    }
    forall i | 0 <= i < |waiting[1..]|
      ensures CopyCurrent(after, waiting[1..][i])
    {
      assert CopyCurrent(st, waiting[i + 1]);
    }
  }

  lemma MarkExact(st: State, a: Action, maxRetries: nat)
    requires Exact(st, maxRetries) && a.Mark? && Enabled(st, a) && HeldOpen(After(st, a, maxRetries))
    ensures Exact(After(st, a, maxRetries), maxRetries)
  {
    hide RetryDelay;
    var after, p := After(st, a, maxRetries), st.publishers[0];
    MarkOutcome(st, 0, a.now, maxRetries);
    forall k | 0 <= k < |after.rows|
      ensures Tallied(after, maxRetries, k)
    {
      assert Tallied(st, maxRetries, k);
    }
    forall i | 0 <= i < |p.waiting|
      ensures CopyCurrent(after, p.waiting[i])
    {
      assert CopyCurrent(st, p.waiting[i]);
      assert p.waiting[i].id != p.current.e.id;
    }
  }

  lemma RecoverExact(st: State, a: Action, maxRetries: nat)
    requires Exact(st, maxRetries) && a.Recover? && HeldOpen(After(st, a, maxRetries))
    ensures Exact(After(st, a, maxRetries), maxRetries)
  {
    var after := After(st, a, maxRetries);
    forall k | 0 <= k < |after.rows|
      ensures Tallied(after, maxRetries, k)
    {
      assert Tallied(st, maxRetries, k);
    }
    forall i | 0 <= i < |st.publishers[0].waiting|
      ensures CopyCurrent(after, st.publishers[0].waiting[i])
    {
      assert CopyCurrent(st, st.publishers[0].waiting[i]);
    }
  }

  lemma {:induction false} RunExact(st: State, actions: seq<Action>, maxRetries: nat)
    requires Exact(st, maxRetries) && maxRetries > 0 && IsRun(st, actions, maxRetries) && Reliable(actions)
    ensures Exact(Run(st, actions, maxRetries), maxRetries)
    decreases |actions|
  {
    hide Exact, After, Enabled;
    if actions != [] {
      StepExact(st, actions[0], maxRetries);
      RunExact(After(st, actions[0], maxRetries), actions[1..], maxRetries);
    }
  }

  // One publisher whose marks are stored, under recoveries at any moment: a row
  // whose publish is not just waiting for its mark is failed exactly when its
  // event was refused maxRetries times, and its count is the number of refusals.
  lemma FailedExactlyAtLimit(actions: seq<Action>, maxRetries: nat, k: nat)
    requires maxRetries > 0 && IsRun(Start(1), actions, maxRetries) && Reliable(actions)
    requires k < |Run(Start(1), actions, maxRetries).rows|
    ensures var st := Run(Start(1), actions, maxRetries);
            && |st.failures| == |st.rows| && |st.publishers| == 1
            && (!Refusing(st, k) ==>
                  && st.rows[k].retryCount == st.failures[k]
                  && (st.rows[k].status == Failed <==> st.failures[k] >= maxRetries))
  {
    hide Run, IsRun;
    StartExact(maxRetries);
    RunExact(Start(1), actions, maxRetries);
    assert Tallied(Run(Start(1), actions, maxRetries), maxRetries, k);
  }

  lemma StartExact(maxRetries: nat)
    ensures Exact(Start(1), maxRetries)
  {
  }
}
