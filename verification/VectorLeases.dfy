// What a lease is for: while it lasts nobody else acquires the row, and only a
// live lease lets its holder write (vector_repository.go).
module VectorLeases {
  import opened Wrappers
  import opened VectorManifest
  import opened VectorResume
  import opened VectorControl
  import opened VectorProtocol

  // An acquisition finds no lease, or one that has run out; a completed row and
  // a row of another model are never acquired, and without a row the ingestion
  // run must have completed.
  lemma LiveLeaseExcludes(manifest: seq<Entry>, fenced: bool, run: Run, k: nat, token: Token)
    requires Frozen(manifest) && IsRun(manifest, fenced, run) && k < |run.steps| && Acquires(run, k, token)
    ensures var before := run.states[k].row;
            before.Some? ==>
              && (before.value.lease.Some? ==> before.value.lease.value.expiresAt <= run.states[k].now)
              && before.value.status != Completed
              && before.value.identity == run.steps[k].identity
    ensures run.states[k].row.None? ==> run.steps[k].runCompleted
  {
    hide Sound;
    ControlInvHolds(manifest, fenced, run, k);
    AcquiresFresh(manifest, fenced, run.states[k], run.steps[k]);
  }

  lemma AcquiresFresh(manifest: seq<Entry>, fenced: bool, s: State, step: Step)
    requires ControlInv(manifest, s) && Enabled(manifest, fenced, s, step) && step.Acquire?
    requires Owns(After(manifest, fenced, s, step).row, step.token)
    ensures s.row.Some? ==>
              && (s.row.value.lease.Some? ==> s.row.value.lease.value.expiresAt <= s.now)
              && s.row.value.status != Completed && s.row.value.identity == step.identity
    ensures var row := After(manifest, fenced, s, step).row;
            && row.value.lease == Some(Lease(step.owner, step.token, s.now + if step.duration >= 1 then step.duration else 1))
            && row.value.status == Building && row.value.checksum == None
            && (s.row.Some? ==>
                  && row.value.buildAttempt == s.row.value.buildAttempt + 1
                  && row.value.checkpointChunkId == s.row.value.checkpointChunkId
                  && row.value.checkpointPoints == s.row.value.checkpointPoints
                  && row.value.pointCount == s.row.value.checkpointPoints)
            && (s.row.None? ==>
                  && step.runCompleted && row.value.identity == step.identity && row.value.buildAttempt == 1
                  && row.value.checkpointPoints == 0 && row.value.checkpointChunkId == 0)
  {
    hide Sound;
  }

  // The time a write gives its token: one second at least.
  function Term(action: Action): (d: int)
    requires action.SaveRewound? || action.SaveBatch? || action.SaveAudit?
    ensures d >= 1 && d >= action.duration && (d == 1 || d == action.duration)
  {
    if action.duration >= 1 then action.duration else 1
  }

  predicate IsSave(action: Action) {
    action.SaveRewound? || action.SaveBatch? || action.SaveAudit?
  }

  // A save or completion that changes the row held a lease that had not run
  // out; a save renews it from the present instant, a completion drops it.
  lemma WritesNeedLiveLease(manifest: seq<Entry>, fenced: bool, s: State, token: Token, action: Action)
    requires Enabled(manifest, fenced, s, By(token, action)) && (IsSave(action) || action.Complete?)
    requires After(manifest, fenced, s, By(token, action)).row != s.row
    ensures var row := After(manifest, fenced, s, By(token, action)).row;
            && s.row.Some? && s.row.value.status == Building && s.row.value.lease.Some? && row.Some?
            && s.row.value.lease.value.token == token && s.row.value.lease.value.expiresAt > s.now
            && (IsSave(action) ==> row.value.lease == Some(s.row.value.lease.value.(expiresAt := s.now + Term(action)))
                                   && row.value.status == Building)
            && (action.Complete? ==> row.value.lease == None && row.value.status == Completed)
  {
  }

  // What a write leaves: the token's lease lasts for the term of the write.
  ghost predicate LeasedBy(row: Option<Row>, token: Token, expiresAt: int) {
    row.Some? && row.value.lease.Some? && row.value.lease.value.token == token && row.value.lease.value.expiresAt == expiresAt
  }

  // The token's own steps from i up to j leave the row as it is.
  ghost predicate HolderQuiet(run: Run, i: nat, j: nat, token: Token)
    requires i <= j <= |run.steps| && |run.states| == |run.steps| + 1
  {
    forall k | i <= k < j && run.steps[k].By? && run.steps[k].token == token :: run.states[k + 1].row == run.states[k].row
  }

  lemma {:induction false} QuietRowStays(manifest: seq<Entry>, fenced: bool, run: Run, i: nat, j: nat, token: Token)
    requires IsRun(manifest, fenced, run) && i <= j <= |run.steps| && Frozen(manifest)
    requires run.states[i].row.Some? && run.states[i].row.value.lease.Some? && run.states[i].row.value.lease.value.token == token
    requires HolderQuiet(run, i, j, token) && NoAcquisition(run, i, j)
    ensures run.states[j].row == run.states[i].row && run.states[j].now >= run.states[i].now
  {
    hide Sound;
    if i < j {
      QuietRowStays(manifest, fenced, run, i, j - 1, token);
      ControlInvHolds(manifest, fenced, run, j - 1);
      var s, step := run.states[j - 1], run.steps[j - 1];
      OneStepQuiet(manifest, fenced, s, step, token);
      assert step.Acquire? ==> !Acquires(run, j - 1, step.token);
    }
  }

  lemma OneStepQuiet(manifest: seq<Entry>, fenced: bool, s: State, step: Step, token: Token)
    requires Enabled(manifest, fenced, s, step)
    requires s.row.Some? && s.row.value.lease.Some? && s.row.value.lease.value.token == token
    ensures var t := After(manifest, fenced, s, step);
            && t.now >= s.now
            && (t.row == s.row || (step.Acquire? && Owns(t.row, step.token)) || (step.By? && step.token == token))
  {
    if After(manifest, fenced, s, step).row != s.row {
      RowChanges(manifest, fenced, s, step);
    }
  }

  lemma RowChanges(manifest: seq<Entry>, fenced: bool, s: State, step: Step)
    requires Enabled(manifest, fenced, s, step) && s.row.Some?
    requires After(manifest, fenced, s, step).row != s.row
    ensures (step.Acquire? && Owns(After(manifest, fenced, s, step).row, step.token)) || (step.By? && Owns(s.row, step.token))
  {
  }

  // Mutual exclusion: a lease on the row keeps every other builder out until it
  // runs out, unless its holder writes the row again.
  lemma LeaseKeepsOthersOut(manifest: seq<Entry>, fenced: bool, run: Run, i: nat, j: nat, token: Token, other: Token, expiresAt: int)
    requires Frozen(manifest) && IsRun(manifest, fenced, run) && i <= j < |run.steps|
    requires LeasedBy(run.states[i].row, token, expiresAt)
    requires HolderQuiet(run, i, j, token) && NoAcquisition(run, i, j) && Acquires(run, j, other)
    ensures run.states[j].now >= expiresAt
  {
    QuietRowStays(manifest, fenced, run, i, j, token);
    LiveLeaseExcludes(manifest, fenced, run, j, other);
  }

  // So an acquisition or save at time t for duration d reserves the row until
  // t + max(1, d).
  lemma WriteReserves(manifest: seq<Entry>, fenced: bool, run: Run, i: nat, j: nat, token: Token, other: Token, duration: int)
    requires Frozen(manifest) && IsRun(manifest, fenced, run) && i < j < |run.steps|
    requires || (Acquires(run, i, token) && run.steps[i].duration == duration)
             || (run.steps[i].By? && run.steps[i].token == token && IsSave(run.steps[i].action)
                 && run.steps[i].action.duration == duration && run.states[i + 1].row != run.states[i].row)
    requires HolderQuiet(run, i + 1, j, token) && NoAcquisition(run, i + 1, j) && Acquires(run, j, other)
    ensures run.states[j].now >= run.states[i].now + (if duration >= 1 then duration else 1)
  {
    hide Sound;
    ControlInvHolds(manifest, fenced, run, i);
    var s, step := run.states[i], run.steps[i];
    if step.Acquire? {
      AcquiresFresh(manifest, fenced, s, step);
    } else {
      WritesNeedLiveLease(manifest, fenced, s, token, step.action);
    }
    LeaseKeepsOthersOut(manifest, fenced, run, i + 1, j, token, other,
                        s.now + if duration >= 1 then duration else 1);
  }
}
