// Sequences of protocol steps from any state, and what each step of a builder
// that holds the lease does; with these a single Build is followed step by step.
module VectorSteps {
  import opened Wrappers
  import opened VectorManifest
  import opened VectorResume
  import opened VectorControl
  import opened VectorProtocol

  // The state after the steps, with store calls only by lease holders; None if
  // some step is not enabled.
  ghost function Follow(manifest: seq<Entry>, s: State, steps: seq<Step>): Option<State> {
    if steps == [] then Some(s)
    else
      var before, step := Follow(manifest, s, steps[..|steps| - 1]), steps[|steps| - 1];
      if before.None? || !Enabled(manifest, true, before.value, step) then None
      else Some(After(manifest, true, before.value, step))
  }

  lemma FollowMore(manifest: seq<Entry>, s: State, steps: seq<Step>, step: Step)
    requires Follow(manifest, s, steps).Some? && Enabled(manifest, true, Follow(manifest, s, steps).value, step)
    ensures Follow(manifest, s, steps + [step]) == Some(After(manifest, true, Follow(manifest, s, steps).value, step))
  {
    hide After, Enabled;
    assert (steps + [step])[..|steps + [step]| - 1] == steps;
  }

  // A fenced run goes on with any steps that can be followed from its end.
  lemma {:induction false} FollowedRun(manifest: seq<Entry>, run: Run, steps: seq<Step>) returns (longer: Run)
    requires IsRun(manifest, true, run) && Follow(manifest, run.states[|run.steps|], steps).Some?
    ensures IsRun(manifest, true, longer) && longer.steps == run.steps + steps
    ensures longer.states[..|run.states|] == run.states
    ensures longer.states[|longer.steps|] == Follow(manifest, run.states[|run.steps|], steps).value
  {
    hide After, Enabled;
    if steps == [] {
      longer := run;
      assert run.steps + [] == run.steps;
    } else {
      var front, step := steps[..|steps| - 1], steps[|steps| - 1];
      var r := FollowedRun(manifest, run, front);
      var last := Follow(manifest, run.states[|run.steps|], steps).value;
      longer := RunMore(manifest, r, step);
      assert run.steps + steps == run.steps + front + [step];
    }
  }

  lemma RunMore(manifest: seq<Entry>, run: Run, step: Step) returns (longer: Run)
    requires IsRun(manifest, true, run) && Enabled(manifest, true, run.states[|run.steps|], step)
    ensures IsRun(manifest, true, longer) && longer.steps == run.steps + [step]
    ensures longer.states == run.states + [After(manifest, true, run.states[|run.steps|], step)]
  {
    hide After, Enabled, Init;
    longer := Run(run.states + [After(manifest, true, run.states[|run.steps|], step)], run.steps + [step]);
    var n := |run.steps|;
    forall i | 0 <= i < |longer.steps|
      ensures Enabled(manifest, true, longer.states[i], longer.steps[i])
              && longer.states[i + 1] == After(manifest, true, longer.states[i], longer.steps[i])
    {
      assert longer.states[i] == run.states[i];
      if i < n {
        assert longer.steps[i] == run.steps[i] && longer.states[i + 1] == run.states[i + 1];
      }
    }
  }

  // Only this builder acts while time passes.
  predicate Alone(steps: seq<Step>, token: Token) {
    forall i | 0 <= i < |steps| ::
      steps[i].Tick? || (steps[i].Acquire? && steps[i].token == token) || (steps[i].By? && steps[i].token == token)
  }

  // ---- The steps of one builder ----------------------------------------------

  ghost predicate Stands(s: State, token: Token, identity: Identity, phase: Phase) {
    token in s.builders && s.builders[token] == Builder(identity, phase)
  }

  ghost function Moved(s: State, token: Token, identity: Identity, phase: Phase): State {
    s.(builders := s.builders[token := Builder(identity, phase)])
  }

  lemma TickStep(manifest: seq<Entry>, s: State, elapsed: nat)
    ensures Enabled(manifest, true, s, Tick(elapsed)) && After(manifest, true, s, Tick(elapsed)) == s.(now := s.now + elapsed)
  {
  }

  lemma AcquireStep(manifest: seq<Entry>, s: State, token: Token, identity: Identity, runCompleted: bool, owner: string, duration: int)
    requires token !in s.issued
    ensures var step := Acquire(token, identity, runCompleted, owner, duration);
            && Enabled(manifest, true, s, step)
            && var t := After(manifest, true, s, step);
               && t.row == AfterAcquire(s.row, identity, runCompleted, owner, token, s.now, duration)
               && t.store == s.store && t.now == s.now
               && (Owns(t.row, token) ==>
                     Stands(t, token, identity, Preparing(t.row.value.checkpointChunkId, t.row.value.checkpointPoints)))
  {
    hide AfterAcquire;
  }

  lemma CheckStep(manifest: seq<Entry>, s: State, token: Token, identity: Identity, chunkId: int, points: int)
    requires Stands(s, token, identity, Preparing(chunkId, points)) && Owns(s.row, token)
    requires ValidCheckpoint(manifest, chunkId, points)
    ensures var step := By(token, CheckCollection);
            && Enabled(manifest, true, s, step)
            && After(manifest, true, s, step)
               == Moved(s, token, identity, if points == 0 then Recreating(0)
                                            else if s.store.Absent? then Recreating(points) else Planning(chunkId, points))
  {
  }

  lemma RecreateStep(manifest: seq<Entry>, s: State, token: Token, identity: Identity, missing: int)
    requires Stands(s, token, identity, Recreating(missing)) && Owns(s.row, token)
    ensures var step := By(token, Recreate);
            && Enabled(manifest, true, s, step)
            && After(manifest, true, s, step) == Moved(s.(store := Present(map[])), token, identity, Rewound(0, 0, 0, missing))
  {
  }

  lemma PlanStep(manifest: seq<Entry>, s: State, token: Token, identity: Identity, chunkId: int, points: int,
                 listing: seq<Entry>, plan: ResumePlan)
    requires Stands(s, token, identity, Planning(chunkId, points)) && Owns(s.row, token)
    requires s.store.Present? && Lists(listing, s.store.points) && ValidCheckpoint(manifest, chunkId, points)
    requires IsResumePlan(manifest, points, s.store.points, plan)
    ensures var step := By(token, Plan(listing));
            && Enabled(manifest, true, s, step)
            && After(manifest, true, s, step) == Moved(s, token, identity, Deleting(plan))
  {
    hide IsResumePlan;
    ResumePlanUnique(manifest, points, s.store.points, plan, PlanOf(manifest, points, AsMap(listing)));
  }

  lemma DeleteStep(manifest: seq<Entry>, s: State, token: Token, identity: Identity, plan: ResumePlan)
    requires Stands(s, token, identity, Deleting(plan)) && Owns(s.row, token) && s.store.Present?
    ensures var step := By(token, Delete);
            && Enabled(manifest, true, s, step)
            && After(manifest, true, s, step)
               == Moved(s.(store := Present(DeletePoints(s.store.points, plan.orphanIds + plan.mismatchedIds))), token, identity,
                        Rewound(plan.checkpointChunkId, plan.checkpointPoints, |plan.orphanIds|,
                                |plan.missingCheckpointIds| + |plan.mismatchedIds|))
  {
  }

  // The three writes of a checkpoint: the phase before, the arguments and the
  // phase after.
  predicate Saves(action: Action, phase: Phase, chunkId: int, points: int, orphans: int, missing: int,
                  duration: int, reconciled: bool, next: Phase) {
    || (action == SaveRewound(duration) && phase == Rewound(chunkId, points, orphans, missing) && reconciled
        && next == Looping(chunkId, points))
    || (action == SaveBatch(duration) && phase == Upserted(chunkId, points) && !reconciled && orphans == 0 && missing == 0
        && next == Looping(chunkId, points))
    || (action == SaveAudit(duration) && phase == Audited(chunkId, points, orphans) && reconciled && missing == 0
        && next == Completing(points))
  }

  lemma SaveStep(manifest: seq<Entry>, s: State, token: Token, identity: Identity, action: Action, phase: Phase,
                 chunkId: int, points: int, orphans: int, missing: int, duration: int, reconciled: bool, next: Phase)
    requires Stands(s, token, identity, phase)
    requires Saves(action, phase, chunkId, points, orphans, missing, duration, reconciled, next)
    ensures var step := By(token, action);
            && Enabled(manifest, true, s, step)
            && After(manifest, true, s, step)
               == Moved(s.(row := AfterSave(s.row, token, chunkId, points, orphans, missing, s.now, duration, reconciled)),
                        token, identity, if OwnsLive(s.row, token, s.now) then next else Erring)
  {
    hide AfterSave, OwnsLive;
  }

  lemma UpsertStep(manifest: seq<Entry>, s: State, token: Token, identity: Identity, chunkId: int, points: int, batchSize: nat)
    requires Stands(s, token, identity, Looping(chunkId, points)) && Owns(s.row, token)
    requires s.store.Present? && batchSize > 0
    ensures var step, batch := By(token, UpsertBatch(batchSize)), NextBatch(manifest, chunkId, batchSize);
            && Enabled(manifest, true, s, step)
            && After(manifest, true, s, step)
               == if batch == [] then Moved(s, token, identity, Auditing(chunkId, points))
                  else Moved(s.(store := Present(Upsert(s.store.points, batch))), token, identity,
                             Upserted(batch[|batch| - 1].chunkId, points + |batch|))
  {
    hide NextBatch, Upsert;
  }

  lemma ListStep(manifest: seq<Entry>, s: State, token: Token, identity: Identity, chunkId: int, points: int, listing: seq<Entry>)
    requires Stands(s, token, identity, Auditing(chunkId, points)) && Owns(s.row, token)
    requires s.store.Present? && Lists(listing, s.store.points)
    ensures var step := By(token, ListForAudit(listing));
            && Enabled(manifest, true, s, step)
            && After(manifest, true, s, step) == Moved(s, token, identity, AuditListed(chunkId, points, listing))
  {
    hide Lists;
  }

  lemma FinishStep(manifest: seq<Entry>, s: State, token: Token, identity: Identity, chunkId: int, points: int,
                   listing: seq<Entry>, c: Comparison)
    requires Stands(s, token, identity, AuditListed(chunkId, points, listing)) && Owns(s.row, token) && s.store.Present?
    requires CompareOf(manifest, listing) == c && c.missing == [] && c.mismatched == [] && points == |manifest|
    requires |listing| - |c.orphans| == |manifest|
    ensures var step := By(token, FinishAudit);
            && Enabled(manifest, true, s, step)
            && After(manifest, true, s, step)
               == Moved(s.(store := Present(DeletePoints(s.store.points, c.orphans))), token, identity,
                        Audited(chunkId, points, |c.orphans|))
  {
    hide CompareOf, DeletePoints;
  }

  lemma AuditStep(manifest: seq<Entry>, s: State, token: Token, identity: Identity, chunkId: int, listing: seq<Entry>)
    requires Frozen(manifest) && Stands(s, token, identity, AuditListed(chunkId, |manifest|, listing)) && Owns(s.row, token)
    requires s.store == Present(AsMap(manifest)) && Lists(listing, s.store.points)
    ensures CompareOf(manifest, listing) == Comparison([], [], [])
    ensures var step := By(token, FinishAudit);
            && Enabled(manifest, true, s, step)
            && After(manifest, true, s, step) == Moved(s, token, identity, Audited(chunkId, |manifest|, 0))
  {
    hide CompareOf, Lists, After, Enabled, Frozen, AsMap;
    ExactAuditPasses(manifest, listing);
    FinishStep(manifest, s, token, identity, chunkId, |manifest|, listing, Comparison([], [], []));
    assert DeletePoints(s.store.points, []) == s.store.points;
  }

  lemma CompleteStep(manifest: seq<Entry>, s: State, token: Token, identity: Identity, points: int)
    requires Stands(s, token, identity, Completing(points))
    ensures var step, checksum := By(token, Complete), ManifestChecksum(identity, manifest);
            && Enabled(manifest, true, s, step)
            && After(manifest, true, s, step)
               == Moved(s.(row := AfterComplete(s.row, token, points, checksum, s.now)), token, identity,
                        if Completable(s.row, token, points, s.now) then Finished else Erring)
  {
    hide AfterComplete, Completable;
  }

  lemma FailStep(manifest: seq<Entry>, s: State, token: Token, identity: Identity)
    requires Stands(s, token, identity, Erring)
    ensures var step := By(token, MarkFailed);
            && Enabled(manifest, true, s, step)
            && After(manifest, true, s, step) == Moved(s.(row := AfterFail(s.row, token)), token, identity, Finished)
  {
    hide AfterFail;
  }
}
