// One uninterrupted run of VectorIndexer.Build (vector_index.go) over a mutable
// control row and a mutable point store, followed step by step as a run of the
// concurrent protocol.
module VectorBuild {
  import opened Wrappers
  import IdSorting
  import opened VectorManifest
  import opened VectorResume
  import opened VectorControl
  import opened VectorProtocol
  import opened VectorSteps

  // The point store: one collection, listed in an order of its own choosing.
  class PointStore {
    var collection: Collection

    constructor (collection: Collection)
      ensures this.collection == collection
    {
      this.collection := collection;
    }

    method RecreateCollection()
      modifies this
      ensures collection == Present(map[])
    {
      collection := Present(map[]);
    }

    method ListPointManifest() returns (actual: seq<Entry>)
      requires collection.Present?
      ensures Lists(actual, collection.points)
    {
      actual := [];
      var points := collection.points;
      var todo := points.Keys;
      while |todo| > 0
        invariant todo <= points.Keys
        invariant DistinctIds(actual) && AsMap(actual) == points - todo
        decreases |todo|
      {
        var x :| x in todo;
        ListOneMore(points, todo, x);
        AppendDistinct(actual, Entry(x, points[x]));
        actual := actual + [Entry(x, points[x])];
        todo := todo - {x};
      }
      assert points - {} == points;
    }

    method Delete(ids: seq<nat>)
      requires collection.Present?
      modifies this
      ensures collection == Present(DeletePoints(old(collection.points), ids))
    {
      collection := Present(DeletePoints(collection.points, ids));
    }

    method UpsertPoints(batch: seq<Entry>)
      requires collection.Present?
      modifies this
      ensures collection == Present(Upsert(old(collection.points), batch))
    {
      collection := Present(Upsert(collection.points, batch));
    }
  }

  lemma ListOneMore(points: map<nat, string>, todo: set<nat>, x: nat)
    requires todo <= points.Keys && x in todo
    ensures points - (todo - {x}) == (points - todo)[x := points[x]]
    ensures x !in points - todo && |todo - {x}| < |todo|
  {
  }

  datatype Audit = Audit(
    exists_: bool, expected: int, actual: int,
    missing: int, orphans: int, mismatched: int, orphansDeleted: int, exact: bool)

  // A process running Build.  `pause(k)` is the time that passes before its
  // k-th write to the control row.
  class VectorIndexer {
    const table: ControlTable
    const store: PointStore
    const identity: Identity
    const token: Token
    const duration: int
    const pause: nat -> nat
    var now: int
    var writes: nat

    // The protocol state Build started in, the steps taken since and where they lead.
    ghost const origin: State
    ghost var trace: seq<Step>
    ghost var at: State

    constructor (table: ControlTable, store: PointStore, identity: Identity, token: Token, duration: int,
                 pause: nat -> nat, now: int, ghost origin: State)
      requires origin.row == table.row && origin.store == store.collection && origin.now == now
      ensures this.table == table && this.store == store && this.identity == identity && this.token == token
      ensures this.duration == duration && this.pause == pause && this.now == now && this.writes == 0
      ensures this.origin == origin && this.at == origin && this.trace == []
    {
      this.table, this.store, this.identity, this.token := table, store, identity, token;
      this.duration, this.pause, this.now, this.writes := duration, pause, now, 0;
      this.origin, this.trace, this.at := origin, [], origin;
    }

    ghost predicate Prompt() {
      forall k: nat :: pause(k) < LeaseSeconds(duration)
    }

    // The lease was renewed at the current instant.
    ghost predicate Renewed()
      reads this, table
    {
      Owns(table.row, token) && table.row.value.lease.value.expiresAt == now + LeaseSeconds(duration)
    }

    // The row is still this builder's, sound, and of the same attempt.
    ghost predicate SameTenure(before: Option<Row>, manifest: seq<Entry>)
      requires before.Some?
      reads this, table
    {
      Owns(table.row, token) && Sound(table.row.value, manifest)
      && table.row.value.identity == before.value.identity
      && table.row.value.buildAttempt == before.value.buildAttempt
    }

    ghost predicate Traced(manifest: seq<Entry>)
      reads this
    {
      Follow(manifest, origin, trace) == Some(at) && Alone(trace, token)
    }

    // Row, store and clock are what the protocol reaches by the steps taken.
    ghost predicate InStep(manifest: seq<Entry>)
      reads this, table, store
    {
      Traced(manifest) && at.row == table.row && at.store == store.collection && at.now == now
    }

    ghost predicate Here(manifest: seq<Entry>, phase: Phase)
      reads this, table, store
    {
      InStep(manifest) && Stands(at, token, identity, phase)
    }

    ghost method Advance(manifest: seq<Entry>, step: Step)
      requires Traced(manifest) && Enabled(manifest, true, at, step)
      requires step.Tick? || (step.Acquire? && step.token == token) || (step.By? && step.token == token)
      modifies this`at, this`trace
      ensures Traced(manifest) && at == After(manifest, true, old(at), step)
    {
      hide After, Enabled, Follow;
      FollowMore(manifest, origin, trace, step);
      trace := trace + [step];
      at := After(manifest, true, at, step);
    }

    method Wait(ghost manifest: seq<Entry>)
      requires InStep(manifest)
      modifies this
      ensures now == old(now) + pause(old(writes)) && writes == old(writes) + 1
      ensures InStep(manifest) && at == old(at).(now := now)
    {
      hide After, Enabled, Follow;
      TickStep(manifest, at, pause(writes));
      Advance(manifest, Tick(pause(writes)));
      now := now + pause(writes);
      writes := writes + 1;
    }

    method Save(ghost manifest: seq<Entry>, ghost action: Action, ghost phase: Phase, ghost next: Phase,
                chunkId: int, points: int, orphans: int, missing: int, reconciled: bool) returns (saved: bool)
      requires Renewed() && Here(manifest, phase)
      requires Saves(action, phase, chunkId, points, orphans, missing, duration, reconciled, next)
      modifies this, table
      ensures Prompt() ==> saved
      ensures !saved ==> table.row == old(table.row)
      ensures saved ==> Renewed()
      ensures saved ==>
                var r, r' := old(table.row.value), table.row.value;
                r'.checkpointChunkId == chunkId && r'.checkpointPoints == points && r'.pointCount == points
                && r'.identity == r.identity && r'.buildAttempt == r.buildAttempt && r'.checksum == r.checksum
                && r'.orphanPoints == (if reconciled then orphans else r.orphanPoints)
                && r'.missingPoints == (if reconciled then missing else r.missingPoints)
      ensures Here(manifest, if saved then next else Erring)
    {
      hide After, Enabled, Follow, Alone;
      Wait(manifest);
      SaveStep(manifest, at, token, identity, action, phase, chunkId, points, orphans, missing, duration, reconciled, next);
      Advance(manifest, By(token, action));
      saved := table.SaveCheckpoint(token, chunkId, points, orphans, missing, now, duration, reconciled);
    }

    // Start over with an empty collection.
    method Restart(ghost manifest: seq<Entry>, missing: int) returns (r: Result<(int, int), IndexError>)
      requires Renewed() && Sound(table.row.value, manifest) && Here(manifest, Recreating(missing))
      modifies this, table, store
      ensures Prompt() ==> r.Success?
      ensures r.Success? ==> Renewed() && r.value == (0, 0) && store.collection == Present(map[])
      ensures r.Success? ==> table.row.value.orphanPoints == 0 && table.row.value.missingPoints == missing
      ensures r.Failure? ==> r.error == LeaseLost
      ensures SameTenure(old(table.row), manifest)
      ensures Here(manifest, if r.Success? then Looping(0, 0) else Erring)
    {
      hide After, Enabled, Follow, Alone;
      RecreateStep(manifest, at, token, identity, missing);
      Advance(manifest, By(token, Recreate));
      store.RecreateCollection();
      var saved := Save(manifest, SaveRewound(duration), Rewound(0, 0, 0, missing), Looping(0, 0), 0, 0, 0, missing, true);
      return if saved then Success((0, 0)) else Failure(LeaseLost);
    }

    // Delete what the plan names and save its checkpoint.
    method CarryOut(ghost manifest: seq<Entry>, plan: ResumePlan) returns (r: Result<(int, int), IndexError>)
      requires Renewed() && Sound(table.row.value, manifest) && Here(manifest, Deleting(plan)) && store.collection.Present?
      requires ValidCheckpoint(manifest, plan.checkpointChunkId, plan.checkpointPoints)
      modifies this, table, store
      ensures Prompt() ==> r.Success?
      ensures r.Success? ==> Renewed() && r.value == (plan.checkpointChunkId, plan.checkpointPoints)
      ensures r.Success? ==>
                && table.row.value.orphanPoints == |plan.orphanIds|
                && table.row.value.missingPoints == |plan.missingCheckpointIds| + |plan.mismatchedIds|
      ensures store.collection == Present(DeletePoints(old(store.collection.points), plan.orphanIds + plan.mismatchedIds))
      ensures r.Failure? ==> r.error == LeaseLost
      ensures SameTenure(old(table.row), manifest)
      ensures Here(manifest, if r.Success? then Looping(r.value.0, r.value.1) else Erring)
    {
      hide After, Enabled, Follow, Alone, DeletePoints, AsMap;
      DeleteStep(manifest, at, token, identity, plan);
      Advance(manifest, By(token, Delete));
      var pointsToDelete := plan.orphanIds + plan.mismatchedIds;
      if |pointsToDelete| > 0 {
        store.Delete(pointsToDelete);
      } else {
        NothingDeleted(store.collection.points);
      }
      var orphans, missing := |plan.orphanIds|, |plan.missingCheckpointIds| + |plan.mismatchedIds|;
      var saved := Save(manifest, SaveRewound(duration), Rewound(plan.checkpointChunkId, plan.checkpointPoints, orphans, missing),
                        Looping(plan.checkpointChunkId, plan.checkpointPoints),
                        plan.checkpointChunkId, plan.checkpointPoints, orphans, missing, true);
      return if saved then Success((plan.checkpointChunkId, plan.checkpointPoints)) else Failure(LeaseLost);
    }

    // Plan the resumption of a collection that exists.
    method Resume(manifest: seq<Entry>, index: Row) returns (r: Result<(int, int), IndexError>)
      requires Frozen(manifest) && Renewed() && Sound(table.row.value, manifest) && store.collection.Present?
      requires ValidCheckpoint(manifest, index.checkpointChunkId, index.checkpointPoints)
      requires Here(manifest, Planning(index.checkpointChunkId, index.checkpointPoints))
      modifies this, table, store
      ensures Prompt() ==> r.Success?
      ensures r.Success? ==> Renewed() && ValidCheckpoint(manifest, r.value.0, r.value.1)
      ensures r.Success? ==>
                store.collection.Present? && CorrectUpTo(manifest, store.collection.points, r.value.1)
      ensures r.Failure? ==> r.error == LeaseLost
      ensures SameTenure(old(table.row), manifest)
      ensures Here(manifest, if r.Success? then Looping(r.value.0, r.value.1) else Erring)
    {
      hide After, Enabled, Follow, Alone, Sound, CorrectUpTo, IsResumePlan, DeletePoints, AsMap;
      var actual := store.ListPointManifest();
      var planned := PlanVectorResume(manifest, index.checkpointChunkId, index.checkpointPoints, actual);
      if planned.Failure? {
        return Failure(Corrupt);
      }
      var plan := planned.value;
      PlannedCheckpoint(manifest, index.checkpointPoints, store.collection.points, plan);
      PlanPhaseMatches(manifest, index.checkpointPoints, store.collection.points, plan);
      PlanStep(manifest, at, token, identity, index.checkpointChunkId, index.checkpointPoints, actual, plan);
      Advance(manifest, By(token, Plan(actual)));
      r := CarryOut(manifest, plan);
    }

    method PrepareCollection(manifest: seq<Entry>, index: Row) returns (r: Result<(int, int), IndexError>)
      requires Frozen(manifest) && Renewed() && Sound(table.row.value, manifest)
      requires ValidCheckpoint(manifest, index.checkpointChunkId, index.checkpointPoints)
      requires Here(manifest, Preparing(index.checkpointChunkId, index.checkpointPoints))
      modifies this, table, store
      ensures Prompt() ==> r.Success?
      ensures r.Success? ==> Renewed() && ValidCheckpoint(manifest, r.value.0, r.value.1)
      ensures r.Success? ==>
                store.collection.Present? && CorrectUpTo(manifest, store.collection.points, r.value.1)
      ensures r.Failure? ==> r.error == LeaseLost
      ensures SameTenure(old(table.row), manifest)
      ensures Here(manifest, if r.Success? then Looping(r.value.0, r.value.1) else Erring)
    {
      hide After, Enabled, Follow, Alone, Sound, CorrectUpTo;
      CheckStep(manifest, at, token, identity, index.checkpointChunkId, index.checkpointPoints);
      Advance(manifest, By(token, CheckCollection));
      EmptyIsCorrect(manifest);
      if index.checkpointPoints == 0 {
        r := Restart(manifest, 0);
      } else if store.collection.Absent? {
        r := Restart(manifest, index.checkpointPoints);
      } else {
        r := Resume(manifest, index);
      }
    }

    method RunBatches(manifest: seq<Entry>, chunkId: int, points: int, batchSize: nat)
      returns (r: Result<(int, int), IndexError>)
      requires Frozen(manifest) && Renewed() && batchSize > 0
      requires ValidCheckpoint(manifest, chunkId, points) && Sound(table.row.value, manifest)
      requires store.collection.Present? && CorrectUpTo(manifest, store.collection.points, points)
      requires Here(manifest, Looping(chunkId, points))
      modifies this, table, store
      ensures Prompt() ==> r.Success?
      ensures r.Success? ==>
                Renewed() && r.value.1 == |manifest| && ValidCheckpoint(manifest, r.value.0, r.value.1)
                && store.collection == Present(AsMap(manifest))
      ensures r.Failure? ==> r.error == LeaseLost
      ensures SameTenure(old(table.row), manifest)
      ensures Here(manifest, if r.Success? then Auditing(r.value.0, r.value.1) else Erring)
    {
      hide After, Enabled, Follow, Alone, CorrectUpTo, AsMap, Upsert, NextBatch;
      var afterChunkId, pointCount := chunkId, points;
      while true
        invariant Renewed() && SameTenure(old(table.row), manifest)
        invariant ValidCheckpoint(manifest, afterChunkId, pointCount)
        invariant store.collection.Present? && CorrectUpTo(manifest, store.collection.points, pointCount)
        invariant Here(manifest, Looping(afterChunkId, pointCount))
        decreases |manifest| - pointCount
      {
        var chunks := NextBatch(manifest, afterChunkId, batchSize);
        UpsertPhaseMatches(manifest, store.collection.points, afterChunkId, pointCount, batchSize);
        UpsertStep(manifest, at, token, identity, afterChunkId, pointCount, batchSize);
        Advance(manifest, By(token, UpsertBatch(batchSize)));
        if |chunks| == 0 {
          return Success((afterChunkId, pointCount));
        }
        BatchPhaseSound(manifest, afterChunkId, pointCount, batchSize);
        store.UpsertPoints(chunks);
        afterChunkId := chunks[|chunks| - 1].chunkId;
        pointCount := pointCount + |chunks|;
        var saved := Save(manifest, SaveBatch(duration), Upserted(afterChunkId, pointCount), Looping(afterChunkId, pointCount),
                          afterChunkId, pointCount, 0, 0, false);
        if !saved {
          return Failure(LeaseLost);
        }
      }
    }

    // auditWithManifest: the report is exact if and only if the collection ends
    // up holding exactly the manifest and, on a completed row, the recorded
    // count and checksum are those of the manifest.
    method AuditWithManifest(manifest: seq<Entry>, index: Row, repairOrphans: bool)
      returns (report: Audit, ghost listing: seq<Entry>)
      requires DistinctIds(manifest)
      modifies store
      ensures !repairOrphans ==> store.collection == old(store.collection)
      ensures old(store.collection) == Present(AsMap(manifest)) ==> store.collection == old(store.collection)
      ensures report.exact <==>
                store.collection == Present(AsMap(manifest))
                && (index.status == Completed ==>
                      index.pointCount == |manifest|
                      && index.checksum == Some(ManifestChecksum(index.identity, manifest)))
      ensures report.expected == |manifest|
      ensures old(store.collection.Present?) ==>
                && Lists(listing, old(store.collection.points))
                && report.orphans == |CompareOf(manifest, listing).orphans|
                && report.missing == |CompareOf(manifest, listing).missing|
                && report.mismatched == |CompareOf(manifest, listing).mismatched|
                && report.orphansDeleted == (if repairOrphans then report.orphans else 0)
                && report.actual == |listing| - report.orphansDeleted
                && store.collection == Present(if repairOrphans then DeletePoints(old(store.collection.points), CompareOf(manifest, listing).orphans)
                                               else old(store.collection.points))
      ensures old(store.collection.Absent?) ==> store.collection.Absent? && report.missing == |manifest| && report.actual == 0
      ensures report.exists_ == old(store.collection.Present?)
    {
      hide CompareOf, DeletePoints, AsMap, DistinctIds;
      if store.collection.Absent? {
        listing := [];
        report := Audit(false, |manifest|, 0, |manifest|, 0, 0, 0, false);
        return;
      }
      var actual := store.ListPointManifest();
      listing := actual;
      var compared := CompareVectorPoints(manifest, actual);
      var actualCount, deleted := |actual|, 0;
      AuditCounts(manifest, actual, store.collection.points);
      NothingDeleted(store.collection.points);
      if repairOrphans && |compared.orphans| > 0 {
        store.Delete(compared.orphans);
        deleted := |compared.orphans|;
        actualCount := actualCount - deleted;
      }
      var sealed := index.status != Completed
                    || (index.pointCount == |manifest|
                        && index.checksum == Some(ManifestChecksum(index.identity, manifest)));
      var exact := |compared.missing| == 0 && |compared.orphans| - deleted == 0 && |compared.mismatched| == 0
                   && actualCount == |manifest| && sealed;
      report := Audit(true, |manifest|, actualCount, |compared.missing|, |compared.orphans|,
                      |compared.mismatched|, deleted, exact);
    }

    method Build(manifest: seq<Entry>, runCompleted: bool, owner: string, batchSize: nat)
      returns (r: Result<Row, IndexError>)
      requires Frozen(manifest) && batchSize > 0
      requires table.row.Some? ==> Sound(table.row.value, manifest)
      requires InStep(manifest) && token !in at.issued
      modifies this, table, store
      // an available row: if every write comes before the lease runs out, the
      // build succeeds whatever the store held, and the store is then exact
      ensures var present := InsertIfAbsent(old(table.row), identity, runCompleted);
              present.Some? && Acquirable(present.value, identity, old(now)) ==>
                table.row.Some? && Sound(table.row.value, manifest) && table.row.value.identity == identity
                && table.row.value.buildAttempt == present.value.buildAttempt + 1
                && (Prompt() ==> r.Success?)
                && (r.Success? ==>
                      table.row.value == r.value && r.value.status == Completed
                      && r.value.checkpointPoints == |manifest|
                      && r.value.orphanPoints == 0 && r.value.missingPoints == 0 && r.value.lease == None
                      && store.collection == Present(AsMap(manifest)))
                && (r.Failure? ==> r.error == LeaseLost && table.row.value.status == Failed)
      // a completed row: verified, never changed
      ensures old(table.row.Some? && table.row.value.status == Completed) ==>
                table.row == old(table.row) && store.collection == old(store.collection)
                && (r.Success? <==> old(table.row.value.identity) == identity
                                    && old(store.collection) == Present(AsMap(manifest)))
                && (r.Success? ==> r.value == table.row.value)
      // a row held by someone else or for another model: an error, nothing changed
      ensures var present := InsertIfAbsent(old(table.row), identity, runCompleted);
              (present.None? || (present.value.status != Completed && !Acquirable(present.value, identity, old(now)))) ==>
                r.Failure? && table.row == old(table.row) && store.collection == old(store.collection)
                && r.error == if present.None? then NotReady
                              else if present.value.identity != identity then VersionMismatch else Leased
      // in every case: row, store and clock are reached by fenced protocol steps
      // of this builder alone, and a builder that acquired has finished
      ensures InStep(manifest)
      ensures var present := InsertIfAbsent(old(table.row), identity, runCompleted);
              present.Some? && Acquirable(present.value, identity, old(now)) ==> Here(manifest, Finished)
    {
      hide After, Enabled, Follow, Alone, AsMap;
      var existing := table.Load();
      if existing.Success? && existing.value.status == Completed {
        r := VerifyCompleted(manifest, existing.value);
        return;
      }
      AcquireStep(manifest, at, token, identity, runCompleted, owner, duration);
      Advance(manifest, Step.Acquire(token, identity, runCompleted, owner, duration));
      var acquired := table.Acquire(identity, runCompleted, owner, token, now, duration);
      if acquired.Failure? {
        return Failure(acquired.error);
      }
      r := BuildAcquired(manifest, acquired.value, batchSize);
      if r.Failure? {
        FailStep(manifest, at, token, identity);
        Advance(manifest, By(token, Action.MarkFailed));
        table.MarkFailed(token);
      }
    }

    // A completed index is audited and never changed.
    method VerifyCompleted(manifest: seq<Entry>, existing: Row) returns (r: Result<Row, IndexError>)
      requires Frozen(manifest) && existing.status == Completed && Sound(existing, manifest)
      modifies store
      ensures store.collection == old(store.collection)
      ensures r.Success? <==> existing.identity == identity && store.collection == Present(AsMap(manifest))
      ensures r.Success? ==> r.value == existing
    {
      if existing.identity != identity {
        return Failure(VersionMismatch);
      }
      FrozenIsDistinct(manifest);
      var audit, _ := AuditWithManifest(manifest, existing, false);
      return if audit.exact then Success(existing) else Failure(Corrupt);
    }

    method BuildAcquired(manifest: seq<Entry>, index: Row, batchSize: nat) returns (r: Result<Row, IndexError>)
      requires Frozen(manifest) && batchSize > 0 && Renewed()
      requires table.row == Some(index) && Sound(index, manifest) && index.identity == identity
      requires Here(manifest, Preparing(index.checkpointChunkId, index.checkpointPoints))
      modifies this, table, store
      ensures Prompt() ==> r.Success?
      ensures r.Success? ==>
                table.row == Some(r.value) && Sound(r.value, manifest) && r.value.status == Completed
                && r.value.identity == identity && r.value.buildAttempt == index.buildAttempt
                && r.value.checkpointPoints == |manifest| && store.collection == Present(AsMap(manifest))
                && r.value.orphanPoints == 0 && r.value.missingPoints == 0
      ensures r.Failure? ==> r.error == LeaseLost && SameTenure(Some(index), manifest)
      ensures Here(manifest, if r.Success? then Finished else Erring)
    {
      hide After, Enabled, Follow, Alone, CorrectUpTo, AsMap, CompareOf;
      var prepared := PrepareCollection(manifest, index);
      if prepared.Failure? {
        return Failure(prepared.error);
      }
      var looped := RunBatches(manifest, prepared.value.0, prepared.value.1, batchSize);
      if looped.Failure? {
        return Failure(looped.error);
      }
      var (afterChunkId, pointCount) := looped.value;
      FrozenIsDistinct(manifest);
      var audit, listing := AuditWithManifest(manifest, index, true);
      ListStep(manifest, at, token, identity, afterChunkId, pointCount, listing);
      Advance(manifest, By(token, ListForAudit(listing)));
      AuditStep(manifest, at, token, identity, afterChunkId, listing);
      Advance(manifest, By(token, FinishAudit));
      if !audit.exact || audit.expected != pointCount {
        return Failure(Corrupt);
      }
      r := Finish(manifest, index, afterChunkId, pointCount, audit.orphans, audit.missing);
    }

    // The last checkpoint and the completion.
    method Finish(manifest: seq<Entry>, ghost index: Row, afterChunkId: int, pointCount: int, orphans: int, missing: int)
      returns (r: Result<Row, IndexError>)
      requires Renewed() && SameTenure(Some(index), manifest) && index.identity == identity
      requires pointCount == |manifest| && ValidCheckpoint(manifest, afterChunkId, pointCount) && orphans == 0 && missing == 0
      requires Here(manifest, Audited(afterChunkId, pointCount, orphans))
      modifies this, table
      ensures Prompt() ==> r.Success?
      ensures r.Success? ==>
                table.row == Some(r.value) && Sound(r.value, manifest) && r.value.status == Completed
                && r.value.identity == identity && r.value.buildAttempt == index.buildAttempt
                && r.value.checkpointPoints == |manifest|
                && r.value.orphanPoints == 0 && r.value.missingPoints == 0
      ensures r.Failure? ==> r.error == LeaseLost && SameTenure(Some(index), manifest)
      ensures Here(manifest, if r.Success? then Finished else Erring)
    {
      hide After, Enabled, Follow, Alone;
      var saved := Save(manifest, SaveAudit(duration), Audited(afterChunkId, pointCount, orphans), Completing(pointCount),
                        afterChunkId, pointCount, orphans, missing, true);
      if !saved {
        return Failure(LeaseLost);
      }
      Wait(manifest);
      CompleteStep(manifest, at, token, identity, pointCount);
      Advance(manifest, By(token, Action.Complete));
      var completed := table.Complete(token, pointCount, ManifestChecksum(identity, manifest), now);
      if !completed {
        return Failure(LeaseLost);
      }
      return Success(table.row.value);
    }
  }

  lemma NothingDeleted(points: map<nat, string>)
    ensures DeletePoints(points, []) == points
  {
  }

  lemma EmptyIsCorrect(manifest: seq<Entry>)
    ensures CorrectUpTo(manifest, map[], 0) && ValidCheckpoint(manifest, 0, 0)
  {
  }

  lemma PlannedCheckpoint(manifest: seq<Entry>, checkpointPoints: nat, points: map<nat, string>, plan: ResumePlan)
    requires checkpointPoints <= |manifest| && IsResumePlan(manifest, checkpointPoints, points, plan)
    ensures ValidCheckpoint(manifest, plan.checkpointChunkId, plan.checkpointPoints)
  {
  }

  // The audit's counts decide exactness: for a complete listing, the three
  // drift counts are zero and the sizes agree exactly when the points are the
  // manifest's; after deleting the orphans the orphan count no longer matters.
  lemma AuditCounts(manifest: seq<Entry>, actual: seq<Entry>, points: map<nat, string>)
    requires DistinctIds(manifest) && Lists(actual, points)
    ensures var c := CompareOf(manifest, actual);
            && (c.missing == [] && c.orphans == [] && c.mismatched == [] && |actual| == |manifest|
                <==> points == AsMap(manifest))
            && (c.missing == [] && c.mismatched == [] && |actual| - |c.orphans| == |manifest|
                <==> DeletePoints(points, c.orphans) == AsMap(manifest))
            && (points == AsMap(manifest) ==> c.orphans == [])
  {
    var c := CompareOf(manifest, actual);
    var expected := AsMap(manifest);
    ComparisonCleanIffExact(manifest, actual, points);
    SortedOrphans(actual, expected);
    SortedMismatched(actual, expected);
    MissingIdsMembers(manifest, points);
    AsMapSize(actual);
    AsMapSize(manifest);
    OrphanCount(c.orphans, points);
    RepairedIsExpected(c.missing, c.orphans, c.mismatched, points, expected);
  }

  // Deleting the orphans of a store leaves exactly the expected points when
  // nothing is missing and nothing mismatched, and only then.
  lemma RepairedIsExpected(missing: seq<nat>, orphans: seq<nat>, mismatched: seq<nat>,
                           points: map<nat, string>, expected: map<nat, string>)
    requires forall x :: x in missing <==> x in expected && x !in points
    requires ExactlyOrphans(orphans, expected, points) && ExactlyMismatched(mismatched, expected, points)
    ensures missing == [] && mismatched == [] <==> DeletePoints(points, orphans) == expected
  {
    var left := DeletePoints(points, orphans);
    assert missing != [] ==> missing[0] in missing;
    assert mismatched != [] ==> mismatched[0] in mismatched;
    if missing == [] && mismatched == [] {
      forall x | x in expected
        ensures x in left && left[x] == expected[x]
      {
        assert x !in missing;
        assert !IsOrphan(x, expected) && x !in orphans;
        assert x !in mismatched;
        assert !IsMismatched(x, points[x], expected);
      }
      forall x | x in left
        ensures x in expected
      {
        assert x in points && x !in orphans;
        assert !IsOrphan(x, expected);
      }
      assert left.Keys == expected.Keys;
    }
  }

  lemma OrphanCount(orphans: seq<nat>, points: map<nat, string>)
    requires IdSorting.StrictlyAscending(orphans) && forall x | x in orphans :: x in points
    ensures |DeletePoints(points, orphans)| == |points| - |orphans|
  {
    var gone := Members(orphans);
    DistinctSize(orphans);
    assert gone <= points.Keys;
    assert DeletePoints(points, orphans).Keys == points.Keys - gone;
    assert |points.Keys - gone| == |points.Keys| - |gone|;
    assert |DeletePoints(points, orphans).Keys| == |DeletePoints(points, orphans)|;
  }

  ghost function Members(ids: seq<nat>): (s: set<nat>)
    ensures forall x :: x in s <==> x in ids
  {
    set x | x in ids
  }

  lemma {:induction false} DistinctSize(ids: seq<nat>)
    requires IdSorting.StrictlyAscending(ids)
    ensures |Members(ids)| == |ids|
  {
    if ids != [] {
      var front, last := ids[..|ids| - 1], ids[|ids| - 1];
      DistinctSize(front);
      assert ids == front + [last];
      assert Members(ids) == Members(front) + {last};
      assert last !in Members(front);
    }
  }

  // Every crash is recoverable: whatever the builders did before, a row that is
  // not completed meets Build's precondition and, once its lease has run out,
  // is available to the next builder.
  lemma AnyCrashIsRecoverable(manifest: seq<Entry>, fenced: bool, run: Run, i: nat, now: int)
    requires Frozen(manifest) && IsRun(manifest, fenced, run) && i < |run.states|
    requires run.states[i].row.Some? && run.states[i].row.value.status != Completed
    requires run.states[i].row.value.lease.Some? ==> run.states[i].row.value.lease.value.expiresAt <= now
    ensures Sound(run.states[i].row.value, manifest)
    ensures Acquirable(run.states[i].row.value, run.states[i].row.value.identity, now)
  {
    RowAlwaysSound(manifest, fenced, run, i);
  }
}
