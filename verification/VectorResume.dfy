// Planning the resumption of an interrupted vector index build, and the
// comparison of the point store with the manifest (vector_index.go).
module VectorResume {
  import opened Wrappers
  import opened IdSorting
  import opened VectorManifest

  datatype IndexError = Corrupt | LeaseLost | Leased | VersionMismatch | NotReady

  datatype ResumePlan = ResumePlan(
    checkpointChunkId: int,
    checkpointPoints: int,
    missingCheckpointIds: seq<nat>,
    orphanIds: seq<nat>,
    mismatchedIds: seq<nat>)

  // The chunk id a checkpoint over the first `points` manifest entries carries.
  function CheckpointId(manifest: seq<Entry>, points: nat): int
    requires points <= |manifest|
  {
    if points == 0 then 0 else manifest[points - 1].chunkId
  }

  predicate ValidCheckpoint(manifest: seq<Entry>, chunkId: int, points: int) {
    if points < 0 || points > |manifest| then false
    else if points == 0 then chunkId == 0
    else chunkId == manifest[points - 1].chunkId
  }

  // Ids of the entries that the store lacks or holds with another hash.
  function BadIds(entries: seq<Entry>, points: map<nat, string>): seq<nat> {
    if entries == [] then []
    else
      var front, last := entries[..|entries| - 1], entries[|entries| - 1];
      BadIds(front, points) + if Holds(points, last) then [] else [last.chunkId]
  }

  lemma {:induction false} NoBadIds(entries: seq<Entry>, points: map<nat, string>)
    ensures BadIds(entries, points) == [] <==> forall e | e in entries :: Holds(points, e)
  {
    if entries != [] {
      var front, last := entries[..|entries| - 1], entries[|entries| - 1];
      assert entries == front + [last];
      NoBadIds(front, points);
    }
  }

  predicate IsOrphan(id: nat, expected: map<nat, string>) {
    id !in expected
  }

  predicate IsMismatched(id: nat, hash: string, expected: map<nat, string>) {
    id in expected && expected[id] != hash
  }

  ghost predicate ExactlyOrphans(ids: seq<nat>, expected: map<nat, string>, points: map<nat, string>) {
    && StrictlyAscending(ids)
    && forall x :: x in ids <==> x in points && IsOrphan(x, expected)
  }

  ghost predicate ExactlyMismatched(ids: seq<nat>, expected: map<nat, string>, points: map<nat, string>) {
    && StrictlyAscending(ids)
    && forall x :: x in ids <==> x in points && IsMismatched(x, points[x], expected)
  }

  // What a resume plan has to say about a checkpoint over the first
  // `checkpointPoints` entries and a store that holds `points`.
  ghost predicate IsResumePlan(manifest: seq<Entry>, checkpointPoints: nat, points: map<nat, string>, plan: ResumePlan)
    requires checkpointPoints <= |manifest|
  {
    var expected := AsMap(manifest);
    // the longest prefix of the checkpoint that the store holds correctly
    && 0 <= plan.checkpointPoints <= checkpointPoints
    && (forall i | 0 <= i < plan.checkpointPoints :: Holds(points, manifest[i]))
    && (plan.checkpointPoints < checkpointPoints ==> !Holds(points, manifest[plan.checkpointPoints]))
    && plan.checkpointChunkId == CheckpointId(manifest, plan.checkpointPoints)
    // the drift lists
    && plan.missingCheckpointIds == BadIds(manifest[..checkpointPoints], points)
    && ExactlyOrphans(plan.orphanIds, expected, points)
    && ExactlyMismatched(plan.mismatchedIds, expected, points)
  }

  // First loop of planVectorResume: index the listing, reject a duplicate id.
  method ScanPoints(expected: map<nat, string>, actual: seq<Entry>)
    returns (duplicate: bool, points: map<nat, string>, orphans: seq<nat>, mismatched: seq<nat>)
    ensures duplicate <==> !DistinctIds(actual)
    ensures !duplicate ==> points == AsMap(actual)
    ensures !duplicate ==> orphans == OrphanIds(actual, expected) && mismatched == MismatchedIds(actual, expected)
  {
    duplicate, points, orphans, mismatched := false, map[], [], [];
    for k := 0 to |actual|
      invariant DistinctIds(actual[..k])
      invariant points == AsMap(actual[..k])
      invariant orphans == OrphanIds(actual[..k], expected)
      invariant mismatched == MismatchedIds(actual[..k], expected)
    {
      var point := actual[k];
      assert actual[..k + 1][..k] == actual[..k];
      DistinctStep(actual, k);
      if point.chunkId in points {
        return true, points, orphans, mismatched;
      }
      points := points[point.chunkId := point.contentHash];
      if point.chunkId !in expected {
        orphans := orphans + [point.chunkId];
      } else if point.contentHash != expected[point.chunkId] {
        mismatched := mismatched + [point.chunkId];
      }
    }
    assert actual[..|actual|] == actual;
  }

  // Second loop: rewind to the first checkpointed entry that is not held.
  method Rewind(manifest: seq<Entry>, checkpointPoints: nat, points: map<nat, string>)
    returns (rewindTo: nat, missing: seq<nat>)
    requires checkpointPoints <= |manifest|
    ensures rewindTo <= checkpointPoints
    ensures forall i | 0 <= i < rewindTo :: Holds(points, manifest[i])
    ensures rewindTo < checkpointPoints ==> !Holds(points, manifest[rewindTo])
    ensures missing == BadIds(manifest[..checkpointPoints], points)
  {
    missing := [];
    rewindTo := checkpointPoints;
    for position := 0 to checkpointPoints
      invariant missing == BadIds(manifest[..position], points)
      invariant rewindTo == checkpointPoints || rewindTo < position
      invariant rewindTo <= checkpointPoints
      invariant forall i | 0 <= i < position && i < rewindTo :: Holds(points, manifest[i])
      invariant rewindTo < checkpointPoints ==> !Holds(points, manifest[rewindTo])
    {
      assert manifest[..position + 1][..position] == manifest[..position];
      if !Holds(points, manifest[position]) {
        missing := missing + [manifest[position].chunkId];
        if position < rewindTo {
          rewindTo := position;
        }
      }
    }
  }

  method PlanVectorResume(manifest: seq<Entry>, checkpointChunkId: int, checkpointPoints: int, actual: seq<Entry>)
    returns (r: Result<ResumePlan, IndexError>)
    ensures r.Success? <==> ValidCheckpoint(manifest, checkpointChunkId, checkpointPoints) && DistinctIds(actual)
    ensures r.Failure? ==> r.error == Corrupt
    ensures r.Success? ==> IsResumePlan(manifest, checkpointPoints, AsMap(actual), r.value)
  {
    if !ValidCheckpoint(manifest, checkpointChunkId, checkpointPoints) {
      return Failure(Corrupt);
    }
    var expected := AsMap(manifest);
    var duplicate, points, orphans, mismatched := ScanPoints(expected, actual);
    if duplicate {
      return Failure(Corrupt);
    }
    var rewindTo, missing := Rewind(manifest, checkpointPoints, points);
    var chunkId := 0;
    if rewindTo > 0 {
      chunkId := manifest[rewindTo - 1].chunkId;
    }
    SortedOrphans(actual, expected);
    SortedMismatched(actual, expected);
    var plan := ResumePlan(chunkId, rewindTo, missing, Sorted(orphans), Sorted(mismatched));
    PlanFromLoops(manifest, checkpointPoints, points, plan);
    r := Success(plan);
  }

  lemma PlanFromLoops(manifest: seq<Entry>, checkpointPoints: nat, points: map<nat, string>, plan: ResumePlan)
    requires 0 <= plan.checkpointPoints <= checkpointPoints <= |manifest|
    requires forall i | 0 <= i < plan.checkpointPoints :: Holds(points, manifest[i])
    requires plan.checkpointPoints < checkpointPoints ==> !Holds(points, manifest[plan.checkpointPoints])
    requires plan.checkpointChunkId == CheckpointId(manifest, plan.checkpointPoints)
    requires plan.missingCheckpointIds == BadIds(manifest[..checkpointPoints], points)
    requires ExactlyOrphans(plan.orphanIds, AsMap(manifest), points)
    requires ExactlyMismatched(plan.mismatchedIds, AsMap(manifest), points)
    ensures IsResumePlan(manifest, checkpointPoints, points, plan)
  {
  }

  datatype Comparison = Comparison(missing: seq<nat>, orphans: seq<nat>, mismatched: seq<nat>)

  function MissingIds(manifest: seq<Entry>, points: map<nat, string>): seq<nat> {
    if manifest == [] then []
    else
      var front, last := manifest[..|manifest| - 1], manifest[|manifest| - 1];
      MissingIds(front, points) + if last.chunkId in points then [] else [last.chunkId]
  }

  // Ids of the listed entries that satisfy one of the two drift conditions, in
  // the order of the listing, one per entry.
  function OrphanIds(actual: seq<Entry>, expected: map<nat, string>): seq<nat> {
    if actual == [] then []
    else
      var last := actual[|actual| - 1];
      OrphanIds(actual[..|actual| - 1], expected) + if IsOrphan(last.chunkId, expected) then [last.chunkId] else []
  }

  function MismatchedIds(actual: seq<Entry>, expected: map<nat, string>): seq<nat> {
    if actual == [] then []
    else
      var last := actual[|actual| - 1];
      MismatchedIds(actual[..|actual| - 1], expected)
      + if IsMismatched(last.chunkId, last.contentHash, expected) then [last.chunkId] else []
  }

  function CompareOf(manifest: seq<Entry>, actual: seq<Entry>): Comparison {
    var expected := AsMap(manifest);
    Comparison(MissingIds(manifest, AsMap(actual)),
               Sorted(OrphanIds(actual, expected)),
               Sorted(MismatchedIds(actual, expected)))
  }

  method CompareVectorPoints(manifest: seq<Entry>, actual: seq<Entry>) returns (c: Comparison)
    ensures c == CompareOf(manifest, actual)
  {
    var expected := AsMap(manifest);
    var points: map<nat, string> := map[];
    var orphans, mismatched: seq<nat> := [], [];
    for k := 0 to |actual|
      invariant points == AsMap(actual[..k])
      invariant orphans == OrphanIds(actual[..k], expected)
      invariant mismatched == MismatchedIds(actual[..k], expected)
    {
      var point := actual[k];
      assert actual[..k + 1][..k] == actual[..k];
      points := points[point.chunkId := point.contentHash];
      if point.chunkId !in expected {
        orphans := orphans + [point.chunkId];
      } else if point.contentHash != expected[point.chunkId] {
        mismatched := mismatched + [point.chunkId];
      }
    }
    assert actual[..|actual|] == actual;
    var missing: seq<nat> := [];
    for k := 0 to |manifest|
      invariant missing == MissingIds(manifest[..k], points)
    {
      assert manifest[..k + 1][..k] == manifest[..k];
      if manifest[k].chunkId !in points {
        missing := missing + [manifest[k].chunkId];
      }
    }
    assert manifest[..|manifest|] == manifest;
    c := Comparison(missing, Sorted(orphans), Sorted(mismatched));
  }

  lemma {:induction false} MissingIdsMembers(manifest: seq<Entry>, points: map<nat, string>)
    ensures forall x :: x in MissingIds(manifest, points) <==> x in Ids(manifest) && x !in points
  {
    if manifest != [] {
      var front, last := manifest[..|manifest| - 1], manifest[|manifest| - 1];
      assert manifest == front + [last];
      MissingIdsMembers(front, points);
    }
  }

  lemma {:induction false} OrphanIdsMembers(actual: seq<Entry>, expected: map<nat, string>)
    ensures forall x :: x in OrphanIds(actual, expected) <==> x in Ids(actual) && x !in expected
  {
    if actual != [] {
      var front, last := actual[..|actual| - 1], actual[|actual| - 1];
      assert actual == front + [last];
      OrphanIdsMembers(front, expected);
    }
  }

  lemma {:induction false} MismatchedIdsMembers(actual: seq<Entry>, expected: map<nat, string>)
    requires DistinctIds(actual)
    ensures forall x :: x in MismatchedIds(actual, expected)
                        <==> x in AsMap(actual) && IsMismatched(x, AsMap(actual)[x], expected)
  {
    if actual != [] {
      var front, last := actual[..|actual| - 1], actual[|actual| - 1];
      assert actual == front + [last];
      MismatchedIdsMembers(front, expected);
      assert last.chunkId !in AsMap(front);
    }
  }

  lemma {:induction false} DriftListsDistinct(actual: seq<Entry>, expected: map<nat, string>)
    requires DistinctIds(actual)
    ensures NoDuplicates(OrphanIds(actual, expected)) && NoDuplicates(MismatchedIds(actual, expected))
  {
    if actual != [] {
      var front, last := actual[..|actual| - 1], actual[|actual| - 1];
      assert actual == front + [last];
      DriftListsDistinct(front, expected);
      OrphanIdsMembers(front, expected);
      MismatchedIdsMembers(front, expected);
      assert last.chunkId !in AsMap(front);
      assert last.chunkId !in OrphanIds(front, expected);
      assert last.chunkId !in MismatchedIds(front, expected);
    }
  }

  lemma SortedOrphans(actual: seq<Entry>, expected: map<nat, string>)
    requires DistinctIds(actual)
    ensures ExactlyOrphans(Sorted(OrphanIds(actual, expected)), expected, AsMap(actual))
  {
    OrphanIdsMembers(actual, expected);
    DriftListsDistinct(actual, expected);
    SortedFacts(OrphanIds(actual, expected));
  }

  lemma SortedMismatched(actual: seq<Entry>, expected: map<nat, string>)
    requires DistinctIds(actual)
    ensures ExactlyMismatched(Sorted(MismatchedIds(actual, expected)), expected, AsMap(actual))
  {
    MismatchedIdsMembers(actual, expected);
    DriftListsDistinct(actual, expected);
    SortedFacts(MismatchedIds(actual, expected));
  }

  lemma NothingMissing(manifest: seq<Entry>, points: map<nat, string>)
    ensures MissingIds(manifest, points) == [] <==> AsMap(manifest).Keys <= points.Keys
  {
    MissingIdsMembers(manifest, points);
    var missing := MissingIds(manifest, points);
    assert missing != [] ==> missing[0] in missing;
    assert forall x | x in AsMap(manifest).Keys && x !in points :: x in missing;
  }

  lemma NothingOrphaned(actual: seq<Entry>, points: map<nat, string>, expected: map<nat, string>)
    requires Lists(actual, points)
    ensures Sorted(OrphanIds(actual, expected)) == [] <==> points.Keys <= expected.Keys
  {
    hide Sorted, OrphanIds;
    OrphanIdsMembers(actual, expected);
    var orphans := OrphanIds(actual, expected);
    SortedFacts(orphans);
    assert |Sorted(orphans)| == |orphans|;
    assert orphans != [] ==> orphans[0] in orphans;
    assert forall x | x in points.Keys && x !in expected :: x in orphans;
  }

  lemma NothingMismatched(actual: seq<Entry>, points: map<nat, string>, expected: map<nat, string>)
    requires Lists(actual, points)
    ensures Sorted(MismatchedIds(actual, expected)) == []
            <==> forall x | x in points :: !IsMismatched(x, points[x], expected)
  {
    hide Sorted, MismatchedIds;
    MismatchedIdsMembers(actual, expected);
    var mismatched := MismatchedIds(actual, expected);
    SortedFacts(mismatched);
    assert |Sorted(mismatched)| == |mismatched|;
    assert mismatched != [] ==> mismatched[0] in mismatched;
  }

  lemma NoDriftIsEquality(points: map<nat, string>, expected: map<nat, string>)
    ensures points == expected
            <==> expected.Keys <= points.Keys && points.Keys <= expected.Keys
                 && forall x | x in points :: !IsMismatched(x, points[x], expected)
  {
  }

  // The audit is exact precisely when the store holds the manifest: for a
  // complete listing, no missing, orphan or mismatched id is reported if and
  // only if the points are the manifest's ids with the manifest's hashes.
  lemma ComparisonCleanIffExact(manifest: seq<Entry>, actual: seq<Entry>, points: map<nat, string>)
    requires Lists(actual, points)
    ensures CompareOf(manifest, actual) == Comparison([], [], []) <==> points == AsMap(manifest)
  {
    var expected := AsMap(manifest);
    NothingMissing(manifest, points);
    NothingOrphaned(actual, points, expected);
    NothingMismatched(actual, points, expected);
    NoDriftIsEquality(points, expected);
  }

  // The points left after DeletePoints.
  function DeletePoints(points: map<nat, string>, ids: seq<nat>): map<nat, string> {
    map x | x in points && x !in ids :: points[x]
  }

  lemma EmptyDrift(ids: seq<nat>, manifest: seq<Entry>, points: map<nat, string>)
    requires forall x | x in points :: x in AsMap(manifest) && points[x] == AsMap(manifest)[x]
    ensures ExactlyOrphans(ids, AsMap(manifest), points) ==> ids == []
    ensures ExactlyMismatched(ids, AsMap(manifest), points) ==> ids == []
  {
    if ids != [] {
      assert ids[0] in ids;
    }
  }

  // A plan is stable: delete the points it names, plan again from its own
  // checkpoint, and the same checkpoint comes back with nothing to repair.
  lemma ReplanningIsStable(manifest: seq<Entry>, checkpointPoints: nat, points: map<nat, string>,
                           plan: ResumePlan, next: ResumePlan)
    requires DistinctIds(manifest) && checkpointPoints <= |manifest|
    requires IsResumePlan(manifest, checkpointPoints, points, plan)
    requires IsResumePlan(manifest, plan.checkpointPoints,
                          DeletePoints(points, plan.orphanIds + plan.mismatchedIds), next)
    ensures ValidCheckpoint(manifest, plan.checkpointChunkId, plan.checkpointPoints)
    ensures next == ResumePlan(plan.checkpointChunkId, plan.checkpointPoints, [], [], [])
  {
    var left := DeletePoints(points, plan.orphanIds + plan.mismatchedIds);
    PlannedDeletionsLeaveCorrectPoints(manifest, checkpointPoints, points, plan);
    forall i | 0 <= i < plan.checkpointPoints
      ensures Holds(left, manifest[i])
    {
      AsMapLookup(manifest, i);
    }
    assert forall e | e in manifest[..plan.checkpointPoints] :: Holds(left, e);
    NoBadIds(manifest[..plan.checkpointPoints], left);
    EmptyDrift(next.orphanIds, manifest, left);
    EmptyDrift(next.mismatchedIds, manifest, left);
  }

  // Two plans for the same input agree, so the predicate pins the planner down.
  lemma ResumePlanUnique(manifest: seq<Entry>, checkpointPoints: nat, points: map<nat, string>,
                         p: ResumePlan, q: ResumePlan)
    requires checkpointPoints <= |manifest|
    requires IsResumePlan(manifest, checkpointPoints, points, p)
    requires IsResumePlan(manifest, checkpointPoints, points, q)
    ensures p == q
  {
    StrictlyAscendingUnique(p.orphanIds, q.orphanIds);
    StrictlyAscendingUnique(p.mismatchedIds, q.mismatchedIds);
  }

  // After the planned deletions the store holds only correct points, among
  // them the whole resumed prefix; this is what the batch loop builds on.
  lemma PlannedDeletionsLeaveCorrectPoints(manifest: seq<Entry>, checkpointPoints: nat,
                                           points: map<nat, string>, plan: ResumePlan)
    requires DistinctIds(manifest) && checkpointPoints <= |manifest|
    requires IsResumePlan(manifest, checkpointPoints, points, plan)
    ensures var left := DeletePoints(points, plan.orphanIds + plan.mismatchedIds);
            && (forall x | x in left :: x in AsMap(manifest) && left[x] == AsMap(manifest)[x])
            && (forall i | 0 <= i < plan.checkpointPoints :: manifest[i].chunkId in left)
  {
    forall i | 0 <= i < plan.checkpointPoints
      ensures manifest[i].chunkId in DeletePoints(points, plan.orphanIds + plan.mismatchedIds)
    {
      AsMapLookup(manifest, i);
      assert Holds(points, manifest[i]);
    }
  }
}
