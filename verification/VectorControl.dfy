// The leased control row of a vector index (vector_repository.go).  Each SQL
// statement is a function on the row, with the statement's WHERE clause as its
// guard; ControlTable is the table the builders share.
module VectorControl {
  import opened Wrappers
  import opened VectorManifest
  import opened VectorResume

  type Token = nat

  datatype Status = Building | Completed | Failed

  // Embedding model, revision, dimension and collection of an index.
  datatype Identity = Identity(model: string, revision: string, dimension: int, collection: string)

  // SHA-256 over the identity and the manifest lines, as a symbolic digest.
  datatype Checksum = ManifestChecksum(identity: Identity, manifest: seq<Entry>)

  datatype Lease = Lease(owner: string, token: Token, expiresAt: int)

  datatype Row = Row(
    identity: Identity,
    status: Status,
    pointCount: int,
    checkpointChunkId: int,
    checkpointPoints: int,
    buildAttempt: nat,
    lease: Option<Lease>,
    orphanPoints: int,
    missingPoints: int,
    checksum: Option<Checksum>)

  // A lease lasts whole seconds and at least one of them.
  function LeaseSeconds(duration: int): int {
    if duration < 1 then 1 else duration
  }

  // INSERT ... SELECT ... ON CONFLICT DO NOTHING
  function InsertIfAbsent(row: Option<Row>, identity: Identity, runCompleted: bool): Option<Row> {
    if row.None? && runCompleted then
      Some(Row(identity, Failed, 0, 0, 0, 0, None, 0, 0, None))
    else row
  }

  predicate Acquirable(row: Row, identity: Identity, now: int) {
    && row.identity == identity
    && row.status != Completed
    && (row.lease.None? || row.lease.value.expiresAt <= now)
  }

  function AfterAcquire(row: Option<Row>, identity: Identity, runCompleted: bool,
                        owner: string, token: Token, now: int, duration: int): Option<Row>
  {
    var present := InsertIfAbsent(row, identity, runCompleted);
    if present.Some? && Acquirable(present.value, identity, now) then
      Some(present.value.(status := Building,
                          buildAttempt := present.value.buildAttempt + 1,
                          pointCount := present.value.checkpointPoints,
                          checksum := None,
                          lease := Some(Lease(owner, token, now + LeaseSeconds(duration)))))
    else present
  }

  // status='building' AND lease_token=$3
  predicate Owns(row: Option<Row>, token: Token) {
    row.Some? && row.value.status == Building && row.value.lease.Some? && row.value.lease.value.token == token
  }

  // ... AND lease_expires_at>clock_timestamp()
  predicate OwnsLive(row: Option<Row>, token: Token, now: int) {
    Owns(row, token) && row.value.lease.value.expiresAt > now
  }

  function AfterSave(row: Option<Row>, token: Token, chunkId: int, points: int, orphans: int, missing: int,
                     now: int, duration: int, reconciled: bool): Option<Row>
  {
    if OwnsLive(row, token, now) then
      var r := row.value;
      Some(r.(checkpointChunkId := chunkId, checkpointPoints := points, pointCount := points,
              orphanPoints := if reconciled then orphans else r.orphanPoints,
              missingPoints := if reconciled then missing else r.missingPoints,
              lease := Some(r.lease.value.(expiresAt := now + LeaseSeconds(duration)))))
    else row
  }

  predicate Completable(row: Option<Row>, token: Token, points: int, now: int) {
    OwnsLive(row, token, now) && row.value.checkpointPoints == points
  }

  function AfterComplete(row: Option<Row>, token: Token, points: int, checksum: Checksum, now: int): Option<Row> {
    if Completable(row, token, points, now) then
      Some(row.value.(status := Completed, pointCount := points, checkpointPoints := points,
                      checksum := Some(checksum), lease := None))
    else row
  }

  function AfterFail(row: Option<Row>, token: Token): Option<Row> {
    if Owns(row, token) then Some(row.value.(status := Failed, lease := None)) else row
  }

  // What holds of the row in every reachable state: the planner accepts its
  // checkpoint, the two counts agree, only a building row is leased, and a
  // completed row covers and names the whole manifest.
  ghost predicate Sound(row: Row, manifest: seq<Entry>) {
    && ValidCheckpoint(manifest, row.checkpointChunkId, row.checkpointPoints)
    && row.pointCount == row.checkpointPoints
    && (row.lease.Some? <==> row.status == Building)
    && (row.status == Completed ==>
          row.pointCount == |manifest| && row.checksum == Some(ManifestChecksum(row.identity, manifest)))
  }

  class ControlTable {
    var row: Option<Row>

    constructor (row: Option<Row>)
      ensures this.row == row
    {
      this.row := row;
    }

    method Load() returns (r: Result<Row, IndexError>)
      ensures r == if row.Some? then Success(row.value) else Failure(NotReady)
    {
      r := if row.Some? then Success(row.value) else Failure(NotReady);
    }

    method Acquire(identity: Identity, runCompleted: bool, owner: string, token: Token, now: int, duration: int)
      returns (r: Result<Row, IndexError>)
      modifies this
      ensures row == AfterAcquire(old(row), identity, runCompleted, owner, token, now, duration)
      ensures var present := InsertIfAbsent(old(row), identity, runCompleted);
              r == if present.None? then Failure(NotReady)
                   else if Acquirable(present.value, identity, now) then Success(row.value)
                   else if present.value.status == Completed then Success(present.value)
                   else if present.value.identity != identity then Failure(VersionMismatch)
                   else Failure(Leased)
    {
      if row.None? && runCompleted {
        row := Some(Row(identity, Failed, 0, 0, 0, 0, None, 0, 0, None));
      }
      if row.Some? && Acquirable(row.value, identity, now) {
        var acquired := row.value.(status := Building, buildAttempt := row.value.buildAttempt + 1,
                                   pointCount := row.value.checkpointPoints, checksum := None,
                                   lease := Some(Lease(owner, token, now + LeaseSeconds(duration))));
        row := Some(acquired);
        return Success(acquired);
      }
      var current := Load();
      if current.Failure? || current.value.status == Completed {
        return current;
      }
      if current.value.identity != identity {
        return Failure(VersionMismatch);
      }
      return Failure(Leased);
    }

    method SaveCheckpoint(token: Token, chunkId: int, points: int, orphans: int, missing: int,
                          now: int, duration: int, reconciled: bool)
      returns (saved: bool)
      modifies this
      ensures saved == OwnsLive(old(row), token, now)
      ensures row == AfterSave(old(row), token, chunkId, points, orphans, missing, now, duration, reconciled)
    {
      saved := OwnsLive(row, token, now);
      if saved {
        var updated := row.value.(checkpointChunkId := chunkId, checkpointPoints := points, pointCount := points);
        if reconciled {
          updated := updated.(orphanPoints := orphans, missingPoints := missing);
        }
        row := Some(updated.(lease := Some(updated.lease.value.(expiresAt := now + LeaseSeconds(duration)))));
      }
    }

    method Complete(token: Token, points: int, checksum: Checksum, now: int) returns (completed: bool)
      modifies this
      ensures completed == Completable(old(row), token, points, now)
      ensures row == AfterComplete(old(row), token, points, checksum, now)
    {
      completed := Completable(row, token, points, now);
      if completed {
        row := Some(row.value.(status := Completed, pointCount := points, checkpointPoints := points,
                               checksum := Some(checksum), lease := None));
      }
    }

    method MarkFailed(token: Token)
      modifies this
      ensures row == AfterFail(old(row), token)
    {
      if Owns(row, token) {
        row := Some(row.value.(status := Failed, lease := None));
      }
    }
  }
}
