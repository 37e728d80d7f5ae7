// Any number of concurrent vector index builders over one control row and one
// point store, with a crash allowed between any two steps.  A builder is named
// by the fresh lease token it acquires with.
module VectorProtocol {
  import opened Wrappers
  import IdSorting
  import opened VectorManifest
  import opened VectorResume
  import opened VectorControl

  datatype Collection = Absent | Present(points: map<nat, string>)

  // Where a builder stands in Build, with the values of its local variables.
  datatype Phase =
    | Preparing(chunkId: int, points: int)                      // acquired, row snapshot read
    | Recreating(missing: int)                                  // about to recreate the collection
    | Planning(chunkId: int, points: int)                       // about to list points and plan
    | Deleting(plan: ResumePlan)                                // about to delete the planned points
    | Rewound(chunkId: int, points: int, orphans: int, missing: int) // resumed checkpoint not yet saved
    | Looping(chunkId: int, points: int)                        // head of the batch loop
    | Upserted(chunkId: int, points: int)                       // batch stored, checkpoint not yet saved
    | Auditing(chunkId: int, points: int)                       // no chunk left
    | AuditListed(chunkId: int, points: int, actual: seq<Entry>) // listing taken, orphans not yet deleted
    | Audited(chunkId: int, points: int, orphans: int)          // exact; final checkpoint not yet saved
    | Completing(points: int)
    | Erring                                                    // error returned, MarkVectorIndexFailed pending
    | Finished

  datatype Builder = Builder(identity: Identity, phase: Phase)

  datatype State = State(
    row: Option<Row>,
    store: Collection,
    now: int,
    builders: map<Token, Builder>,
    issued: set<Token>)

  datatype Action =
    | CheckCollection
    | Recreate
    | Plan(listing: seq<Entry>)
    | Delete
    | SaveRewound(duration: int)
    | UpsertBatch(batchSize: nat)
    | SaveBatch(duration: int)
    | ListForAudit(listing: seq<Entry>)
    | FinishAudit
    | SaveAudit(duration: int)
    | Complete
    | StoreFault(left: Collection)   // a store call fails and may leave anything behind
    | GiveUp                         // any other error
    | MarkFailed

  datatype Step =
    | Tick(elapsed: nat)
    | Acquire(token: Token, identity: Identity, runCompleted: bool, owner: string, duration: int)
    | By(token: Token, action: Action)
    | Crash(token: Token)

  // ListVectorChunks: entries after the given chunk id, at most `limit`.
  function Later(manifest: seq<Entry>, chunkId: int): seq<Entry> {
    if manifest == [] then []
    else (if manifest[0].chunkId > chunkId then [manifest[0]] else []) + Later(manifest[1..], chunkId)
  }

  function NextBatch(manifest: seq<Entry>, chunkId: int, limit: nat): (batch: seq<Entry>)
    ensures |batch| <= limit
  {
    var later := Later(manifest, chunkId);
    if |later| <= limit then later else later[..limit]
  }

  function Upsert(points: map<nat, string>, batch: seq<Entry>): map<nat, string> {
    points + AsMap(batch)
  }

  predicate TouchesStore(action: Action) {
    action.CheckCollection? || action.Recreate? || action.Plan? || action.Delete? || action.UpsertBatch?
    || action.ListForAudit? || action.FinishAudit? || action.StoreFault?
  }

  ghost predicate ActionEnabled(manifest: seq<Entry>, s: State, b: Builder, action: Action) {
    match action
    case CheckCollection => b.phase.Preparing?
    case Recreate => b.phase.Recreating?
    case Plan(listing) =>
      && b.phase.Planning? && s.store.Present? && Lists(listing, s.store.points)
    case Delete => b.phase.Deleting? && s.store.Present?
    case SaveRewound(_) => b.phase.Rewound?
    case UpsertBatch(batchSize) => b.phase.Looping? && batchSize > 0 && s.store.Present?
    case SaveBatch(_) => b.phase.Upserted?
    case ListForAudit(listing) =>
      b.phase.Auditing? && s.store.Present? && Lists(listing, s.store.points)
    case FinishAudit => b.phase.AuditListed? && s.store.Present?
    case SaveAudit(_) => b.phase.Audited?
    case Complete => b.phase.Completing?
    case StoreFault(_) => !b.phase.Erring? && !b.phase.Finished?
    case GiveUp => !b.phase.Erring? && !b.phase.Finished?
    case MarkFailed => b.phase.Erring?
  }

  ghost predicate Enabled(manifest: seq<Entry>, fenced: bool, s: State, step: Step) {
    match step
    case Tick(_) => true
    case Acquire(token, _, _, _, _) => token !in s.issued
    case By(token, action) =>
      && token in s.builders
      && ActionEnabled(manifest, s, s.builders[token], action)
      && (fenced && TouchesStore(action) ==> Owns(s.row, token))
    case Crash(token) => token in s.builders
  }

  function Move(s: State, token: Token, phase: Phase): State
    requires token in s.builders
  {
    s.(builders := s.builders[token := s.builders[token].(phase := phase)])
  }

  function SavedOr(saved: bool, phase: Phase): Phase {
    if saved then phase else Erring
  }

  ghost function AfterControl(manifest: seq<Entry>, s: State, token: Token, action: Action): State
    requires token in s.builders && ActionEnabled(manifest, s, s.builders[token], action) && !TouchesStore(action)
  {
    var b := s.builders[token];
    var live := OwnsLive(s.row, token, s.now);
    match action
    case SaveRewound(duration) =>
      var p := b.phase;
      Move(s.(row := AfterSave(s.row, token, p.chunkId, p.points, p.orphans, p.missing, s.now, duration, true)),
           token, SavedOr(live, Looping(p.chunkId, p.points)))
    case SaveBatch(duration) =>
      var p := b.phase;
      Move(s.(row := AfterSave(s.row, token, p.chunkId, p.points, 0, 0, s.now, duration, false)),
           token, SavedOr(live, Looping(p.chunkId, p.points)))
    case SaveAudit(duration) =>
      var p := b.phase;
      Move(s.(row := AfterSave(s.row, token, p.chunkId, p.points, p.orphans, 0, s.now, duration, true)),
           token, SavedOr(live, Completing(p.points)))
    case Complete =>
      Move(s.(row := AfterComplete(s.row, token, b.phase.points, ManifestChecksum(b.identity, manifest), s.now)),
           token, SavedOr(Completable(s.row, token, b.phase.points, s.now), Finished))
    case GiveUp => Move(s, token, Erring)
    case MarkFailed => Move(s.(row := AfterFail(s.row, token)), token, Finished)
  }

  ghost function AfterStore(manifest: seq<Entry>, s: State, token: Token, action: Action): State
    requires token in s.builders && ActionEnabled(manifest, s, s.builders[token], action) && TouchesStore(action)
  {
    var p := s.builders[token].phase;
    match action
    case CheckCollection =>
      Move(s, token,
           if !ValidCheckpoint(manifest, p.chunkId, p.points) then Erring
           else if p.points == 0 then Recreating(0)
           else if s.store.Absent? then Recreating(p.points)
           else Planning(p.chunkId, p.points))
    case Recreate => Move(s.(store := Present(map[])), token, Rewound(0, 0, 0, p.missing))
    case Plan(listing) =>
      Move(s, token,
           if !ValidCheckpoint(manifest, p.chunkId, p.points) then Erring
           else Deleting(PlanOf(manifest, p.points, AsMap(listing))))
    case Delete =>
      var plan := p.plan;
      Move(s.(store := Present(DeletePoints(s.store.points, plan.orphanIds + plan.mismatchedIds))), token,
           Rewound(plan.checkpointChunkId, plan.checkpointPoints, |plan.orphanIds|,
                   |plan.missingCheckpointIds| + |plan.mismatchedIds|))
    case UpsertBatch(batchSize) =>
      var batch := NextBatch(manifest, p.chunkId, batchSize);
      if batch == [] then Move(s, token, Auditing(p.chunkId, p.points))
      else Move(s.(store := Present(Upsert(s.store.points, batch))), token,
                Upserted(batch[|batch| - 1].chunkId, p.points + |batch|))
    case ListForAudit(listing) => Move(s, token, AuditListed(p.chunkId, p.points, listing))
    case FinishAudit =>
      var c := CompareOf(manifest, p.actual);
      var exact := c.missing == [] && c.mismatched == [] && |p.actual| - |c.orphans| == |manifest|;
      Move(s.(store := Present(DeletePoints(s.store.points, c.orphans))), token,
           if exact && p.points == |manifest| then Audited(p.chunkId, p.points, |c.orphans|) else Erring)
    case StoreFault(left) => Move(s.(store := left), token, Erring)
  }

  // The plan the planner returns; PlanExists and ResumePlanUnique make it the
  // only one.
  ghost function PlanOf(manifest: seq<Entry>, points: nat, held: map<nat, string>): (plan: ResumePlan)
    requires points <= |manifest|
    ensures IsResumePlan(manifest, points, held, plan)
  {
    PlanExists(manifest, points, held);
    var plan :| IsResumePlan(manifest, points, held, plan);
    plan
  }

  ghost function After(manifest: seq<Entry>, fenced: bool, s: State, step: Step): State
    requires Enabled(manifest, fenced, s, step)
  {
    match step
    case Tick(elapsed) => s.(now := s.now + elapsed)
    case Acquire(token, identity, runCompleted, owner, duration) =>
      var row := AfterAcquire(s.row, identity, runCompleted, owner, token, s.now, duration);
      var t := s.(row := row, issued := s.issued + {token});
      if Owns(row, token) then
        t.(builders := s.builders[token := Builder(identity, Preparing(row.value.checkpointChunkId, row.value.checkpointPoints))])
      else t
    case By(token, action) =>
      if TouchesStore(action) then AfterStore(manifest, s, token, action) else AfterControl(manifest, s, token, action)
    case Crash(token) => s.(builders := s.builders - {token})
  }

  // No row and no builder yet; the collection may hold anything.
  ghost predicate Init(s: State) {
    s.row == None && s.builders == map[] && s.issued == {}
  }

  datatype Run = Run(states: seq<State>, steps: seq<Step>)

  ghost predicate IsRun(manifest: seq<Entry>, fenced: bool, run: Run) {
    && |run.states| == |run.steps| + 1
    && Init(run.states[0])
    && forall i | 0 <= i < |run.steps| ::
         Enabled(manifest, fenced, run.states[i], run.steps[i])
         && run.states[i + 1] == After(manifest, fenced, run.states[i], run.steps[i])
  }

  // ---- Existence of the plan -------------------------------------------------

  lemma {:induction false} SortedSetExists(ids: set<nat>) returns (r: seq<nat>)
    ensures IdSorting.StrictlyAscending(r) && forall x :: x in r <==> x in ids
    decreases |ids|
  {
    if x :| x in ids {
      var rest := SortedSetExists(ids - {x});
      IdSorting.InsertMembers(x, rest);
      IdSorting.InsertOrders(x, rest);
      r := IdSorting.Insert(x, rest);
    } else {
      r := [];
    }
  }

  lemma {:induction false} LongestPrefixExists(manifest: seq<Entry>, points: nat, held: map<nat, string>) returns (r: nat)
    requires points <= |manifest|
    ensures r <= points && (forall i | 0 <= i < r :: Holds(held, manifest[i]))
    ensures r < points ==> !Holds(held, manifest[r])
  {
    r := 0;
    while r < points && Holds(held, manifest[r])
      invariant r <= points && forall i | 0 <= i < r :: Holds(held, manifest[i])
    {
      r := r + 1;
    }
  }

  lemma PlanExists(manifest: seq<Entry>, points: nat, held: map<nat, string>)
    requires points <= |manifest|
    ensures exists plan :: IsResumePlan(manifest, points, held, plan)
  {
    var expected := AsMap(manifest);
    var orphans := SortedSetExists(set x | x in held && IsOrphan(x, expected));
    var mismatched := SortedSetExists(set x | x in held && IsMismatched(x, held[x], expected));
    var r := LongestPrefixExists(manifest, points, held);
    assert IsResumePlan(manifest, points, held,
                        ResumePlan(CheckpointId(manifest, r), r, BadIds(manifest[..points], held), orphans, mismatched));
  }

  // ---- The batch query -------------------------------------------------------

  lemma {:induction false} LaterNone(manifest: seq<Entry>, chunkId: int)
    requires forall i | 0 <= i < |manifest| :: manifest[i].chunkId > chunkId
    ensures Later(manifest, chunkId) == manifest
  {
    if manifest != [] {
      LaterNone(manifest[1..], chunkId);
    }
  }

  // From a valid checkpoint the next batch is the next slice of the manifest.
  lemma {:induction false} LaterIsSuffix(manifest: seq<Entry>, chunkId: int, points: nat)
    requires Frozen(manifest) && ValidCheckpoint(manifest, chunkId, points)
    ensures Later(manifest, chunkId) == manifest[points..]
    decreases |manifest|
  {
    if points == 0 {
      LaterNone(manifest, chunkId);
    } else if points == 1 {
      LaterNone(manifest[1..], chunkId);
    } else {
      assert manifest[0].chunkId < manifest[points - 1].chunkId;
      LaterIsSuffix(manifest[1..], chunkId, points - 1);
    }
  }

  lemma NextBatchIsSlice(manifest: seq<Entry>, chunkId: int, points: nat, limit: nat)
    requires Frozen(manifest) && ValidCheckpoint(manifest, chunkId, points) && limit > 0
    ensures var n := if |manifest| - points <= limit then |manifest| - points else limit;
            NextBatch(manifest, chunkId, limit) == manifest[points..points + n]
  {
    LaterIsSuffix(manifest, chunkId, points);
  }

  // ---- Invariants of the control row, with unfenced store calls --------------

  ghost predicate LocalSound(manifest: seq<Entry>, phase: Phase) {
    match phase
    case Preparing(c, p) => ValidCheckpoint(manifest, c, p)
    case Planning(c, p) => ValidCheckpoint(manifest, c, p)
    case Deleting(plan) => ValidCheckpoint(manifest, plan.checkpointChunkId, plan.checkpointPoints)
    case Rewound(c, p, _, _) => ValidCheckpoint(manifest, c, p)
    case Looping(c, p) => ValidCheckpoint(manifest, c, p)
    case Upserted(c, p) => ValidCheckpoint(manifest, c, p)
    case Auditing(c, p) => ValidCheckpoint(manifest, c, p)
    case AuditListed(c, p, _) => ValidCheckpoint(manifest, c, p)
    case Audited(c, p, _) => ValidCheckpoint(manifest, c, p) && p == |manifest|
    case Completing(p) => p == |manifest|
    case _ => true
  }

  ghost predicate ControlInv(manifest: seq<Entry>, s: State) {
    && (s.row.Some? ==> Sound(s.row.value, manifest))
    && (s.row.Some? && s.row.value.lease.Some? ==> s.row.value.lease.value.token in s.issued)
    && s.builders.Keys <= s.issued
    && (forall t | t in s.builders ::
          s.row.Some? && s.builders[t].identity == s.row.value.identity && LocalSound(manifest, s.builders[t].phase))
  }

  lemma ControlActionPreserves(manifest: seq<Entry>, s: State, token: Token, action: Action)
    requires Frozen(manifest) && ControlInv(manifest, s)
    requires token in s.builders && ActionEnabled(manifest, s, s.builders[token], action) && !TouchesStore(action)
    ensures ControlInv(manifest, AfterControl(manifest, s, token, action))
  {
    hide ValidCheckpoint;
    var b := s.builders[token];
    assert LocalSound(manifest, b.phase);
    var next := AfterControl(manifest, s, token, action);
    assert next.row.Some? && Sound(next.row.value, manifest) && next.row.value.identity == s.row.value.identity;
    assert LocalSound(manifest, next.builders[token].phase);
  }

  lemma MovePreserves(manifest: seq<Entry>, s: State, token: Token, phase: Phase, store: Collection)
    requires ControlInv(manifest, s) && token in s.builders && LocalSound(manifest, phase)
    ensures ControlInv(manifest, Move(s.(store := store), token, phase))
  {
  }

  lemma BatchPhaseSound(manifest: seq<Entry>, chunkId: int, points: nat, limit: nat)
    requires Frozen(manifest) && ValidCheckpoint(manifest, chunkId, points) && limit > 0
    ensures var batch := NextBatch(manifest, chunkId, limit);
            batch != [] ==> ValidCheckpoint(manifest, batch[|batch| - 1].chunkId, points + |batch|)
  {
    NextBatchIsSlice(manifest, chunkId, points, limit);
  }

  lemma StoreActionPreserves(manifest: seq<Entry>, s: State, token: Token, action: Action)
    requires Frozen(manifest) && ControlInv(manifest, s)
    requires token in s.builders && ActionEnabled(manifest, s, s.builders[token], action) && TouchesStore(action)
    ensures ControlInv(manifest, AfterStore(manifest, s, token, action))
  {
    var p := s.builders[token].phase;
    assert LocalSound(manifest, p);
    var next := AfterStore(manifest, s, token, action);
    if action.UpsertBatch? {
      BatchPhaseSound(manifest, p.chunkId, p.points, action.batchSize);
    }
    MovePreserves(manifest, s, token, next.builders[token].phase, next.store);
  }

  lemma StepPreservesControl(manifest: seq<Entry>, fenced: bool, s: State, step: Step)
    requires Frozen(manifest) && ControlInv(manifest, s) && Enabled(manifest, fenced, s, step)
    ensures ControlInv(manifest, After(manifest, fenced, s, step))
  {
    if step.By? {
      if TouchesStore(step.action) {
        StoreActionPreserves(manifest, s, step.token, step.action);
      } else {
        ControlActionPreserves(manifest, s, step.token, step.action);
      }
    }
  }

  lemma {:induction false} ControlInvHolds(manifest: seq<Entry>, fenced: bool, run: Run, i: nat)
    requires Frozen(manifest) && IsRun(manifest, fenced, run) && i < |run.states|
    ensures ControlInv(manifest, run.states[i])
  {
    if i > 0 {
      ControlInvHolds(manifest, fenced, run, i - 1);
      StepPreservesControl(manifest, fenced, run.states[i - 1], run.steps[i - 1]);
    }
  }

  // In every reachable state, whatever the interleaving, crashes and faults,
  // the control row's checkpoint is one the planner accepts and the row is
  // consistent with itself.
  lemma RowAlwaysSound(manifest: seq<Entry>, fenced: bool, run: Run, i: nat)
    requires Frozen(manifest) && IsRun(manifest, fenced, run) && i < |run.states|
    ensures run.states[i].row.Some? ==> Sound(run.states[i].row.value, manifest)
  {
    ControlInvHolds(manifest, fenced, run, i);
  }

  // ---- Lease safety ----------------------------------------------------------

  ghost predicate Acquires(run: Run, i: nat, token: Token)
    requires i < |run.steps| && |run.states| == |run.steps| + 1
  {
    run.steps[i].Acquire? && run.steps[i].token == token && Owns(run.states[i + 1].row, token)
  }

  ghost predicate NoAcquisition(run: Run, i: nat, j: nat)
    requires i <= j <= |run.steps| && |run.states| == |run.steps| + 1
  {
    forall k, t | i <= k < j :: !Acquires(run, k, t)
  }

  ghost predicate HeldOnlyBy(row: Option<Row>, token: Token) {
    row.Some? && (row.value.lease.Some? ==> row.value.lease.value.token == token)
  }

  // A step changes the row only as the lease holder, or as an acquisition.
  lemma StepWritesAsHolder(manifest: seq<Entry>, fenced: bool, s: State, step: Step)
    requires Enabled(manifest, fenced, s, step)
    requires After(manifest, fenced, s, step).row != s.row
    ensures step.Acquire? || (step.By? && Owns(s.row, step.token))
  {
  }

  // The lease passes to another token only in an acquisition by that token.
  lemma StepMovesLease(manifest: seq<Entry>, fenced: bool, s: State, step: Step, token: Token)
    requires Enabled(manifest, fenced, s, step) && HeldOnlyBy(s.row, token)
    ensures var s' := After(manifest, fenced, s, step);
            HeldOnlyBy(s'.row, token) || (step.Acquire? && Owns(s'.row, step.token))
  {
  }

  lemma {:induction false} TenureHolds(manifest: seq<Entry>, fenced: bool, run: Run, i: nat, j: nat, token: Token)
    requires IsRun(manifest, fenced, run)
    requires i < j <= |run.steps| && Acquires(run, i, token) && NoAcquisition(run, i + 1, j)
    ensures HeldOnlyBy(run.states[j].row, token)
  {
    if j > i + 1 {
      TenureHolds(manifest, fenced, run, i, j - 1, token);
      StepMovesLease(manifest, fenced, run.states[j - 1], run.steps[j - 1], token);
      assert run.steps[j - 1].Acquire? ==> !Acquires(run, j - 1, run.steps[j - 1].token);
    }
  }

  // Between two acquisitions every checkpoint, failure or completion write
  // comes from the token of the first one.
  lemma OneWriterPerTenure(manifest: seq<Entry>, fenced: bool, run: Run, i: nat, j: nat, token: Token)
    requires IsRun(manifest, fenced, run)
    requires i < j < |run.steps| && Acquires(run, i, token) && NoAcquisition(run, i + 1, j)
    requires run.states[j + 1].row != run.states[j].row
    ensures run.steps[j].Acquire? || (run.steps[j].By? && run.steps[j].token == token)
  {
    TenureHolds(manifest, fenced, run, i, j, token);
    StepWritesAsHolder(manifest, fenced, run.states[j], run.steps[j]);
  }

  lemma StepGrantsOnlyFreshTokens(manifest: seq<Entry>, fenced: bool, s: State, step: Step, token: Token)
    requires Enabled(manifest, fenced, s, step) && token in s.issued && !Owns(s.row, token)
    ensures var s' := After(manifest, fenced, s, step); !Owns(s'.row, token) && token in s'.issued
  {
  }

  lemma {:induction false} SupersededNeverHolds(manifest: seq<Entry>, fenced: bool, run: Run,
                                                k: nat, j: nat, token: Token, newer: Token)
    requires IsRun(manifest, fenced, run)
    requires k < j <= |run.steps| && Acquires(run, k, newer) && newer != token && token in run.states[k].issued
    ensures !Owns(run.states[j].row, token) && token in run.states[j].issued
  {
    if j > k + 1 {
      SupersededNeverHolds(manifest, fenced, run, k, j - 1, token, newer);
      StepGrantsOnlyFreshTokens(manifest, fenced, run.states[j - 1], run.steps[j - 1], token);
    }
  }

  // A superseded token never changes the row again: once another token has
  // acquired, no step of the older builder alters the row.
  lemma SupersededNeverWrites(manifest: seq<Entry>, fenced: bool, run: Run,
                              i: nat, k: nat, j: nat, token: Token, newer: Token)
    requires Frozen(manifest) && IsRun(manifest, fenced, run)
    requires i < k < j < |run.steps| && Acquires(run, i, token) && Acquires(run, k, newer)
    requires run.steps[j].By? && run.steps[j].token == token
    ensures run.states[j + 1].row == run.states[j].row
  {
    IssuedGrows(manifest, fenced, run, i + 1, k);
    assert newer !in run.states[k].issued;
    SupersededNeverHolds(manifest, fenced, run, k, j, token, newer);
    if run.states[j + 1].row != run.states[j].row {
      StepWritesAsHolder(manifest, fenced, run.states[j], run.steps[j]);
    }
  }

  lemma {:induction false} IssuedGrows(manifest: seq<Entry>, fenced: bool, run: Run, i: nat, j: nat)
    requires IsRun(manifest, fenced, run) && i <= j < |run.states|
    ensures run.states[i].issued <= run.states[j].issued
  {
    if i < j {
      IssuedGrows(manifest, fenced, run, i, j - 1);
    }
  }

  lemma StepKeepsCompleted(manifest: seq<Entry>, fenced: bool, s: State, step: Step)
    requires Enabled(manifest, fenced, s, step) && ControlInv(manifest, s)
    requires s.row.Some? && s.row.value.status == Completed
    ensures After(manifest, fenced, s, step).row == s.row
  {
  }

  // Completed is terminal: no later step changes a completed row.
  lemma {:induction false} CompletedIsTerminal(manifest: seq<Entry>, fenced: bool, run: Run, i: nat, j: nat)
    requires Frozen(manifest) && IsRun(manifest, fenced, run) && i <= j < |run.states|
    requires run.states[i].row.Some? && run.states[i].row.value.status == Completed
    ensures run.states[j].row == run.states[i].row
  {
    if i < j {
      CompletedIsTerminal(manifest, fenced, run, i, j - 1);
      ControlInvHolds(manifest, fenced, run, j - 1);
      StepKeepsCompleted(manifest, fenced, run.states[j - 1], run.steps[j - 1]);
    }
  }

  // ---- The store, when no builder calls it without holding the lease ----------

  ghost predicate Within(held: map<nat, string>, expected: map<nat, string>) {
    forall x | x in held :: x in expected && held[x] == expected[x]
  }

  // Every point is a manifest point and the first `points` of them are there.
  ghost predicate CorrectUpTo(manifest: seq<Entry>, held: map<nat, string>, points: int) {
    Within(held, AsMap(manifest)) && 0 <= points <= |manifest| && Ids(manifest[..points]) <= held.Keys
  }

  ghost predicate PhaseMatchesStore(manifest: seq<Entry>, phase: Phase, store: Collection) {
    match phase
    case Deleting(plan) =>
      && store.Present?
      && CorrectUpTo(manifest, DeletePoints(store.points, plan.orphanIds + plan.mismatchedIds), plan.checkpointPoints)
    case Rewound(_, p, _, _) => store.Present? && CorrectUpTo(manifest, store.points, p)
    case Looping(_, p) => store.Present? && CorrectUpTo(manifest, store.points, p)
    case Upserted(_, p) => store.Present? && CorrectUpTo(manifest, store.points, p)
    case Auditing(_, p) => p == |manifest| && store == Present(AsMap(manifest))
    case AuditListed(_, p, actual) =>
      p == |manifest| && store == Present(AsMap(manifest)) && Lists(actual, store.points)
    case Audited(_, _, _) => store == Present(AsMap(manifest))
    case Completing(_) => store == Present(AsMap(manifest))
    case _ => true
  }

  ghost predicate StoreInv(manifest: seq<Entry>, s: State) {
    && (forall t | t in s.builders && Owns(s.row, t) :: PhaseMatchesStore(manifest, s.builders[t].phase, s.store))
    && (s.row.Some? && s.row.value.status == Completed ==> s.store == Present(AsMap(manifest)))
  }

  lemma CorrectEverywhere(manifest: seq<Entry>, held: map<nat, string>)
    requires CorrectUpTo(manifest, held, |manifest|)
    ensures held == AsMap(manifest)
  {
    var expected := AsMap(manifest);
    assert manifest[..|manifest|] == manifest;
    assert expected.Keys <= held.Keys;
    forall x | x in held.Keys
      ensures x in expected.Keys
    {
      assert x in held;
    }
    assert forall x | x in held :: held[x] == expected[x];
  }

  lemma SliceDistinct(manifest: seq<Entry>, points: nat, n: nat)
    requires DistinctIds(manifest) && points + n <= |manifest|
    ensures DistinctIds(manifest[points..points + n])
  {
    var batch := manifest[points..points + n];
    forall i, j | 0 <= i < j < n
      ensures batch[i].chunkId != batch[j].chunkId
    {
      assert manifest[points + i].chunkId != manifest[points + j].chunkId;
    }
  }

  lemma SliceEntry(manifest: seq<Entry>, points: nat, n: nat, x: nat)
    requires DistinctIds(manifest) && points + n <= |manifest|
    requires x in AsMap(manifest[points..points + n])
    ensures x in AsMap(manifest) && AsMap(manifest[points..points + n])[x] == AsMap(manifest)[x]
  {
    var batch := manifest[points..points + n];
    SliceDistinct(manifest, points, n);
    var e := AsMapEntry(batch, x);
    assert e in manifest;
    EntryHeld(manifest, e);
  }

  lemma SliceWithin(manifest: seq<Entry>, points: nat, n: nat)
    requires DistinctIds(manifest) && points + n <= |manifest|
    ensures Within(AsMap(manifest[points..points + n]), AsMap(manifest))
  {
    forall x | x in AsMap(manifest[points..points + n])
      ensures x in AsMap(manifest) && AsMap(manifest[points..points + n])[x] == AsMap(manifest)[x]
    {
      SliceEntry(manifest, points, n, x);
    }
  }

  // Upserting the next slice extends the correct prefix by that slice.
  lemma UpsertExtends(manifest: seq<Entry>, held: map<nat, string>, points: nat, n: nat)
    requires Frozen(manifest) && points + n <= |manifest| && CorrectUpTo(manifest, held, points)
    ensures CorrectUpTo(manifest, Upsert(held, manifest[points..points + n]), points + n)
  {
    FrozenIsDistinct(manifest);
    SliceWithin(manifest, points, n);
    assert manifest[..points + n] == manifest[..points] + manifest[points..points + n];
  }

  lemma UpsertPhaseMatches(manifest: seq<Entry>, held: map<nat, string>, chunkId: int, points: nat, limit: nat)
    requires Frozen(manifest) && ValidCheckpoint(manifest, chunkId, points) && limit > 0
    requires CorrectUpTo(manifest, held, points)
    ensures var batch := NextBatch(manifest, chunkId, limit);
            if batch == [] then points == |manifest| && held == AsMap(manifest)
            else CorrectUpTo(manifest, Upsert(held, batch), points + |batch|)
  {
    NextBatchIsSlice(manifest, chunkId, points, limit);
    var n := if |manifest| - points <= limit then |manifest| - points else limit;
    var batch := NextBatch(manifest, chunkId, limit);
    assert batch == manifest[points..points + n] && |batch| == n;
    if batch == [] {
      CorrectEverywhere(manifest, held);
    } else {
      UpsertExtends(manifest, held, points, n);
    }
  }

  // Carrying out a resume plan leaves a store that is correct up to its checkpoint.
  lemma PlanPhaseMatches(manifest: seq<Entry>, checkpointPoints: nat, held: map<nat, string>, plan: ResumePlan)
    requires Frozen(manifest) && checkpointPoints <= |manifest|
    requires IsResumePlan(manifest, checkpointPoints, held, plan)
    ensures CorrectUpTo(manifest, DeletePoints(held, plan.orphanIds + plan.mismatchedIds), plan.checkpointPoints)
  {
    var left := DeletePoints(held, plan.orphanIds + plan.mismatchedIds);
    PlannedDeletionsLeaveCorrectPoints(manifest, checkpointPoints, held, plan);
    forall x | x in Ids(manifest[..plan.checkpointPoints])
      ensures x in left
    {
      var e :| e in manifest[..plan.checkpointPoints] && e.chunkId == x;
      var i :| 0 <= i < plan.checkpointPoints && manifest[i] == e;
    }
  }

  // The audit of an exact store finds nothing to repair and is exact.
  lemma ExactAuditPasses(manifest: seq<Entry>, actual: seq<Entry>)
    requires Frozen(manifest) && Lists(actual, AsMap(manifest))
    ensures CompareOf(manifest, actual) == Comparison([], [], []) && |actual| == |manifest|
  {
    ComparisonCleanIffExact(manifest, actual, AsMap(manifest));
    AsMapSize(actual);
    AsMapSize(manifest);
  }

  lemma StoreActionMatches(manifest: seq<Entry>, s: State, token: Token, action: Action)
    requires Frozen(manifest) && ControlInv(manifest, s) && StoreInv(manifest, s)
    requires token in s.builders && ActionEnabled(manifest, s, s.builders[token], action) && TouchesStore(action)
    requires Owns(s.row, token)
    ensures var s' := AfterStore(manifest, s, token, action);
            PhaseMatchesStore(manifest, s'.builders[token].phase, s'.store)
  {
    var p := s.builders[token].phase;
    assert PhaseMatchesStore(manifest, p, s.store) && LocalSound(manifest, p);
    match action {
      case Plan(listing) =>
        if ValidCheckpoint(manifest, p.chunkId, p.points) {
          PlanPhaseMatches(manifest, p.points, s.store.points, PlanOf(manifest, p.points, AsMap(listing)));
        }
      case UpsertBatch(batchSize) =>
        UpsertPhaseMatches(manifest, s.store.points, p.chunkId, p.points, batchSize);
      case FinishAudit =>
        ExactAuditPasses(manifest, p.actual);
        assert DeletePoints(s.store.points, []) == s.store.points;
      case _ =>
    }
  }

  lemma StoreStepPreserves(manifest: seq<Entry>, s: State, token: Token, action: Action)
    requires Frozen(manifest) && ControlInv(manifest, s) && StoreInv(manifest, s)
    requires Enabled(manifest, true, s, By(token, action)) && TouchesStore(action)
    ensures StoreInv(manifest, AfterStore(manifest, s, token, action))
  {
    StoreActionMatches(manifest, s, token, action);
    var s' := AfterStore(manifest, s, token, action);
    assert s'.row == s.row && s'.builders.Keys == s.builders.Keys;
    assert s.row.value.status == Building;
  }

  lemma ControlStepPreserves(manifest: seq<Entry>, s: State, token: Token, action: Action)
    requires Frozen(manifest) && ControlInv(manifest, s) && StoreInv(manifest, s)
    requires Enabled(manifest, true, s, By(token, action)) && !TouchesStore(action)
    ensures StoreInv(manifest, AfterControl(manifest, s, token, action))
  {
    var p := s.builders[token].phase;
    var s' := AfterControl(manifest, s, token, action);
    assert s'.store == s.store;
    forall t | t in s'.builders && Owns(s'.row, t)
      ensures PhaseMatchesStore(manifest, s'.builders[t].phase, s.store)
    {
      assert Owns(s.row, t);
      assert PhaseMatchesStore(manifest, s.builders[t].phase, s.store);
    }
    if s'.row.Some? && s'.row.value.status == Completed && s.row.value.status != Completed {
      assert Owns(s.row, token) && p.Completing?;
    }
  }

  lemma StepPreservesStore(manifest: seq<Entry>, s: State, step: Step)
    requires Frozen(manifest) && ControlInv(manifest, s) && StoreInv(manifest, s) && Enabled(manifest, true, s, step)
    ensures StoreInv(manifest, After(manifest, true, s, step))
  {
    if step.By? {
      if TouchesStore(step.action) {
        StoreStepPreserves(manifest, s, step.token, step.action);
      } else {
        ControlStepPreserves(manifest, s, step.token, step.action);
      }
    } else if step.Acquire? {
      var s' := After(manifest, true, s, step);
      assert forall t | t in s'.builders && Owns(s'.row, t) && t != step.token :: t in s.builders && Owns(s.row, t);
    }
  }

  lemma {:induction false} StoreInvHolds(manifest: seq<Entry>, run: Run, i: nat)
    requires Frozen(manifest) && IsRun(manifest, true, run) && i < |run.states|
    ensures StoreInv(manifest, run.states[i])
  {
    if i > 0 {
      StoreInvHolds(manifest, run, i - 1);
      ControlInvHolds(manifest, true, run, i - 1);
      StepPreservesStore(manifest, run.states[i - 1], run.steps[i - 1]);
    }
  }

  // A completed index is exact for ever: from its completion on, the store
  // holds the manifest's ids with the manifest's hashes and nothing else.
  lemma CompletedStoreIsExact(manifest: seq<Entry>, run: Run, i: nat, j: nat)
    requires Frozen(manifest) && IsRun(manifest, true, run) && i <= j < |run.states|
    requires run.states[i].row.Some? && run.states[i].row.value.status == Completed
    ensures run.states[j].store == Present(AsMap(manifest))
    ensures run.states[j].row == run.states[i].row
  {
    CompletedIsTerminal(manifest, true, run, i, j);
    StoreInvHolds(manifest, run, j);
  }

  // The audit of a builder that still holds the lease never reports drift.
  lemma HolderAuditIsExact(manifest: seq<Entry>, run: Run, i: nat, token: Token)
    requires Frozen(manifest) && IsRun(manifest, true, run) && i < |run.steps|
    requires run.steps[i] == By(token, FinishAudit)
    ensures token in run.states[i + 1].builders && run.states[i + 1].builders[token].phase.Audited?
    ensures run.states[i + 1].store == run.states[i].store == Present(AsMap(manifest))
  {
    StoreInvHolds(manifest, run, i);
    var s := run.states[i];
    assert PhaseMatchesStore(manifest, s.builders[token].phase, s.store);
    ExactAuditPasses(manifest, s.builders[token].phase.actual);
    assert DeletePoints(s.store.points, []) == s.store.points;
  }
}
