// The review server (evalreview/review_server.go): blind reviews kept in memory
// and in a progress file, then frozen into a final file.  A file write replaces
// the whole file or leaves it as it was, and the process may stop at any moment.
module ReviewServer {
  import opened Wrappers
  import opened Sequences
  import opened IdSorting
  import opened Matching
  import opened Text

  datatype Ref = Ref(sourceType: string, sourceId: int, sourceVersion: int)

  datatype Assignment = Assignment(caseId: string, reviewerId: string, pool: seq<Ref>, reviewBlind: bool)

  datatype Judgment = Judgment(ref: Ref, grade: int)

  datatype Submission = Submission(caseId: string, reviewerId: string, answerability: string, judgments: seq<Judgment>, reviewedAt: int)

  type File = seq<Submission>

  datatype Disk = Disk(progress: Option<File>, final: Option<File>)

  type Reviews = map<string, Submission>

  datatype Response = NotFound | BadRequest | Conflict | ServerError | Saved(s: Submission) | Frozen(count: nat)

  // ---- Validating a submission -----------------------------------------------

  predicate ValidAnswerability(s: string) {
    s == "answerable" || s == "insufficient_evidence" || s == "no_relevant_document" || s == "authorization_denied"
  }

  function Refs(judgments: seq<Judgment>): seq<Ref> {
    Map((j: Judgment) => j.ref, judgments)
  }

  ghost predicate ValidSubmission(a: Assignment, s: Submission) {
    && s.caseId == a.caseId && s.reviewerId == a.reviewerId
    && ValidAnswerability(s.answerability)
    && |s.judgments| == |a.pool|
    && (forall k | 0 <= k < |s.judgments| :: s.judgments[k].ref in a.pool && 0 <= s.judgments[k].grade <= 3)
    && (forall i, j | 0 <= i < j < |s.judgments| :: s.judgments[i].ref != s.judgments[j].ref)
  }

  // A valid submission judges every candidate of the pool exactly once.
  lemma JudgmentsMatchPool(a: Assignment, s: Submission)
    requires ValidSubmission(a, s)
    ensures OneToOne(a.pool, Refs(s.judgments))
  {
    forall i, j | 0 <= i < j < |Refs(s.judgments)|
      ensures Refs(s.judgments)[i] != Refs(s.judgments)[j]
    {
      assert s.judgments[i].ref != s.judgments[j].ref;
    }
    DrawnFromMatches(a.pool, Refs(s.judgments));
  }

  // The valid submissions exactly: the case's and the reviewer's own, with one of
  // four answers and a grade from 0 to 3 for every candidate and nothing else.
  lemma SubmissionExactly(a: Assignment, s: Submission)
    ensures ValidSubmission(a, s) <==>
              && s.caseId == a.caseId && s.reviewerId == a.reviewerId
              && s.answerability in ["answerable", "insufficient_evidence", "no_relevant_document", "authorization_denied"]
              && OneToOne(a.pool, Refs(s.judgments))
              && forall j | j in s.judgments :: 0 <= j.grade <= 3
  {
    if ValidSubmission(a, s) {
      JudgmentsMatchPool(a, s);
    }
    if OneToOne(a.pool, Refs(s.judgments)) {
      assert forall k | 0 <= k < |s.judgments| :: Refs(s.judgments)[k] == s.judgments[k].ref && Refs(s.judgments)[k] in a.pool;
    }
    assert forall k | 0 <= k < |s.judgments| :: s.judgments[k] in s.judgments;
  }

  method ValidateReviewSubmission(a: Assignment, s: Submission) returns (ok: bool)
    ensures ok <==> ValidSubmission(a, s)
  {
    if s.caseId != a.caseId || s.reviewerId != a.reviewerId {
      return false;
    }
    if !ValidAnswerability(s.answerability) {
      return false;
    }
    if |s.judgments| != |a.pool| {
      return false;
    }
    var expected: set<Ref> := set x | x in a.pool;
    var seen: set<Ref> := {};
    for k := 0 to |s.judgments|
      invariant forall i | 0 <= i < k :: s.judgments[i].ref in a.pool && 0 <= s.judgments[i].grade <= 3
      invariant forall i, j | 0 <= i < j < k :: s.judgments[i].ref != s.judgments[j].ref
      invariant forall x :: x in seen <==> exists i :: 0 <= i < k && s.judgments[i].ref == x
    {
      var key := s.judgments[k].ref;
      if key !in expected {
        return false;
      }
      if key in seen {
        return false;
      }
      if s.judgments[k].grade < 0 || s.judgments[k].grade > 3 {
        return false;
      }
      seen := seen + {key};
    }
    return true;
  }

  // ---- Assignments and files -------------------------------------------------

  // One reviewer, blind, no case twice.
  ghost predicate Assigned(assignments: seq<Assignment>, reviewerId: string) {
    && |assignments| > 0
    && (forall k | 0 <= k < |assignments| :: assignments[k].reviewerId == reviewerId && assignments[k].reviewBlind)
    && (forall i, j | 0 <= i < j < |assignments| :: assignments[i].caseId != assignments[j].caseId)
  }

  function AsMap(file: File): Reviews {
    if file == [] then map[] else AsMap(file[..|file| - 1])[file[|file| - 1].caseId := file[|file| - 1]]
  }

  ghost predicate ValidFor(assignments: seq<Assignment>, s: Submission) {
    exists k :: 0 <= k < |assignments| && ValidSubmission(assignments[k], s)
  }

  // What loadSubmissions accepts.
  ghost predicate GoodFile(assignments: seq<Assignment>, file: File) {
    && (forall k | 0 <= k < |file| :: ValidFor(assignments, file[k]))
    && (forall i, j | 0 <= i < j < |file| :: file[i].caseId != file[j].caseId)
  }

  ghost predicate GoodReviews(assignments: seq<Assignment>, reviews: Reviews) {
    forall c | c in reviews :: reviews[c].caseId == c && ValidFor(assignments, reviews[c])
  }

  // orderedSubmissions: the reviews in the order of the assignments.
  function Ordered(assignments: seq<Assignment>, reviews: Reviews): File {
    if assignments == [] then []
    else
      var c := assignments[|assignments| - 1].caseId;
      Ordered(assignments[..|assignments| - 1], reviews) + if c in reviews then [reviews[c]] else []
  }

  lemma {:induction false} AsMapFacts(file: File, c: string)
    ensures c in AsMap(file) <==> exists k :: 0 <= k < |file| && file[k].caseId == c
    ensures c in AsMap(file) ==> AsMap(file)[c] in file && AsMap(file)[c].caseId == c
  {
    if file != [] {
      var front := file[..|file| - 1];
      AsMapFacts(front, c);
      if k :| 0 <= k < |file| && file[k].caseId == c && k < |front| {
        assert front[k].caseId == c;
      }
    }
  }

  lemma {:induction false} OrderedMembers(assignments: seq<Assignment>, reviews: Reviews, s: Submission)
    ensures s in Ordered(assignments, reviews) <==>
            exists k :: 0 <= k < |assignments| && assignments[k].caseId in reviews && reviews[assignments[k].caseId] == s
  {
    if assignments != [] {
      var front := assignments[..|assignments| - 1];
      OrderedMembers(front, reviews, s);
      if k :| 0 <= k < |assignments| && assignments[k].caseId in reviews && reviews[assignments[k].caseId] == s && k < |front| {
        assert front[k].caseId in reviews;
      }
    }
  }

  ghost predicate DistinctIds(assignments: seq<Assignment>) {
    forall i, j | 0 <= i < j < |assignments| :: assignments[i].caseId != assignments[j].caseId
  }

  lemma {:induction false} OrderedDistinct(assignments: seq<Assignment>, reviews: Reviews)
    requires DistinctIds(assignments) && forall c | c in reviews :: reviews[c].caseId == c
    ensures var file := Ordered(assignments, reviews);
            forall i, j | 0 <= i < j < |file| :: file[i].caseId != file[j].caseId
  {
    if assignments != [] {
      var n := |assignments| - 1;
      var front, c := assignments[..n], assignments[n].caseId;
      OrderedDistinct(front, reviews);
      if c in reviews {
        forall x | x in Ordered(front, reviews)
          ensures x.caseId != c
        {
          OrderedMembers(front, reviews, x);
        }
        var file := Ordered(front, reviews);
        assert forall i | 0 <= i < |file| :: file[i] in file && file[i].caseId != c;
        assert Ordered(assignments, reviews) == file + [reviews[c]] && reviews[c].caseId == c;
      } else {
        assert Ordered(assignments, reviews) == Ordered(front, reviews);
      }
    }
  }

  // Writing the reviews in order and reading them back gives the same reviews.
  lemma OrderedReadsBack(assignments: seq<Assignment>, reviewerId: string, reviews: Reviews)
    requires Assigned(assignments, reviewerId) && GoodReviews(assignments, reviews)
    ensures var file := Ordered(assignments, reviews);
            && AsMap(file) == reviews && GoodFile(assignments, file) && |file| == |reviews|
  {
    hide ValidSubmission, Ordered;
    var file := Ordered(assignments, reviews);
    OrderedDistinct(assignments, reviews);
    forall k | 0 <= k < |file|
      ensures ValidFor(assignments, file[k])
    {
      OrderedMembers(assignments, reviews, file[k]);
    }
    forall c
      ensures c in AsMap(file) <==> c in reviews
      ensures c in reviews ==> c in AsMap(file) && AsMap(file)[c] == reviews[c]
    {
      ReadBackOne(assignments, reviews, file, c);
    }
    assert AsMap(file) == reviews;
    MapSize(file);
  }

  lemma ReadBackOne(assignments: seq<Assignment>, reviews: Reviews, file: File, c: string)
    requires GoodReviews(assignments, reviews) && file == Ordered(assignments, reviews)
    ensures c in AsMap(file) <==> c in reviews
    ensures c in reviews ==> c in AsMap(file) && AsMap(file)[c] == reviews[c]
  {
    hide Ordered, AsMap;
    AsMapFacts(file, c);
    if c in AsMap(file) {
      OrderedMembers(assignments, reviews, AsMap(file)[c]);
    }
    if c in reviews {
      var k :| 0 <= k < |assignments| && ValidSubmission(assignments[k], reviews[c]);
      assert assignments[k].caseId == c;
      OrderedMembers(assignments, reviews, reviews[c]);
      var i :| 0 <= i < |file| && file[i] == reviews[c];
    }
  }

  lemma {:induction false} MapSize(file: File)
    requires forall i, j | 0 <= i < j < |file| :: file[i].caseId != file[j].caseId
    ensures |AsMap(file)| == |file|
  {
    if file != [] {
      var front, s := file[..|file| - 1], file[|file| - 1];
      MapSize(front);
      AsMapFacts(front, s.caseId);
      assert s.caseId !in AsMap(front);
      assert AsMap(file).Keys == AsMap(front).Keys + {s.caseId};
      assert |AsMap(file).Keys| == |AsMap(file)| && |AsMap(front).Keys| == |AsMap(front)|;
    }
  }

  // The final file lists each assignment once, in order.
  ghost predicate Complete(assignments: seq<Assignment>, file: File) {
    |file| == |assignments| && forall k | 0 <= k < |file| :: file[k].caseId == assignments[k].caseId
  }

  lemma {:induction false} OrderedLength(assignments: seq<Assignment>, reviews: Reviews)
    requires forall c | c in reviews :: reviews[c].caseId == c
    ensures |Ordered(assignments, reviews)| <= |assignments|
    ensures |Ordered(assignments, reviews)| == |assignments| ==> Complete(assignments, Ordered(assignments, reviews))
  {
    if assignments != [] {
      OrderedLength(assignments[..|assignments| - 1], reviews);
    }
  }

  // ---- The server ------------------------------------------------------------

  datatype Memory = Memory(reviews: Reviews, finalized: bool)

  ghost predicate Loads(assignments: seq<Assignment>, d: Disk) {
    && (d.final.Some? ==> GoodFile(assignments, d.final.value))
    && (d.final.None? && d.progress.Some? ==> GoodFile(assignments, d.progress.value))
  }

  // The reviews a server started on this disk holds.
  function Content(d: Disk): Reviews {
    if d.final.Some? then AsMap(d.final.value)
    else if d.progress.Some? then AsMap(d.progress.value)
    else map[]
  }

  // Everything a request may find the server and the disk in.
  ghost predicate Consistent(assignments: seq<Assignment>, reviewerId: string, m: Memory, d: Disk) {
    && Assigned(assignments, reviewerId)
    && Loads(assignments, d) && GoodReviews(assignments, m.reviews)
    && m.reviews == Content(d)
    && m.finalized == d.final.Some?
  }

  // A review request: what it stores when it is valid.
  function Stored(reviewerId: string, caseId: string, input: Submission, now: int): Submission {
    input.(caseId := Trim(caseId), reviewerId := reviewerId, reviewedAt := now)
  }

  ghost predicate Storable(assignments: seq<Assignment>, reviewerId: string, caseId: string, input: Option<Submission>, now: int) {
    input.Some? && ValidFor(assignments, Stored(reviewerId, caseId, input.value, now))
  }

  // What loading a good file gives is what it says.
  lemma GoodFileLoads(assignments: seq<Assignment>, file: File)
    requires GoodFile(assignments, file)
    ensures GoodReviews(assignments, AsMap(file))
  {
    hide ValidFor;
    forall c | c in AsMap(file)
      ensures AsMap(file)[c].caseId == c && ValidFor(assignments, AsMap(file)[c])
    {
      AsMapFacts(file, c);
    }
  }

  lemma ContentGood(assignments: seq<Assignment>, d: Disk)
    requires Loads(assignments, d)
    ensures GoodReviews(assignments, Content(d))
  {
    if d.final.Some? {
      GoodFileLoads(assignments, d.final.value);
    } else if d.progress.Some? {
      GoodFileLoads(assignments, d.progress.value);
    }
  }

  class Server {
    const assignments: seq<Assignment>
    const reviewerId: string
    var reviews: Reviews
    var finalized: bool
    var disk: Disk

    ghost function Mem(): Memory
      reads this
    {
      Memory(reviews, finalized)
    }

    ghost predicate Valid()
      reads this
    {
      Consistent(assignments, reviewerId, Mem(), disk)
    }

    constructor (assignments: seq<Assignment>, reviewerId: string, disk: Disk, reviews: Reviews)
      requires Consistent(assignments, reviewerId, Memory(reviews, disk.final.Some?), disk)
      ensures Valid() && this.assignments == assignments && this.reviewerId == reviewerId && this.disk == disk
      ensures this.reviews == reviews && this.finalized == disk.final.Some?
    {
      this.assignments, this.reviewerId, this.disk, this.reviews := assignments, reviewerId, disk, reviews;
      this.finalized := disk.final.Some?;
    }

    // `written` answers whether the progress file could be replaced.
    method HandleReview(caseId: string, input: Option<Submission>, now: int, written: bool) returns (r: Response)
      requires Valid()
      modifies this
      ensures Valid() && finalized == old(finalized) && disk.final == old(disk.final)
      ensures r.Saved? <==> !old(finalized) && written && Storable(assignments, reviewerId, caseId, input, now)
      ensures r.Saved? ==>
                && r.s == Stored(reviewerId, caseId, input.value, now)
                && reviews == old(reviews)[r.s.caseId := r.s]
                && disk.progress == Some(Ordered(assignments, reviews))
                && r.s.caseId == Trim(caseId) && r.s.reviewerId == reviewerId && r.s.reviewedAt == now
                && r.s.answerability == input.value.answerability && r.s.judgments == input.value.judgments
      ensures r.NotFound? <==> forall k | 0 <= k < |assignments| :: assignments[k].caseId != Trim(caseId)
      ensures r.ServerError? <==> !old(finalized) && !written && Storable(assignments, reviewerId, caseId, input, now)
      ensures r.BadRequest? <==> !r.NotFound? && !Storable(assignments, reviewerId, caseId, input, now)
      ensures !r.Saved? ==> reviews == old(reviews) && disk == old(disk)
      ensures old(finalized) && Storable(assignments, reviewerId, caseId, input, now) ==> r == Conflict
      ensures State(disk, Some(Mem())) == After(Setup(assignments, reviewerId), old(State(disk, Some(Mem()))),
                                                Review(caseId, input, now, if written then Done else Refused))
    {
      hide Ordered, ValidSubmission, AsMap, ValidFor, GoodFile, GoodReviews, Trim, Content;
      var id := Trim(caseId);
      var assignment := AssignmentOf(assignments, id);
      if assignment.None? {
        Unassigned(assignments, id);
        return NotFound;
      }
      if input.None? {
        return BadRequest;
      }
      var stored := Stored(reviewerId, caseId, input.value, now);
      var ok := ValidateReviewSubmission(assignment.value, stored);
      AssignmentDecides(assignments, reviewerId, assignment.value, stored);
      if !ok {
        return BadRequest;
      }
      if finalized {
        return Conflict;
      }
      var previous := if id in reviews then Some(reviews[id]) else None;
      ghost var before := reviews;
      reviews := reviews[id := stored];
      GoodReviewsGrow(assignments, before, stored);
      OrderedReadsBack(assignments, reviewerId, reviews);
      var ordered := Ordered(assignments, reviews);
      if |ordered| != |reviews| || !written {
        reviews := if previous.Some? then reviews[id := previous.value] else reviews - {id};
        Undone(before, id, stored);
        return ServerError;
      }
      disk := disk.(progress := Some(ordered));
      ContentOfProgress(disk, ordered);
      return Saved(stored);
    }

    // `statFails` and `written`: looking for and writing the final file.
    method HandleFinalize(statFails: bool, written: bool) returns (r: Response)
      requires Valid()
      modifies this
      ensures Valid() && reviews == old(reviews) && disk.progress == old(disk.progress)
      ensures r.Frozen? <==> !old(finalized) && |reviews| == |assignments| && !statFails && written
      ensures r.Frozen? ==> r.count == |assignments|
      ensures r.Frozen? ==> finalized && disk.final == Some(Ordered(assignments, reviews)) && Complete(assignments, disk.final.value)
      ensures !r.Frozen? ==> finalized == old(finalized) && disk == old(disk)
      ensures r.Conflict? <==> old(finalized) || |reviews| != |assignments|
      ensures r.Frozen? || r.Conflict? || r.ServerError?
      ensures State(disk, Some(Mem())) == After(Setup(assignments, reviewerId), old(State(disk, Some(Mem()))),
                                                Finalize(statFails, if written then Done else Refused))
    {
      hide Ordered, ValidSubmission, AsMap, ValidFor;
      if finalized {
        return Conflict;
      }
      if |reviews| != |assignments| {
        return Conflict;
      }
      var ordered := Ordered(assignments, reviews);
      OrderedReadsBack(assignments, reviewerId, reviews);
      OrderedLength(assignments, reviews);
      if |ordered| != |reviews| || statFails {
        return ServerError;
      }
      if !written {
        return ServerError;
      }
      disk := disk.(final := Some(ordered));
      finalized := true;
      return Frozen(|ordered|);
    }
  }

  lemma GoodReviewsGrow(assignments: seq<Assignment>, reviews: Reviews, s: Submission)
    requires GoodReviews(assignments, reviews) && ValidFor(assignments, s)
    ensures GoodReviews(assignments, reviews[s.caseId := s])
  {
    hide ValidFor;
  }

  // Restoring the previous entry, or deleting the new one, undoes the change.
  lemma Undone(reviews: Reviews, id: string, s: Submission)
    ensures id in reviews ==> reviews[id := s][id := reviews[id]] == reviews
    ensures id !in reviews ==> reviews[id := s] - {id} == reviews
  {
  }

  lemma ContentOfProgress(d: Disk, file: File)
    requires d.progress == Some(file) && d.final.None?
    ensures Content(d) == AsMap(file)
  {
  }

  lemma Unassigned(assignments: seq<Assignment>, id: string)
    requires forall k | 0 <= k < |assignments| :: assignments[k].caseId != id
    ensures forall s: Submission | s.caseId == id :: !ValidFor(assignments, s)
  {
  }

  // The assignment of the case decides whether a submission is valid for any.
  lemma AssignmentDecides(assignments: seq<Assignment>, reviewerId: string, a: Assignment, s: Submission)
    requires Assigned(assignments, reviewerId) && a in assignments && a.caseId == s.caseId
    ensures ValidFor(assignments, s) <==> ValidSubmission(a, s)
  {
    if k :| 0 <= k < |assignments| && ValidSubmission(assignments[k], s) {
      var i :| 0 <= i < |assignments| && assignments[i] == a;
      assert i == k;
    }
  }

  // ---- Starting --------------------------------------------------------------

  // loadSubmissions into an empty map.
  method LoadSubmissions(assignments: seq<Assignment>, reviewerId: string, file: File) returns (r: Option<Reviews>)
    requires Assigned(assignments, reviewerId)
    ensures r.Some? <==> GoodFile(assignments, file)
    ensures r.Some? ==> r.value == AsMap(file)
  {
    hide ValidSubmission, ValidFor, Assigned;
    var reviews: Reviews := map[];
    assert file[..0] == [];
    for k := 0 to |file|
      invariant reviews == AsMap(file[..k])
      invariant forall i | 0 <= i < k :: ValidFor(assignments, file[i])
      invariant forall i, j | 0 <= i < j < k :: file[i].caseId != file[j].caseId
    {
      var s := file[k];
      assert file[..k + 1][..k] == file[..k];
      AsMapFacts(file[..k], s.caseId);
      var assignment := AssignmentOf(assignments, s.caseId);
      if assignment.None? {
        Unassigned(assignments, s.caseId);
        return None;
      }
      AssignmentDecides(assignments, reviewerId, assignment.value, s);
      if s.reviewerId != reviewerId {
        WrongReviewer(assignments, reviewerId, s);
        return None;
      }
      var ok := ValidateReviewSubmission(assignment.value, s);
      if !ok {
        return None;
      }
      if s.caseId in reviews {
        var i :| 0 <= i < k && file[..k][i].caseId == s.caseId;
        assert file[i].caseId == file[k].caseId;
        return None;
      }
      forall i | 0 <= i < k
        ensures file[i].caseId != file[k].caseId
      {
        assert file[..k][i] == file[i];
      }
      reviews := reviews[s.caseId := s];
    }
    assert file[..|file|] == file;
    return Some(reviews);
  }

  lemma WrongReviewer(assignments: seq<Assignment>, reviewerId: string, s: Submission)
    requires Assigned(assignments, reviewerId) && s.reviewerId != reviewerId
    ensures !ValidFor(assignments, s)
  {
  }

  method AssignmentOf(assignments: seq<Assignment>, caseId: string) returns (found: Option<Assignment>)
    ensures found.None? ==> forall k | 0 <= k < |assignments| :: assignments[k].caseId != caseId
    ensures found.Some? ==> found.value.caseId == caseId && found.value in assignments
  {
    for k := 0 to |assignments|
      invariant forall i | 0 <= i < k :: assignments[i].caseId != caseId
    {
      if assignments[k].caseId == caseId {
        return Some(assignments[k]);
      }
    }
    return None;
  }

  // The checks on the assignments file.
  method CheckAssignments(assignments: seq<Assignment>) returns (ok: bool)
    ensures ok <==> |assignments| > 0 && Assigned(assignments, assignments[0].reviewerId)
  {
    if |assignments| == 0 {
      return false;
    }
    var reviewerId := assignments[0].reviewerId;
    var seen: set<string> := {};
    for k := 0 to |assignments|
      invariant forall i | 0 <= i < k :: assignments[i].reviewerId == reviewerId && assignments[i].reviewBlind
      invariant forall i, j | 0 <= i < j < k :: assignments[i].caseId != assignments[j].caseId
      invariant forall x :: x in seen <==> exists i :: 0 <= i < k && assignments[i].caseId == x
    {
      if assignments[k].reviewerId != reviewerId || !assignments[k].reviewBlind {
        return false;
      }
      if assignments[k].caseId in seen {
        return false;
      }
      seen := seen + {assignments[k].caseId};
    }
    return true;
  }

  // `validRole` stands for the form of a reviewer identifier.
  method NewReviewServer(assignments: seq<Assignment>, disk: Disk, validRole: string -> bool) returns (r: Option<Server>)
    ensures r.Some? <==>
              |assignments| > 0 && validRole(assignments[0].reviewerId)
              && Assigned(assignments, assignments[0].reviewerId) && Loads(assignments, disk)
    ensures r.Some? ==>
              && fresh(r.value) && r.value.Valid()
              && r.value.assignments == assignments && r.value.disk == disk && r.value.reviews == Content(disk)
              && r.value.reviewerId == assignments[0].reviewerId && r.value.finalized == disk.final.Some?
    ensures r.Some? ==>
              && (forall k | 0 <= k < |assignments| :: assignments[k].reviewBlind && assignments[k].reviewerId == assignments[0].reviewerId)
              && (forall i, j | 0 <= i < j < |assignments| :: assignments[i].caseId != assignments[j].caseId)
  {
    hide GoodFile;
    if |assignments| == 0 || !validRole(assignments[0].reviewerId) {
      return None;
    }
    var ok := CheckAssignments(assignments);
    if !ok {
      return None;
    }
    var reviewerId := assignments[0].reviewerId;
    var loaded: Option<Reviews> := Some(map[]);
    if disk.final.Some? {
      loaded := LoadSubmissions(assignments, reviewerId, disk.final.value);
    } else if disk.progress.Some? {
      loaded := LoadSubmissions(assignments, reviewerId, disk.progress.value);
    }
    if loaded.None? {
      return None;
    }
    ContentGood(assignments, disk);
    var server := new Server(assignments, reviewerId, disk, loaded.value);
    return Some(server);
  }

  // ---- Runs with crashes -----------------------------------------------------

  // How far a write got: refused by the file system, or the process stopped
  // before or after the file was replaced.
  datatype Write = Done | Refused | CrashedBefore | CrashedAfter

  datatype Action =
    | Review(caseId: string, input: Option<Submission>, now: int, w: Write)
    | Finalize(statFails: bool, w: Write)
    | Crash
    | Restart

  // The disk and, while the process runs, its memory.
  datatype State = State(disk: Disk, memory: Option<Memory>)

  datatype Setup = Setup(assignments: seq<Assignment>, reviewerId: string)

  ghost predicate Accepted(u: Setup, st: State, a: Action) {
    && a.Review? && st.memory.Some? && !st.memory.value.finalized
    && Storable(u.assignments, u.reviewerId, a.caseId, a.input, a.now)
  }

  ghost predicate Finalizes(u: Setup, st: State, a: Action) {
    && a.Finalize? && st.memory.Some? && !st.memory.value.finalized
    && |st.memory.value.reviews| == |u.assignments| && !a.statFails
  }

  predicate Stops(w: Write) {
    w == CrashedBefore || w == CrashedAfter
  }

  predicate Reaches(w: Write) {
    w == Done || w == CrashedAfter
  }

  // One request, crash or restart.
  ghost function After(u: Setup, st: State, a: Action): State {
    match a
    case Review(caseId, input, now, w) =>
      if !Accepted(u, st, a) then st
      else
        var m := st.memory.value;
        var s := Stored(u.reviewerId, caseId, input.value, now);
        var reviews := if Reaches(w) then m.reviews[s.caseId := s] else m.reviews;
        State(if Reaches(w) then st.disk.(progress := Some(Ordered(u.assignments, reviews))) else st.disk,
              if Stops(w) then None else Some(m.(reviews := reviews)))
    case Finalize(_, w) =>
      if !Finalizes(u, st, a) then st
      else
        var m := st.memory.value;
        State(if Reaches(w) then st.disk.(final := Some(Ordered(u.assignments, m.reviews))) else st.disk,
              if Stops(w) then None else Some(m.(finalized := w == Done)))
    case Crash => st.(memory := None)
    case Restart =>
      if st.memory.Some? then st else st.(memory := Some(Memory(Content(st.disk), st.disk.final.Some?)))
  }

  ghost predicate Inv(u: Setup, st: State) {
    && Assigned(u.assignments, u.reviewerId) && Loads(u.assignments, st.disk)
    && (st.disk.final.Some? ==> Complete(u.assignments, st.disk.final.value))
    && (st.memory.Some? ==> Consistent(u.assignments, u.reviewerId, st.memory.value, st.disk))
  }

  lemma ReviewKeeps(u: Setup, st: State, a: Action)
    requires Inv(u, st) && a.Review?
    ensures Inv(u, After(u, st, a))
    ensures Content(After(u, st, a).disk) ==
            if Accepted(u, st, a) && Reaches(a.w)
            then Content(st.disk)[Trim(a.caseId) := Stored(u.reviewerId, a.caseId, a.input.value, a.now)]
            else Content(st.disk)
    ensures After(u, st, a).disk.final == st.disk.final
  {
    hide Ordered, AsMap, GoodFile, ValidFor;
    if Accepted(u, st, a) {
      var s := Stored(u.reviewerId, a.caseId, a.input.value, a.now);
      OrderedReadsBack(u.assignments, u.reviewerId, st.memory.value.reviews[s.caseId := s]);
    }
  }

  lemma FinalizeKeeps(u: Setup, st: State, a: Action)
    requires Inv(u, st) && a.Finalize?
    ensures Inv(u, After(u, st, a)) && Content(After(u, st, a).disk) == Content(st.disk)
    ensures st.disk.final.Some? ==> After(u, st, a).disk == st.disk
  {
    hide Ordered, AsMap, GoodFile, ValidFor;
    if Finalizes(u, st, a) {
      var reviews := st.memory.value.reviews;
      OrderedReadsBack(u.assignments, u.reviewerId, reviews);
      OrderedLength(u.assignments, reviews);
    }
  }

  // Every step keeps memory and disk in agreement; a review in the files changes
  // only by an accepted request for its case, and a final file never changes.
  lemma StepKeeps(u: Setup, st: State, a: Action)
    requires Inv(u, st)
    ensures Inv(u, After(u, st, a))
    ensures st.disk.final.Some? ==> After(u, st, a).disk == st.disk
    ensures !(a.Review? && Accepted(u, st, a) && Reaches(a.w)) ==> Content(After(u, st, a).disk) == Content(st.disk)
  {
    hide Ordered, AsMap, GoodFile, GoodReviews, Complete;
    match a {
      case Review(_, _, _, _) =>
        ReviewKeeps(u, st, a);
      case Finalize(_, _) =>
        FinalizeKeeps(u, st, a);
      case Crash =>
      case Restart =>
        ContentGood(u.assignments, st.disk);
    }
  }

  ghost function Run(u: Setup, st: State, actions: seq<Action>): State {
    if actions == [] then st else After(u, Run(u, st, actions[..|actions| - 1]), actions[|actions| - 1])
  }

  lemma {:induction false} RunKeeps(u: Setup, st: State, actions: seq<Action>)
    requires Inv(u, st)
    ensures Inv(u, Run(u, st, actions))
    ensures st.disk.final.Some? ==> Run(u, st, actions).disk == st.disk
  {
    hide Inv, After;
    if actions != [] {
      RunKeeps(u, st, actions[..|actions| - 1]);
      StepKeeps(u, Run(u, st, actions[..|actions| - 1]), actions[|actions| - 1]);
    }
  }

  // Whatever happened before, the memory equals the files as a map, starting
  // again succeeds, and the final file, once there, is complete and in order.
  lemma AlwaysRestartable(u: Setup, actions: seq<Action>)
    requires Assigned(u.assignments, u.reviewerId)
    ensures var st := Run(u, State(Disk(None, None), None), actions);
            && Loads(u.assignments, st.disk)
            && (st.memory.Some? ==> st.memory.value.reviews == Content(st.disk) && st.memory.value.finalized == st.disk.final.Some?)
            && (st.disk.final.Some? ==> Complete(u.assignments, st.disk.final.value))
            && After(u, st.(memory := None), Restart).memory == Some(Memory(Content(st.disk), st.disk.final.Some?))
  {
    hide After;
    RunKeeps(u, State(Disk(None, None), None), actions);
    RestartReads(u, Run(u, State(Disk(None, None), None), actions));
  }

  lemma RestartReads(u: Setup, st: State)
    ensures After(u, st.(memory := None), Restart).memory == Some(Memory(Content(st.disk), st.disk.final.Some?))
  {
  }

  // Whether an action may replace the review of a case in the files.
  ghost predicate Rewrites(a: Action, c: string) {
    a.Review? && Trim(a.caseId) == c && Reaches(a.w)
  }

  // An acknowledged review is in the files, and stays there through crashes,
  // restarts and finalisation until another write for its case reaches the disk.
  lemma {:induction false} AcknowledgedSurvives(u: Setup, st: State, a: Action, more: seq<Action>)
    requires Inv(u, st) && Accepted(u, st, a) && a.w == Done
    requires forall k | 0 <= k < |more| :: !Rewrites(more[k], Trim(a.caseId))
    ensures var c := Trim(a.caseId);
            var d := Run(u, After(u, st, a), more).disk;
            c in Content(d) && Content(d)[c] == Stored(u.reviewerId, a.caseId, a.input.value, a.now)
    decreases |more|
  {
    hide Inv, After, Content, Storable;
    var c := Trim(a.caseId);
    ReviewKeeps(u, st, a);
    if more != [] {
      var front, last := more[..|more| - 1], more[|more| - 1];
      AcknowledgedSurvives(u, st, a, front);
      RunKeeps(u, After(u, st, a), front);
      var before := Run(u, After(u, st, a), front);
      OtherCaseKept(u, before, last, c);
    }
  }

  lemma OtherCaseKept(u: Setup, st: State, a: Action, c: string)
    requires Inv(u, st) && c in Content(st.disk) && !Rewrites(a, c)
    ensures c in Content(After(u, st, a).disk) && Content(After(u, st, a).disk)[c] == Content(st.disk)[c]
  {
    hide Inv, After, Content;
    if a.Review? {
      ReviewKeeps(u, st, a);
    } else {
      StepKeeps(u, st, a);
    }
  }

  // After finalisation nothing changes any more.
  lemma FinalizedIsImmutable(u: Setup, st: State, actions: seq<Action>)
    requires Inv(u, st) && st.disk.final.Some?
    ensures var later := Run(u, st, actions);
            && later.disk == st.disk
            && (later.memory.Some? ==> later.memory.value == Memory(Content(st.disk), true))
  {
    hide After, AsMap;
    RunKeeps(u, st, actions);
  }
}
