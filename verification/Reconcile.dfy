// Repairing the counters of comments and notes from the fact tables
// (reconcile/repository.go): scheduled bounded batches and the full audit.
module Reconcile {
  import opened IdSorting
  import opened Sequences
  import Sweep

  const BATCH := 1000

  // The fact tables: one entry per row, holding the id the row refers to.
  datatype Facts = Facts(commentLikes: seq<nat>, noteLikes: seq<nat>, noteCollects: seq<nat>, noteShares: seq<nat>)

  datatype Comment = Comment(id: nat, noteId: nat, parentId: nat, status: int, likeCount: int, replyCount: int)

  datatype Note = Note(id: nat, viewCount: nat, likeCount: int, collectCount: int, commentCount: int, shareCount: int, hotScore: real)

  datatype Repaired = Repaired(notes: nat, comments: nat)

  // ---- SQL aggregates --------------------------------------------------------

  // SELECT ... WHERE x = ANY(ids)
  function Any(s: seq<nat>, ids: seq<nat>): seq<nat> {
    if s == [] then [] else (if s[0] in ids then [s[0]] else []) + Any(s[1..], ids)
  }

  function Positive(s: seq<nat>): seq<nat> {
    if s == [] then [] else (if s[0] > 0 then [s[0]] else []) + Positive(s[1..])
  }

  // GROUP BY with COUNT(*), and COALESCE(..., 0) for an absent group.
  function Count(s: seq<nat>, id: nat): nat {
    multiset(s)[id]
  }

  lemma CountFirst(x: nat, s: seq<nat>, id: nat)
    ensures Count([x] + s, id) == Count(s, id) + if x == id then 1 else 0
  {
  }

  lemma {:induction false} AnyCount(s: seq<nat>, ids: seq<nat>, id: nat)
    requires id in ids
    ensures Count(Any(s, ids), id) == Count(s, id)
  {
    if s != [] {
      AnyCount(s[1..], ids, id);
      CountFirst(s[0], s[1..], id);
      CountFirst(s[0], Any(s[1..], ids), id);
      assert s == [s[0]] + s[1..];
    }
  }

  lemma {:induction false} PositiveCount(s: seq<nat>, id: nat)
    requires id > 0
    ensures Count(Positive(s), id) == Count(s, id)
  {
    hide Count;
    if s != [] {
      PositiveCount(s[1..], id);
      CountFirst(s[0], s[1..], id);
      CountFirst(s[0], Positive(s[1..]), id);
      assert s == [s[0]] + s[1..];
      assert [] + Positive(s[1..]) == Positive(s[1..]);
    }
  }

  // The rows of a fact table about one id.
  function About(s: seq<nat>, id: nat): set<nat> {
    set k: nat | k < |s| && s[k] == id
  }

  lemma {:induction false} CountIsRows(s: seq<nat>, id: nat)
    ensures Count(s, id) == |About(s, id)|
  {
    if s != [] {
      var n := |s| - 1;
      CountIsRows(s[..n], id);
      assert s == s[..n] + [s[n]];
      assert About(s, id) == if s[n] == id then About(s[..n], id) + {n} else About(s[..n], id);
    } else {
      assert About(s, id) == {};
    }
  }

  // The columns of note_comments that no repair writes.
  datatype Link = Link(noteId: nat, parentId: nat, status: int)

  function Links(comments: seq<Comment>): seq<Link> {
    seq(|comments|, k requires 0 <= k < |comments| => Link(comments[k].noteId, comments[k].parentId, comments[k].status))
  }

  // parent_id and note_id of the comments with status 1.
  function Parents(links: seq<Link>): seq<nat> {
    if links == [] then [] else (if links[0].status == 1 then [links[0].parentId] else []) + Parents(links[1..])
  }

  function NotesOf(links: seq<Link>): seq<nat> {
    if links == [] then [] else (if links[0].status == 1 then [links[0].noteId] else []) + NotesOf(links[1..])
  }

  // The comments with status 1 that answer a comment, and those of a note.
  function Replies(comments: seq<Comment>, id: nat): set<nat> {
    set k: nat | k < |comments| && comments[k].status == 1 && comments[k].parentId == id
  }

  function ActiveOf(comments: seq<Comment>, id: nat): set<nat> {
    set k: nat | k < |comments| && comments[k].status == 1 && comments[k].noteId == id
  }

  lemma LinksSplit(front: seq<Comment>, c: Comment)
    ensures Links(front + [c]) == Links(front) + [Link(c.noteId, c.parentId, c.status)]
  {
  }

  lemma {:induction false} LinkCounts(comments: seq<Comment>, id: nat)
    ensures Count(Parents(Links(comments)), id) == |Replies(comments, id)|
    ensures Count(NotesOf(Links(comments)), id) == |ActiveOf(comments, id)|
  {
    if comments != [] {
      hide Count, Parents, NotesOf, Replies, ActiveOf, Links;
      var n := |comments| - 1;
      var front, c := comments[..n], comments[n];
      assert comments == front + [c];
      LinkCounts(front, id);
      LinksSplit(front, c);
      LinksAppend(Links(front), Link(c.noteId, c.parentId, c.status), id);
      RepliesGrow(front, c, id);
      ActiveGrow(front, c, id);
    } else {
      assert Replies(comments, id) == {} && ActiveOf(comments, id) == {};
    }
  }

  lemma RepliesGrow(front: seq<Comment>, c: Comment, id: nat)
    ensures |Replies(front + [c], id)| == |Replies(front, id)| + if c.status == 1 && c.parentId == id then 1 else 0
  {
    var more := Replies(front + [c], id);
    assert more == if c.status == 1 && c.parentId == id then Replies(front, id) + {|front|} else Replies(front, id);
  }

  lemma ActiveGrow(front: seq<Comment>, c: Comment, id: nat)
    ensures |ActiveOf(front + [c], id)| == |ActiveOf(front, id)| + if c.status == 1 && c.noteId == id then 1 else 0
  {
    var more := ActiveOf(front + [c], id);
    assert more == if c.status == 1 && c.noteId == id then ActiveOf(front, id) + {|front|} else ActiveOf(front, id);
  }

  lemma {:induction false} LinksAppend(links: seq<Link>, l: Link, id: nat)
    ensures Count(Parents(links + [l]), id) == Count(Parents(links), id) + if l.status == 1 && l.parentId == id then 1 else 0
    ensures Count(NotesOf(links + [l]), id) == Count(NotesOf(links), id) + if l.status == 1 && l.noteId == id then 1 else 0
  {
    hide Count;
    if links != [] {
      var rest := links[1..];
      assert (links + [l])[1..] == rest + [l] && (links + [l])[0] == links[0];
      LinksAppend(rest, l, id);
      LinkFirst(links[0], Parents(rest), Parents(rest + [l]), links[0].parentId, id);
      LinkFirst(links[0], NotesOf(rest), NotesOf(rest + [l]), links[0].noteId, id);
    } else {
      assert links + [l] == [l];
      OneLink(l, id);
    }
  }

  lemma OneLink(l: Link, id: nat)
    ensures Count(Parents([l]), id) == if l.status == 1 && l.parentId == id then 1 else 0
    ensures Count(NotesOf([l]), id) == if l.status == 1 && l.noteId == id then 1 else 0
    ensures Count(Parents([]), id) == 0 && Count(NotesOf([]), id) == 0
  {
    assert [l][1..] == [];
    assert Parents([l]) == if l.status == 1 then [l.parentId] else [];
    assert NotesOf([l]) == if l.status == 1 then [l.noteId] else [];
  }

  lemma LinkFirst(l: Link, a: seq<nat>, b: seq<nat>, x: nat, id: nat)
    ensures Count((if l.status == 1 then [x] else []) + a, id) - Count(a, id)
            == Count((if l.status == 1 then [x] else []) + b, id) - Count(b, id)
  {
    CountFirst(x, a, id);
    CountFirst(x, b, id);
    assert [] + a == a && [] + b == b;
  }

  // ---- The repairs -----------------------------------------------------------

  function HotScore(views: nat, likes: nat, collects: nat, comments: nat, shares: nat): real {
    (views + likes * 3 + collects * 8 + comments * 6 + shares * 5) as real
  }

  // The statement of the full audit for one comment.
  function AuditComment(f: Facts, links: seq<Link>, c: Comment): Comment {
    c.(likeCount := Count(f.commentLikes, c.id), replyCount := Count(Positive(Parents(links)), c.id))
  }

  // The statement of a batch, which only groups the facts about its ids.
  function BatchComment(f: Facts, links: seq<Link>, ids: seq<nat>, c: Comment): Comment {
    c.(likeCount := Count(Any(f.commentLikes, ids), c.id), replyCount := Count(Any(Parents(links), ids), c.id))
  }

  function AuditNote(f: Facts, links: seq<Link>, n: Note): Note {
    var likes, collects := Count(f.noteLikes, n.id), Count(f.noteCollects, n.id);
    var comments, shares := Count(NotesOf(links), n.id), Count(f.noteShares, n.id);
    n.(likeCount := likes, collectCount := collects, commentCount := comments, shareCount := shares,
       hotScore := HotScore(n.viewCount, likes, collects, comments, shares))
  }

  function BatchNote(f: Facts, links: seq<Link>, ids: seq<nat>, n: Note): Note {
    var likes, collects := Count(Any(f.noteLikes, ids), n.id), Count(Any(f.noteCollects, ids), n.id);
    var comments, shares := Count(Any(NotesOf(links), ids), n.id), Count(Any(f.noteShares, ids), n.id);
    n.(likeCount := likes, collectCount := collects, commentCount := comments, shareCount := shares,
       hotScore := HotScore(n.viewCount, likes, collects, comments, shares))
  }

  lemma BatchAgreesComment(f: Facts, links: seq<Link>, ids: seq<nat>, c: Comment)
    requires c.id in ids && c.id > 0
    ensures BatchComment(f, links, ids, c) == AuditComment(f, links, c)
  {
    AnyCount(f.commentLikes, ids, c.id);
    AnyCount(Parents(links), ids, c.id);
    PositiveCount(Parents(links), c.id);
  }

  lemma BatchAgreesNote(f: Facts, links: seq<Link>, ids: seq<nat>, n: Note)
    requires n.id in ids
    ensures BatchNote(f, links, ids, n) == AuditNote(f, links, n)
  {
    AnyCount(f.noteLikes, ids, n.id);
    AnyCount(f.noteCollects, ids, n.id);
    AnyCount(NotesOf(links), ids, n.id);
    AnyCount(f.noteShares, ids, n.id);
  }

  // ---- The database ----------------------------------------------------------

  datatype Db = Db(comments: seq<Comment>, notes: seq<Note>, commentCursor: nat, noteCursor: nat)

  function CommentId(c: Comment): nat { c.id }

  function NoteId(n: Note): nat { n.id }

  // Rows in id order, with positive ids as a bigserial column gives them.
  ghost predicate Tables(db: Db) {
    && StrictlyAscending(Sweep.Keys(db.comments, CommentId))
    && StrictlyAscending(Sweep.Keys(db.notes, NoteId))
    && (forall k | 0 <= k < |db.comments| :: db.comments[k].id > 0)
    && (forall k | 0 <= k < |db.notes| :: db.notes[k].id > 0)
  }

  function CommentFix(f: Facts, links: seq<Link>): Comment -> Comment {
    c => AuditComment(f, links, c)
  }

  function NoteFix(f: Facts, links: seq<Link>): Note -> Note {
    n => AuditNote(f, links, n)
  }

  function CommentBatchFix(f: Facts, links: seq<Link>, ids: seq<nat>): Comment -> Comment {
    c => BatchComment(f, links, ids, c)
  }

  function NoteBatchFix(f: Facts, links: seq<Link>, ids: seq<nat>): Note -> Note {
    n => BatchNote(f, links, ids, n)
  }

  // ReconcileAllCounters
  function Audited(f: Facts, db: Db): Db {
    var links := Links(db.comments);
    db.(comments := Map(CommentFix(f, links), db.comments), notes := Map(NoteFix(f, links), db.notes))
  }

  // ReconcileCounters
  function Reconciled(f: Facts, db: Db): Db {
    var commentIds := Sweep.NextBatch(Sweep.Keys(db.comments, CommentId), db.commentCursor, BATCH);
    var noteIds := Sweep.NextBatch(Sweep.Keys(db.notes, NoteId), db.noteCursor, BATCH);
    var comments := Sweep.Apply(db.comments, CommentId, CommentBatchFix(f, Links(db.comments), commentIds), commentIds);
    var notes := Sweep.Apply(db.notes, NoteId, NoteBatchFix(f, Links(comments), noteIds), noteIds);
    Db(comments, notes, Sweep.NextCursor(commentIds), Sweep.NextCursor(noteIds))
  }

  function RepairsBetween(before: Db, after: Db): Repaired
    requires |before.comments| == |after.comments| && |before.notes| == |after.notes|
  {
    Repaired(Sweep.Changed(before.notes, after.notes), Sweep.Changed(before.comments, after.comments))
  }

  class Repository {
    const facts: Facts
    var comments: seq<Comment>
    var notes: seq<Note>
    var commentCursor: nat
    var noteCursor: nat

    function Contents(): Db
      reads this
    {
      Db(comments, notes, commentCursor, noteCursor)
    }

    constructor (facts: Facts, db: Db)
      ensures this.facts == facts && Contents() == db
    {
      this.facts, comments, notes, commentCursor, noteCursor := facts, db.comments, db.notes, db.commentCursor, db.noteCursor;
    }

    method NextCommentBatch() returns (ids: seq<nat>)
      modifies this`commentCursor
      ensures ids == Sweep.NextBatch(Sweep.Keys(comments, CommentId), old(commentCursor), BATCH)
      ensures commentCursor == Sweep.NextCursor(ids)
    {
      var all := Sweep.Keys(comments, CommentId);
      ids := Sweep.Limit(Sweep.After(all, commentCursor), BATCH);
      if |ids| == 0 && commentCursor > 0 {
        ids := Sweep.Limit(Sweep.After(all, 0), BATCH);
      }
      commentCursor := if |ids| > 0 then ids[|ids| - 1] else 0;
    }

    method NextNoteBatch() returns (ids: seq<nat>)
      modifies this`noteCursor
      ensures ids == Sweep.NextBatch(Sweep.Keys(notes, NoteId), old(noteCursor), BATCH)
      ensures noteCursor == Sweep.NextCursor(ids)
    {
      var all := Sweep.Keys(notes, NoteId);
      ids := Sweep.Limit(Sweep.After(all, noteCursor), BATCH);
      if |ids| == 0 && noteCursor > 0 {
        ids := Sweep.Limit(Sweep.After(all, 0), BATCH);
      }
      noteCursor := if |ids| > 0 then ids[|ids| - 1] else 0;
    }

    method ReconcileCounters() returns (repaired: Repaired)
      modifies this
      ensures Contents() == Reconciled(facts, old(Contents()))
      ensures repaired == RepairsBetween(old(Contents()), Contents())
      ensures |comments| == |old(comments)| && repaired.comments == |Sweep.Differing(old(comments), comments)|
      ensures |notes| == |old(notes)| && repaired.notes == |Sweep.Differing(old(notes), notes)|
    {
      var before := Contents();
      var commentIds := NextCommentBatch();
      var noteIds := NextNoteBatch();
      comments := Sweep.Apply(comments, CommentId, CommentBatchFix(facts, Links(comments), commentIds), commentIds);
      notes := Sweep.Apply(notes, NoteId, NoteBatchFix(facts, Links(comments), noteIds), noteIds);
      repaired := RepairsBetween(before, Contents());
      Sweep.ChangedCounts(before.comments, comments);
      Sweep.ChangedCounts(before.notes, notes);
    }

    method ReconcileAllCounters() returns (repaired: Repaired)
      modifies this
      ensures Contents() == Audited(facts, old(Contents()))
      ensures repaired == RepairsBetween(old(Contents()), Contents())
      ensures |comments| == |old(comments)| && repaired.comments == |Sweep.Differing(old(comments), comments)|
      ensures |notes| == |old(notes)| && repaired.notes == |Sweep.Differing(old(notes), notes)|
    {
      var before := Contents();
      comments := Map(CommentFix(facts, Links(comments)), comments);
      LinksKept(facts, Links(before.comments), before.comments);
      notes := Map(NoteFix(facts, Links(comments)), notes);
      repaired := RepairsBetween(before, Contents());
      Sweep.ChangedCounts(before.comments, comments);
      Sweep.ChangedCounts(before.notes, notes);
    }
  }

  lemma LinksKept(f: Facts, links: seq<Link>, comments: seq<Comment>)
    ensures Links(Map(CommentFix(f, links), comments)) == Links(comments)
  {
  }

  // ---- Convergence -----------------------------------------------------------

  function RunsOf(f: Facts, db: Db, n: nat): Db
    decreases n
  {
    if n == 0 then db else RunsOf(f, Reconciled(f, db), n - 1)
  }

  function CommentSweep(f: Facts, db: Db): Sweep.State<Comment> {
    Sweep.Run(Sweep.State(db.comments, db.commentCursor), CommentId, CommentFix(f, Links(db.comments)), BATCH)
  }

  function NoteSweep(f: Facts, db: Db): Sweep.State<Note> {
    Sweep.Run(Sweep.State(db.notes, db.noteCursor), NoteId, NoteFix(f, Links(db.comments)), BATCH)
  }

  // A batch repairs its rows as the full audit would.
  lemma ReconciledIsSweep(f: Facts, db: Db)
    requires Tables(db)
    ensures var r := Reconciled(f, db);
            && Links(r.comments) == Links(db.comments) && Tables(r)
            && Sweep.State(r.comments, r.commentCursor) == CommentSweep(f, db)
            && Sweep.State(r.notes, r.noteCursor) == NoteSweep(f, db)
  {
    hide Sweep.NextBatch, AuditComment, AuditNote, BatchComment, BatchNote, StrictlyAscending;
    var r := Reconciled(f, db);
    var links := Links(db.comments);
    var commentIds := Sweep.NextBatch(Sweep.Keys(db.comments, CommentId), db.commentCursor, BATCH);
    var noteIds := Sweep.NextBatch(Sweep.Keys(db.notes, NoteId), db.noteCursor, BATCH);
    forall k | 0 <= k < |db.comments|
      ensures r.comments[k] == CommentSweep(f, db).rows[k]
      ensures Links(r.comments)[k] == links[k] && r.comments[k].id == db.comments[k].id
    {
      var c := db.comments[k];
      if c.id in commentIds {
        BatchAgreesComment(f, links, commentIds, c);
      }
      AuditKeeps(f, links, c);
    }
    assert Links(r.comments) == links;
    forall k | 0 <= k < |db.notes|
      ensures r.notes[k] == NoteSweep(f, db).rows[k] && r.notes[k].id == db.notes[k].id
    {
      var n := db.notes[k];
      if n.id in noteIds {
        BatchAgreesNote(f, links, noteIds, n);
      }
      AuditKeepsNote(f, links, n);
    }
    assert Sweep.Keys(r.comments, CommentId) == Sweep.Keys(db.comments, CommentId);
    assert Sweep.Keys(r.notes, NoteId) == Sweep.Keys(db.notes, NoteId);
    assert r.comments == CommentSweep(f, db).rows;
    assert r.notes == NoteSweep(f, db).rows;
  }

  lemma AuditKeeps(f: Facts, links: seq<Link>, c: Comment)
    ensures var r := AuditComment(f, links, c);
            r.id == c.id && r.noteId == c.noteId && r.parentId == c.parentId && r.status == c.status
  {
  }

  lemma AuditKeepsNote(f: Facts, links: seq<Link>, n: Note)
    ensures AuditNote(f, links, n).id == n.id
  {
  }

  lemma {:induction false} RunsAreSweeps(f: Facts, db: Db, n: nat)
    requires Tables(db)
    ensures var r := RunsOf(f, db, n);
            && Tables(r) && Links(r.comments) == Links(db.comments)
            && Sweep.State(r.comments, r.commentCursor)
               == Sweep.Runs(Sweep.State(db.comments, db.commentCursor), CommentId, CommentFix(f, Links(db.comments)), BATCH, n)
            && Sweep.State(r.notes, r.noteCursor)
               == Sweep.Runs(Sweep.State(db.notes, db.noteCursor), NoteId, NoteFix(f, Links(db.comments)), BATCH, n)
    decreases n
  {
    hide Reconciled, Tables, Sweep.Run, Links, CommentFix, NoteFix;
    if n > 0 {
      ReconciledIsSweep(f, db);
      RunsAreSweeps(f, Reconciled(f, db), n - 1);
    }
  }

  lemma SweepTables(f: Facts, db: Db)
    requires Tables(db)
    ensures Sweep.Table(db.comments, CommentId, CommentFix(f, Links(db.comments)))
    ensures Sweep.Table(db.notes, NoteId, NoteFix(f, Links(db.comments)))
  {
    hide Count;
  }

  // With no concurrent writes, from any cursors and any stored counters, the
  // bounded runs reach the full audit once each table was swept.
  lemma RunsReachAudit(f: Facts, db: Db, n: nat)
    requires Tables(db)
    requires n >= (|db.comments| + 999) / 1000 + 1 && n >= (|db.notes| + 999) / 1000 + 1
    ensures var r := RunsOf(f, db, n);
            && r.comments == Audited(f, db).comments && r.notes == Audited(f, db).notes
  {
    hide Tables, Sweep.Table, Sweep.Runs;
    RunsAreSweeps(f, db, n);
    SweepTables(f, db);
    Sweep.SweepConverges(Sweep.State(db.comments, db.commentCursor), CommentId, CommentFix(f, Links(db.comments)), BATCH, n);
    Sweep.SweepConverges(Sweep.State(db.notes, db.noteCursor), NoteId, NoteFix(f, Links(db.comments)), BATCH, n);
  }

  // Only counters and scores change, and they become what the rows say: likes,
  // collects and shares the rows of their tables, replies and comments the
  // comments with status 1, the score their weighted sum with the views.
  ghost predicate CommentCounted(f: Facts, comments: seq<Comment>, before: Comment, after: Comment) {
    && after.id == before.id && after.noteId == before.noteId && after.parentId == before.parentId && after.status == before.status
    && after.likeCount == |About(f.commentLikes, after.id)|
    && after.replyCount == |Replies(comments, after.id)|
  }

  ghost predicate NoteCounted(f: Facts, comments: seq<Comment>, before: Note, after: Note) {
    && after.id == before.id && after.viewCount == before.viewCount
    && after.likeCount == |About(f.noteLikes, after.id)|
    && after.collectCount == |About(f.noteCollects, after.id)|
    && after.commentCount == |ActiveOf(comments, after.id)|
    && after.shareCount == |About(f.noteShares, after.id)|
    && after.hotScore == (after.viewCount + 3 * after.likeCount + 8 * after.collectCount
                          + 6 * after.commentCount + 5 * after.shareCount) as real
  }

  lemma AuditCounts(f: Facts, db: Db)
    requires Tables(db)
    ensures var a := Audited(f, db);
            && |a.comments| == |db.comments| && |a.notes| == |db.notes|
            && (forall k | 0 <= k < |a.comments| :: CommentCounted(f, db.comments, db.comments[k], a.comments[k]))
            && (forall k | 0 <= k < |a.notes| :: NoteCounted(f, db.comments, db.notes[k], a.notes[k]))
  {
    hide Count, Parents, NotesOf, Positive, StrictlyAscending, About, Replies, ActiveOf;
    var a := Audited(f, db);
    forall k | 0 <= k < |a.comments|
      ensures CommentCounted(f, db.comments, db.comments[k], a.comments[k])
    {
      var id := db.comments[k].id;
      PositiveCount(Parents(Links(db.comments)), id);
      LinkCounts(db.comments, id);
      CountIsRows(f.commentLikes, id);
    }
    forall k | 0 <= k < |a.notes|
      ensures NoteCounted(f, db.comments, db.notes[k], a.notes[k])
    {
      var id := db.notes[k].id;
      LinkCounts(db.comments, id);
      CountIsRows(f.noteLikes, id);
      CountIsRows(f.noteCollects, id);
      CountIsRows(f.noteShares, id);
    }
  }

  // A second audit changes nothing.
  lemma AuditIsFixpoint(f: Facts, db: Db)
    requires Tables(db)
    ensures var a := Audited(f, db); Tables(a) && Audited(f, a) == a
  {
    hide Count, Parents, NotesOf, Positive, StrictlyAscending;
    var a := Audited(f, db);
    LinksKept(f, Links(db.comments), db.comments);
    AuditCounts(f, db);
    assert forall k | 0 <= k < |a.comments| :: CommentCounted(f, db.comments, db.comments[k], a.comments[k]);
    assert forall k | 0 <= k < |a.notes| :: NoteCounted(f, db.comments, db.notes[k], a.notes[k]);
    assert Sweep.Keys(a.comments, CommentId) == Sweep.Keys(db.comments, CommentId);
    assert Sweep.Keys(a.notes, NoteId) == Sweep.Keys(db.notes, NoteId);
    assert Audited(f, a).comments == a.comments;
    assert Audited(f, a).notes == a.notes;
  }

  lemma NothingLeft(f: Facts, db: Db)
    requires Tables(db) && Audited(f, db) == db
    ensures var r := Reconciled(f, db);
            && r.comments == db.comments && r.notes == db.notes
            && RepairsBetween(db, r) == Repaired(0, 0)
            && Tables(r) && Audited(f, r) == r
  {
    hide AuditComment, AuditNote, StrictlyAscending;
    ReconciledIsSweep(f, db);
    var r := Reconciled(f, db);
    forall k | 0 <= k < |db.comments|
      ensures r.comments[k] == db.comments[k]
    {
      assert Audited(f, db).comments[k] == db.comments[k];
    }
    forall k | 0 <= k < |db.notes|
      ensures r.notes[k] == db.notes[k]
    {
      assert Audited(f, db).notes[k] == db.notes[k];
    }
    assert r.comments == db.comments && r.notes == db.notes;
    Sweep.ChangedZero(db.comments, r.comments);
    Sweep.ChangedZero(db.notes, r.notes);
  }

  lemma AuditOfRows(f: Facts, a: Db, r: Db)
    requires Audited(f, a) == a && r.comments == a.comments && r.notes == a.notes
    ensures Audited(f, r) == r
  {
    hide CommentFix, NoteFix, Links;
  }

  // After convergence every further run repairs zero rows.
  lemma FurtherRunsRepairNothing(f: Facts, db: Db, n: nat, more: nat)
    requires Tables(db)
    requires n >= (|db.comments| + 999) / 1000 + 1 && n >= (|db.notes| + 999) / 1000 + 1
    ensures var r := RunsOf(f, db, n + more);
            && |r.comments| == |Reconciled(f, r).comments| && |r.notes| == |Reconciled(f, r).notes|
            && RepairsBetween(r, Reconciled(f, r)) == Repaired(0, 0)
            && r.comments == Audited(f, db).comments && r.notes == Audited(f, db).notes
  {
    hide Tables, Reconciled, RunsOf, CommentFix, NoteFix, Links;
    RunsReachAudit(f, db, n + more);
    RunsAreSweeps(f, db, n + more);
    var r := RunsOf(f, db, n + more);
    AuditIsFixpoint(f, db);
    AuditOfRows(f, Audited(f, db), r);
    NothingLeft(f, r);
  }
}
