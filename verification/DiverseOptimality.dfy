// The greedy choice of diverse results is optimal, and exactly when
// (service.go, selectDiverse).
module DiverseOptimality {
  import opened Wrappers
  import opened Matching
  import opened Diversity

  function Prefix(s: set<nat>, k: nat): set<nat> {
    set i | i in s && i < k
  }

  // A document and the note its chunks belong to.
  type Link = (Id, Option<Id>)

  function LinkOf(r: Ranked): Link {
    (r.documentId, r.noteId)
  }

  ghost predicate Drawn(ranked: seq<Ranked>, links: set<Link>) {
    forall i | 0 <= i < |ranked| :: LinkOf(ranked[i]) in links
  }

  // The note has three documents, one more than may be selected.
  ghost predicate Crowded(links: set<Link>, n: Id) {
    exists d, e, f :: d != e && d != f && e != f && (d, Some(n)) in links && (e, Some(n)) in links && (f, Some(n)) in links
  }

  // A document of a crowded note belongs to no other note.
  ghost predicate Linked(links: set<Link>) {
    forall d, n, m | (d, Some(n)) in links && (d, m) in links && Crowded(links, n) :: m == Some(n)
  }

  // With a limit of one or two no note is ever full before the selection is.
  ghost predicate Compatible(links: set<Link>, limit: nat) {
    limit == 1 || limit == 2 || Linked(links)
  }

  // A chunk's note is its document's note.
  ghost predicate NoteOfDocument(ranked: seq<Ranked>) {
    forall i, j | 0 <= i < |ranked| && 0 <= j < |ranked| && ranked[i].documentId == ranked[j].documentId ::
      ranked[i].noteId == ranked[j].noteId
  }

  // Results compete for room only within their note, if it is crowded, and else
  // within their document.
  datatype Class = Note(n: Id) | Document(d: Id)

  ghost function ClassOf(links: set<Link>, r: Ranked): Class {
    if r.noteId.Some? && Crowded(links, r.noteId.value) then Note(r.noteId.value) else Document(r.documentId)
  }

  ghost function InClass(ranked: seq<Ranked>, links: set<Link>, s: set<nat>, c: Class): set<nat> {
    set i | i in s && i < |ranked| && ClassOf(links, ranked[i]) == c
  }

  // If every document of a is a document of b, and those of a differ, b is no smaller.
  lemma {:induction false} DistinctDocumentsFit(ranked: seq<Ranked>, a: set<nat>, b: set<nat>)
    requires InRange(ranked, a) && InRange(ranked, b) && DistinctDocuments(ranked, a)
    requires forall i | i in a :: SeesDocument(ranked, b, ranked[i].documentId)
    ensures |a| <= |b|
  {
    if a != {} {
      var i :| i in a;
      var j :| j in b && j < |ranked| && ranked[j].documentId == ranked[i].documentId;
      forall x | x in a - {i}
        ensures SeesDocument(ranked, b - {j}, ranked[x].documentId)
      {
        var y :| y in b && y < |ranked| && ranked[y].documentId == ranked[x].documentId;
        assert y in b - {j};
      }
      DistinctDocumentsFit(ranked, a - {i}, b - {j});
    }
  }

  // Comparing two selections class by class compares them as a whole.
  lemma {:induction false} ClassByClass(ranked: seq<Ranked>, links: set<Link>, a: set<nat>, b: set<nat>)
    requires InRange(ranked, a) && InRange(ranked, b)
    requires forall c :: |InClass(ranked, links, a, c)| <= |InClass(ranked, links, b, c)|
    ensures |a| <= |b|
    decreases |a|
  {
    if a != {} {
      var i :| i in a;
      var c := ClassOf(links, ranked[i]);
      var ca, cb := InClass(ranked, links, a, c), InClass(ranked, links, b, c);
      assert i in ca;
      forall e
        ensures |InClass(ranked, links, a - ca, e)| <= |InClass(ranked, links, b - cb, e)|
      {
        if e == c {
          assert InClass(ranked, links, a - ca, e) == {};
        } else {
          assert InClass(ranked, links, a - ca, e) == InClass(ranked, links, a, e);
          assert InClass(ranked, links, b - cb, e) == InClass(ranked, links, b, e);
        }
      }
      assert |a - ca| == |a| - |ca| && |b - cb| == |b| - |cb|;
      ClassByClass(ranked, links, a - ca, b - cb);
    }
  }

  // A result above the threshold that was passed over has its document or its
  // whole note in the selection, unless the selection is full.
  lemma {:induction false} PassedOver(ranked: seq<Ranked>, threshold: real, limit: nat, k: nat, i: nat)
    requires i < k <= |ranked| && ranked[i].confidence >= threshold
    ensures var g := Greedy(ranked, threshold, limit, k);
            Full(g, limit) || SeesDocument(ranked, g, ranked[i].documentId) || NoteFull(ranked, g, ranked[i].noteId)
  {
    var s := Greedy(ranked, threshold, limit, k - 1);
    GreedyBelow(ranked, threshold, limit, k - 1);
    var g := Greedy(ranked, threshold, limit, k);
    if i < k - 1 {
      PassedOver(ranked, threshold, limit, k - 1, i);
    }
    if Takes(ranked, threshold, limit, s, k - 1) {
      assert k - 1 in g;
      if i < k - 1 {
        if SeesDocument(ranked, s, ranked[i].documentId) {
          var j :| j in s && j < |ranked| && ranked[j].documentId == ranked[i].documentId;
          assert j in g;
        } else if NoteFull(ranked, s, ranked[i].noteId) {
          OfNoteGrows(ranked, s, k - 1, ranked[i].noteId.value);
        }
      }
    }
  }

  lemma TwoMembers(s: set<nat>) returns (x: nat, y: nat)
    requires |s| >= 2
    ensures x in s && y in s && x != y
  {
    x :| x in s;
    assert |s - {x}| == |s| - 1;
    y :| y in s - {x};
  }

  // A full note that is not crowded holds its documents already.
  lemma FullNoteSeen(ranked: seq<Ranked>, links: set<Link>, g: set<nat>, i: nat)
    requires Drawn(ranked, links) && InRange(ranked, g) && DistinctDocuments(ranked, g) && i < |ranked|
    requires NoteFull(ranked, g, ranked[i].noteId) && !Crowded(links, ranked[i].noteId.value)
    ensures SeesDocument(ranked, g, ranked[i].documentId)
  {
    var x, y := TwoMembers(OfNote(ranked, g, ranked[i].noteId.value));
    assert LinkOf(ranked[x]) in links && LinkOf(ranked[y]) in links && LinkOf(ranked[i]) in links;
  }

  // Documents of one class stay in it.
  lemma ClassOfDocument(links: set<Link>, r: Ranked, t: Ranked)
    requires Linked(links) && LinkOf(r) in links && LinkOf(t) in links && r.documentId == t.documentId
    ensures ClassOf(links, r) == ClassOf(links, t)
  {
    hide Crowded;
  }

  lemma ClassDominates(ranked: seq<Ranked>, links: set<Link>, threshold: real, limit: nat, s: set<nat>, k: nat, c: Class)
    requires Drawn(ranked, links) && Linked(links) && Admissible(ranked, threshold, limit, s) && k <= |ranked|
    requires !Full(Greedy(ranked, threshold, limit, k), limit)
    ensures |InClass(ranked, links, Prefix(s, k), c)| <= |InClass(ranked, links, Greedy(ranked, threshold, limit, k), c)|
  {
    hide Greedy, Full, Crowded;
    var g := Greedy(ranked, threshold, limit, k);
    GreedyAdmissible(ranked, threshold, limit, k);
    var a, b := InClass(ranked, links, Prefix(s, k), c), InClass(ranked, links, g, c);
    if c.Note? && Crowded(links, c.n) && |OfNote(ranked, g, c.n)| >= MAX_CHUNKS_PER_NOTE {
      assert b == OfNote(ranked, g, c.n);
      assert a <= OfNote(ranked, s, c.n);
      SubsetSize(a, OfNote(ranked, s, c.n));
    } else {
      forall i | i in a
        ensures SeesDocument(ranked, b, ranked[i].documentId)
      {
        PassedOver(ranked, threshold, limit, k, i);
        if NoteFull(ranked, g, ranked[i].noteId) {
          FullNoteSeen(ranked, links, g, i);
        }
        var j :| j in g && j < |ranked| && ranked[j].documentId == ranked[i].documentId;
        ClassOfDocument(links, ranked[i], ranked[j]);
        assert j in b;
      }
      DistinctDocumentsFit(ranked, a, b);
    }
  }

  // A selection of at most one result fills no note.
  lemma SmallLimitDominates(ranked: seq<Ranked>, threshold: real, limit: nat, s: set<nat>, k: nat)
    requires 1 <= limit <= 2 && Admissible(ranked, threshold, limit, s) && k <= |ranked|
    requires !Full(Greedy(ranked, threshold, limit, k), limit)
    ensures |Prefix(s, k)| <= |Greedy(ranked, threshold, limit, k)|
  {
    var g := Greedy(ranked, threshold, limit, k);
    GreedyBelow(ranked, threshold, limit, k);
    forall i | i in Prefix(s, k)
      ensures SeesDocument(ranked, g, ranked[i].documentId)
    {
      PassedOver(ranked, threshold, limit, k, i);
      if NoteFull(ranked, g, ranked[i].noteId) {
        SubsetSize(OfNote(ranked, g, ranked[i].noteId.value), g);
      }
    }
    DistinctDocumentsFit(ranked, Prefix(s, k), g);
  }

  // At every rank the greedy selection is at least as large as any admissible one.
  lemma PrefixDominates(ranked: seq<Ranked>, links: set<Link>, threshold: real, limit: nat, s: set<nat>, k: nat)
    requires Drawn(ranked, links) && Compatible(links, limit) && Admissible(ranked, threshold, limit, s) && k <= |ranked|
    ensures |Prefix(s, k)| <= |Greedy(ranked, threshold, limit, k)|
  {
    var g := Greedy(ranked, threshold, limit, k);
    SubsetSize(Prefix(s, k), s);
    if !Full(g, limit) {
      if limit == 1 || limit == 2 {
        SmallLimitDominates(ranked, threshold, limit, s, k);
      } else {
        GreedyBelow(ranked, threshold, limit, k);
        forall c
          ensures |InClass(ranked, links, Prefix(s, k), c)| <= |InClass(ranked, links, g, c)|
        {
          ClassDominates(ranked, links, threshold, limit, s, k, c);
        }
        ClassByClass(ranked, links, Prefix(s, k), g);
      }
    }
  }

  // ---- Total confidence ------------------------------------------------------

  ghost predicate NonIncreasing(ranked: seq<Ranked>) {
    forall i, j | 0 <= i < j < |ranked| :: ranked[i].confidence >= ranked[j].confidence
  }

  function Total(results: seq<Ranked>): real {
    if results == [] then 0.0 else Total(results[..|results| - 1]) + results[|results| - 1].confidence
  }

  lemma PickStep(ranked: seq<Ranked>, s: set<nat>, k: nat)
    requires 0 < k <= |ranked|
    ensures Total(Pick(ranked, s, k)) == Total(Pick(ranked, s, k - 1)) + if k - 1 in s then ranked[k - 1].confidence else 0.0
    ensures |Prefix(s, k)| == |Prefix(s, k - 1)| + if k - 1 in s then 1 else 0
  {
    var p := Pick(ranked, s, k - 1);
    if k - 1 in s {
      assert Prefix(s, k) == Prefix(s, k - 1) + {k - 1};
      assert (p + [ranked[k - 1]])[..|p|] == p;
    } else {
      assert Prefix(s, k) == Prefix(s, k - 1);
      assert p + [] == p;
    }
  }

  lemma ScaleDown(high: real, low: real, n: int)
    requires high >= low && n >= 0
    ensures high * n as real >= low * n as real
  {
  }

  // Summation by parts: being ahead at every rank gives at least the total.
  lemma {:induction false} AheadGivesMore(ranked: seq<Ranked>, s: set<nat>, g: set<nat>, k: nat)
    requires NonIncreasing(ranked) && 0 < k <= |ranked|
    requires forall m | 0 <= m <= k :: |Prefix(s, m)| <= |Prefix(g, m)|
    ensures Total(Pick(ranked, g, k)) - Total(Pick(ranked, s, k))
            >= ranked[k - 1].confidence * (|Prefix(g, k)| - |Prefix(s, k)|) as real
  {
    hide Pick, Total, Prefix;
    PickStep(ranked, s, k);
    PickStep(ranked, g, k);
    if k == 1 {
      assert Total(Pick(ranked, g, 0)) == Total(Pick(ranked, s, 0)) by { EmptyPick(ranked, s); EmptyPick(ranked, g); }
      EmptyPick(ranked, s);
      EmptyPick(ranked, g);
    } else {
      AheadGivesMore(ranked, s, g, k - 1);
      var ahead := |Prefix(g, k - 1)| - |Prefix(s, k - 1)|;
      ScaleDown(ranked[k - 2].confidence, ranked[k - 1].confidence, ahead);
      Distribute(ranked[k - 1].confidence, ahead, (if k - 1 in g then 1 else 0) - (if k - 1 in s then 1 else 0));
    }
  }

  lemma EmptyPick(ranked: seq<Ranked>, s: set<nat>)
    ensures Pick(ranked, s, 0) == [] && Total([]) == 0.0 && Prefix(s, 0) == {}
  {
  }

  lemma Distribute(c: real, a: int, b: int)
    ensures c * (a + b) as real == c * a as real + c * b as real
  {
  }

  lemma {:induction false} GreedyPrefix(ranked: seq<Ranked>, threshold: real, limit: nat, k: nat, m: nat)
    requires k <= m <= |ranked|
    ensures Prefix(Greedy(ranked, threshold, limit, m), k) == Greedy(ranked, threshold, limit, k)
  {
    GreedyBelow(ranked, threshold, limit, k);
    if k < m {
      GreedyPrefix(ranked, threshold, limit, k, m - 1);
    }
  }

  lemma PrefixAll(ranked: seq<Ranked>, threshold: real, limit: nat, s: set<nat>)
    requires Admissible(ranked, threshold, limit, s)
    ensures Prefix(s, |ranked|) == s
  {
  }

  // A ranked list as the service makes it.
  ghost predicate Usable(ranked: seq<Ranked>) {
    ranked != [] && NonIncreasing(ranked) && forall k | 0 <= k < |ranked| :: ranked[k].confidence >= 0.0
  }

  // No admissible selection has more results or more total confidence than the
  // one selectDiverse returns.
  ghost predicate Best(ranked: seq<Ranked>, minimumConfidence: real, limit: nat)
    requires ranked != []
  {
    var threshold := Threshold(ranked, minimumConfidence);
    var g := Greedy(ranked, threshold, limit, |ranked|);
    forall s: set<nat> :: Admissible(ranked, threshold, limit, s) ==>
      |s| <= |g| && Total(Pick(ranked, s, |ranked|)) <= Total(Pick(ranked, g, |ranked|))
  }

  lemma GreedyBest(ranked: seq<Ranked>, links: set<Link>, minimumConfidence: real, limit: nat)
    requires Usable(ranked) && Drawn(ranked, links) && Compatible(links, limit)
    ensures Best(ranked, minimumConfidence, limit)
  {
    hide Greedy, Pick, Total, Prefix, NonIncreasing, Drawn, Compatible, Admissible;
    var n, threshold := |ranked|, Threshold(ranked, minimumConfidence);
    var g := Greedy(ranked, threshold, limit, n);
    GreedyAdmissible(ranked, threshold, limit, n);
    forall s: set<nat> | Admissible(ranked, threshold, limit, s)
      ensures |s| <= |g| && Total(Pick(ranked, s, n)) <= Total(Pick(ranked, g, n))
    {
      forall m | 0 <= m <= n
        ensures |Prefix(s, m)| <= |Prefix(g, m)|
      {
        PrefixDominates(ranked, links, threshold, limit, s, m);
        GreedyPrefix(ranked, threshold, limit, m, n);
      }
      AheadGivesMore(ranked, s, g, n);
      PrefixAll(ranked, threshold, limit, s);
      PrefixAll(ranked, threshold, limit, g);
      ScaleDown(ranked[n - 1].confidence, 0.0, |g| - |s|);
    }
  }

  // When a document determines its note, as it does in the service's queries,
  // the selection is optimal for every limit.
  lemma GreedyIsOptimal(ranked: seq<Ranked>, minimumConfidence: real, limit: nat)
    requires Usable(ranked) && NoteOfDocument(ranked)
    ensures Best(ranked, minimumConfidence, limit)
  {
    hide Best, Crowded;
    var links: set<Link> := set i | 0 <= i < |ranked| :: LinkOf(ranked[i]);
    forall d, n, m | (d, Some(n)) in links && (d, m) in links
      ensures m == Some(n)
    {
      var i :| 0 <= i < |ranked| && LinkOf(ranked[i]) == (d, Some(n));
      var j :| 0 <= j < |ranked| && LinkOf(ranked[j]) == (d, m);
    }
    GreedyBest(ranked, links, minimumConfidence, limit);
  }

  // The selection in its own terms: a result is in it exactly if its confidence
  // reaches the minimum and 72 parts of a hundred of the best, no earlier member
  // has its document, at most one earlier member has its note, and the limit
  // was not reached before it.
  lemma SelectedExactly(ranked: seq<Ranked>, minimumConfidence: real, limit: nat, i: nat)
    requires ranked != [] && i < |ranked|
    ensures var s := Greedy(ranked, Threshold(ranked, minimumConfidence), limit, |ranked|);
            i in s <==>
              && ranked[i].confidence >= minimumConfidence
              && ranked[i].confidence >= 0.72 * ranked[0].confidence
              && (forall j | j in s && j < i :: ranked[j].documentId != ranked[i].documentId)
              && (ranked[i].noteId.Some? ==> |SameNote(ranked, s, i)| <= 1)
              && (limit == 0 || |Prefix(s, i)| < limit)
  {
    hide Greedy;
    var threshold := Threshold(ranked, minimumConfidence);
    var s := Greedy(ranked, threshold, limit, |ranked|);
    GreedyPrefix(ranked, threshold, limit, i, |ranked|);
    GreedyPrefix(ranked, threshold, limit, i + 1, |ranked|);
    GreedyBelow(ranked, threshold, limit, i);
    GreedyStep(ranked, threshold, limit, i);
    var before := Greedy(ranked, threshold, limit, i);
    assert before == Prefix(s, i);
    assert i in s <==> i in Prefix(s, i + 1);
    if ranked[i].noteId.Some? {
      assert SameNote(ranked, s, i) == OfNote(ranked, before, ranked[i].noteId.value);
    }
    assert SeesDocument(ranked, before, ranked[i].documentId)
           <==> exists j :: j in s && j < i && ranked[j].documentId == ranked[i].documentId by {
      if j :| j in s && j < i && ranked[j].documentId == ranked[i].documentId {
        assert j in before;
      }
    }
  }

  // Members before i that share its note.
  function SameNote(ranked: seq<Ranked>, s: set<nat>, i: nat): set<nat>
    requires i < |ranked|
  {
    set j | j in s && j < i && ranked[j].noteId == ranked[i].noteId
  }

  // The best result is selected exactly when it passes the minimum.
  lemma FirstSelected(ranked: seq<Ranked>, minimumConfidence: real, limit: nat)
    requires ranked != [] && ranked[0].confidence >= 0.0
    ensures 0 in Greedy(ranked, Threshold(ranked, minimumConfidence), limit, |ranked|)
            <==> ranked[0].confidence >= minimumConfidence
  {
    var threshold := Threshold(ranked, minimumConfidence);
    GreedyPrefix(ranked, threshold, limit, 1, |ranked|);
    assert OfNote(ranked, {}, 0) == {};
    assert forall n :: OfNote(ranked, {}, n) == {};
    assert Greedy(ranked, threshold, limit, 0) == {};
    assert 0 in Greedy(ranked, threshold, limit, |ranked|) <==> 0 in Prefix(Greedy(ranked, threshold, limit, |ranked|), 1);
  }

  // ---- Exactly when greedy is optimal ----------------------------------------

  // Two documents of a note around one that another note could supply: greedy
  // spends the note's room on the document in the middle.
  ghost predicate Blocking(r: seq<Ranked>, n: Id) {
    && |r| == 4 && (forall k | 0 <= k < 4 :: r[k].confidence == 1.0)
    && r[0].documentId == r[2].documentId
    && r[1].documentId != r[0].documentId && r[3].documentId != r[0].documentId && r[1].documentId != r[3].documentId
    && r[0].noteId == r[1].noteId == r[3].noteId == Some(n) && r[2].noteId != Some(n)
  }

  lemma BlockingNotes(r: seq<Ranked>, n: Id)
    requires Blocking(r, n)
    ensures OfNote(r, {}, n) == {} && OfNote(r, {0}, n) == {0} && OfNote(r, {0, 1}, n) == {0, 1}
    ensures OfNote(r, {1, 2, 3}, n) == {1, 3} && forall m | m != n :: OfNote(r, {1, 2, 3}, m) <= {2}
  {
  }

  lemma BlockingGreedy(r: seq<Ranked>, n: Id, limit: nat)
    requires Blocking(r, n) && limit != 1 && limit != 2
    ensures Greedy(r, 0.72, limit, 4) == {0, 1}
  {
    hide Greedy, OfNote;
    var s0: set<nat>, s1: set<nat>, s2: set<nat> := {}, {0}, {0, 1};
    BlockingNotes(r, n);
    assert Greedy(r, 0.72, limit, 0) == s0 by { GreedyBelow(r, 0.72, limit, 0); }
    GreedyStep(r, 0.72, limit, 0);
    assert Takes(r, 0.72, limit, s0, 0) && s0 + {0} == s1;
    GreedyStep(r, 0.72, limit, 1);
    assert Takes(r, 0.72, limit, s1, 1) && s1 + {1} == s2;
    GreedyStep(r, 0.72, limit, 2);
    assert 0 in s2 && SeesDocument(r, s2, r[0].documentId);
    GreedyStep(r, 0.72, limit, 3);
    assert |s2| == 2 && NoteFull(r, s2, r[3].noteId);
  }

  lemma BlockingAdmissible(r: seq<Ranked>, n: Id, limit: nat, s: set<nat>)
    requires Blocking(r, n) && limit != 1 && limit != 2 && s == {1, 2, 3}
    ensures Admissible(r, 0.72, limit, s)
  {
    hide OfNote;
    BlockingNotes(r, n);
    forall m
      ensures |OfNote(r, s, m)| <= MAX_CHUNKS_PER_NOTE
    {
      if m != n {
        SubsetSize(OfNote(r, s, m), {2});
      }
    }
  }

  lemma BlockingBeaten(r: seq<Ranked>, n: Id, limit: nat)
    requires Blocking(r, n) && limit != 1 && limit != 2
    ensures Usable(r) && !Best(r, 0.0, limit)
  {
    hide Greedy, Admissible, Total, Pick;
    var s: set<nat> := {1, 2, 3};
    assert Threshold(r, 0.0) == 0.72;
    BlockingGreedy(r, n, limit);
    BlockingAdmissible(r, n, limit, s);
    assert |s| == 3 && |{0, 1}| == 2;
  }

  // Documents that break the link supply such a list.
  lemma UnlinkedBlocks(links: set<Link>) returns (r: seq<Ranked>, n: Id)
    requires !Linked(links)
    ensures Blocking(r, n) && Drawn(r, links)
  {
    var d, k, m :| (d, Some(k)) in links && (d, m) in links && Crowded(links, k) && m != Some(k);
    var x, y, z :| x != y && x != z && y != z && (x, Some(k)) in links && (y, Some(k)) in links && (z, Some(k)) in links;
    var e := if x != d then x else z;
    var f := if y != d then y else z;
    n := k;
    r := [Ranked(1, d, Some(n), 1.0), Ranked(2, e, Some(n), 1.0), Ranked(3, d, m, 1.0), Ranked(4, f, Some(n), 1.0)];
  }

  // The exact condition, for any set of documents and notes: the selection is
  // optimal on every ranked list drawn from it if and only if the limit is one
  // or two, or every document of a note with three or more documents has only
  // that note.
  lemma GreedyOptimalExactly(links: set<Link>, limit: nat)
    ensures Compatible(links, limit)
            <==> forall ranked, minimumConfidence: real ::
                   Drawn(ranked, links) && Usable(ranked) ==> Best(ranked, minimumConfidence, limit)
  {
    hide Best, Drawn, Linked, NonIncreasing;
    if Compatible(links, limit) {
      forall ranked, minimumConfidence: real | Drawn(ranked, links) && Usable(ranked)
        ensures Best(ranked, minimumConfidence, limit)
      {
        GreedyBest(ranked, links, minimumConfidence, limit);
      }
    } else {
      var r, n := UnlinkedBlocks(links);
      BlockingBeaten(r, n, limit);
    }
  }
}
