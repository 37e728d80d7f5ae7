// Choosing diverse results from a ranked list (service.go, selectDiverse): one
// result per document, at most two per note, at most `limit` in all.
module Diversity {
  import opened Wrappers

  newtype Id = int

  // The fields of a ranked result that selection looks at.
  datatype Ranked = Ranked(chunkId: Id, documentId: Id, noteId: Option<Id>, confidence: real)

  const MAX_CHUNKS_PER_NOTE := 2

  function Threshold(ranked: seq<Ranked>, minimumConfidence: real): real
    requires ranked != []
  {
    if minimumConfidence >= ranked[0].confidence * 0.72 then minimumConfidence else ranked[0].confidence * 0.72
  }

  // ---- What a selection may hold ---------------------------------------------

  function OfNote(ranked: seq<Ranked>, s: set<nat>, n: Id): set<nat> {
    set i | i in s && i < |ranked| && ranked[i].noteId == Some(n)
  }

  // The limit is reached when it is equalled, so 0 never stops the selection.
  predicate Full(s: set<nat>, limit: nat) {
    limit > 0 && |s| >= limit
  }

  ghost predicate InRange(ranked: seq<Ranked>, s: set<nat>) {
    forall i | i in s :: i < |ranked|
  }

  ghost predicate DistinctDocuments(ranked: seq<Ranked>, s: set<nat>)
    requires InRange(ranked, s)
  {
    forall i, j | i in s && j in s && i != j :: ranked[i].documentId != ranked[j].documentId
  }

  ghost predicate NotesCapped(ranked: seq<Ranked>, s: set<nat>) {
    forall n :: |OfNote(ranked, s, n)| <= MAX_CHUNKS_PER_NOTE
  }

  ghost predicate Admissible(ranked: seq<Ranked>, threshold: real, limit: nat, s: set<nat>) {
    && InRange(ranked, s)
    && (forall i | i in s :: ranked[i].confidence >= threshold)
    && DistinctDocuments(ranked, s)
    && NotesCapped(ranked, s)
    && (limit > 0 ==> |s| <= limit)
  }

  // ---- The greedy choice -----------------------------------------------------

  predicate SeesDocument(ranked: seq<Ranked>, s: set<nat>, d: Id) {
    exists i :: i in s && i < |ranked| && ranked[i].documentId == d
  }

  predicate NoteFull(ranked: seq<Ranked>, s: set<nat>, note: Option<Id>) {
    note.Some? && |OfNote(ranked, s, note.value)| >= MAX_CHUNKS_PER_NOTE
  }

  predicate Takes(ranked: seq<Ranked>, threshold: real, limit: nat, s: set<nat>, k: nat)
    requires k < |ranked|
  {
    && !Full(s, limit)
    && ranked[k].confidence >= threshold
    && !SeesDocument(ranked, s, ranked[k].documentId)
    && !NoteFull(ranked, s, ranked[k].noteId)
  }

  // The positions chosen among the first k results.
  function Greedy(ranked: seq<Ranked>, threshold: real, limit: nat, k: nat): set<nat>
    requires k <= |ranked|
  {
    if k == 0 then {}
    else
      var s := Greedy(ranked, threshold, limit, k - 1);
      if Takes(ranked, threshold, limit, s, k - 1) then s + {k - 1} else s
  }

  // The results at the positions of s below k, in rank order.
  function Pick(ranked: seq<Ranked>, s: set<nat>, k: nat): seq<Ranked>
    requires k <= |ranked|
  {
    if k == 0 then [] else Pick(ranked, s, k - 1) + if k - 1 in s then [ranked[k - 1]] else []
  }

  lemma {:induction false} PickStable(ranked: seq<Ranked>, s: set<nat>, t: set<nat>, k: nat)
    requires k <= |ranked| && forall i | 0 <= i < k :: i in s <==> i in t
    ensures Pick(ranked, s, k) == Pick(ranked, t, k)
  {
    if k > 0 {
      PickStable(ranked, s, t, k - 1);
    }
  }

  lemma {:induction false} GreedyBelow(ranked: seq<Ranked>, threshold: real, limit: nat, k: nat)
    requires k <= |ranked|
    ensures forall i | i in Greedy(ranked, threshold, limit, k) :: i < k
  {
    if k > 0 {
      GreedyBelow(ranked, threshold, limit, k - 1);
    }
  }

  lemma {:induction false} FullStays(ranked: seq<Ranked>, threshold: real, limit: nat, k: nat, m: nat)
    requires k <= m <= |ranked| && Full(Greedy(ranked, threshold, limit, k), limit)
    ensures Greedy(ranked, threshold, limit, m) == Greedy(ranked, threshold, limit, k)
  {
    if k < m {
      FullStays(ranked, threshold, limit, k, m - 1);
    }
  }

  lemma {:induction false} PickBeyond(ranked: seq<Ranked>, s: set<nat>, k: nat, m: nat)
    requires k <= m <= |ranked| && forall i | i in s :: i < k
    ensures Pick(ranked, s, m) == Pick(ranked, s, k)
  {
    if k < m {
      PickBeyond(ranked, s, k, m - 1);
    }
  }

  lemma OfNoteGrows(ranked: seq<Ranked>, s: set<nat>, k: nat, n: Id)
    requires k < |ranked| && k !in s
    ensures |OfNote(ranked, s + {k}, n)| == |OfNote(ranked, s, n)| + if ranked[k].noteId == Some(n) then 1 else 0
    ensures ranked[k].noteId != Some(n) ==> OfNote(ranked, s + {k}, n) == OfNote(ranked, s, n)
  {
    if ranked[k].noteId == Some(n) {
      assert OfNote(ranked, s + {k}, n) == OfNote(ranked, s, n) + {k};
    } else {
      assert OfNote(ranked, s + {k}, n) == OfNote(ranked, s, n);
    }
  }

  function CountOf(noteCounts: map<Id, nat>, n: Id): nat {
    if n in noteCounts then noteCounts[n] else 0
  }

  // noteCounts[noteId]++ for a result that has a note.
  function Counted(noteCounts: map<Id, nat>, note: Option<Id>): map<Id, nat> {
    if note.Some? then noteCounts[note.value := CountOf(noteCounts, note.value) + 1] else noteCounts
  }

  // The two maps of the loop describe the selection.
  ghost predicate Tracks(ranked: seq<Ranked>, s: set<nat>, seenDocuments: set<Id>, noteCounts: map<Id, nat>) {
    && (forall d :: d in seenDocuments <==> SeesDocument(ranked, s, d))
    && (forall n :: CountOf(noteCounts, n) == |OfNote(ranked, s, n)|)
  }

  lemma TracksDecides(ranked: seq<Ranked>, s: set<nat>, seenDocuments: set<Id>, noteCounts: map<Id, nat>, k: nat)
    requires k < |ranked| && Tracks(ranked, s, seenDocuments, noteCounts)
    ensures ranked[k].documentId in seenDocuments <==> SeesDocument(ranked, s, ranked[k].documentId)
    ensures NoteFull(ranked, s, ranked[k].noteId)
            <==> ranked[k].noteId.Some? && CountOf(noteCounts, ranked[k].noteId.value) >= MAX_CHUNKS_PER_NOTE
  {
  }

  lemma TracksNone(ranked: seq<Ranked>)
    ensures Tracks(ranked, {}, {}, map[])
  {
    forall n
      ensures |OfNote(ranked, {}, n)| == 0
    {
      assert OfNote(ranked, {}, n) == {};
    }
  }

  // The state of the loop before result k.
  ghost predicate Selecting(ranked: seq<Ranked>, threshold: real, limit: nat, k: nat,
                            selected: seq<Ranked>, seenDocuments: set<Id>, noteCounts: map<Id, nat>)
    requires k <= |ranked|
  {
    var s := Greedy(ranked, threshold, limit, k);
    selected == Pick(ranked, s, k) && |selected| == |s| && Tracks(ranked, s, seenDocuments, noteCounts)
  }

  // The three tests of the loop.
  predicate Passes(r: Ranked, threshold: real, seenDocuments: set<Id>, noteCounts: map<Id, nat>) {
    && r.confidence >= threshold
    && r.documentId !in seenDocuments
    && !(r.noteId.Some? && CountOf(noteCounts, r.noteId.value) >= MAX_CHUNKS_PER_NOTE)
  }

  lemma SelectingStart(ranked: seq<Ranked>, threshold: real, limit: nat)
    ensures Selecting(ranked, threshold, limit, 0, [], {}, map[])
  {
    TracksNone(ranked);
  }

  lemma ResultSkipped(ranked: seq<Ranked>, threshold: real, limit: nat, k: nat,
                      selected: seq<Ranked>, seenDocuments: set<Id>, noteCounts: map<Id, nat>)
    requires k < |ranked| && Selecting(ranked, threshold, limit, k, selected, seenDocuments, noteCounts)
    requires !Passes(ranked[k], threshold, seenDocuments, noteCounts)
    ensures Selecting(ranked, threshold, limit, k + 1, selected, seenDocuments, noteCounts)
  {
    hide Greedy, Pick, Tracks, Full, SeesDocument, NoteFull;
    var s := Greedy(ranked, threshold, limit, k);
    GreedyBelow(ranked, threshold, limit, k);
    GreedyStep(ranked, threshold, limit, k);
    TracksDecides(ranked, s, seenDocuments, noteCounts, k);
    PickBeyond(ranked, s, k, k + 1);
  }

  lemma ResultTaken(ranked: seq<Ranked>, threshold: real, limit: nat, k: nat,
                    selected: seq<Ranked>, seenDocuments: set<Id>, noteCounts: map<Id, nat>)
    requires k < |ranked| && Selecting(ranked, threshold, limit, k, selected, seenDocuments, noteCounts)
    requires Passes(ranked[k], threshold, seenDocuments, noteCounts) && !(limit > 0 && |selected| >= limit)
    ensures Selecting(ranked, threshold, limit, k + 1, selected + [ranked[k]], seenDocuments + {ranked[k].documentId},
                      Counted(noteCounts, ranked[k].noteId))
  {
    hide Greedy, Pick, Tracks, SeesDocument, NoteFull, Counted;
    var s := Greedy(ranked, threshold, limit, k);
    GreedyBelow(ranked, threshold, limit, k);
    GreedyStep(ranked, threshold, limit, k);
    TracksDecides(ranked, s, seenDocuments, noteCounts, k);
    PickTaken(ranked, s, k);
    TracksTaken(ranked, s, k, seenDocuments, noteCounts);
  }

  // Reaching the limit ends the selection.
  lemma LimitReached(ranked: seq<Ranked>, threshold: real, limit: nat, k: nat,
                     selected: seq<Ranked>, seenDocuments: set<Id>, noteCounts: map<Id, nat>)
    requires k <= |ranked| && Selecting(ranked, threshold, limit, k, selected, seenDocuments, noteCounts)
    requires |selected| == limit > 0
    ensures selected == Pick(ranked, Greedy(ranked, threshold, limit, |ranked|), |ranked|)
  {
    GreedyBelow(ranked, threshold, limit, k);
    FullStays(ranked, threshold, limit, k, |ranked|);
    PickBeyond(ranked, Greedy(ranked, threshold, limit, k), k, |ranked|);
  }

  method SelectDiverse(ranked: seq<Ranked>, limit: nat, minimumConfidence: real) returns (selected: seq<Ranked>)
    ensures ranked == [] ==> selected == []
    ensures ranked != [] ==>
              selected == Pick(ranked, Greedy(ranked, Threshold(ranked, minimumConfidence), limit, |ranked|), |ranked|)
  {
    hide Selecting, Pick, Greedy, Counted, CountOf;
    selected := [];
    if |ranked| == 0 {
      return;
    }
    var resultThreshold := Threshold(ranked, minimumConfidence);
    var seenDocuments: set<Id> := {};
    var noteCounts: map<Id, nat> := map[];
    SelectingStart(ranked, resultThreshold, limit);
    for k := 0 to |ranked|
      invariant Selecting(ranked, resultThreshold, limit, k, selected, seenDocuments, noteCounts)
      invariant limit > 0 ==> |selected| < limit
    {
      var result := ranked[k];
      if result.confidence < resultThreshold {
        ResultSkipped(ranked, resultThreshold, limit, k, selected, seenDocuments, noteCounts);
        continue;
      }
      if result.documentId in seenDocuments {
        ResultSkipped(ranked, resultThreshold, limit, k, selected, seenDocuments, noteCounts);
        continue;
      }
      if result.noteId.Some? && CountOf(noteCounts, result.noteId.value) >= MAX_CHUNKS_PER_NOTE {
        ResultSkipped(ranked, resultThreshold, limit, k, selected, seenDocuments, noteCounts);
        continue;
      }
      ResultTaken(ranked, resultThreshold, limit, k, selected, seenDocuments, noteCounts);
      seenDocuments := seenDocuments + {result.documentId};
      noteCounts := Counted(noteCounts, result.noteId);
      selected := selected + [result];
      if |selected| == limit {
        LimitReached(ranked, resultThreshold, limit, k + 1, selected, seenDocuments, noteCounts);
        return;
      }
    }
    SelectingEnd(ranked, resultThreshold, limit, selected, seenDocuments, noteCounts);
  }

  lemma SelectingEnd(ranked: seq<Ranked>, threshold: real, limit: nat,
                     selected: seq<Ranked>, seenDocuments: set<Id>, noteCounts: map<Id, nat>)
    requires Selecting(ranked, threshold, limit, |ranked|, selected, seenDocuments, noteCounts)
    ensures selected == Pick(ranked, Greedy(ranked, threshold, limit, |ranked|), |ranked|)
  {
  }

  lemma GreedyStep(ranked: seq<Ranked>, threshold: real, limit: nat, k: nat)
    requires k < |ranked|
    ensures var s := Greedy(ranked, threshold, limit, k);
            Greedy(ranked, threshold, limit, k + 1) == if Takes(ranked, threshold, limit, s, k) then s + {k} else s
  {
  }

  lemma PickTaken(ranked: seq<Ranked>, s: set<nat>, k: nat)
    requires k < |ranked| && forall i | i in s :: i < k
    ensures Pick(ranked, s + {k}, k + 1) == Pick(ranked, s, k) + [ranked[k]]
    ensures |s + {k}| == |s| + 1
  {
    PickStable(ranked, s, s + {k}, k);
  }

  lemma TracksTaken(ranked: seq<Ranked>, s: set<nat>, k: nat, seen: set<Id>, counts: map<Id, nat>)
    requires k < |ranked| && (forall i | i in s :: i < k) && Tracks(ranked, s, seen, counts)
    ensures Tracks(ranked, s + {k}, seen + {ranked[k].documentId}, Counted(counts, ranked[k].noteId))
  {
    forall d
      ensures d in seen + {ranked[k].documentId} <==> SeesDocument(ranked, s + {k}, d)
    {
      if SeesDocument(ranked, s, d) {
        var i :| i in s && i < |ranked| && ranked[i].documentId == d;
        assert i in s + {k};
      }
      assert k in s + {k};
    }
    forall n
      ensures CountOf(Counted(counts, ranked[k].noteId), n) == |OfNote(ranked, s + {k}, n)|
    {
      OfNoteGrows(ranked, s, k, n);
    }
  }

  // ---- Greedy is admissible --------------------------------------------------

  lemma EmptyAdmissible(ranked: seq<Ranked>, threshold: real, limit: nat)
    ensures Admissible(ranked, threshold, limit, {})
  {
    forall n
      ensures |OfNote(ranked, {}, n)| == 0
    {
      assert OfNote(ranked, {}, n) == {};
    }
  }

  lemma TakingKeepsAdmissible(ranked: seq<Ranked>, threshold: real, limit: nat, s: set<nat>, k: nat)
    requires Admissible(ranked, threshold, limit, s) && k < |ranked| && k !in s
    requires Takes(ranked, threshold, limit, s, k)
    ensures Admissible(ranked, threshold, limit, s + {k})
  {
    hide OfNote;
    forall n
      ensures |OfNote(ranked, s + {k}, n)| <= MAX_CHUNKS_PER_NOTE
    {
      OfNoteGrows(ranked, s, k, n);
    }
    forall i | i in s
      ensures ranked[i].documentId != ranked[k].documentId
    {
    }
  }

  // The result respects every cap.
  lemma {:induction false} GreedyAdmissible(ranked: seq<Ranked>, threshold: real, limit: nat, k: nat)
    requires k <= |ranked|
    ensures Admissible(ranked, threshold, limit, Greedy(ranked, threshold, limit, k))
  {
    hide Admissible, Takes;
    if k == 0 {
      EmptyAdmissible(ranked, threshold, limit);
    } else {
      GreedyAdmissible(ranked, threshold, limit, k - 1);
      GreedyBelow(ranked, threshold, limit, k - 1);
      var s := Greedy(ranked, threshold, limit, k - 1);
      if Takes(ranked, threshold, limit, s, k - 1) {
        TakingKeepsAdmissible(ranked, threshold, limit, s, k - 1);
      }
    }
  }
}
