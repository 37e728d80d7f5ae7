// What the merge and the hybrid ranking give each chunk, read off the two lists
// (vector_retriever.go, service.go).
module RankScores {
  import opened Wrappers
  import opened StableSort
  import opened RankFusion

  // ---- The merged candidate --------------------------------------------------

  lemma {:induction false} FoldOnce(list: seq<Candidate>, id: Id)
    requires DistinctChunks(list)
    ensures var p := PositionOf(list, id);
            Fold(Stamped(list), id) == if p.None? then None else Some(list[p.value].(hybridScore := Rrf(p.value)))
  {
    hide Rrf;
    if list != [] {
      var n := |list| - 1;
      assert Stamped(list)[..n] == Stamped(list[..n]);
      FoldOnce(list[..n], id);
    }
  }

  ghost predicate AtMostOnce(items: seq<Candidate>, id: Id) {
    forall i, j | 0 <= i < j < |items| :: !(items[i].chunkId == id && items[j].chunkId == id)
  }

  lemma {:induction false} FoldNone(items: seq<Candidate>, id: Id)
    ensures Fold(items, id).None? <==> forall k | 0 <= k < |items| :: items[k].chunkId != id
  {
    if items != [] {
      var front := items[..|items| - 1];
      FoldNone(front, id);
      assert forall k | 0 <= k < |front| :: items[k] == front[k];
    }
  }

  lemma {:induction false} FoldJoin(a: seq<Candidate>, b: seq<Candidate>, id: Id)
    requires AtMostOnce(b, id)
    ensures var x, y := Fold(a, id), Fold(b, id);
            Fold(a + b, id) == if y.None? then x else if x.None? then y else Some(Absorb(x.value, y.value))
  {
    hide Absorb;
    if b == [] {
      assert a + b == a;
    } else {
      var front, last := b[..|b| - 1], b[|b| - 1];
      assert (a + b)[..|a + b| - 1] == a + front && (a + b)[|a + b| - 1] == last;
      FoldJoin(a, front, id);
      FoldNone(front, id);
      assert forall k | 0 <= k < |front| :: front[k] == b[k];
    }
  }

  // The candidate of the lexical list, or else of the vector list.
  function FirstSighting(lexical: seq<Candidate>, vector: seq<Candidate>, id: Id): Option<Candidate> {
    var i, j := PositionOf(lexical, id), PositionOf(vector, id);
    if i.Some? then Some(lexical[i.value]) else if j.Some? then Some(vector[j.value]) else None
  }

  // Every part of a merged candidate: document, note and content come from the
  // first sighting; a positive vector score of the vector list wins, and a
  // positive text score of it wins together with its trigram score.
  lemma MergedParts(lexical: seq<Candidate>, vector: seq<Candidate>, merged: seq<Candidate>, k: nat)
    requires DistinctChunks(lexical) && DistinctChunks(vector)
    requires IsMerge(Stamped(lexical) + Stamped(vector), merged) && k < |merged|
    ensures var m := merged[k];
            var first, j := FirstSighting(lexical, vector, m.chunkId), PositionOf(vector, m.chunkId);
            && first.Some?
            && m.documentId == first.value.documentId && m.noteId == first.value.noteId
            && m.vectorScore == (if j.Some? && vector[j.value].vectorScore > 0.0 then vector[j.value].vectorScore
                                 else first.value.vectorScore)
            && m.ftsScore == (if j.Some? && vector[j.value].ftsScore > 0.0 then vector[j.value].ftsScore else first.value.ftsScore)
            && m.trigramScore == (if j.Some? && vector[j.value].ftsScore > 0.0 then vector[j.value].trigramScore
                                  else first.value.trigramScore)
  {
    hide Rrf, Fold, Firsts;
    var items := Stamped(lexical) + Stamped(vector);
    MergedIds(items, merged);
    var id := merged[k].chunkId;
    assert Fold(items, id) == Some(merged[k]);
    FoldOnce(lexical, id);
    FoldOnce(vector, id);
    FoldJoin(Stamped(lexical), Stamped(vector), id);
  }

  // ---- The hybrid score ------------------------------------------------------

  function Unit(x: real): real {
    if x < 0.0 then 0.0 else if x > 1.0 then 1.0 else x
  }

  // Reciprocal rank in a list, scaled so that two first places make one.
  function Place(list: seq<Candidate>, id: Id): real {
    var p := PositionOf(list, id);
    if p.None? then 0.0 else 30.5 / (61 + p.value) as real
  }

  lemma PlaceIsTerm(list: seq<Candidate>, id: Id)
    ensures Place(list, id) == 30.5 * RankTerm(list, id)
  {
  }

  // The result of merged candidate k: 45 parts of a hundred for its places in
  // the two lists, 35 for its vector score and 20 for its lexical score.
  lemma HybridScore(lexical: seq<Candidate>, vector: seq<Candidate>, merged: seq<Candidate>, score: Candidate -> real, k: nat)
    requires DistinctChunks(lexical) && DistinctChunks(vector)
    requires IsMerge(Stamped(lexical) + Stamped(vector), merged) && k < |merged|
    ensures var r, id := HybridResults(merged, score)[k], merged[k].chunkId;
            var first, j := FirstSighting(lexical, vector, id), PositionOf(vector, id);
            && first.Some?
            && var similarity := if j.Some? && vector[j.value].vectorScore > 0.0 then vector[j.value].vectorScore
                                 else first.value.vectorScore;
               && r.chunkId == id && r.documentId == first.value.documentId && r.noteId == first.value.noteId
               && r.hybridScore == Place(lexical, id) + Place(vector, id)
               && r.vectorScore == similarity
               && r.score == 0.45 * r.hybridScore + 0.35 * Unit(similarity) + 0.2 * Unit(score(merged[k]))
               && 0.0 <= r.score <= 1.0 && r.confidence == r.score
  {
    hide Rrf, Fold, Firsts, IsMerge, RankTerm, Place, PositionOf, DistinctChunks, Stamped, FirstIn;
    MergedParts(lexical, vector, merged, k);
    FusedScores(lexical, vector, merged);
    var id := merged[k].chunkId;
    PlaceIsTerm(lexical, id);
    PlaceIsTerm(vector, id);
    var fused := merged[k].hybridScore * 30.5;
    assert fused == Place(lexical, id) + Place(vector, id) && 0.0 < fused <= 1.0;
    BlendParts(merged[k], score);
  }

  lemma BlendParts(c: Candidate, score: Candidate -> real)
    requires 0.0 <= c.hybridScore * 30.5 <= 1.0
    ensures var r := HybridResult(c, score);
            && r.chunkId == c.chunkId && r.documentId == c.documentId && r.noteId == c.noteId
            && r.hybridScore == c.hybridScore * 30.5 && r.vectorScore == c.vectorScore
            && r.score == 0.45 * r.hybridScore + 0.35 * Unit(c.vectorScore) + 0.2 * Unit(score(c))
            && 0.0 <= r.score <= 1.0 && r.confidence == r.score
  {
  }
}
