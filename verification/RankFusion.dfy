// Merging the lexical and the vector candidates (vector_retriever.go) and
// ranking the merged list (service.go).
module RankFusion {
  import opened Wrappers
  import opened IdSorting
  import opened Sequences
  import opened StableSort
  import Diversity
  import DiverseOptimality

  type Id = Diversity.Id

  datatype Candidate = Candidate(
    chunkId: Id,
    documentId: Id,
    noteId: Option<Id>,
    ftsScore: real,
    trigramScore: real,
    vectorScore: real,
    hybridScore: real)

  // ---- The merge -------------------------------------------------------------

  // Reciprocal rank of the candidate at a position.
  function Rrf(rank: nat): real {
    1.0 / (61 + rank) as real
  }

  function Stamped(list: seq<Candidate>): seq<Candidate> {
    seq(|list|, k requires 0 <= k < |list| => list[k].(hybridScore := Rrf(k)))
  }

  // A later sighting of a candidate adds its score and overrides positive parts.
  function Absorb(c: Candidate, later: Candidate): Candidate {
    c.(hybridScore := c.hybridScore + later.hybridScore,
       vectorScore := if later.vectorScore > 0.0 then later.vectorScore else c.vectorScore,
       ftsScore := if later.ftsScore > 0.0 then later.ftsScore else c.ftsScore,
       trigramScore := if later.ftsScore > 0.0 then later.trigramScore else c.trigramScore)
  }

  // All sightings of one chunk, folded in order.
  function Fold(items: seq<Candidate>, id: Id): Option<Candidate> {
    if items == [] then None
    else
      var earlier, x := Fold(items[..|items| - 1], id), items[|items| - 1];
      if x.chunkId != id then earlier
      else if earlier.None? then Some(x)
      else Some(Absorb(earlier.value, x))
  }

  // The chunk ids in order of first sight.
  function Firsts(items: seq<Candidate>): seq<Id> {
    if items == [] then []
    else
      var front, id := items[..|items| - 1], items[|items| - 1].chunkId;
      if id in Firsts(front) then Firsts(front) else Firsts(front) + [id]
  }

  // One merged candidate per chunk, in order of first sight.
  ghost predicate IsMerge(items: seq<Candidate>, merged: seq<Candidate>) {
    && |merged| == |Firsts(items)|
    && forall k | 0 <= k < |merged| :: Fold(items, Firsts(items)[k]) == Some(merged[k])
  }

  ghost predicate Positions(merged: seq<Candidate>, positions: map<Id, nat>) {
    && (forall id | id in positions :: positions[id] < |merged| && merged[positions[id]].chunkId == id)
    && (forall k | 0 <= k < |merged| :: merged[k].chunkId in positions)
  }

  lemma {:induction false} FoldFacts(items: seq<Candidate>, id: Id)
    ensures Fold(items, id).Some? <==> id in Firsts(items)
    ensures Fold(items, id).Some? ==> Fold(items, id).value.chunkId == id
  {
    if items != [] {
      FoldFacts(items[..|items| - 1], id);
    }
  }

  lemma {:induction false} FirstsDistinct(items: seq<Candidate>)
    ensures NoDuplicates(Firsts(items))
  {
    if items != [] {
      FirstsDistinct(items[..|items| - 1]);
    }
  }

  lemma {:induction false} FirstsMembers(items: seq<Candidate>, id: Id)
    ensures id in Firsts(items) <==> exists k :: 0 <= k < |items| && items[k].chunkId == id
  {
    if items != [] {
      var front := items[..|items| - 1];
      FirstsMembers(front, id);
      if k: nat :| k < |items| && items[k].chunkId == id && k < |front| {
        assert front[k].chunkId == id;
      }
    }
  }

  lemma MergedIds(items: seq<Candidate>, merged: seq<Candidate>)
    requires IsMerge(items, merged)
    ensures forall k | 0 <= k < |merged| :: merged[k].chunkId == Firsts(items)[k]
  {
    forall k | 0 <= k < |merged|
      ensures merged[k].chunkId == Firsts(items)[k]
    {
      FoldFacts(items, Firsts(items)[k]);
    }
  }

  lemma Appended(items: seq<Candidate>, x: Candidate)
    ensures (items + [x])[..|items|] == items
    ensures forall id :: Fold(items + [x], id)
                         == if x.chunkId != id then Fold(items, id)
                            else if Fold(items, id).None? then Some(x)
                            else Some(Absorb(Fold(items, id).value, x))
    ensures Firsts(items + [x]) == if x.chunkId in Firsts(items) then Firsts(items) else Firsts(items) + [x.chunkId]
  {
    assert (items + [x])[..|items + [x]| - 1] == items;
  }

  lemma SeenAgain(items: seq<Candidate>, merged: seq<Candidate>, positions: map<Id, nat>, x: Candidate)
    requires IsMerge(items, merged) && Positions(merged, positions) && x.chunkId in positions
    ensures var p := positions[x.chunkId];
            var updated := merged[p := Absorb(merged[p], x)];
            IsMerge(items + [x], updated) && Positions(updated, positions)
  {
    hide Fold, Firsts;
    var p := positions[x.chunkId];
    MergedIds(items, merged);
    Appended(items, x);
    FirstsDistinct(items);
    assert Firsts(items)[p] == x.chunkId;
  }

  lemma SeenFirst(items: seq<Candidate>, merged: seq<Candidate>, positions: map<Id, nat>, x: Candidate)
    requires IsMerge(items, merged) && Positions(merged, positions) && x.chunkId !in positions
    ensures IsMerge(items + [x], merged + [x]) && Positions(merged + [x], positions[x.chunkId := |merged|])
  {
    hide Fold, Firsts;
    MergedIds(items, merged);
    Appended(items, x);
    FoldFacts(items, x.chunkId);
    assert x.chunkId !in Firsts(items);
  }

  // appendRanked: fold a ranked list into the merged one.
  method AppendRanked(merged: seq<Candidate>, positions: map<Id, nat>, candidates: seq<Candidate>, ghost items: seq<Candidate>)
    returns (merged': seq<Candidate>, positions': map<Id, nat>)
    requires IsMerge(items, merged) && Positions(merged, positions)
    ensures IsMerge(items + Stamped(candidates), merged') && Positions(merged', positions')
  {
    hide IsMerge, Positions;
    merged', positions' := merged, positions;
    assert items + [] == items;
    for rank := 0 to |candidates|
      invariant IsMerge(items + Stamped(candidates)[..rank], merged') && Positions(merged', positions')
    {
      var candidate := candidates[rank].(hybridScore := Rrf(rank));
      ghost var before := items + Stamped(candidates)[..rank];
      assert items + Stamped(candidates)[..rank + 1] == before + [candidate];
      if candidate.chunkId in positions' {
        SeenAgain(before, merged', positions', candidate);
        assert positions'[candidate.chunkId] < |merged'| by { PositionValid(merged', positions', candidate.chunkId); }
        var position := positions'[candidate.chunkId];
        merged' := merged'[position := Absorb(merged'[position], candidate)];
      } else {
        SeenFirst(before, merged', positions', candidate);
        positions' := positions'[candidate.chunkId := |merged'|];
        merged' := merged' + [candidate];
      }
    }
    assert Stamped(candidates)[..|candidates|] == Stamped(candidates);
  }

  lemma PositionValid(merged: seq<Candidate>, positions: map<Id, nat>, id: Id)
    requires Positions(merged, positions) && id in positions
    ensures positions[id] < |merged|
  {
  }

  method Merge(lexical: seq<Candidate>, vector: seq<Candidate>) returns (merged: seq<Candidate>)
    ensures IsMerge(Stamped(lexical) + Stamped(vector), merged)
  {
    var positions: map<Id, nat>;
    assert IsMerge([], []);
    merged, positions := AppendRanked([], map[], lexical, []);
    assert [] + Stamped(lexical) == Stamped(lexical);
    merged, positions := AppendRanked(merged, positions, vector, Stamped(lexical));
  }

  // ---- The fused score -------------------------------------------------------

  ghost predicate DistinctChunks(list: seq<Candidate>) {
    forall i, j | 0 <= i < j < |list| :: list[i].chunkId != list[j].chunkId
  }

  function PositionOf(list: seq<Candidate>, id: Id): (p: Option<nat>)
    ensures p.None? ==> forall k | 0 <= k < |list| :: list[k].chunkId != id
    ensures p.Some? ==> p.value < |list| && list[p.value].chunkId == id
  {
    if list == [] then None
    else if list[|list| - 1].chunkId == id then Some(|list| - 1)
    else PositionOf(list[..|list| - 1], id)
  }

  // What a list gives a chunk: its reciprocal rank, nothing if it is absent.
  function RankTerm(list: seq<Candidate>, id: Id): real {
    var p := PositionOf(list, id);
    if p.None? then 0.0 else 1.0 / (61 + p.value) as real
  }

  function ScoreSum(items: seq<Candidate>, id: Id): real {
    if items == [] then 0.0
    else
      var x := items[|items| - 1];
      ScoreSum(items[..|items| - 1], id) + if x.chunkId == id then x.hybridScore else 0.0
  }

  lemma {:induction false} FoldScore(items: seq<Candidate>, id: Id)
    ensures ScoreSum(items, id) == if Fold(items, id).None? then 0.0 else Fold(items, id).value.hybridScore
  {
    if items != [] {
      FoldScore(items[..|items| - 1], id);
    }
  }

  lemma {:induction false} ScoreSumJoin(a: seq<Candidate>, b: seq<Candidate>, id: Id)
    ensures ScoreSum(a + b, id) == ScoreSum(a, id) + ScoreSum(b, id)
  {
    if b == [] {
      assert a + b == a;
    } else {
      assert (a + b)[..|a + b| - 1] == a + b[..|b| - 1];
      ScoreSumJoin(a, b[..|b| - 1], id);
    }
  }

  lemma {:induction false} StampedSum(list: seq<Candidate>, id: Id)
    requires DistinctChunks(list)
    ensures ScoreSum(Stamped(list), id) == RankTerm(list, id)
  {
    if list != [] {
      var n := |list| - 1;
      assert Stamped(list)[..n] == Stamped(list[..n]);
      StampedSum(list[..n], id);
    }
  }

  lemma Reciprocals(a: real, d: real, b: real, e: real)
    requires d >= e > 0.0 && a * d == 1.0 && b * e == 1.0
    ensures 0.0 < a <= b && (a == b <==> d == e)
  {
    assert a > 0.0 && b > 0.0;
    assert (b - a) * d == b * (d - e);
  }

  lemma RrfBounds(k: nat)
    ensures 0.0 < Rrf(k) <= Rrf(0) && (Rrf(k) == Rrf(0) <==> k == 0)
  {
    var d := (61 + k) as real;
    assert d >= 61.0 && (d == 61.0 <==> k == 0);
    assert Rrf(k) * d == 1.0;
    Reciprocals(Rrf(k), d, Rrf(0), 61.0);
  }

  ghost predicate FirstIn(list: seq<Candidate>, id: Id) {
    |list| > 0 && list[0].chunkId == id
  }

  lemma RankTermBounds(list: seq<Candidate>, id: Id)
    requires DistinctChunks(list)
    ensures 0.0 <= RankTerm(list, id) <= Rrf(0)
    ensures RankTerm(list, id) > 0.0 <==> PositionOf(list, id).Some?
    ensures RankTerm(list, id) == Rrf(0) <==> FirstIn(list, id)
  {
    var p := PositionOf(list, id);
    RrfBounds(0);
    if p.Some? {
      RrfBounds(p.value);
    }
  }

  // The merge holds every chunk of the two lists once, with the sum of its
  // reciprocal ranks; scaled by 30.5 the score is at most 1, and 1 exactly for
  // the chunk that is first in both.
  lemma FusedScores(lexical: seq<Candidate>, vector: seq<Candidate>, merged: seq<Candidate>)
    requires DistinctChunks(lexical) && DistinctChunks(vector)
    requires IsMerge(Stamped(lexical) + Stamped(vector), merged)
    ensures DistinctChunks(merged)
    ensures forall id :: (exists k :: 0 <= k < |merged| && merged[k].chunkId == id)
                         <==> PositionOf(lexical, id).Some? || PositionOf(vector, id).Some?
    ensures forall k | 0 <= k < |merged| ::
              var id := merged[k].chunkId;
              && merged[k].hybridScore == RankTerm(lexical, id) + RankTerm(vector, id)
              && 0.0 < merged[k].hybridScore * 30.5 <= 1.0
              && (merged[k].hybridScore * 30.5 == 1.0 <==> FirstIn(lexical, id) && FirstIn(vector, id))
  {
    hide Fold, Firsts, RankTerm, PositionOf, DistinctChunks, FirstIn, Rrf;
    var items := Stamped(lexical) + Stamped(vector);
    MergedIds(items, merged);
    FirstsDistinct(items);
    MergedDistinct(items, merged);
    forall id
      ensures (exists k :: 0 <= k < |merged| && merged[k].chunkId == id)
              <==> PositionOf(lexical, id).Some? || PositionOf(vector, id).Some?
    {
      MergedMembers(lexical, vector, merged, id);
    }
    forall k | 0 <= k < |merged|
      ensures var id := merged[k].chunkId;
              && merged[k].hybridScore == RankTerm(lexical, id) + RankTerm(vector, id)
              && 0.0 < merged[k].hybridScore * 30.5 <= 1.0
              && (merged[k].hybridScore * 30.5 == 1.0 <==> FirstIn(lexical, id) && FirstIn(vector, id))
    {
      var id := merged[k].chunkId;
      FoldScore(items, id);
      ScoreSumJoin(Stamped(lexical), Stamped(vector), id);
      StampedSum(lexical, id);
      StampedSum(vector, id);
      RankTermBounds(lexical, id);
      RankTermBounds(vector, id);
      assert exists j :: 0 <= j < |merged| && merged[j].chunkId == id;
      assert Rrf(0) == 1.0 / 61.0 by { RrfZero(); }
    }
  }

  lemma RrfZero()
    ensures Rrf(0) == 1.0 / 61.0
  {
  }

  lemma MergedDistinct(items: seq<Candidate>, merged: seq<Candidate>)
    requires IsMerge(items, merged)
    ensures DistinctChunks(merged)
  {
    hide Fold, Firsts;
    MergedIds(items, merged);
    FirstsDistinct(items);
    forall i, j | 0 <= i < j < |merged|
      ensures merged[i].chunkId != merged[j].chunkId
    {
      assert Firsts(items)[i] != Firsts(items)[j];
    }
  }

  lemma MergedMembers(lexical: seq<Candidate>, vector: seq<Candidate>, merged: seq<Candidate>, id: Id)
    requires IsMerge(Stamped(lexical) + Stamped(vector), merged)
    ensures (exists k :: 0 <= k < |merged| && merged[k].chunkId == id)
            <==> PositionOf(lexical, id).Some? || PositionOf(vector, id).Some?
  {
    hide Fold, Firsts, PositionOf, Rrf;
    var items := Stamped(lexical) + Stamped(vector);
    MergedIds(items, merged);
    FirstsMembers(items, id);
    var inLexical, inVector := PositionOf(lexical, id), PositionOf(vector, id);
    if inLexical.Some? {
      assert items[inLexical.value].chunkId == id;
    }
    if inVector.Some? {
      assert items[|lexical| + inVector.value].chunkId == id;
    }
    if k :| 0 <= k < |merged| && merged[k].chunkId == id {
      assert Firsts(items)[k] in Firsts(items);
    }
    if id in Firsts(items) {
      var k :| 0 <= k < |Firsts(items)| && Firsts(items)[k] == id;
      assert merged[k].chunkId == id;
    }
  }

  // ---- Ranking ---------------------------------------------------------------

  datatype Result = Result(
    chunkId: Id,
    documentId: Id,
    noteId: Option<Id>,
    ftsScore: real,
    score: real,
    confidence: real,
    vectorScore: real,
    hybridScore: real)

  function Clamp(value: real, minimum: real, maximum: real): real {
    var low := if value <= maximum then value else maximum;
    if minimum >= low then minimum else low
  }

  // `lexical` is the term coverage score of rankCandidates for a fixed query.
  function LexicalResult(c: Candidate, lexical: Candidate -> real): Result {
    Result(c.chunkId, c.documentId, c.noteId, c.ftsScore, lexical(c), Clamp(lexical(c), 0.0, 1.0), 0.0, 0.0)
  }

  predicate LexicalBefore(a: Result, b: Result) {
    if a.score != b.score then a.score > b.score
    else if a.ftsScore != b.ftsScore then a.ftsScore > b.ftsScore
    else a.chunkId < b.chunkId
  }

  predicate HybridBefore(a: Result, b: Result) {
    if a.score != b.score then a.score > b.score else a.chunkId < b.chunkId
  }

  // rankVectorCandidates
  function VectorResult(c: Candidate): Result {
    Result(c.chunkId, c.documentId, c.noteId, c.ftsScore, c.vectorScore, Clamp(c.vectorScore, 0.0, 1.0), c.vectorScore, c.hybridScore)
  }

  function VectorResults(candidates: seq<Candidate>): seq<Result> {
    seq(|candidates|, k requires 0 <= k < |candidates| => VectorResult(candidates[k]))
  }

  predicate VectorBefore(a: Result, b: Result) {
    if a.vectorScore != b.vectorScore then a.vectorScore > b.vectorScore else a.chunkId < b.chunkId
  }

  // A result is about a candidate and carries its score, and the score cut to
  // [0, 1] as its confidence.
  predicate Rates(r: Result, c: Candidate, score: real) {
    && r.chunkId == c.chunkId && r.documentId == c.documentId && r.noteId == c.noteId && r.ftsScore == c.ftsScore
    && r.score == score
    && (score <= 0.0 ==> r.confidence == 0.0)
    && (0.0 <= score <= 1.0 ==> r.confidence == score)
    && (score >= 1.0 ==> r.confidence == 1.0)
  }

  ghost predicate RatesVector(candidates: seq<Candidate>, r: Result) {
    exists c :: c in candidates && Rates(r, c, c.vectorScore) && r.vectorScore == c.vectorScore && r.hybridScore == c.hybridScore
  }

  // Lexical ranking knows no vector or fused score yet.
  ghost predicate RatesLexical(candidates: seq<Candidate>, lexical: Candidate -> real, r: Result) {
    (exists c :: c in candidates && Rates(r, c, lexical(c))) && r.vectorScore == 0.0 && r.hybridScore == 0.0
  }

  lemma FromPermuted<T>(all: seq<T>, permuted: seq<T>, k: nat) returns (i: nat)
    requires multiset(all) == multiset(permuted) && k < |permuted|
    ensures i < |all| && all[i] == permuted[k]
  {
    MultisetMember(permuted, permuted[k]);
    MultisetMember(all, permuted[k]);
    i :| i < |all| && all[i] == permuted[k];
  }

  lemma VectorRates(candidates: seq<Candidate>, results: seq<Result>)
    requires multiset(results) == multiset(VectorResults(candidates)) && Ordered(VectorBefore, results)
    ensures forall k | 0 <= k < |results| :: RatesVector(candidates, results[k])
    ensures forall i, j | 0 <= i < j < |results| ::
              results[i].vectorScore > results[j].vectorScore
              || (results[i].vectorScore == results[j].vectorScore && results[i].chunkId <= results[j].chunkId)
  {
    forall k | 0 <= k < |results|
      ensures RatesVector(candidates, results[k])
    {
      var i := FromPermuted(VectorResults(candidates), results, k);
      assert candidates[i] in candidates;
    }
    forall i, j | 0 <= i < j < |results|
      ensures results[i].vectorScore > results[j].vectorScore
              || (results[i].vectorScore == results[j].vectorScore && results[i].chunkId <= results[j].chunkId)
    {
      assert !VectorBefore(results[j], results[i]);
    }
  }

  method RankVector(candidates: seq<Candidate>) returns (results: seq<Result>)
    ensures results == Sort(VectorBefore, VectorResults(candidates))
    ensures multiset(results) == multiset(VectorResults(candidates))
    ensures forall i, j | 0 <= i < j < |results| ::
              results[i].vectorScore > results[j].vectorScore
              || (results[i].vectorScore == results[j].vectorScore && results[i].chunkId <= results[j].chunkId)
    ensures forall k | 0 <= k < |results| :: RatesVector(candidates, results[k])
  {
    hide Rates, Sort, Ordered;
    results := [];
    for k := 0 to |candidates|
      invariant results == VectorResults(candidates)[..k]
    {
      results := results + [VectorResult(candidates[k])];
    }
    assert results == VectorResults(candidates);
    SortFacts(VectorBefore, results);
    results := Sort(VectorBefore, results);
    VectorRates(candidates, results);
  }

  method RankCandidates(candidates: seq<Candidate>, lexical: Candidate -> real) returns (results: seq<Result>)
    ensures results == Sort(LexicalBefore, LexicalResults(candidates, lexical))
    ensures multiset(results) == multiset(LexicalResults(candidates, lexical))
    ensures forall i, j | 0 <= i < j < |results| ::
              || results[i].score > results[j].score
              || (results[i].score == results[j].score && results[i].ftsScore > results[j].ftsScore)
              || (results[i].score == results[j].score && results[i].ftsScore == results[j].ftsScore
                  && results[i].chunkId <= results[j].chunkId)
    ensures forall k | 0 <= k < |results| :: RatesLexical(candidates, lexical, results[k])
  {
    results := [];
    for k := 0 to |candidates|
      invariant results == LexicalResults(candidates[..k], lexical)
    {
      results := results + [LexicalResult(candidates[k], lexical)];
      assert candidates[..k + 1] == candidates[..k] + [candidates[k]];
    }
    assert candidates[..|candidates|] == candidates;
    LexicalOrder();
    SortFacts(LexicalBefore, results);
    results := Sort(LexicalBefore, results);
    forall k | 0 <= k < |results|
      ensures RatesLexical(candidates, lexical, results[k])
    {
      var i := FromPermuted(LexicalResults(candidates, lexical), results, k);
      assert candidates[i] in candidates;
    }
  }

  function LexicalResults(candidates: seq<Candidate>, lexical: Candidate -> real): seq<Result> {
    seq(|candidates|, k requires 0 <= k < |candidates| => LexicalResult(candidates[k], lexical))
  }

  // The lexical result blended with the rank fusion and vector scores.
  function Blend(r: Result, c: Candidate): Result {
    var normalizedRrf := Clamp(c.hybridScore * 30.5, 0.0, 1.0);
    var confidence := normalizedRrf * 0.45 + Clamp(c.vectorScore, 0.0, 1.0) * 0.35 + r.confidence * 0.20;
    r.(score := confidence, confidence := Clamp(confidence, 0.0, 1.0),
       vectorScore := c.vectorScore, hybridScore := normalizedRrf)
  }

  function HybridResult(c: Candidate, lexical: Candidate -> real): Result {
    Blend(LexicalResult(c, lexical), c)
  }

  function HybridResults(candidates: seq<Candidate>, lexical: Candidate -> real): seq<Result> {
    seq(|candidates|, k requires 0 <= k < |candidates| => HybridResult(candidates[k], lexical))
  }

  // Results blended with the last candidate of their chunk.
  function Blended(candidates: seq<Candidate>, results: seq<Result>): seq<Result> {
    seq(|results|, k requires 0 <= k < |results| => BlendFrom(candidates, results[k]))
  }

  method RankHybrid(candidates: seq<Candidate>, lexical: Candidate -> real) returns (results: seq<Result>)
    ensures results == Sort(HybridBefore, Blended(candidates, Sort(LexicalBefore, LexicalResults(candidates, lexical))))
    ensures DistinctChunks(candidates) ==> results == Sort(HybridBefore, HybridResults(candidates, lexical))
  {
    results := RankCandidates(candidates, lexical);
    ghost var ranked := results;
    var byChunk: map<Id, Candidate> := map[];
    for k := 0 to |candidates|
      invariant Indexes(byChunk, candidates[..k])
    {
      IndexGrows(byChunk, candidates, k);
      byChunk := byChunk[candidates[k].chunkId := candidates[k]];
    }
    assert candidates[..|candidates|] == candidates;
    FromCandidates(candidates, lexical, ranked);
    for index := 0 to |results|
      invariant |results| == |ranked|
      invariant forall i | 0 <= i < index :: results[i] == BlendFrom(candidates, ranked[i])
      invariant forall i | index <= i < |ranked| :: results[i] == ranked[i]
    {
      hide Blend, Origin;
      OriginExists(candidates, lexical, ranked[index]);
      assert Lookup(byChunk, ranked[index].chunkId) == Origin(candidates, ranked[index].chunkId);
      var candidate := byChunk[results[index].chunkId];
      results := results[index := Blend(results[index], candidate)];
    }
    assert results == Blended(candidates, ranked);
    if DistinctChunks(candidates) {
      BlendedPermutes(candidates, lexical, ranked, results);
      SortSame(candidates, lexical, results);
    }
    results := Sort(HybridBefore, results);
  }

  function Lookup(byChunk: map<Id, Candidate>, id: Id): Option<Candidate> {
    if id in byChunk then Some(byChunk[id]) else None
  }

  // byChunk holds the last candidate of each chunk.
  ghost predicate Indexes(byChunk: map<Id, Candidate>, candidates: seq<Candidate>) {
    forall id :: Lookup(byChunk, id) == Origin(candidates, id)
  }

  lemma IndexGrows(byChunk: map<Id, Candidate>, candidates: seq<Candidate>, k: nat)
    requires k < |candidates| && Indexes(byChunk, candidates[..k])
    ensures Indexes(byChunk[candidates[k].chunkId := candidates[k]], candidates[..k + 1])
  {
    var s := candidates[..k + 1];
    assert s[..|s| - 1] == candidates[..k] && s[|s| - 1] == candidates[k];
    var more := byChunk[candidates[k].chunkId := candidates[k]];
    forall id
      ensures Lookup(more, id) == Origin(s, id)
    {
      assert Lookup(byChunk, id) == Origin(candidates[..k], id);
      if id == candidates[k].chunkId {
        assert id in more;
      }
    }
  }

  lemma OriginExists(candidates: seq<Candidate>, lexical: Candidate -> real, r: Result)
    requires FromSome(candidates, lexical, r)
    ensures Origin(candidates, r.chunkId).Some?
  {
  }

  // The candidate a result came from.
  function Origin(candidates: seq<Candidate>, id: Id): Option<Candidate> {
    var p := PositionOf(candidates, id);
    if p.None? then None else Some(candidates[p.value])
  }

  function BlendFrom(candidates: seq<Candidate>, r: Result): Result {
    var c := Origin(candidates, r.chunkId);
    if c.None? then r else Blend(r, c.value)
  }

  ghost predicate FromSome(candidates: seq<Candidate>, lexical: Candidate -> real, r: Result) {
    exists i :: 0 <= i < |candidates| && r == LexicalResult(candidates[i], lexical)
  }

  lemma FromCandidates(candidates: seq<Candidate>, lexical: Candidate -> real, ranked: seq<Result>)
    requires multiset(ranked) == multiset(LexicalResults(candidates, lexical))
    ensures forall k | 0 <= k < |ranked| :: FromSome(candidates, lexical, ranked[k])
  {
    var all := LexicalResults(candidates, lexical);
    forall k | 0 <= k < |ranked|
      ensures FromSome(candidates, lexical, ranked[k])
    {
      MultisetMember(ranked, ranked[k]);
      MultisetMember(all, ranked[k]);
      var i :| 0 <= i < |all| && all[i] == ranked[k];
    }
  }

  // Mapping a permutation gives a permutation of the mapped list.
  lemma {:induction false} MapPermutes<T, U>(f: T -> U, s: seq<T>, t: seq<T>)
    requires multiset(s) == multiset(t)
    ensures multiset(Map(f, s)) == multiset(Map(f, t))
    decreases |s|
  {
    SameLength(s, t);
    if s != [] {
      var n := |s| - 1;
      MultisetMember(s, s[n]);
      MultisetMember(t, s[n]);
      var j :| 0 <= j < |t| && t[j] == s[n];
      TakeOut(f, s, n);
      TakeOut(f, t, j);
      assert multiset(s[..n] + s[n + 1..]) == multiset(t[..j] + t[j + 1..]);
      MapPermutes(f, s[..n] + s[n + 1..], t[..j] + t[j + 1..]);
    }
  }

  lemma TakeOut<T, U>(f: T -> U, t: seq<T>, j: nat)
    requires j < |t|
    ensures multiset(t[..j] + t[j + 1..]) == multiset(t) - multiset{t[j]}
    ensures multiset(Map(f, t)) == multiset(Map(f, t[..j] + t[j + 1..])) + multiset{f(t[j])}
  {
    assert t == t[..j] + [t[j]] + t[j + 1..];
    assert multiset(t) == multiset(t[..j] + t[j + 1..]) + multiset{t[j]};
    var m := Map(f, t);
    assert m == m[..j] + [m[j]] + m[j + 1..];
    assert Map(f, t[..j] + t[j + 1..]) == m[..j] + m[j + 1..];
  }

  lemma BlendedPermutes(candidates: seq<Candidate>, lexical: Candidate -> real, ranked: seq<Result>, results: seq<Result>)
    requires DistinctChunks(candidates)
    requires multiset(ranked) == multiset(LexicalResults(candidates, lexical))
    requires |results| == |ranked|
    requires forall i | 0 <= i < |ranked| :: results[i] == BlendFrom(candidates, ranked[i])
    ensures multiset(results) == multiset(HybridResults(candidates, lexical))
  {
    hide Blend, PositionOf;
    var f := r => BlendFrom(candidates, r);
    var all := LexicalResults(candidates, lexical);
    MapPermutes(f, ranked, all);
    assert results == Map(f, ranked);
    forall i | 0 <= i < |candidates|
      ensures Map(f, all)[i] == HybridResult(candidates[i], lexical)
    {
      var p := PositionOf(candidates, candidates[i].chunkId);
    }
    assert Map(f, all) == HybridResults(candidates, lexical);
  }

  // Both comparisons are strict weak orders.
  lemma LexicalOrder()
    ensures WeakOrder(LexicalBefore)
  {
  }

  lemma HybridOrder()
    ensures WeakOrder(HybridBefore)
  {
  }

  lemma SeparatesHybrid(candidates: seq<Candidate>, lexical: Candidate -> real)
    requires DistinctChunks(candidates)
    ensures Separates(HybridBefore, HybridResults(candidates, lexical))
  {
  }

  lemma SeparatesPermuted(less: (Result, Result) -> bool, s: seq<Result>, t: seq<Result>)
    requires multiset(s) == multiset(t) && Separates(less, s)
    ensures Separates(less, t)
  {
    forall a | a in t
      ensures a in s
    {
      MultisetMember(t, a);
      MultisetMember(s, a);
    }
  }

  lemma SortSame(candidates: seq<Candidate>, lexical: Candidate -> real, results: seq<Result>)
    requires DistinctChunks(candidates) && multiset(results) == multiset(HybridResults(candidates, lexical))
    ensures Sort(HybridBefore, results) == Sort(HybridBefore, HybridResults(candidates, lexical))
  {
    var all := HybridResults(candidates, lexical);
    HybridOrder();
    SortFacts(HybridBefore, results);
    SortFacts(HybridBefore, all);
    SeparatesHybrid(candidates, lexical);
    SeparatesPermuted(HybridBefore, all, Sort(HybridBefore, all));
    OrderedUnique(HybridBefore, Sort(HybridBefore, all), Sort(HybridBefore, results));
  }

  // The hybrid ranking is the candidates' results in order, and does not depend
  // on the order in which the candidates came.
  lemma HybridRanking(candidates: seq<Candidate>, lexical: Candidate -> real)
    requires DistinctChunks(candidates)
    ensures var ranking := Sort(HybridBefore, HybridResults(candidates, lexical));
            && multiset(ranking) == multiset(HybridResults(candidates, lexical))
            && (forall i, j | 0 <= i < j < |ranking| ::
                  || ranking[i].score > ranking[j].score
                  || (ranking[i].score == ranking[j].score && ranking[i].chunkId < ranking[j].chunkId))
            && (forall permuted :: multiset(permuted) == multiset(candidates) && DistinctChunks(permuted)
                  ==> Sort(HybridBefore, HybridResults(permuted, lexical)) == ranking)
  {
    var all := HybridResults(candidates, lexical);
    var ranking := Sort(HybridBefore, all);
    HybridOrder();
    SortFacts(HybridBefore, all);
    StrictlyBefore(candidates, lexical, ranking);
    forall permuted | multiset(permuted) == multiset(candidates) && DistinctChunks(permuted)
      ensures Sort(HybridBefore, HybridResults(permuted, lexical)) == ranking
    {
      var f := c => HybridResult(c, lexical);
      MapPermutes(f, permuted, candidates);
      assert Map(f, permuted) == HybridResults(permuted, lexical);
      assert Map(f, candidates) == all;
      SortSame(candidates, lexical, HybridResults(permuted, lexical));
    }
  }

  lemma ChunksPermuted(all: seq<Result>, ranking: seq<Result>)
    requires multiset(ranking) == multiset(all)
    requires forall i, j | 0 <= i < j < |all| :: all[i].chunkId != all[j].chunkId
    ensures forall i, j | 0 <= i < j < |ranking| :: ranking[i].chunkId != ranking[j].chunkId
  {
    var f := (r: Result) => r.chunkId;
    MapPermutes(f, ranking, all);
    var ids, sorted := Map(f, all), Map(f, ranking);
    forall i, j | 0 <= i < j < |ranking|
      ensures ranking[i].chunkId != ranking[j].chunkId
    {
      if sorted[i] == sorted[j] {
        TwiceCounted(sorted, i, j);
        OnceCounted(ids, sorted[i]);
      }
    }
  }

  lemma TwiceCounted<T>(s: seq<T>, i: nat, j: nat)
    requires i < j < |s| && s[i] == s[j]
    ensures multiset(s)[s[i]] >= 2
  {
    assert s == s[..i] + [s[i]] + s[i + 1..j] + [s[j]] + s[j + 1..];
  }

  lemma {:induction false} OnceCounted<T>(s: seq<T>, x: T)
    requires forall i, j | 0 <= i < j < |s| :: s[i] != s[j]
    ensures multiset(s)[x] <= 1
  {
    if s != [] {
      FrontAndLast(s);
      OnceCounted(s[..|s| - 1], x);
      if s[|s| - 1] == x {
        MultisetMember(s[..|s| - 1], x);
      }
    }
  }

  lemma StrictlyBefore(candidates: seq<Candidate>, lexical: Candidate -> real, ranking: seq<Result>)
    requires DistinctChunks(candidates)
    requires multiset(ranking) == multiset(HybridResults(candidates, lexical)) && Ordered(HybridBefore, ranking)
    ensures forall i, j | 0 <= i < j < |ranking| :: HybridBefore(ranking[i], ranking[j])
  {
    ChunksPermuted(HybridResults(candidates, lexical), ranking);
  }

  // ---- From ranking to selection ---------------------------------------------

  function ToRanked(results: seq<Result>): seq<Diversity.Ranked> {
    seq(|results|, k requires 0 <= k < |results| =>
      Diversity.Ranked(results[k].chunkId, results[k].documentId, results[k].noteId, results[k].confidence))
  }

  ghost predicate NoteOfCandidate(candidates: seq<Candidate>) {
    forall c, d | c in candidates && d in candidates && c.documentId == d.documentId :: c.noteId == d.noteId
  }

  ghost predicate DerivedFrom(candidates: seq<Candidate>, r: Result) {
    exists c :: c in candidates && r.documentId == c.documentId && r.noteId == c.noteId && r.confidence == Clamp(r.score, 0.0, 1.0)
  }

  // The score decides first.
  ghost predicate ByScore(less: (Result, Result) -> bool, results: seq<Result>) {
    forall a, b | a in results && b in results && !less(b, a) :: a.score >= b.score
  }

  // What search makes of a ranking: confidences in [0,1] that never increase,
  // and a selection that no admissible one beats in number or in confidence.
  ghost predicate SelectsBest(ranking: seq<Result>, minimumConfidence: real, limit: nat) {
    var ranked := ToRanked(ranking);
    && DiverseOptimality.Usable(ranked)
    && (forall k | 0 <= k < |ranked| :: ranked[k].confidence <= 1.0)
    && Diversity.Admissible(ranked, Diversity.Threshold(ranked, minimumConfidence), limit,
                            Diversity.Greedy(ranked, Diversity.Threshold(ranked, minimumConfidence), limit, |ranked|))
    && DiverseOptimality.Best(ranked, minimumConfidence, limit)
  }

  lemma RankingSelectsBest(candidates: seq<Candidate>, all: seq<Result>, less: (Result, Result) -> bool, minimumConfidence: real, limit: nat)
    requires all != [] && NoteOfCandidate(candidates) && WeakOrder(less) && ByScore(less, all)
    requires forall k | 0 <= k < |all| :: DerivedFrom(candidates, all[k])
    ensures SelectsBest(Sort(less, all), minimumConfidence, limit)
  {
    hide Diversity.Admissible, Diversity.Greedy, Diversity.Threshold, DiverseOptimality.Best, DiverseOptimality.NonIncreasing,
         DiverseOptimality.NoteOfDocument, ToRanked, Sort, ByScore, DerivedFrom, NoteOfCandidate;
    var ranking := Sort(less, all);
    SortFacts(less, all);
    RankingFacts(candidates, all, less, ranking);
    var ranked := ToRanked(ranking);
    Diversity.GreedyAdmissible(ranked, Diversity.Threshold(ranked, minimumConfidence), limit, |ranked|);
    DiverseOptimality.GreedyIsOptimal(ranked, minimumConfidence, limit);
  }

  lemma RankingFacts(candidates: seq<Candidate>, all: seq<Result>, less: (Result, Result) -> bool, ranking: seq<Result>)
    requires multiset(ranking) == multiset(all) && Ordered(less, ranking) && NoteOfCandidate(candidates) && WeakOrder(less) && ByScore(less, all)
    requires forall k | 0 <= k < |all| :: DerivedFrom(candidates, all[k])
    ensures var ranked := ToRanked(ranking);
            && |ranked| == |ranking| && DiverseOptimality.NonIncreasing(ranked) && DiverseOptimality.NoteOfDocument(ranked)
            && forall k | 0 <= k < |ranked| :: 0.0 <= ranked[k].confidence <= 1.0
  {
    forall k | 0 <= k < |ranking|
      ensures ranking[k] in all && DerivedFrom(candidates, ranking[k])
    {
      MultisetMember(ranking, ranking[k]);
      MultisetMember(all, ranking[k]);
    }
  }

  // In each of the three modes the selection made from the ranking is optimal.
  lemma LexicalSelectionOptimal(candidates: seq<Candidate>, lexical: Candidate -> real, minimumConfidence: real, limit: nat)
    requires candidates != [] && NoteOfCandidate(candidates)
    ensures SelectsBest(Sort(LexicalBefore, LexicalResults(candidates, lexical)), minimumConfidence, limit)
  {
    hide SelectsBest, Clamp;
    var all := LexicalResults(candidates, lexical);
    LexicalOrder();
    forall k | 0 <= k < |all|
      ensures DerivedFrom(candidates, all[k])
    {
      assert candidates[k] in candidates;
    }
    RankingSelectsBest(candidates, all, LexicalBefore, minimumConfidence, limit);
  }

  lemma VectorSelectionOptimal(candidates: seq<Candidate>, minimumConfidence: real, limit: nat)
    requires candidates != [] && NoteOfCandidate(candidates)
    ensures SelectsBest(Sort(VectorBefore, VectorResults(candidates)), minimumConfidence, limit)
  {
    hide SelectsBest, Clamp;
    var all := VectorResults(candidates);
    forall k | 0 <= k < |all|
      ensures DerivedFrom(candidates, all[k])
    {
      assert candidates[k] in candidates;
    }
    forall r | r in all
      ensures r.score == r.vectorScore
    {
      var k :| 0 <= k < |all| && all[k] == r;
    }
    RankingSelectsBest(candidates, all, VectorBefore, minimumConfidence, limit);
  }

  lemma HybridSelectionOptimal(candidates: seq<Candidate>, lexical: Candidate -> real, minimumConfidence: real, limit: nat)
    requires candidates != [] && NoteOfCandidate(candidates)
    ensures SelectsBest(Sort(HybridBefore, HybridResults(candidates, lexical)), minimumConfidence, limit)
  {
    hide SelectsBest, Clamp;
    var all := HybridResults(candidates, lexical);
    HybridOrder();
    forall k | 0 <= k < |all|
      ensures DerivedFrom(candidates, all[k])
    {
      assert candidates[k] in candidates;
    }
    RankingSelectsBest(candidates, all, HybridBefore, minimumConfidence, limit);
  }
}
