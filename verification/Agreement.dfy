// Agreement of two raters over all cases (audit.go, calculateAgreement),
// without the rounding to four decimals.
module Agreement {
  import opened Sequences
  import opened Kappa

  datatype ReviewPair = ReviewPair(answerA: string, answerB: string, gradesA: seq<nat>, gradesB: seq<nat>)

  datatype Measures = Measures(
    caseCount: nat,
    judgmentCount: nat,
    answerExact: real,
    binaryKappa: real,
    gradeExact: real,
    quadraticKappa: real)

  // Both raters graded the same sources, from 0 to 3.
  predicate Graded(pairs: seq<ReviewPair>) {
    forall k | 0 <= k < |pairs| ::
      |pairs[k].gradesA| == |pairs[k].gradesB| && Below(pairs[k].gradesA, 4) && Below(pairs[k].gradesB, 4)
  }

  function Answerable(answer: string): nat {
    if answer == "answerable" then 1 else 0
  }

  function AnswersA(pairs: seq<ReviewPair>): seq<nat> {
    seq(|pairs|, k requires 0 <= k < |pairs| => Answerable(pairs[k].answerA))
  }

  function AnswersB(pairs: seq<ReviewPair>): seq<nat> {
    seq(|pairs|, k requires 0 <= k < |pairs| => Answerable(pairs[k].answerB))
  }

  function GradesA(pairs: seq<ReviewPair>): seq<nat> {
    if pairs == [] then [] else GradesA(pairs[..|pairs| - 1]) + pairs[|pairs| - 1].gradesA
  }

  function GradesB(pairs: seq<ReviewPair>): seq<nat> {
    if pairs == [] then [] else GradesB(pairs[..|pairs| - 1]) + pairs[|pairs| - 1].gradesB
  }

  function SameAnswers(pairs: seq<ReviewPair>): nat {
    if pairs == [] then 0
    else SameAnswers(pairs[..|pairs| - 1]) + if pairs[|pairs| - 1].answerA == pairs[|pairs| - 1].answerB then 1 else 0
  }

  lemma {:induction false} GradesAligned(pairs: seq<ReviewPair>)
    requires Graded(pairs)
    ensures |GradesA(pairs)| == |GradesB(pairs)| && Below(GradesA(pairs), 4) && Below(GradesB(pairs), 4)
    ensures GradesA(pairs) == GradesB(pairs) <==> forall k | 0 <= k < |pairs| :: pairs[k].gradesA == pairs[k].gradesB
  {
    if pairs != [] {
      var n := |pairs| - 1;
      GradesAligned(pairs[..n]);
      var a, b := GradesA(pairs[..n]), GradesB(pairs[..n]);
      JoinEqual(a, pairs[n].gradesA, b, pairs[n].gradesB);
      assert forall k | 0 <= k < n :: pairs[..n][k] == pairs[k];
    }
  }

  lemma JoinEqual(a: seq<nat>, x: seq<nat>, b: seq<nat>, y: seq<nat>)
    requires |a| == |b|
    ensures a + x == b + y <==> a == b && x == y
  {
    if a + x == b + y {
      assert a == (a + x)[..|a|] && b == (b + y)[..|b|];
      assert x == (a + x)[|a|..] && y == (b + y)[|b|..];
    }
  }

  function MeasuresOf(pairs: seq<ReviewPair>): Measures
    requires Graded(pairs)
  {
    if pairs == [] then Measures(0, 0, 0.0, 0.0, 0.0, 0.0)
    else
      GradesAligned(pairs);
      var a, b := GradesA(pairs), GradesB(pairs);
      Measures(|pairs|, |a|,
               SameAnswers(pairs) as real / |pairs| as real,
               PlainKappa(AnswersA(pairs), AnswersB(pairs), 2),
               if a == [] then 0.0 else Agreements(a, b) as real / |a| as real,
               if a == [] then 0.0 else QuadraticKappa(a, b))
  }

  lemma {:induction false} AgreementsJoin(a: seq<nat>, b: seq<nat>, x: nat, y: nat)
    requires |a| == |b|
    ensures Agreements(a + [x], b + [y]) == Agreements(a, b) + if x == y then 1 else 0
  {
    assert (a + [x])[..|a|] == a && (b + [y])[..|b|] == b;
  }

  // The inner loop: append one case's grades and count the equal ones.
  method AppendGrades(a: seq<nat>, b: seq<nat>, exact: nat, pair: ReviewPair) returns (a': seq<nat>, b': seq<nat>, exact': nat)
    requires |a| == |b| && exact == Agreements(a, b) && |pair.gradesA| == |pair.gradesB|
    ensures a' == a + pair.gradesA && b' == b + pair.gradesB && exact' == Agreements(a', b')
  {
    hide Agreements;
    a', b', exact' := a, b, exact;
    for index := 0 to |pair.gradesA|
      invariant a' == a + pair.gradesA[..index] && b' == b + pair.gradesB[..index]
      invariant exact' == Agreements(a', b')
    {
      Extend(pair.gradesA, index);
      Extend(pair.gradesB, index);
      AgreementsJoin(a', b', pair.gradesA[index], pair.gradesB[index]);
      a', b' := a' + [pair.gradesA[index]], b' + [pair.gradesB[index]];
      if pair.gradesA[index] == pair.gradesB[index] {
        exact' := exact' + 1;
      }
    }
    assert pair.gradesA[..|pair.gradesA|] == pair.gradesA && pair.gradesB[..|pair.gradesB|] == pair.gradesB;
  }

  method CalculateAgreement(pairs: seq<ReviewPair>) returns (r: Measures)
    requires Graded(pairs)
    ensures r == MeasuresOf(pairs)
  {
    hide Agreements, PlainKappa, QuadraticKappa, Below;
    if |pairs| == 0 {
      return Measures(0, 0, 0.0, 0.0, 0.0, 0.0);
    }
    var exactAnswers, exactGrades := 0, 0;
    var binaryA: seq<nat>, binaryB: seq<nat> := [], [];
    var gradesA: seq<nat>, gradesB: seq<nat> := [], [];
    assert Agreements([], []) == 0 by { NoAgreements(); }
    for k := 0 to |pairs|
      invariant binaryA == AnswersA(pairs)[..k] && binaryB == AnswersB(pairs)[..k]
      invariant gradesA == GradesA(pairs[..k]) && gradesB == GradesB(pairs[..k]) && |gradesA| == |gradesB|
      invariant exactAnswers == SameAnswers(pairs[..k]) && exactGrades == Agreements(gradesA, gradesB)
    {
      var pair := pairs[k];
      Extend(pairs, k);
      if pair.answerA == pair.answerB {
        exactAnswers := exactAnswers + 1;
      }
      binaryA, binaryB := binaryA + [Answerable(pair.answerA)], binaryB + [Answerable(pair.answerB)];
      gradesA, gradesB, exactGrades := AppendGrades(gradesA, gradesB, exactGrades, pair);
    }
    assert pairs[..|pairs|] == pairs;
    assert binaryA == AnswersA(pairs) && binaryB == AnswersB(pairs);
    GradesAligned(pairs);
    AnswersBelow(pairs);
    var binaryKappa := CohenKappa(binaryA, binaryB, 2);
    r := Measures(|pairs|, |gradesA|, exactAnswers as real / |pairs| as real, binaryKappa, 0.0, 0.0);
    if |gradesA| > 0 {
      var quadratic := QuadraticWeightedKappa(gradesA, gradesB, 4);
      r := r.(gradeExact := exactGrades as real / |gradesA| as real, quadraticKappa := quadratic);
    }
  }

  lemma NoAgreements()
    ensures Agreements([], []) == 0
  {
  }

  lemma AnswersBelow(pairs: seq<ReviewPair>)
    ensures Below(AnswersA(pairs), 2) && Below(AnswersB(pairs), 2)
  {
  }

  // Both kappas lie in [-1, 1].  The graded one is 1, and the exact share is 1,
  // exactly when every source got the same grade twice; the binary one
  // is 1 exactly when they agree on which cases are answerable.
  lemma FullAgreement(pairs: seq<ReviewPair>)
    requires Graded(pairs) && pairs != []
    ensures var m := MeasuresOf(pairs);
            && -1.0 <= m.binaryKappa <= 1.0 && -1.0 <= m.quadraticKappa <= 1.0
            && m.caseCount == |pairs|
            && (m.binaryKappa == 1.0 <==>
                  forall k | 0 <= k < |pairs| :: pairs[k].answerA == "answerable" <==> pairs[k].answerB == "answerable")
            && (m.answerExact == 1.0 <==> forall k | 0 <= k < |pairs| :: pairs[k].answerA == pairs[k].answerB)
            && (m.judgmentCount > 0 ==>
                  && (m.quadraticKappa == 1.0 <==> forall k | 0 <= k < |pairs| :: pairs[k].gradesA == pairs[k].gradesB)
                  && (m.gradeExact == 1.0 <==> m.quadraticKappa == 1.0))
  {
    hide Agreements, PlainKappa, QuadraticKappa, Below;
    var x, y, a, b := AnswersA(pairs), AnswersB(pairs), GradesA(pairs), GradesB(pairs);
    GradesAligned(pairs);
    AnswersBelow(pairs);
    PlainKappaFacts(x, y, 2);
    assert x == y <==> forall k | 0 <= k < |pairs| :: Answerable(pairs[k].answerA) == Answerable(pairs[k].answerB) by {
      if x == y {
        forall k | 0 <= k < |pairs|
          ensures Answerable(pairs[k].answerA) == Answerable(pairs[k].answerB)
        {
          assert x[k] == y[k];
        }
      }
    }
    AllSame(pairs);
    ShareIsOne(SameAnswers(pairs), |pairs|);
    if |a| > 0 {
      QuadraticKappaFacts(a, b);
      AgreementsFull(a, b);
      ShareIsOne(Agreements(a, b), |a|);
    }
  }

  lemma {:induction false} AllSame(pairs: seq<ReviewPair>)
    ensures SameAnswers(pairs) <= |pairs|
    ensures SameAnswers(pairs) == |pairs| <==> forall k | 0 <= k < |pairs| :: pairs[k].answerA == pairs[k].answerB
  {
    if pairs != [] {
      var front := pairs[..|pairs| - 1];
      AllSame(front);
      assert forall k | 0 <= k < |front| :: front[k] == pairs[k];
    }
  }

  // The graded pairs are all the judgments of all the cases.
  lemma {:induction false} JudgmentsCounted(pairs: seq<ReviewPair>)
    ensures |GradesA(pairs)| == JudgmentTotal(pairs)
  {
    if pairs != [] {
      JudgmentsCounted(pairs[..|pairs| - 1]);
    }
  }

  function JudgmentTotal(pairs: seq<ReviewPair>): nat {
    if pairs == [] then 0 else JudgmentTotal(pairs[..|pairs| - 1]) + |pairs[|pairs| - 1].gradesA|
  }

  lemma ShareIsOne(x: nat, n: nat)
    requires n > 0
    ensures x as real / n as real == 1.0 <==> x == n
  {
    var q := x as real / n as real;
    Undo(x as real, n as real);
    if q == 1.0 {
      assert x as real == n as real;
    }
    if x == n {
      IsOne(q, n as real, x as real);
    }
  }
}
