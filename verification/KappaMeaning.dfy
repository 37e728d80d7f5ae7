// What the two kappas measure (audit.go): how the disagreement of the raters
// compares with that of all pairs of one judgment of each.
module KappaMeaning {
  import opened Sequences
  import opened Kappa

  // ---- Quadratically weighted kappa ------------------------------------------

  function DistanceFrom(x: nat, b: seq<nat>): int {
    if b == [] then 0 else DistanceFrom(x, b[..|b| - 1]) + (x - b[|b| - 1]) * (x - b[|b| - 1])
  }

  // The squared differences of every grade of a from every grade of b.
  function CrossDistance(a: seq<nat>, b: seq<nat>): int {
    if a == [] then 0 else CrossDistance(a[..|a| - 1], b) + DistanceFrom(a[|a| - 1], b)
  }

  lemma {:induction false} DistanceFromMoments(x: nat, b: seq<nat>)
    ensures DistanceFrom(x, b) == |b| * (x * x) - 2 * (x * Sum(b)) + Dot(b, b)
  {
    if b != [] {
      var n := |b| - 1;
      DistanceFromMoments(x, b[..n]);
      var y: int := b[n];
      Binomial(x, y);
      Distribute(n, 1, x * x);
      assert x * (Sum(b[..n]) + y) == x * Sum(b[..n]) + x * y;
    }
  }

  lemma Distribute(m: int, n: int, x: int)
    ensures (m + n) * x == m * x + n * x
  {
  }

  lemma {:induction false} CrossDistanceMoments(a: seq<nat>, b: seq<nat>)
    ensures CrossDistance(a, b) == |b| * Dot(a, a) - 2 * (Sum(a) * Sum(b)) + |a| * Dot(b, b)
  {
    hide DistanceFrom;
    if a != [] {
      var n := |a| - 1;
      CrossDistanceMoments(a[..n], b);
      var x: int := a[n];
      DistanceFromMoments(a[n], b);
      Distribute(n, 1, Dot(b, b));
      Distribute(Sum(a[..n]), x, Sum(b));
      assert |b| * (Dot(a[..n], a[..n]) + x * x) == |b| * Dot(a[..n], a[..n]) + |b| * (x * x);
    }
  }

  // One minus kappa is the mean squared difference of paired grades over the
  // mean squared difference of all pairs.
  lemma QuadraticMeaning(a: seq<nat>, b: seq<nat>)
    requires |a| == |b| > 0
    ensures (1.0 - QuadraticKappa(a, b)) * CrossDistance(a, b) as real == (|a| * Distance(a, b)) as real
    ensures CrossDistance(a, b) == 0 ==> a == b && QuadraticKappa(a, b) == 1.0
  {
    hide Dot, Sum, Distance, CrossDistance, Covariance;
    CrossDistanceMoments(a, b);
    assert CrossDistance(a, b) == Spread(a, b);
    SpreadFacts(a, b);
    DistanceZero(a, b);
    var s, d := Spread(a, b), Distance(a, b);
    if s == 0 {
      ZeroFactor(|a|, d);
    } else {
      OneMinus((2 * Covariance(a, b)) as real, s as real);
    }
  }

  lemma ZeroFactor(n: nat, d: int)
    requires n > 0
    ensures d > 0 ==> n * d > 0
  {
  }

  lemma OneMinus(x: real, y: real)
    requires y != 0.0
    ensures (1.0 - x / y) * y == y - x
  {
    assert x / y * y == x;
  }

  // ---- Cohen's kappa ---------------------------------------------------------

  // The pairs of a choice of a and a choice of b that are equal.
  function CrossAgreements(a: seq<nat>, b: seq<nat>): nat {
    if a == [] then 0 else CrossAgreements(a[..|a| - 1], b) + Count(b, a[|a| - 1])
  }

  lemma {:induction false} ExpectedGrows(a: seq<nat>, x: nat, b: seq<nat>, k: nat)
    ensures Expected(a + [x], b, k) == Expected(a, b, k) + if x < k then Count(b, x) else 0
  {
    if k > 0 {
      ExpectedGrows(a, x, b, k - 1);
      assert (a + [x])[..|a|] == a;
      Distribute(Count(a, k - 1), 1, Count(b, k - 1));
    }
  }

  lemma {:induction false} ExpectedOfNone(b: seq<nat>, k: nat)
    ensures Expected([], b, k) == 0
  {
    if k > 0 {
      ExpectedOfNone(b, k - 1);
    }
  }

  lemma {:induction false} ExpectedIsCrossAgreements(a: seq<nat>, b: seq<nat>, categories: nat)
    requires Below(a, categories)
    ensures Expected(a, b, categories) == CrossAgreements(a, b)
  {
    hide Expected, Count;
    if a == [] {
      ExpectedOfNone(b, categories);
    } else {
      var n := |a| - 1;
      ExpectedIsCrossAgreements(a[..n], b, categories);
      ExpectedGrows(a[..n], a[n], b, categories);
      assert a == a[..n] + [a[n]];
    }
  }

  // One minus kappa is the share of unequal paired choices over the share of
  // unequal choices among all pairs.
  lemma PlainMeaning(a: seq<nat>, b: seq<nat>, categories: nat)
    requires |a| == |b| > 0 && Below(a, categories) && Below(b, categories)
    ensures var n := |a|;
            (1.0 - PlainKappa(a, b, categories)) * (n * n - CrossAgreements(a, b)) as real == (n * n - n * Agreements(a, b)) as real
    ensures CrossAgreements(a, b) == |a| * |a| ==> a == b && PlainKappa(a, b, categories) == 1.0
  {
    hide Expected, CrossAgreements, Agreements;
    ExpectedIsCrossAgreements(a, b, categories);
    ExpectedFacts(a, b, categories);
    AgreementsFull(a, b);
    var n, e := |a|, CrossAgreements(a, b);
    if e == n * n {
      SameFactor(n, Agreements(a, b));
    } else {
      OneMinus((n * Agreements(a, b) - e) as real, (n * n - e) as real);
    }
  }
}
