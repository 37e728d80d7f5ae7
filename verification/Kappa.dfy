// Agreement between two raters (audit.go): Cohen's kappa and the quadratically
// weighted kappa, with real arithmetic in place of floating point.
module Kappa {
  import opened Sequences

  // ---- Sums over the grades --------------------------------------------------

  function Count(s: seq<nat>, c: nat): nat {
    if s == [] then 0 else Count(s[..|s| - 1], c) + if s[|s| - 1] == c then 1 else 0
  }

  function Sum(s: seq<nat>): int {
    if s == [] then 0 else Sum(s[..|s| - 1]) + s[|s| - 1]
  }

  function Dot(s: seq<nat>, t: seq<nat>): int
    requires |s| == |t|
  {
    if s == [] then 0 else Dot(s[..|s| - 1], t[..|t| - 1]) + s[|s| - 1] * t[|t| - 1]
  }

  function SquaredDifference(x: int, y: int): int {
    (x - y) * (x - y)
  }

  // Sum of the squared differences.
  function Distance(s: seq<nat>, t: seq<nat>): int
    requires |s| == |t|
  {
    if s == [] then 0
    else
      Distance(s[..|s| - 1], t[..|t| - 1]) + SquaredDifference(s[|s| - 1], t[|t| - 1])
  }

  // Number of positions on which the raters agree.
  function Agreements(s: seq<nat>, t: seq<nat>): nat
    requires |s| == |t|
  {
    if s == [] then 0
    else Agreements(s[..|s| - 1], t[..|t| - 1]) + if s[|s| - 1] == t[|t| - 1] then 1 else 0
  }

  predicate Below(s: seq<nat>, categories: nat) {
    forall k | 0 <= k < |s| :: s[k] < categories
  }

  // ---- Moments ---------------------------------------------------------------

  lemma {:induction false} DistanceIsMoments(s: seq<nat>, t: seq<nat>)
    requires |s| == |t|
    ensures Distance(s, t) == Dot(s, s) + Dot(t, t) - 2 * Dot(s, t)
  {
    if s != [] {
      DistanceIsMoments(s[..|s| - 1], t[..|t| - 1]);
      Binomial(s[|s| - 1], t[|t| - 1]);
    }
  }

  lemma Binomial(x: int, y: int)
    ensures SquaredDifference(x, y) == x * x + y * y - 2 * (x * y)
    ensures (x + y) * (x + y) == x * x + y * y + 2 * (x * y)
    ensures SquaredDifference(x, y) >= 0 && (SquaredDifference(x, y) == 0 <==> x == y)
  {
    Square(x - y);
  }

  lemma {:induction false} DotSymmetric(s: seq<nat>, t: seq<nat>)
    requires |s| == |t|
    ensures Dot(s, t) == Dot(t, s)
  {
    if s != [] {
      DotSymmetric(s[..|s| - 1], t[..|t| - 1]);
    }
  }

  lemma {:induction false} DistanceZero(s: seq<nat>, t: seq<nat>)
    requires |s| == |t|
    ensures Distance(s, t) >= 0 && (Distance(s, t) == 0 <==> s == t)
  {
    if s != [] {
      var n := |s| - 1;
      DistanceZero(s[..n], t[..n]);
      Extend(s, n);
      Extend(t, n);
      assert s[..n + 1] == s && t[..n + 1] == t;
      Binomial(s[n], t[n]);
    }
  }

  lemma Square(x: int)
    ensures x * x >= 0 && (x * x == 0 <==> x == 0)
  {
    if x > 0 {
      assert x * x >= x;
    } else if x < 0 {
      assert x * x == (-x) * (-x) && (-x) * (-x) >= -x;
    }
  }

  function Plus(s: seq<nat>, t: seq<nat>): (r: seq<nat>)
    requires |s| == |t|
    ensures |r| == |s|
  {
    if s == [] then [] else Plus(s[..|s| - 1], t[..|t| - 1]) + [s[|s| - 1] + t[|t| - 1]]
  }

  lemma {:induction false} PlusMoments(s: seq<nat>, t: seq<nat>)
    requires |s| == |t|
    ensures Sum(Plus(s, t)) == Sum(s) + Sum(t)
    ensures Dot(Plus(s, t), Plus(s, t)) == Dot(s, s) + Dot(t, t) + 2 * Dot(s, t)
  {
    if s != [] {
      var n := |s| - 1;
      PlusMoments(s[..n], t[..n]);
      var p := Plus(s, t);
      assert p[..n] == Plus(s[..n], t[..n]);
      Binomial(s[n], t[n]);
    }
  }

  // Squared deviations from x.
  lemma {:induction false} Deviations(s: seq<nat>, x: int) returns (d: nat)
    ensures d == Dot(s, s) - 2 * x * Sum(s) + |s| * x * x
  {
    if s == [] {
      d := 0;
    } else {
      var n := |s| - 1;
      var e := Deviations(s[..n], x);
      var y := s[n];
      Square(y - x);
      var q := x * x;
      assert (y - x) * (y - x) == y * y - 2 * x * y + q;
      assert (n + 1) * x * x == n * x * x + q by { Regroup(n, x); }
      assert 2 * x * (Sum(s[..n]) + y) == 2 * x * Sum(s[..n]) + 2 * x * y;
      d := e + (y - x) * (y - x);
    }
  }

  lemma Regroup(n: int, x: int)
    ensures (n + 1) * x * x == n * x * x + x * x
  {
  }

  // The variance is not negative.
  lemma {:induction false} VarianceNonNegative(s: seq<nat>)
    ensures |s| * Dot(s, s) >= Sum(s) * Sum(s)
  {
    if s != [] {
      var n := |s| - 1;
      VarianceNonNegative(s[..n]);
      var d := Deviations(s[..n], s[n]);
      VarianceStep(n, Dot(s[..n], s[..n]), Sum(s[..n]), s[n]);
    }
  }

  lemma VarianceStep(n: int, q: int, sum: int, x: int)
    ensures (n + 1) * (q + x * x) - (sum + x) * (sum + x) == n * q - sum * sum + (q - 2 * x * sum + n * x * x)
  {
    assert (n + 1) * (q + x * x) == n * q + n * (x * x) + q + x * x;
    assert n * (x * x) == n * x * x;
    assert (sum + x) * (sum + x) == sum * sum + 2 * x * sum + x * x;
  }

  // ---- Quadratically weighted kappa ------------------------------------------

  // n*n*(VarA + VarB + (MeanA - MeanB)^2)
  function Spread(a: seq<nat>, b: seq<nat>): int {
    |a| * Dot(a, a) + |a| * Dot(b, b) - 2 * (Sum(a) * Sum(b))
  }

  // n*n*Cov
  function Covariance(a: seq<nat>, b: seq<nat>): int
    requires |a| == |b|
  {
    |a| * Dot(a, b) - Sum(a) * Sum(b)
  }

  // 2Cov / (VarA + VarB + (MeanA - MeanB)^2); equal constant raters get 1.
  function QuadraticKappa(a: seq<nat>, b: seq<nat>): real
    requires |a| == |b|
  {
    if Spread(a, b) == 0 then 1.0 else (2 * Covariance(a, b)) as real / Spread(a, b) as real
  }

  lemma SpreadFacts(a: seq<nat>, b: seq<nat>)
    requires |a| == |b|
    ensures 2 * Covariance(a, b) == Spread(a, b) - |a| * Distance(a, b)
    ensures -Spread(a, b) <= 2 * Covariance(a, b) <= Spread(a, b)
  {
    hide Dot, Sum, Distance, Plus;
    DistanceIsMoments(a, b);
    DistanceZero(a, b);
    PlusMoments(a, b);
    VarianceNonNegative(Plus(a, b));
    SpreadAlgebra(|a|, Dot(a, a), Dot(b, b), Dot(a, b), Sum(a), Sum(b), Distance(a, b));
  }

  lemma SpreadAlgebra(n: nat, p: int, q: int, r: int, x: int, y: int, d: nat)
    requires d == p + q - 2 * r && n * (p + q + 2 * r) >= (x + y) * (x + y)
    ensures var s, c := n * p + n * q - 2 * (x * y), n * r - x * y;
            2 * c == s - n * d && -s <= 2 * c <= s
  {
    Scale(n, p, q, r);
    Binomial(x, y);
    Scale(n, p, q, -r);
    assert n * -r == -(n * r);
    ProductNonNegative(n, d);
    assert n * d == n * p + n * q - 2 * (n * r);
  }

  lemma Scale(n: int, p: int, q: int, r: int)
    ensures n * (p + q + 2 * r) == n * p + n * q + 2 * (n * r)
  {
  }

  lemma ProductNonNegative(x: int, y: int)
    requires x >= 0 && y >= 0
    ensures x * y >= 0
  {
  }

  lemma Quotient(x: int, d: int)
    requires d > 0 && -d <= x <= d
    ensures -1.0 <= x as real / d as real <= 1.0
    ensures x as real / d as real == 1.0 <==> x == d
  {
    var q := x as real / d as real;
    assert q * d as real == x as real;
    QuotientBounds(q, d as real, x as real);
  }

  lemma QuotientBounds(q: real, d: real, x: real)
    requires d > 0.0 && -d <= x <= d && q * d == x
    ensures -1.0 <= q <= 1.0 && (q == 1.0 <==> x == d)
  {
    assert q > 1.0 ==> (q - 1.0) * d > 0.0;
    assert q < -1.0 ==> (q + 1.0) * d < 0.0;
    assert (q - 1.0) * d == x - d;
  }

  // Between -1 and 1, symmetric in the raters, and 1 exactly on full agreement.
  lemma QuadraticKappaFacts(a: seq<nat>, b: seq<nat>)
    requires |a| == |b| > 0
    ensures -1.0 <= QuadraticKappa(a, b) <= 1.0
    ensures QuadraticKappa(a, b) == QuadraticKappa(b, a)
    ensures QuadraticKappa(a, b) == 1.0 <==> a == b
  {
    hide Dot, Sum, Distance;
    SpreadFacts(a, b);
    DistanceZero(a, b);
    DotSymmetric(a, b);
    assert |a| * Distance(a, b) == 0 <==> Distance(a, b) == 0;
    if Spread(a, b) != 0 {
      Quotient(2 * Covariance(a, b), Spread(a, b));
    }
  }

  // ---- The histogram form ----------------------------------------------------

  // Sum of (left - right)^2 * A(left) * B(right) over right < k.
  function RowSum(a: seq<nat>, b: seq<nat>, left: nat, k: nat): int {
    if k == 0 then 0
    else
      RowSum(a, b, left, k - 1) + SquaredDifference(left, k - 1) * (Count(a, left) * Count(b, k - 1))
  }

  function TableSum(a: seq<nat>, b: seq<nat>, rows: nat, categories: nat): int {
    if rows == 0 then 0 else TableSum(a, b, rows - 1, categories) + RowSum(a, b, rows - 1, categories)
  }

  // Moments of the histogram of the first k categories.
  function Mass(s: seq<nat>, k: nat): int {
    if k == 0 then 0 else Mass(s, k - 1) + Count(s, k - 1)
  }

  function First(s: seq<nat>, k: nat): int {
    if k == 0 then 0 else First(s, k - 1) + (k - 1) * Count(s, k - 1)
  }

  function Second(s: seq<nat>, k: nat): int {
    if k == 0 then 0 else Second(s, k - 1) + (k - 1) * (k - 1) * Count(s, k - 1)
  }

  lemma {:induction false} HistogramOfNone(k: nat)
    ensures Mass([], k) == 0 && First([], k) == 0 && Second([], k) == 0
  {
    if k > 0 {
      HistogramOfNone(k - 1);
    }
  }

  lemma {:induction false} HistogramStep(s: seq<nat>, k: nat)
    requires s != []
    ensures var front, x := s[..|s| - 1], s[|s| - 1];
            && Mass(s, k) == Mass(front, k) + (if x < k then 1 else 0)
            && First(s, k) == First(front, k) + (if x < k then x else 0)
            && Second(s, k) == Second(front, k) + (if x < k then x * x else 0)
  {
    hide Count;
    if k > 0 {
      HistogramStep(s, k - 1);
      CountStep(s, k - 1);
      var c, m := Count(s[..|s| - 1], k - 1), if s[|s| - 1] == k - 1 then 1 else 0;
      Add(k - 1, c, m);
      Add((k - 1) * (k - 1), c, m);
    }
  }

  lemma CountStep(s: seq<nat>, c: nat)
    requires s != []
    ensures Count(s, c) == Count(s[..|s| - 1], c) + if s[|s| - 1] == c then 1 else 0
  {
  }

  // The histogram has the moments of the grades.
  lemma {:induction false} HistogramMoments(s: seq<nat>, k: nat)
    requires Below(s, k)
    ensures Mass(s, k) == |s| && First(s, k) == Sum(s) && Second(s, k) == Dot(s, s)
  {
    if s == [] {
      HistogramOfNone(k);
    } else {
      HistogramStep(s, k);
      HistogramMoments(s[..|s| - 1], k);
    }
  }

  lemma {:induction false} RowMoments(a: seq<nat>, b: seq<nat>, left: nat, k: nat)
    ensures RowSum(a, b, left, k)
            == Count(a, left) * (left * left * Mass(b, k) - 2 * left * First(b, k) + Second(b, k))
  {
    if k > 0 {
      RowMoments(a, b, left, k - 1);
      RowStep(Count(a, left), left, k - 1, Count(b, k - 1), Mass(b, k - 1), First(b, k - 1), Second(b, k - 1));
    }
  }

  lemma RowStep(c: int, l: int, r: int, d: int, m: int, f: int, s: int)
    ensures c * (l * l * m - 2 * l * f + s) + SquaredDifference(l, r) * (c * d)
            == c * (l * l * (m + d) - 2 * l * (f + r * d) + (s + r * r * d))
  {
    var ll, lr, rr := l * l, l * r, r * r;
    Binomial(l, r);
    assert l * l * (m + d) == ll * m + ll * d;
    assert 2 * l * (f + r * d) == 2 * l * f + 2 * (lr * d) by { assert l * (r * d) == lr * d; }
    assert (ll - 2 * lr + rr) * (c * d) == c * (ll * d - 2 * (lr * d) + rr * d) by { Factor(ll - 2 * lr + rr, c, d); Spread3(ll, lr, rr, d); }
    assert c * (ll * m - 2 * l * f + s) + c * (ll * d - 2 * (lr * d) + rr * d)
        == c * (ll * m - 2 * l * f + s + (ll * d - 2 * (lr * d) + rr * d));
  }

  lemma Factor(x: int, c: int, d: int)
    ensures x * (c * d) == c * (x * d)
  {
  }

  lemma Spread3(x: int, y: int, z: int, d: int)
    ensures (x - 2 * y + z) * d == x * d - 2 * (y * d) + z * d
  {
  }

  lemma {:induction false} TableMoments(a: seq<nat>, b: seq<nat>, rows: nat, k: nat)
    ensures TableSum(a, b, rows, k)
            == Second(a, rows) * Mass(b, k) - 2 * (First(a, rows) * First(b, k)) + Mass(a, rows) * Second(b, k)
  {
    if rows > 0 {
      TableMoments(a, b, rows - 1, k);
      RowMoments(a, b, rows - 1, k);
      TableStep(Count(a, rows - 1), rows - 1, Mass(b, k), First(b, k), Second(b, k),
                Mass(a, rows - 1), First(a, rows - 1), Second(a, rows - 1));
    }
  }

  lemma TableStep(c: int, l: int, m: int, f: int, s: int, ma: int, fa: int, sa: int)
    ensures sa * m - 2 * (fa * f) + ma * s + c * (l * l * m - 2 * l * f + s)
            == (sa + l * l * c) * m - 2 * ((fa + l * c) * f) + (ma + c) * s
  {
    var ll := l * l;
    assert (sa + ll * c) * m == sa * m + c * (ll * m) by { assert ll * c * m == c * (ll * m); }
    assert (fa + l * c) * f == fa * f + c * (l * f) by { assert l * c * f == c * (l * f); }
    assert (ma + c) * s == ma * s + c * s;
    assert l * l * m == ll * m && 2 * l * f == 2 * (l * f);
    assert c * (ll * m - 2 * (l * f) + s) == c * (ll * m) - 2 * (c * (l * f)) + c * s;
  }

  // The double sum over the histograms is the spread of the grades.
  lemma TableIsSpread(a: seq<nat>, b: seq<nat>, categories: nat)
    requires |a| == |b| && Below(a, categories) && Below(b, categories)
    ensures TableSum(a, b, categories, categories) == Spread(a, b)
  {
    TableMoments(a, b, categories, categories);
    HistogramMoments(a, categories);
    HistogramMoments(b, categories);
  }

  // ---- The code --------------------------------------------------------------

  // The two histograms the loops fill.
  ghost predicate Histogram(counts: seq<real>, s: seq<nat>) {
    forall c | 0 <= c < |counts| :: counts[c] == Count(s, c) as real
  }

  lemma HistogramGrows(counts: seq<real>, s: seq<nat>, k: nat)
    requires k < |s| && Histogram(counts, s[..k]) && s[k] < |counts|
    ensures Histogram(counts[s[k] := counts[s[k]] + 1.0], s[..k + 1])
  {
    Extend(s, k);
  }

  lemma ScaledAdd(x: int, y: int, d: real)
    requires d > 0.0
    ensures x as real / d + y as real / d == (x + y) as real / d
  {
  }

  lemma RealProduct(x: int, y: int)
    ensures (x * y) as real == x as real * y as real
  {
  }

  lemma Undo(x: real, d: real)
    requires d != 0.0
    ensures x / d * d == x
  {
  }

  lemma IsQuotient(q: real, x: real, d: real)
    requires d != 0.0 && q * d == x
    ensures q == x / d
  {
  }

  lemma TwoQuotients(u: real, v: real, n: real, scale: real, x: real)
    requires scale != 0.0 && scale == n * n && x == (u * n) * (v * n)
    ensures u * v == x / scale
  {
    assert (u * v) * (n * n) == (u * n) * (v * n);
    var q := u * v;
    assert q * scale == x;
    IsQuotient(q, x, scale);
  }

  lemma ThreeQuotients(w: real, u: real, v: real, den: real, n: real, scale: real, x: real)
    requires scale != 0.0 && scale == den * n * n && x == (w * den) * ((u * n) * (v * n))
    ensures w * u * v == x / scale
  {
    assert (w * u * v) * (den * n * n) == (w * den) * ((u * n) * (v * n));
    var q := w * u * v;
    assert q * scale == x;
    IsQuotient(q, x, scale);
  }

  lemma RealDifference(x: nat, y: nat)
    ensures var d := x as real - y as real; SquaredDifference(x, y) as real == d * d
  {
    var l: int, r: int := x, y;
    RealProduct(l - r, l - r);
  }

  // Weighted chance that one rater says left and the other right.
  function Cell(left: nat, right: nat, countA: real, countB: real, n: real, denominator: real): real
    requires n != 0.0 && denominator != 0.0
  {
    var difference := left as real - right as real;
    var weight := difference * difference / denominator;
    weight * (countA / n) * (countB / n)
  }

  lemma AddCell(sum: real, t: int, left: nat, right: nat, x: nat, y: nat, n: real, den: real, scale: real)
    requires n > 0.0 && den > 0.0 && scale > 0.0 && scale == den * n * n && sum == t as real / scale
    ensures sum + Cell(left, right, x as real, y as real, n, den)
            == (t + SquaredDifference(left, right) * (x * y)) as real / scale
  {
    CellValue(left, right, x, y, n, den, scale);
    ScaledAdd(t, SquaredDifference(left, right) * (x * y), scale);
  }

  lemma CellValue(left: nat, right: nat, x: nat, y: nat, n: real, den: real, scale: real)
    requires n > 0.0 && den > 0.0 && scale != 0.0 && scale == den * n * n
    ensures Cell(left, right, x as real, y as real, n, den) == (SquaredDifference(left, right) * (x * y)) as real / scale
  {
    hide SquaredDifference;
    var d := left as real - right as real;
    var e := SquaredDifference(left, right);
    RealDifference(left, right);
    RealProduct(x, y);
    RealProduct(e, x * y);
    Undo(d * d, den);
    Undo(x as real, n);
    Undo(y as real, n);
    var p := x * y;
    ThreeQuotients(d * d / den, x as real / n, y as real / n, den, n, scale, e as real * p as real);
  }

  // For k >= 2 categories; with one the source divides zero by zero.
  method QuadraticWeightedKappa(a: seq<nat>, b: seq<nat>, categories: nat) returns (kappa: real)
    requires categories >= 2 && (|a| == |b| ==> Below(a, categories) && Below(b, categories))
    ensures kappa == if a == [] || |a| != |b| then 0.0 else QuadraticKappa(a, b)
  {
    hide Histogram, Dot, Sum, TableSum, QuadraticKappa, Distance, Spread;
    if |a| == 0 || |a| != |b| {
      return 0.0;
    }
    var denominator := ((categories - 1) * (categories - 1)) as real;
    assert denominator >= 1.0;
    var n := |a| as real;
    var countsA, countsB, distance := Histograms(a, b, categories, denominator);
    var observedDisagreement := distance / n;
    ghost var scale := denominator * n * n;
    Positive(denominator, n);
    var expectedDisagreement := ExpectedDisagreement(a, b, countsA, countsB, n, denominator, scale);
    TableIsSpread(a, b, categories);
    KappaValue(a, b, denominator, n, scale, observedDisagreement, expectedDisagreement);
    if expectedDisagreement == 0.0 {
      return if observedDisagreement == 0.0 then 1.0 else 0.0;
    }
    kappa := 1.0 - observedDisagreement / expectedDisagreement;
  }

  // The two nested loops over the histograms.
  method ExpectedDisagreement(ghost a: seq<nat>, ghost b: seq<nat>, countsA: array<real>, countsB: array<real>,
                              n: real, denominator: real, ghost scale: real) returns (sum: real)
    requires countsA.Length == countsB.Length && Histogram(countsA[..], a) && Histogram(countsB[..], b)
    requires n > 0.0 && denominator > 0.0 && scale > 0.0 && scale == denominator * n * n
    ensures sum == TableSum(a, b, countsA.Length, countsA.Length) as real / scale
  {
    hide Count, TableSum, RowSum, SquaredDifference, Cell;
    var categories := countsA.Length;
    TableStart(a, b, categories);
    sum := 0.0;
    for left := 0 to categories
      invariant sum == TableSum(a, b, left, categories) as real / scale
    {
      ghost var table := TableSum(a, b, left, categories);
      RowStart(a, b, left, categories);
      for right := 0 to categories
        invariant sum == (table + RowSum(a, b, left, right)) as real / scale
      {
        assert countsA[..][left] == Count(a, left) as real && countsB[..][right] == Count(b, right) as real;
        RowNext(a, b, left, right);
        AddCell(sum, table + RowSum(a, b, left, right), left, right, Count(a, left), Count(b, right), n, denominator, scale);
        sum := sum + Cell(left, right, countsA[left], countsB[right], n, denominator);
      }
    }
  }

  lemma Positive(d: real, n: real)
    requires d > 0.0 && n > 0.0
    ensures d * n * n > 0.0
  {
    assert d * n > 0.0;
  }

  lemma TableStart(a: seq<nat>, b: seq<nat>, categories: nat)
    ensures TableSum(a, b, 0, categories) == 0
  {
  }

  lemma RowStart(a: seq<nat>, b: seq<nat>, left: nat, categories: nat)
    ensures RowSum(a, b, left, 0) == 0
    ensures TableSum(a, b, left + 1, categories) == TableSum(a, b, left, categories) + RowSum(a, b, left, categories)
  {
  }

  lemma RowNext(a: seq<nat>, b: seq<nat>, left: nat, right: nat)
    ensures RowSum(a, b, left, right + 1)
            == RowSum(a, b, left, right) + SquaredDifference(left, right) * (Count(a, left) * Count(b, right))
  {
  }

  // Never is there observed disagreement without expected disagreement, and
  // otherwise the ratio is the covariance form.
  lemma KappaValue(a: seq<nat>, b: seq<nat>, den: real, n: real, scale: real, observed: real, expected: real)
    requires |a| == |b| > 0 && n == |a| as real && den > 0.0 && scale > 0.0 && scale == den * n * n
    requires observed == Distance(a, b) as real / den / n
    requires expected == Spread(a, b) as real / scale
    ensures expected == 0.0 ==> observed == 0.0 && QuadraticKappa(a, b) == 1.0
    ensures expected != 0.0 ==> QuadraticKappa(a, b) == 1.0 - observed / expected
  {
    hide Dot, Sum, Distance, Spread, Covariance;
    SpreadFacts(a, b);
    DistanceZero(a, b);
    KappaAlgebra(|a|, Spread(a, b), Distance(a, b), Covariance(a, b), den, n, scale, observed, expected);
  }

  lemma KappaAlgebra(m: nat, s: int, d: int, c: int, den: real, n: real, scale: real, observed: real, expected: real)
    requires m > 0 && n == m as real && den > 0.0 && scale > 0.0 && scale == den * n * n
    requires observed == d as real / den / n && expected == s as real / scale
    requires 2 * c == s - m * d && d >= 0 && -s <= 2 * c
    ensures expected == 0.0 <==> s == 0
    ensures s == 0 ==> observed == 0.0
    ensures s != 0 ==> (2 * c) as real / s as real == 1.0 - observed / expected
  {
    if s == 0 {
      NoDistance(m, d);
      IsQuotient(0.0, s as real, scale);
    } else {
      Ratio(d as real, s as real, den, n, scale, observed, expected);
      RealProduct(m, d);
      CovarianceForm(s as real, n * d as real, (2 * c) as real, observed / expected);
    }
  }

  lemma CovarianceForm(s: real, x: real, y: real, ratio: real)
    requires s != 0.0 && y == s - x && ratio == x / s
    ensures y / s == 1.0 - ratio
  {
    OneMinus(s, x, y);
  }

  lemma NoDistance(m: nat, d: int)
    requires m > 0 && d >= 0 && m * d <= 0
    ensures d == 0
  {
  }

  lemma OneMinus(s: real, x: real, y: real)
    requires s != 0.0 && y == s - x
    ensures y / s == 1.0 - x / s
  {
    Undo(x, s);
    var q := x / s;
    assert (1.0 - q) * s == y;
    IsQuotient(1.0 - q, y, s);
  }

  lemma Ratio(d: real, s: real, den: real, n: real, scale: real, observed: real, expected: real)
    requires den > 0.0 && n > 0.0 && s != 0.0 && scale > 0.0 && scale == den * n * n
    requires observed == d / den / n && expected == s / scale
    ensures expected != 0.0 && observed / expected == n * d / s
  {
    Undo(d, den);
    Undo(d / den, n);
    Undo(s, scale);
    var u := d / den;
    assert (n * (observed * n * den)) * expected == observed * (expected * (den * n * n));
    assert (n * d) * expected == observed * s;
    Cross(observed, expected, n * d, s);
  }

  lemma Cross(o: real, e: real, x: real, s: real)
    requires e != 0.0 && s != 0.0 && x * e == o * s
    ensures o / e == x / s
  {
    Undo(x, s);
    var q := x / s;
    assert (q * e - o) * s == 0.0;
    assert q * e == o;
    IsQuotient(q, o, e);
  }

  // The squared difference of two grades over the largest one possible.
  function Penalty(x: nat, y: nat, denominator: real): real
    requires denominator != 0.0
  {
    var difference := x as real - y as real;
    difference * difference / denominator
  }

  lemma DistanceGrows(a: seq<nat>, b: seq<nat>, k: nat, den: real)
    requires |a| == |b| && k < |a| && den > 0.0
    ensures Distance(a[..k + 1], b[..k + 1]) as real / den == Distance(a[..k], b[..k]) as real / den + Penalty(a[k], b[k], den)
  {
    hide SquaredDifference;
    Extend(a, k);
    Extend(b, k);
    RealDifference(a[k], b[k]);
    ScaledAdd(Distance(a[..k], b[..k]), SquaredDifference(a[k], b[k]), den);
  }

  // The first loop: both histograms and the observed disagreement.
  method Histograms(a: seq<nat>, b: seq<nat>, categories: nat, denominator: real)
    returns (countsA: array<real>, countsB: array<real>, distance: real)
    requires |a| == |b| && Below(a, categories) && Below(b, categories) && denominator > 0.0
    ensures fresh(countsA) && fresh(countsB) && countsA.Length == countsB.Length == categories
    ensures Histogram(countsA[..], a) && Histogram(countsB[..], b)
    ensures distance == Distance(a, b) as real / denominator
  {
    countsA := new real[categories](_ => 0.0);
    countsB := new real[categories](_ => 0.0);
    distance := 0.0;
    for index := 0 to |a|
      invariant Histogram(countsA[..], a[..index]) && Histogram(countsB[..], b[..index])
      invariant distance == Distance(a[..index], b[..index]) as real / denominator
    {
      hide Histogram, Count, Distance, Penalty;
      HistogramGrows(countsA[..], a, index);
      HistogramGrows(countsB[..], b, index);
      countsA[a[index]] := countsA[a[index]] + 1.0;
      countsB[b[index]] := countsB[b[index]] + 1.0;
      DistanceGrows(a, b, index, denominator);
      distance := distance + Penalty(a[index], b[index], denominator);
    }
    assert a[..|a|] == a && b[..|b|] == b;
  }

  // ---- Cohen's kappa ---------------------------------------------------------

  // Positions on which both raters chose c.
  function Matches(a: seq<nat>, b: seq<nat>, c: nat): nat
    requires |a| == |b|
  {
    if a == [] then 0
    else Matches(a[..|a| - 1], b[..|b| - 1], c) + if a[|a| - 1] == c && b[|b| - 1] == c then 1 else 0
  }

  // n*n times the agreement expected of the first k categories.
  function Expected(a: seq<nat>, b: seq<nat>, k: nat): nat {
    if k == 0 then 0 else Expected(a, b, k - 1) + Count(a, k - 1) * Count(b, k - 1)
  }

  function MatchSum(a: seq<nat>, b: seq<nat>, k: nat): nat
    requires |a| == |b|
  {
    if k == 0 then 0 else MatchSum(a, b, k - 1) + Matches(a, b, k - 1)
  }

  lemma {:induction false} MatchBounds(a: seq<nat>, b: seq<nat>, c: nat)
    requires |a| == |b|
    ensures Matches(a, b, c) >= Count(a, c) + Count(b, c) - |a|
    ensures Count(a, c) <= |a| && Count(b, c) <= |a|
  {
    if a != [] {
      MatchBounds(a[..|a| - 1], b[..|b| - 1], c);
    }
  }

  lemma {:induction false} MatchesOfNone(k: nat)
    ensures MatchSum([], [], k) == 0
  {
    if k > 0 {
      MatchesOfNone(k - 1);
    }
  }

  lemma {:induction false} MatchSumStep(a: seq<nat>, b: seq<nat>, k: nat)
    requires |a| == |b| > 0
    ensures var x, y := a[|a| - 1], b[|b| - 1];
            MatchSum(a, b, k) == MatchSum(a[..|a| - 1], b[..|b| - 1], k) + if x == y && x < k then 1 else 0
  {
    if k > 0 {
      MatchSumStep(a, b, k - 1);
    }
  }

  lemma {:induction false} MatchSumIsAgreements(a: seq<nat>, b: seq<nat>, k: nat)
    requires |a| == |b| && Below(a, k)
    ensures MatchSum(a, b, k) == Agreements(a, b)
  {
    if a == [] {
      MatchesOfNone(k);
    } else {
      MatchSumStep(a, b, k);
      MatchSumIsAgreements(a[..|a| - 1], b[..|b| - 1], k);
    }
  }

  // One category: with n grades, x and y choices of it and m matches.
  lemma CategoryBound(n: nat, x: nat, y: nat, m: nat)
    requires x <= n && y <= n && m >= x + y - n
    ensures 4 * (x * y) <= n * (x + y) + 2 * (n * m)
  {
    var s := x + y;
    Binomial(x, y);
    CornerBound(n, s, m);
  }

  lemma CornerBound(n: int, s: int, m: int)
    requires 0 <= s <= 2 * n && 0 <= m && m >= s - n
    ensures s * s <= n * s + 2 * (n * m)
  {
    ProductNonNegative(n, m);
    if s <= n {
      ProductNonNegative(s, n - s);
      assert s * (n - s) == n * s - s * s;
    } else {
      ProductNonNegative(s - n, 2 * n - s);
      ProductNonNegative(n, m - (s - n));
      assert n * (m - (s - n)) == n * m - n * s + n * n;
      assert (s - n) * (2 * n - s) == 3 * (n * s) - s * s - 2 * (n * n);
    }
  }

  lemma {:induction false} ExpectedBound(a: seq<nat>, b: seq<nat>, k: nat)
    requires |a| == |b|
    ensures 4 * Expected(a, b, k) <= |a| * (Mass(a, k) + Mass(b, k)) + 2 * (|a| * MatchSum(a, b, k))
  {
    hide Count, Matches;
    if k > 0 {
      var n := |a|;
      ExpectedBound(a, b, k - 1);
      MatchBounds(a, b, k - 1);
      var x, y, m := Count(a, k - 1), Count(b, k - 1), Matches(a, b, k - 1);
      CategoryBound(n, x, y, m);
      Add(n, Mass(a, k - 1) + Mass(b, k - 1), x + y);
      Add(n, MatchSum(a, b, k - 1), m);
    }
  }

  lemma Add(n: int, x: int, y: int)
    ensures n * (x + y) == n * x + n * y
  {
  }

  lemma {:induction false} AgreementsFull(a: seq<nat>, b: seq<nat>)
    requires |a| == |b|
    ensures Agreements(a, b) <= |a| && (Agreements(a, b) == |a| <==> a == b)
  {
    if a != [] {
      var n := |a| - 1;
      AgreementsFull(a[..n], b[..n]);
      assert a == a[..n] + [a[n]] && b == b[..n] + [b[n]];
    }
  }

  // (observed - expected) / (1 - expected), both as counts over n*n.
  function PlainKappa(a: seq<nat>, b: seq<nat>, categories: nat): real
    requires |a| == |b|
  {
    var n := |a|;
    var e := Expected(a, b, categories);
    if e == n * n then 1.0 else (n * Agreements(a, b) - e) as real / (n * n - e) as real
  }

  lemma ExpectedFacts(a: seq<nat>, b: seq<nat>, categories: nat)
    requires |a| == |b| && Below(a, categories) && Below(b, categories)
    ensures 2 * Expected(a, b, categories) <= |a| * |a| + |a| * Agreements(a, b)
    ensures |a| * Agreements(a, b) <= |a| * |a|
  {
    hide Expected, Mass, MatchSum, Agreements;
    var n := |a|;
    ExpectedBound(a, b, categories);
    HistogramMoments(a, categories);
    HistogramMoments(b, categories);
    MatchSumIsAgreements(a, b, categories);
    AgreementsFull(a, b);
    Add(n, n, n);
    ProductNonNegative(n, n - Agreements(a, b));
    assert n * (n - Agreements(a, b)) == n * n - n * Agreements(a, b);
  }

  // For any number of categories kappa is between -1 and 1, symmetric, and 1
  // exactly on full agreement.
  lemma PlainKappaFacts(a: seq<nat>, b: seq<nat>, categories: nat)
    requires |a| == |b| > 0 && Below(a, categories) && Below(b, categories)
    ensures -1.0 <= PlainKappa(a, b, categories) <= 1.0
    ensures PlainKappa(a, b, categories) == PlainKappa(b, a, categories)
    ensures PlainKappa(a, b, categories) == 1.0 <==> a == b
  {
    var n, e := |a|, Expected(a, b, categories);
    ExpectedFacts(a, b, categories);
    AgreementsFull(a, b);
    ExpectedSymmetric(a, b, categories);
    AgreementsSymmetric(a, b);
    SameFactor(n, Agreements(a, b));
    if e != n * n {
      Quotient(n * Agreements(a, b) - e, n * n - e);
    }
  }

  lemma SameFactor(n: nat, x: nat)
    requires n > 0
    ensures n * x == n * n <==> x == n
  {
    if x < n {
      assert n * (n - x) > 0;
    } else if x > n {
      assert n * (x - n) > 0;
    }
  }

  lemma {:induction false} ExpectedSymmetric(a: seq<nat>, b: seq<nat>, k: nat)
    ensures Expected(a, b, k) == Expected(b, a, k)
  {
    if k > 0 {
      ExpectedSymmetric(a, b, k - 1);
    }
  }

  lemma {:induction false} AgreementsSymmetric(a: seq<nat>, b: seq<nat>)
    requires |a| == |b|
    ensures Agreements(a, b) == Agreements(b, a)
  {
    if a != [] {
      AgreementsSymmetric(a[..|a| - 1], b[..|b| - 1]);
    }
  }

  method CohenKappa(a: seq<nat>, b: seq<nat>, categories: nat) returns (kappa: real)
    requires |a| == |b| ==> Below(a, categories) && Below(b, categories)
    ensures kappa == if a == [] || |a| != |b| then 0.0 else PlainKappa(a, b, categories)
  {
    hide Histogram, PlainKappa, Expected;
    if |a| == 0 || |a| != |b| {
      return 0.0;
    }
    var n := |a| as real;
    var countsA, countsB, agree := Tally(a, b, categories);
    var observed := agree / n;
    ghost var scale := n * n;
    assert scale > 0.0;
    var expected := ExpectedAgreement(a, b, countsA, countsB, n, scale);
    CohenValue(a, b, categories, n, scale, observed, expected);
    if expected == 1.0 {
      return if observed == 1.0 then 1.0 else 0.0;
    }
    kappa := (observed - expected) / (1.0 - expected);
  }

  method ExpectedAgreement(ghost a: seq<nat>, ghost b: seq<nat>, countsA: array<real>, countsB: array<real>,
                           n: real, ghost scale: real) returns (expected: real)
    requires countsA.Length == countsB.Length && Histogram(countsA[..], a) && Histogram(countsB[..], b)
    requires n > 0.0 && scale > 0.0 && scale == n * n
    ensures expected == Expected(a, b, countsA.Length) as real / scale
  {
    hide Count, Expected, Share;
    ExpectedStart(a, b);
    expected := 0.0;
    for category := 0 to countsA.Length
      invariant expected == Expected(a, b, category) as real / scale
    {
      assert countsA[..][category] == Count(a, category) as real && countsB[..][category] == Count(b, category) as real;
      ExpectedNext(a, b, category);
      AddShare(expected, Expected(a, b, category), Count(a, category), Count(b, category), n, scale);
      expected := expected + Share(countsA[category], countsB[category], n);
    }
  }

  // Chance that both raters choose a category.
  function Share(countA: real, countB: real, n: real): real
    requires n != 0.0
  {
    (countA / n) * (countB / n)
  }

  lemma AddShare(sum: real, t: nat, x: nat, y: nat, n: real, scale: real)
    requires n > 0.0 && scale > 0.0 && scale == n * n && sum == t as real / scale
    ensures sum + Share(x as real, y as real, n) == (t + x * y) as real / scale
  {
    Product(x, y, n, scale);
    ScaledAdd(t, x * y, scale);
  }

  lemma ExpectedStart(a: seq<nat>, b: seq<nat>)
    ensures Expected(a, b, 0) == 0
  {
  }

  lemma ExpectedNext(a: seq<nat>, b: seq<nat>, k: nat)
    ensures Expected(a, b, k + 1) == Expected(a, b, k) + Count(a, k) * Count(b, k)
  {
  }

  lemma Product(x: nat, y: nat, n: real, scale: real)
    requires n > 0.0 && scale > 0.0 && scale == n * n
    ensures (x as real / n) * (y as real / n) == (x * y) as real / scale
  {
    RealProduct(x, y);
    Undo(x as real, n);
    Undo(y as real, n);
    TwoQuotients(x as real / n, y as real / n, n, scale, x as real * y as real);
  }

  // Full expected agreement comes only with full observed agreement.
  lemma CohenValue(a: seq<nat>, b: seq<nat>, categories: nat, n: real, scale: real, observed: real, expected: real)
    requires |a| == |b| > 0 && Below(a, categories) && Below(b, categories)
    requires n == |a| as real && scale > 0.0 && scale == n * n
    requires observed == Agreements(a, b) as real / n
    requires expected == Expected(a, b, categories) as real / scale
    ensures expected == 1.0 ==> observed == 1.0 && PlainKappa(a, b, categories) == 1.0
    ensures expected != 1.0 ==> PlainKappa(a, b, categories) == (observed - expected) / (1.0 - expected)
  {
    hide Agreements, Expected;
    var m, e, agree := |a|, Expected(a, b, categories), Agreements(a, b);
    ExpectedFacts(a, b, categories);
    if e == m * m {
      assert agree == m by { SameFactor(m, agree); Full(m, agree); }
    }
    CohenAlgebra(m, e, agree, n, scale, observed, expected);
  }

  lemma Full(m: nat, agree: nat)
    requires m * m <= m * agree <= m * m
    ensures m * agree == m * m
  {
  }

  lemma CohenAlgebra(m: nat, e: nat, agree: nat, n: real, scale: real, observed: real, expected: real)
    requires m > 0 && n == m as real && scale > 0.0 && scale == n * n
    requires observed == agree as real / n && expected == e as real / scale
    requires e == m * m ==> agree == m
    ensures expected == 1.0 <==> e == m * m
    ensures expected == 1.0 ==> observed == 1.0
    ensures e != m * m ==> (m * agree - e) as real / (m * m - e) as real == (observed - expected) / (1.0 - expected)
  {
    RealProduct(m, m);
    RealProduct(m, agree);
    Undo(e as real, scale);
    Undo(agree as real, n);
    assert (observed * n) * n == observed * (n * n);
    var mm, ma := m * m, m * agree;
    Settle(observed, expected, scale, n, ma, e, mm, agree);
  }

  lemma IsOne(q: real, d: real, x: real)
    requires d != 0.0 && q * d == x && x == d
    ensures q == 1.0
  {
    assert (q - 1.0) * d == 0.0;
  }

  lemma Settle(o: real, x: real, s: real, n: real, ma: int, e: int, mm: int, agree: nat)
    requires s > 0.0 && n > 0.0 && s == mm as real && o * s == ma as real && x * s == e as real
    requires e == mm ==> agree as real == n
    requires o * n == agree as real
    ensures x == 1.0 <==> e == mm
    ensures e == mm ==> o == 1.0
    ensures e != mm ==> (ma - e) as real / (mm - e) as real == (o - x) / (1.0 - x)
  {
    if e == mm {
      IsOne(x, s, e as real);
      IsOne(o, n, agree as real);
    } else {
      Shrink(o, x, s, ma as real, e as real);
    }
  }

  lemma Shrink(o: real, x: real, s: real, a: real, e: real)
    requires s > 0.0 && o * s == a && x * s == e && e != s
    ensures x != 1.0 && (a - e) / (s - e) == (o - x) / (1.0 - x)
  {
    assert (o - x) * s == a - e && (1.0 - x) * s == s - e;
    assert ((o - x) * s) * (1.0 - x) == (o - x) * ((1.0 - x) * s);
    Cross(a - e, s - e, o - x, 1.0 - x);
  }

  method Tally(a: seq<nat>, b: seq<nat>, categories: nat)
    returns (countsA: array<real>, countsB: array<real>, agree: real)
    requires |a| == |b| && Below(a, categories) && Below(b, categories)
    ensures fresh(countsA) && fresh(countsB) && countsA.Length == countsB.Length == categories
    ensures Histogram(countsA[..], a) && Histogram(countsB[..], b)
    ensures agree == Agreements(a, b) as real
  {
    countsA := new real[categories](_ => 0.0);
    countsB := new real[categories](_ => 0.0);
    agree := 0.0;
    for index := 0 to |a|
      invariant Histogram(countsA[..], a[..index]) && Histogram(countsB[..], b[..index])
      invariant agree == Agreements(a[..index], b[..index]) as real
    {
      hide Histogram, Count;
      HistogramGrows(countsA[..], a, index);
      HistogramGrows(countsB[..], b, index);
      countsA[a[index]] := countsA[a[index]] + 1.0;
      countsB[b[index]] := countsB[b[index]] + 1.0;
      Extend(a, index);
      Extend(b, index);
      if a[index] == b[index] {
        agree := agree + 1.0;
      }
    }
    assert a[..|a|] == a && b[..|b|] == b;
  }
}
