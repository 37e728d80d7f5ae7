// The deterministic sequence of unique pairs the seed generator draws from
// (cmd/seedgen/main.go): a walk with a stride coprime to the number of pairs.
module PairSequence {
  import opened Wrappers
  import opened Matching

  newtype UInt64 = x: int | 0 <= x < 0x1_0000_0000_0000_0000

  const MAX_INT64 := 0x7FFF_FFFF_FFFF_FFFF

  // ---- Greatest common divisors ----------------------------------------------

  function Gcd(left: nat, right: nat): nat
    decreases right
  {
    if right == 0 then left else Gcd(right, left % right)
  }

  ghost predicate Divides(d: int, x: int) {
    exists q: int :: x == q * d
  }

  lemma DividesSum(d: int, x: int, y: int, m: int)
    requires Divides(d, x) && Divides(d, y)
    ensures Divides(d, x + m * y)
  {
    var p :| x == p * d;
    var q :| y == q * d;
    assert x + m * y == (p + m * q) * d by { assert m * (q * d) == (m * q) * d; }
  }

  // Gcd is a common divisor and every common divisor divides it.
  lemma {:induction false} GcdIsGreatest(a: nat, b: nat, d: int)
    ensures Divides(Gcd(a, b), a) && Divides(Gcd(a, b), b)
    ensures Divides(d, a) && Divides(d, b) ==> Divides(d, Gcd(a, b))
    decreases b
  {
    if b == 0 {
      assert a == 1 * a && 0 == 0 * a;
    } else {
      GcdIsGreatest(b, a % b, d);
      var q := a / b;
      assert a == q * b + a % b;
      DividesSum(Gcd(a, b), a % b, b, q);
      if Divides(d, a) && Divides(d, b) {
        DividesSum(d, a, b, -q);
        assert a + -q * b == a % b;
      }
    }
  }

  // Bezout: the divisor is a combination of the two numbers.
  lemma {:induction false} Bezout(a: nat, b: nat) returns (u: int, v: int)
    ensures u * a + v * b == Gcd(a, b)
    decreases b
  {
    if b == 0 {
      u, v := 1, 0;
    } else {
      var x, y := Bezout(b, a % b);
      var q := a / b;
      u, v := y, x - q * y;
      BezoutStep(a, b, q, a % b, x, y);
    }
  }

  lemma BezoutStep(a: int, b: int, q: int, r: int, x: int, y: int)
    requires a == q * b + r
    ensures y * a + (x - q * y) * b == x * b + y * r
  {
    assert y * (q * b + r) == y * (q * b) + y * r;
    assert (x - q * y) * b == x * b - (q * y) * b;
    assert y * (q * b) == (q * y) * b;
  }

  lemma NeighboursCoprime(n: nat)
    requires n > 1
    ensures Gcd(n - 1, n) == 1
  {
    assert (n - 1) % n == n - 1 && n % (n - 1) == if n == 2 then 0 else 1;
    assert Gcd(n - 1, n) == Gcd(n, n - 1) == Gcd(n - 1, n % (n - 1));
    if n > 2 {
      assert (n - 1) % 1 == 0;
      assert Gcd(n - 1, 1) == Gcd(1, 0);
    }
  }

  // ---- Remainders ------------------------------------------------------------

  lemma DivModUnique(x: int, t: int, q: int, r: int)
    requires t > 0 && x == q * t + r && 0 <= r < t
    ensures x / t == q && x % t == r
  {
    var p := x / t;
    assert x == p * t + x % t;
    assert (p - q) * t == r - x % t;
    Squeeze(p - q, t);
  }

  lemma Squeeze(m: int, t: int)
    requires t > 0 && -t < m * t < t
    ensures m == 0
  {
    Multiples(m, t);
  }

  lemma Multiples(m: int, t: int)
    requires t > 0
    ensures m >= 1 ==> m * t >= t
    ensures m <= -1 ==> m * t <= -t
  {
    if m >= 1 {
      assert (m - 1) * t >= 0;
    } else if m <= -1 {
      assert (-m - 1) * t >= 0;
    }
  }

  lemma ModShift(x: int, q: int, t: int)
    requires t > 0
    ensures (x + q * t) % t == x % t
  {
    assert x + q * t == (x / t + q) * t + x % t;
    DivModUnique(x + q * t, t, x / t + q, x % t);
  }

  // ---- The walk --------------------------------------------------------------

  function Walk(start: nat, stride: nat, total: nat, i: nat): nat
    requires total > 0
  {
    (start + i * stride) % total
  }

  // Coprime strides do not come back before the whole space is visited.
  lemma WalkDistinct(start: nat, stride: nat, total: nat, i: nat, j: nat)
    requires total > 0 && Gcd(stride, total) == 1 && i < j < total
    ensures Walk(start, stride, total, i) != Walk(start, stride, total, j)
  {
    var u, v := Bezout(stride, total);
    var x, y := start + i * stride, start + j * stride;
    if x % total == y % total {
      var m := SameRemainder(x, y, total);
      Distribute(j, i, stride);
      Combine(u, v, stride, total, j - i, m);
      BetweenMultiples(u * m + (j - i) * v, total, j - i);
    }
  }

  lemma SameRemainder(x: int, y: int, t: int) returns (m: int)
    requires t > 0 && x % t == y % t
    ensures y - x == m * t
  {
    m := y / t - x / t;
    assert x == x / t * t + x % t && y == y / t * t + y % t;
  }

  lemma Distribute(x: int, y: int, z: int)
    ensures (x - y) * z == x * z - y * z
  {
  }

  // A multiple of t is not strictly between 0 and t.
  lemma BetweenMultiples(m: int, t: int, k: int)
    requires t > 0 && k == m * t
    ensures !(0 < k < t)
  {
    Multiples(m, t);
  }

  lemma Combine(u: int, v: int, s: int, t: int, k: int, m: int)
    requires u * s + v * t == 1 && k * s == m * t
    ensures k == (u * m + k * v) * t
  {
    assert k == k * (u * s + v * t);
    assert k * (u * s + v * t) == u * (k * s) + (k * v) * t;
    assert u * (m * t) == (u * m) * t;
  }

  // Every number below the total is visited.
  lemma WalkReaches(start: nat, stride: nat, total: nat, flat: nat) returns (i: nat)
    requires total > 0 && Gcd(stride, total) == 1 && flat < total
    ensures i < total && Walk(start, stride, total, i) == flat
  {
    var u, v := Bezout(stride, total);
    var d := flat - start;
    i := (d * u) % total;
    var q := d * u / total;
    assert d * u == q * total + i;
    Arrive(u, v, stride, total, d, q, i);
    Arrives(start, stride, total, flat, i, -(d * v) - q * stride);
  }

  lemma Arrives(start: nat, stride: nat, total: nat, flat: nat, i: nat, m: int)
    requires flat < total && i * stride == flat - start + m * total
    ensures Walk(start, stride, total, i) == flat
  {
    DivModUnique(start + i * stride, total, m, flat);
  }

  lemma Arrive(u: int, v: int, s: int, t: int, d: int, q: int, i: int)
    requires u * s + v * t == 1 && d * u == q * t + i
    ensures i * s == d + (-(d * v) - q * s) * t
  {
    assert d == d * (u * s + v * t);
    assert d * (u * s + v * t) == (d * u) * s + (d * v) * t;
    assert (q * t + i) * s == (q * s) * t + i * s;
    assert (-(d * v) - q * s) * t == -((d * v) * t) - (q * s) * t;
  }

  // ---- Pairs -----------------------------------------------------------------

  function PairOf(flat: nat, right: nat): (nat, nat)
    requires right > 0
  {
    (flat / right, flat % right)
  }

  // Splitting a number below left*right gives each pair exactly once.
  lemma PairsAreNumbers(left: nat, right: nat, flat: nat)
    requires right > 0
    ensures var p := PairOf(flat, right);
            p.1 < right && flat == p.0 * right + p.1 && (flat < left * right <==> p.0 < left)
  {
    var q, r := flat / right, flat % right;
    assert flat == q * right + r;
    Compare(q, left, right, r);
  }

  lemma Compare(q: nat, left: nat, right: nat, r: nat)
    requires r < right
    ensures q * right + r < left * right <==> q < left
  {
    Distribute(left, q, right);
    Multiples(left - q, right);
  }

  // The first n pairs of the walk.
  function Pairs(start: nat, stride: nat, total: nat, right: nat, n: nat): seq<(nat, nat)>
    requires total > 0 && right > 0
  {
    seq(n, i requires 0 <= i < n => PairOf(Walk(start, stride, total, i), right))
  }

  ghost predicate UniqueWithin(pairs: seq<(nat, nat)>, left: nat, right: nat) {
    && (forall i | 0 <= i < |pairs| :: pairs[i].0 < left && pairs[i].1 < right)
    && (forall i, j | 0 <= i < j < |pairs| :: pairs[i] != pairs[j])
  }

  // The first `target` outputs are distinct pairs within the two ranges, also
  // when the product of the ranges wrapped around.
  lemma PairsUnique(start: nat, stride: nat, total: nat, left: nat, right: nat, target: nat)
    requires 0 < total <= left * right && right > 0 && Gcd(stride, total) == 1 && target <= total
    ensures UniqueWithin(Pairs(start, stride, total, right, target), left, right)
  {
    hide Walk, PairOf, Gcd;
    var pairs := Pairs(start, stride, total, right, target);
    forall i | 0 <= i < target
      ensures pairs[i].0 < left && pairs[i].1 < right
    {
      assert Walk(start, stride, total, i) < total by { WalkBelow(start, stride, total, i); }
      PairsAreNumbers(left, right, Walk(start, stride, total, i));
    }
    forall i, j | 0 <= i < j < target
      ensures pairs[i] != pairs[j]
    {
      WalkDistinct(start, stride, total, i, j);
      PairsAreNumbers(left, right, Walk(start, stride, total, i));
      PairsAreNumbers(left, right, Walk(start, stride, total, j));
    }
  }

  lemma WalkBelow(start: nat, stride: nat, total: nat, i: nat)
    requires total > 0
    ensures Walk(start, stride, total, i) < total
  {
  }

  // A full walk over an exact product enumerates every pair.
  lemma PairsComplete(start: nat, stride: nat, left: nat, right: nat, a: nat, b: nat)
    requires a < left && b < right && left * right > 0 && Gcd(stride, left * right) == 1
    ensures (a, b) in Pairs(start, stride, left * right, right, left * right)
  {
    hide Walk;
    var total := left * right;
    var flat := a * right + b;
    DivModUnique(flat, right, a, b);
    PairsAreNumbers(left, right, flat);
    var i := WalkReaches(start, stride, total, flat);
    assert Pairs(start, stride, total, right, total)[i] == (a, b);
  }

  // Every pair of the two ranges is in the list.
  ghost predicate Enumerates(pairs: seq<(nat, nat)>, left: nat, right: nat) {
    forall a: nat, b: nat :: a < left && b < right ==> (a, b) in pairs
  }

  // A walk over fewer numbers than there are pairs never yields the last pair.
  lemma ShortWalkMisses(start: nat, stride: nat, total: nat, left: nat, right: nat, n: nat)
    requires 0 < total < left * right && left > 0 && right > 0
    ensures (left - 1, right - 1) !in Pairs(start, stride, total, right, n)
  {
    hide Walk, PairOf;
    var pairs := Pairs(start, stride, total, right, n);
    forall i | 0 <= i < n
      ensures pairs[i] != (left - 1, right - 1)
    {
      WalkBelow(start, stride, total, i);
      PairsAreNumbers(left, right, Walk(start, stride, total, i));
      LastNumber(left, right);
    }
  }

  lemma LastNumber(left: nat, right: nat)
    requires left > 0 && right > 0
    ensures (left - 1) * right + (right - 1) == left * right - 1
  {
  }

  // Numbers of pairs, and the numbers below n.
  function Flats(pairs: seq<(nat, nat)>, right: nat): (flats: seq<nat>)
    ensures |flats| == |pairs|
  {
    seq(|pairs|, i requires 0 <= i < |pairs| => pairs[i].0 * right + pairs[i].1)
  }

  function Below(n: nat): (s: set<nat>)
    ensures forall k: nat :: k in s <==> k < n
  {
    if n == 0 then {} else Below(n - 1) + {n - 1}
  }

  lemma {:induction false} BelowSize(n: nat)
    ensures |Below(n)| == n
  {
    if n > 0 {
      BelowSize(n - 1);
    }
  }

  // A list with every pair is at least as long as there are pairs.
  lemma EnumerationIsLong(pairs: seq<(nat, nat)>, left: nat, right: nat)
    requires Enumerates(pairs, left, right) && right > 0
    ensures |pairs| >= left * right
  {
    var flats := Flats(pairs, right);
    forall k: nat | k in Below(left * right)
      ensures k in SetOf(flats)
    {
      PairsAreNumbers(left, right, k);
      var p := PairOf(k, right);
      var i :| 0 <= i < |pairs| && pairs[i] == (p.0, p.1);
      assert flats[i] == k;
    }
    BelowSize(left * right);
    SubsetSize(Below(left * right), SetOf(flats));
    SetCard(flats);
  }

  // ---- The code --------------------------------------------------------------

  predicate Coprime(s: UInt64, total: UInt64) {
    Gcd(s as nat, total as nat) == 1
  }

  lemma LastIsCoprime(total: UInt64)
    requires total > 1
    ensures Coprime(total - 1, total)
  {
    NeighboursCoprime(total as nat);
  }

  method GreatestCommonDivisor(left: UInt64, right: UInt64) returns (gcd: UInt64)
    ensures gcd as nat == Gcd(left as nat, right as nat)
    ensures gcd == 1 <==> Coprime(left, right)
  {
    var l, r := left, right;
    while r != 0
      invariant Gcd(l as nat, r as nat) == Gcd(left as nat, right as nat)
      decreases r
    {
      l, r := r, l % r;
    }
    gcd := l;
  }

  // uint64(left) * uint64(right), which wraps around.
  function WrappedProduct(left: nat, right: nat): UInt64 {
    (left * right % 0x1_0000_0000_0000_0000) as UInt64
  }

  lemma WrappedBelow(left: nat, right: nat)
    ensures WrappedProduct(left, right) as int <= left * right
    ensures left * right < 0x1_0000_0000_0000_0000 ==> WrappedProduct(left, right) as int == left * right
  {
  }

  // The source's int: a 64-bit value.
  type Int64 = x: int | -MAX_INT64 - 1 <= x <= MAX_INT64

  predicate Rejected(target: Int64, leftCount: Int64, rightCount: Int64) {
    || target < 0 || leftCount <= 0 || rightCount <= 0
    || target > WrappedProduct(leftCount, rightCount) as int
    || WrappedProduct(leftCount, rightCount) as int > MAX_INT64
  }

  // The stride search: the first stride from the drawn one on that is coprime
  // to the total.  It ends at total - 1 at the latest, before any wrap to 1.
  method CoprimeStride(total: UInt64, draw: UInt64) returns (stride: UInt64)
    requires 1 < total as int <= MAX_INT64 && draw < total - 1
    ensures draw + 1 <= stride < total && Coprime(stride, total)
    ensures forall s: UInt64 | draw + 1 <= s < stride :: !Coprime(s, total)
  {
    hide Gcd, Coprime;
    assert Coprime(total - 1, total) by { LastIsCoprime(total); }
    var least: UInt64 := 1;
    stride := draw + least;
    var gcd := GreatestCommonDivisor(stride, total);
    while gcd != 1
      invariant draw + 1 <= stride < total && (gcd == 1 <==> Coprime(stride, total))
      invariant forall s: UInt64 | draw + 1 <= s < stride :: !Coprime(s, total)
      decreases total - stride
    {
      stride := stride + 1;
      if stride >= total {
        stride := least;
      }
      gcd := GreatestCommonDivisor(stride, total);
    }
  }

  lemma StepInRange(current: nat, stride: nat, total: nat)
    requires total > 0
    ensures 0 <= (current + stride) % total < total
  {
  }

  class UniquePairSequence {
    var remaining: nat
    var right: UInt64
    var total: UInt64
    var current: UInt64
    var stride: UInt64

    predicate Valid()
      reads this
    {
      && right > 0 && total as int <= MAX_INT64 && stride as int <= MAX_INT64
      && remaining <= total as nat
      && (total > 0 ==> current < total && Gcd(stride as nat, total as nat) == 1)
    }

    // What calling Next until it answers no will produce.
    function Upcoming(): seq<(nat, nat)>
      reads this
      requires Valid()
    {
      if remaining == 0 then []
      else Pairs(current as nat, stride as nat, total as nat, right as nat, remaining)
    }

    constructor (target: nat, leftCount: nat, rightCount: nat, startDraw: nat, strideDraw: nat)
      requires target <= MAX_INT64 && 0 < leftCount <= MAX_INT64 && 0 < rightCount <= MAX_INT64
      requires !Rejected(target, leftCount, rightCount)
      ensures Valid() && remaining == target && right as nat == rightCount
      ensures total == WrappedProduct(leftCount, rightCount)
    {
      var product := WrappedProduct(leftCount, rightCount);
      var start, step: UInt64 := 0, 1;
      if product > 1 {
        start := (startDraw % product as nat) as UInt64;
        step := CoprimeStride(product, (strideDraw % (product as nat - 1)) as UInt64);
      }
      remaining, right, total, current, stride := target, rightCount as UInt64, product, start, step;
      new;
      assert product == 1 ==> Gcd(1, 1) == Gcd(1, 0) == 1;
    }

    // The remainder never overflows: both summands are below 2^63.
    method Next() returns (left: nat, right': nat, ok: bool)
      requires Valid()
      modifies this`remaining, this`current
      ensures Valid()
      ensures ok <==> old(remaining) > 0
      ensures ok ==> old(Upcoming()) == [(left, right')] + Upcoming() && remaining == old(remaining) - 1
      ensures !ok ==> remaining == old(remaining) && current == old(current) && Upcoming() == []
    {
      if remaining == 0 {
        return 0, 0, false;
      }
      hide Pairs, Gcd;
      var flat := current;
      StepInRange(flat as nat, stride as nat, total as nat);
      current := (current + stride) % total;
      remaining := remaining - 1;
      UpcomingStep(flat as nat, stride as nat, total as nat, right as nat, remaining);
      return (flat / right) as nat, (flat % right) as nat, true;
    }
  }

  lemma UpcomingStep(current: nat, stride: nat, total: nat, right: nat, n: nat)
    requires total > 0 && right > 0 && current < total
    ensures Pairs(current, stride, total, right, n + 1)
            == [(current / right, current % right)] + Pairs((current + stride) % total, stride, total, right, n)
  {
    var next := (current + stride) % total;
    assert Walk(current, stride, total, 0) == current by { assert 0 * stride == 0; }
    forall i | 0 <= i < n
      ensures Walk(current, stride, total, i + 1) == Walk(next, stride, total, i)
    {
      var q := (current + stride) / total;
      assert current + stride == q * total + next;
      Distribute(i, -1, stride);
      ModShift(next + i * stride, q, total);
    }
  }

  method NewUniquePairSequence(target: Int64, leftCount: Int64, rightCount: Int64, startDraw: nat, strideDraw: nat)
    returns (r: Result<UniquePairSequence, ()>)
    ensures r.Failure? <==> Rejected(target, leftCount, rightCount)
    ensures r.Success? <==>
              && 0 <= target <= leftCount * rightCount % 0x1_0000_0000_0000_0000 && 0 < leftCount && 0 < rightCount
              && leftCount * rightCount % 0x1_0000_0000_0000_0000 < 0x8000_0000_0000_0000
    ensures r.Success? ==>
              && fresh(r.value) && r.value.Valid() && r.value.remaining == target
              && r.value.right as int == rightCount && r.value.total == WrappedProduct(leftCount, rightCount)
  {
    if Rejected(target, leftCount, rightCount) {
      return Failure(());
    }
    var sequence := new UniquePairSequence(target, leftCount, rightCount, startDraw, strideDraw);
    return Success(sequence);
  }

  // seedUniquePairsDB: draw pairs until the sequence is exhausted.
  method DrawPairs(target: Int64, leftCount: Int64, rightCount: Int64, startDraw: nat, strideDraw: nat)
    returns (r: Result<seq<(nat, nat)>, ()>)
    ensures r.Failure? <==> Rejected(target, leftCount, rightCount)
    ensures r.Success? ==> |r.value| == target && UniqueWithin(r.value, leftCount, rightCount)
    ensures r.Success? ==> (Enumerates(r.value, leftCount, rightCount) <==> target == leftCount * rightCount)
  {
    hide Pairs, UniqueWithin, WrappedProduct, Enumerates;
    var sequence := NewUniquePairSequence(target, leftCount, rightCount, startDraw, strideDraw);
    if sequence.Failure? {
      return Failure(());
    }
    var s := sequence.value;
    ghost var all := s.Upcoming();
    UpcomingFacts(s, target, leftCount, rightCount);
    var pairs: seq<(nat, nat)> := [];
    var ok := true;
    while ok
      invariant s.Valid() && all == pairs + s.Upcoming()
      invariant !ok ==> s.Upcoming() == []
      invariant fresh(s)
      decreases if ok then s.remaining + 1 else 0
    {
      var left, right;
      left, right, ok := s.Next();
      if ok {
        assert pairs + ([(left, right)] + s.Upcoming()) == pairs + [(left, right)] + s.Upcoming();
        pairs := pairs + [(left, right)];
      }
    }
    assert pairs + [] == pairs;
    return Success(pairs);
  }

  lemma UpcomingFacts(s: UniquePairSequence, target: Int64, left: Int64, right: Int64)
    requires s.Valid() && !Rejected(target, left, right)
    requires s.remaining == target && s.right as int == right && s.total == WrappedProduct(left, right)
    ensures |s.Upcoming()| == target && UniqueWithin(s.Upcoming(), left, right)
    ensures Enumerates(s.Upcoming(), left, right) <==> target == left * right
  {
    hide UniqueWithin;
    WrappedBelow(left, right);
    if Enumerates(s.Upcoming(), left, right) {
      EnumerationIsLong(s.Upcoming(), left, right);
    }
    if target > 0 {
      PairsUnique(s.current as nat, s.stride as nat, s.total as nat, left, right, target);
      if target == left * right {
        forall a: nat, b: nat | a < left && b < right
          ensures (a, b) in s.Upcoming()
        {
          PairsComplete(s.current as nat, s.stride as nat, left, right, a, b);
        }
      }
    } else {
      assert left * right > 0;
      assert UniqueWithin([], left, right) by { NoPairs(left, right); }
    }
  }

  // Dimensions whose product wraps to 2^32 are accepted for a target of all
  // 2^32 numbers, and every sequence for them misses the last pair.
  lemma WrappingProductMisses(start: nat, stride: nat)
    ensures var left, right := 0x1_0000_0001, 0x1_0000_0000;
            var target := 0x1_0000_0000;
            && !Rejected(target, left, right) && WrappedProduct(left, right) as int == target < left * right
            && (left - 1, right - 1) !in Pairs(start, stride, target, right, target)
  {
    var left, right := 0x1_0000_0001, 0x1_0000_0000;
    assert left * right == 0x1_0000_0000_0000_0000 + right;
    ShortWalkMisses(start, stride, right, left, right, right);
  }

  lemma NoPairs(left: nat, right: nat)
    ensures UniqueWithin([], left, right)
  {
  }
}
