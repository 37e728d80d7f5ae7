// Lists without duplicates that match one to one.
module Matching {
  import opened IdSorting

  function SetOf<T>(s: seq<T>): set<T> {
    set x | x in s
  }

  lemma {:induction false} SetCard<T>(s: seq<T>)
    ensures |SetOf(s)| <= |s|
    ensures |SetOf(s)| == |s| <==> NoDuplicates(s)
  {
    if s != [] {
      var n := |s| - 1;
      SetCard(s[..n]);
      assert s == s[..n] + [s[n]];
      assert SetOf(s) == SetOf(s[..n]) + {s[n]};
      if s[n] in s[..n] {
        assert SetOf(s) == SetOf(s[..n]);
      } else {
        assert NoDuplicates(s[..n]) ==> NoDuplicates(s);
      }
    } else {
      assert SetOf(s) == {};
    }
  }

  lemma SubsetSize<T>(a: set<T>, b: set<T>)
    requires a <= b
    ensures |a| <= |b|
  {
    assert b == a + (b - a);
  }

  lemma SubsetOfSameSize<T>(a: set<T>, b: set<T>)
    requires a <= b && |a| >= |b|
    ensures a == b
  {
    assert b == a + (b - a);
    assert |b - a| == |b| - |a|;
  }

  // Two lists that match one to one: neither repeats a value and they hold the same values.
  ghost predicate OneToOne<T(!new)>(xs: seq<T>, ys: seq<T>) {
    NoDuplicates(xs) && NoDuplicates(ys) && |xs| == |ys| && forall x :: x in xs <==> x in ys
  }

  // Distinct values drawn from a list no longer than theirs use all of it.
  lemma DrawnFromMatches<T(!new)>(xs: seq<T>, ys: seq<T>)
    requires NoDuplicates(ys) && |ys| == |xs| && forall y | y in ys :: y in xs
    ensures OneToOne(xs, ys)
  {
    SetCard(xs);
    SetCard(ys);
    SubsetOfSameSize(SetOf(ys), SetOf(xs));
    forall x
      ensures x in xs <==> x in ys
    {
      assert x in SetOf(xs) <==> x in SetOf(ys);
    }
  }
}
