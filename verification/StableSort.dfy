// sort.SliceStable with a comparison function, as insertion of each element
// after all the elements it is not less than.
module StableSort {
  function Insert<T>(less: (T, T) -> bool, s: seq<T>, x: T): seq<T> {
    if s == [] then [x]
    else
      var n := |s| - 1;
      if less(x, s[n]) then Insert(less, s[..n], x) + [s[n]] else s + [x]
  }

  function Sort<T>(less: (T, T) -> bool, s: seq<T>): seq<T> {
    if s == [] then [] else Insert(less, Sort(less, s[..|s| - 1]), s[|s| - 1])
  }

  ghost predicate WeakOrder<T(!new)>(less: (T, T) -> bool) {
    && (forall a, b :: less(a, b) ==> !less(b, a))
    && (forall a, b, c :: !less(b, a) && !less(c, b) ==> !less(c, a))
  }

  ghost predicate Ordered<T>(less: (T, T) -> bool, s: seq<T>) {
    forall i, j | 0 <= i < j < |s| :: !less(s[j], s[i])
  }

  // Elements that compare as equal are equal.
  ghost predicate Separates<T(!new)>(less: (T, T) -> bool, s: seq<T>) {
    forall a, b | a in s && b in s :: a == b || less(a, b) || less(b, a)
  }

  lemma FrontAndLast<T>(s: seq<T>)
    requires s != []
    ensures s == s[..|s| - 1] + [s[|s| - 1]]
    ensures multiset(s) == multiset(s[..|s| - 1]) + multiset{s[|s| - 1]}
  {
    assert s == s[..|s| - 1] + [s[|s| - 1]];
  }

  lemma {:induction false} InsertPermutes<T>(less: (T, T) -> bool, s: seq<T>, x: T)
    ensures multiset(Insert(less, s, x)) == multiset(s) + multiset{x}
  {
    if s != [] {
      FrontAndLast(s);
      var n := |s| - 1;
      if less(x, s[n]) {
        InsertPermutes(less, s[..n], x);
      }
    }
  }

  lemma MultisetMember<T>(s: seq<T>, x: T)
    ensures x in multiset(s) <==> x in s
  {
  }

  lemma {:induction false} InsertKeepsOrder<T(!new)>(less: (T, T) -> bool, s: seq<T>, x: T)
    requires WeakOrder(less) && Ordered(less, s)
    ensures Ordered(less, Insert(less, s, x))
  {
    if s != [] {
      var n := |s| - 1;
      if less(x, s[n]) {
        InsertKeepsOrder(less, s[..n], x);
        InsertPermutes(less, s[..n], x);
        var r := Insert(less, s[..n], x);
        forall k | 0 <= k < |r|
          ensures !less(s[n], r[k])
        {
          MultisetMember(r, r[k]);
          if r[k] != x {
            MultisetMember(s[..n], r[k]);
          }
        }
      } else {
        forall k | 0 <= k < n
          ensures !less(x, s[k])
        {
          assert !less(s[n], s[k]);
        }
      }
    }
  }

  // Sorting permutes and orders.
  lemma {:induction false} SortFacts<T(!new)>(less: (T, T) -> bool, s: seq<T>)
    requires WeakOrder(less)
    ensures multiset(Sort(less, s)) == multiset(s) && |Sort(less, s)| == |s|
    ensures Ordered(less, Sort(less, s))
  {
    if s != [] {
      FrontAndLast(s);
      SortFacts(less, s[..|s| - 1]);
      var t := Sort(less, s[..|s| - 1]);
      InsertPermutes(less, t, s[|s| - 1]);
      InsertKeepsOrder(less, t, s[|s| - 1]);
    }
    SameLength(Sort(less, s), s);
  }

  lemma SameLength<T>(s: seq<T>, t: seq<T>)
    requires multiset(s) == multiset(t)
    ensures |s| == |t|
  {
    assert |s| == |multiset(s)| && |t| == |multiset(t)|;
  }

  lemma LastsAgree<T(!new)>(less: (T, T) -> bool, s: seq<T>, t: seq<T>)
    requires multiset(s) == multiset(t) && Ordered(less, s) && Ordered(less, t) && Separates(less, s)
    requires |s| == |t| > 0
    ensures s[|s| - 1] == t[|t| - 1]
  {
    var n := |s| - 1;
    MultisetMember(s, t[n]);
    MultisetMember(t, t[n]);
    MultisetMember(s, s[n]);
    MultisetMember(t, s[n]);
    var i :| 0 <= i <= n && s[i] == t[n];
    var j :| 0 <= j <= n && t[j] == s[n];
  }

  lemma FrontKeeps<T(!new)>(less: (T, T) -> bool, s: seq<T>)
    requires s != []
    ensures Ordered(less, s) ==> Ordered(less, s[..|s| - 1])
    ensures Separates(less, s) ==> Separates(less, s[..|s| - 1])
    ensures multiset(s[..|s| - 1]) == multiset(s) - multiset{s[|s| - 1]}
  {
    FrontAndLast(s);
  }

  // An order that separates the elements allows only one ordered arrangement.
  lemma {:induction false} OrderedUnique<T(!new)>(less: (T, T) -> bool, s: seq<T>, t: seq<T>)
    requires multiset(s) == multiset(t) && Ordered(less, s) && Ordered(less, t) && Separates(less, s)
    ensures s == t
    decreases |s|
  {
    hide Ordered, Separates;
    SameLength(s, t);
    if s != [] {
      LastsAgree(less, s, t);
      FrontKeeps(less, s);
      FrontKeeps(less, t);
      OrderedUnique(less, s[..|s| - 1], t[..|t| - 1]);
      assert s == s[..|s| - 1] + [s[|s| - 1]] && t == t[..|t| - 1] + [t[|t| - 1]];
    }
  }
}
