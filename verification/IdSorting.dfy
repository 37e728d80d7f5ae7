// Ascending order on identifiers: the effect of sort.Slice on a slice of ids.
module IdSorting {
  ghost predicate Ascending(s: seq<nat>) {
    forall i, j | 0 <= i < j < |s| :: s[i] <= s[j]
  }

  ghost predicate StrictlyAscending(s: seq<nat>) {
    forall i, j | 0 <= i < j < |s| :: s[i] < s[j]
  }

  ghost predicate NoDuplicates<T>(s: seq<T>) {
    forall i, j | 0 <= i < j < |s| :: s[i] != s[j]
  }

  function Insert(x: nat, s: seq<nat>): seq<nat> {
    if s == [] then [x]
    else if x <= s[0] then [x] + s
    else [s[0]] + Insert(x, s[1..])
  }

  function Sorted(s: seq<nat>): seq<nat> {
    if s == [] then [] else Insert(s[0], Sorted(s[1..]))
  }

  lemma {:induction false} InsertMembers(x: nat, s: seq<nat>)
    ensures |Insert(x, s)| == |s| + 1
    ensures forall y :: y in Insert(x, s) <==> y == x || y in s
  {
    if s != [] {
      assert s == [s[0]] + s[1..];
      if x > s[0] {
        InsertMembers(x, s[1..]);
      }
    }
  }

  lemma Prepend(x: nat, s: seq<nat>)
    requires forall y | y in s :: x <= y
    ensures Ascending(s) ==> Ascending([x] + s)
    ensures StrictlyAscending(s) && x !in s ==> StrictlyAscending([x] + s)
  {
    var r := [x] + s;
    assert forall k | 0 < k < |r| :: r[k] == s[k - 1] && s[k - 1] in s;
  }

  lemma HeadIsLeast(s: seq<nat>)
    requires Ascending(s) && s != []
    ensures forall y | y in s :: s[0] <= y
    ensures Ascending(s[1..]) && (StrictlyAscending(s) ==> StrictlyAscending(s[1..]) && s[0] !in s[1..])
  {
  }

  lemma {:induction false} InsertOrders(x: nat, s: seq<nat>)
    requires Ascending(s)
    ensures Ascending(Insert(x, s))
    ensures StrictlyAscending(s) && x !in s ==> StrictlyAscending(Insert(x, s))
  {
    if s != [] {
      HeadIsLeast(s);
      if x <= s[0] {
        Prepend(x, s);
      } else {
        InsertOrders(x, s[1..]);
        InsertMembers(x, s[1..]);
        Prepend(s[0], Insert(x, s[1..]));
      }
    } else {
      assert Insert(x, s) == [x];
    }
  }

  // Sorting permutes the members into ascending order, strictly if they differ.
  lemma {:induction false} SortedFacts(s: seq<nat>)
    ensures |Sorted(s)| == |s| && Ascending(Sorted(s))
    ensures forall y :: y in Sorted(s) <==> y in s
    ensures NoDuplicates(s) ==> StrictlyAscending(Sorted(s))
  {
    if s != [] {
      assert s == [s[0]] + s[1..];
      SortedFacts(s[1..]);
      InsertMembers(s[0], Sorted(s[1..]));
      InsertOrders(s[0], Sorted(s[1..]));
      if NoDuplicates(s) {
        assert s[0] !in s[1..];
      }
    }
  }

  // Two strictly ascending lists with the same members are the same list.
  lemma {:induction false} StrictlyAscendingUnique(s: seq<nat>, t: seq<nat>)
    requires StrictlyAscending(s) && StrictlyAscending(t)
    requires forall x :: x in s <==> x in t
    ensures s == t
    decreases |s|
  {
    if s == [] {
      assert forall k | 0 <= k < |t| :: t[k] in s;
    } else {
      assert s[0] in t;
      assert t[0] in s;
      assert s[0] == t[0];
      forall x
        ensures x in s[1..] <==> x in t[1..]
      {
        TailMembers(s, x);
        TailMembers(t, x);
      }
      StrictlyAscendingUnique(s[1..], t[1..]);
      assert s == [s[0]] + s[1..] && t == [t[0]] + t[1..];
    }
  }

  lemma TailMembers(s: seq<nat>, x: nat)
    requires StrictlyAscending(s) && s != []
    ensures x in s[1..] <==> x in s && x != s[0]
  {
    if x in s && x != s[0] {
      var k :| 0 <= k < |s| && s[k] == x;
      assert s[1..][k - 1] == x;
    }
  }
}
