// UTF-8 as the Go package unicode/utf8 treats it: the byte sequences of
// sections 3 and 4 of RFC 3629, rune starts, decoding and counting.
module Utf8 {
  type Byte = b: nat | b < 256

  predicate Within(b: Byte, low: nat, high: nat) {
    low <= b <= high
  }

  predicate Continuation(b: Byte) {
    Within(b, 0x80, 0xBF)
  }

  // utf8.RuneStart
  predicate RuneStart(b: Byte) {
    !Continuation(b)
  }

  // Number of bytes of the well-formed rune at the head of `s`, 0 if there is none.
  function HeadSize(s: seq<Byte>): (n: nat)
    ensures n <= 4 && n <= |s|
  {
    if s == [] then 0
    else if s[0] <= 0x7F then 1
    else if Within(s[0], 0xC2, 0xDF) then
      if |s| >= 2 && Continuation(s[1]) then 2 else 0
    else if Within(s[0], 0xE0, 0xEF) then
      if |s| >= 3 && Within(s[1], if s[0] == 0xE0 then 0xA0 else 0x80, if s[0] == 0xED then 0x9F else 0xBF)
         && Continuation(s[2]) then 3 else 0
    else if Within(s[0], 0xF0, 0xF4) then
      if |s| >= 4 && Within(s[1], if s[0] == 0xF0 then 0x90 else 0x80, if s[0] == 0xF4 then 0x8F else 0xBF)
         && Continuation(s[2]) && Continuation(s[3]) then 4 else 0
    else 0
  }

  // A rune is a start byte followed by continuation bytes.
  lemma HeadShape(s: seq<Byte>)
    ensures HeadSize(s) > 0 ==> RuneStart(s[0]) && forall k | 0 < k < HeadSize(s) :: Continuation(s[k])
  {
  }

  const RUNE_ERROR := 0xFFFD

  // Six payload bits a byte, most significant byte first.
  function CodePoint(payload: seq<nat>): nat {
    if payload == [] then 0
    else CodePoint(payload[..|payload| - 1]) * 64 + payload[|payload| - 1]
  }

  lemma CodePoints(a: nat, b: nat, c: nat, d: nat)
    ensures CodePoint([a, b]) == a * 64 + b
    ensures CodePoint([a, b, c]) == (a * 64 + b) * 64 + c
    ensures CodePoint([a, b, c, d]) == ((a * 64 + b) * 64 + c) * 64 + d
  {
    assert [a][..0] == [] && CodePoint([a]) == a;
    assert [a, b][..1] == [a];
    assert [a, b, c][..2] == [a, b];
    assert [a, b, c, d][..3] == [a, b, c];
  }

  // utf8.DecodeRune: the code point and its width; (RUNE_ERROR, 1) on an
  // ill-formed head and (RUNE_ERROR, 0) at the end.
  function DecodeRune(s: seq<Byte>): (r: (nat, nat))
    ensures r.1 <= |s| && (s != [] ==> r.1 > 0)
  {
    match HeadSize(s)
    case 0 => (RUNE_ERROR, if s == [] then 0 else 1)
    case 1 => (s[0], 1)
    case 2 => (CodePoint([s[0] % 32, s[1] % 64]), 2)
    case 3 => (CodePoint([s[0] % 16, s[1] % 64, s[2] % 64]), 3)
    case _ => (CodePoint([s[0] % 8, s[1] % 64, s[2] % 64, s[3] % 64]), 4)
  }

  // utf8.Valid
  predicate Valid(s: seq<Byte>) {
    s == [] || (HeadSize(s) > 0 && Valid(s[HeadSize(s)..]))
  }

  // utf8.RuneCount
  function RuneCount(s: seq<Byte>): nat {
    if s == [] then 0 else 1 + RuneCount(s[DecodeRune(s).1..])
  }

  // Whether an offset of `s` lies between two runes.
  predicate Boundary(s: seq<Byte>, i: int) {
    0 <= i <= |s| && (i < |s| ==> RuneStart(s[i]))
  }

  // The head rune does not depend on what follows it.
  lemma HeadStable(a: seq<Byte>, b: seq<Byte>)
    requires HeadSize(a) > 0
    ensures HeadSize(a + b) == HeadSize(a)
  {
    assert forall k | 0 <= k < |a| :: (a + b)[k] == a[k];
  }

  lemma HeadOfPrefix(s: seq<Byte>, n: nat)
    requires HeadSize(s) <= n <= |s|
    ensures HeadSize(s[..n]) == HeadSize(s) || HeadSize(s) == 0
  {
    assert forall k | 0 <= k < n :: s[..n][k] == s[k];
  }

  // A rune in front of valid text.
  lemma ConsValid(rune: seq<Byte>, rest: seq<Byte>)
    requires HeadSize(rune) == |rune| > 0
    ensures HeadSize(rune + rest) == |rune| && (rune + rest)[|rune|..] == rest
    ensures Valid(rest) ==> Valid(rune + rest)
    ensures RuneCount(rune + rest) == 1 + RuneCount(rest)
  {
    HeadStable(rune, rest);
    assert (rune + rest)[|rune|..] == rest;
  }

  // Valid text begins with a rune that stands on its own.
  lemma UnconsValid(s: seq<Byte>)
    requires Valid(s) && s != []
    ensures var k := HeadSize(s);
            k > 0 && HeadSize(s[..k]) == k && Valid(s[k..])
  {
    HeadOfPrefix(s, HeadSize(s));
  }

  lemma Regroup<T>(a: seq<T>, b: seq<T>, k: nat)
    requires k <= |a|
    ensures a + b == a[..k] + (a[k..] + b) && a == a[..k] + a[k..]
  {
  }

  lemma {:induction false} JoinValid(a: seq<Byte>, b: seq<Byte>)
    requires Valid(a) && Valid(b)
    ensures Valid(a + b)
    decreases |a|
  {
    if a == [] {
      assert a + b == b;
    } else {
      UnconsValid(a);
      var k := HeadSize(a);
      JoinValid(a[k..], b);
      ConsValid(a[..k], a[k..] + b);
      Regroup(a, b, k);
    }
  }

  lemma {:induction false} CountJoin(a: seq<Byte>, b: seq<Byte>)
    requires Valid(a)
    ensures RuneCount(a + b) == RuneCount(a) + RuneCount(b)
    decreases |a|
  {
    if a == [] {
      assert a + b == b;
    } else {
      UnconsValid(a);
      var k := HeadSize(a);
      CountJoin(a[k..], b);
      ConsValid(a[..k], a[k..] + b);
      ConsValid(a[..k], a[k..]);
      Regroup(a, b, k);
    }
  }

  // Valid text splits into valid parts at every boundary.
  lemma {:induction false} SplitValid(s: seq<Byte>, i: nat)
    requires Valid(s) && Boundary(s, i)
    ensures Valid(s[..i]) && Valid(s[i..])
    decreases |s|
  {
    if i == 0 {
      assert s[i..] == s;
    } else {
      var k := HeadSize(s);
      HeadShape(s);
      assert i >= k;
      SplitValid(s[k..], i - k);
      assert s[k..][..i - k] == s[..i][k..];
      assert s[k..][i - k..] == s[i..];
      HeadOfPrefix(s, i);
    }
  }

  // A slice between two boundaries is valid, and its ends are rune boundaries.
  lemma SliceValid(s: seq<Byte>, i: nat, j: nat)
    requires Valid(s) && Boundary(s, i) && Boundary(s, j) && i <= j
    ensures Valid(s[i..j])
  {
    SplitValid(s, j);
    assert Boundary(s[..j], i);
    SplitValid(s[..j], i);
    assert s[..j][i..] == s[i..j];
  }

  // Every position of valid text has a rune start at most three bytes before.
  lemma {:induction false} StartNearby(s: seq<Byte>, i: nat) returns (j: nat)
    requires Valid(s) && i < |s|
    ensures j <= i <= j + 3 && RuneStart(s[j])
    decreases |s|
  {
    var k := HeadSize(s);
    HeadShape(s);
    if i < k {
      j := 0;
    } else {
      j := StartNearby(s[k..], i - k);
      j := j + k;
    }
  }

  // The head of a valid non-empty text and the rest after it.
  lemma HeadOfValid(s: seq<Byte>)
    requires Valid(s) && s != []
    ensures DecodeRune(s).1 == HeadSize(s) > 0 && RuneStart(s[0]) && Valid(s[HeadSize(s)..])
    ensures Boundary(s, HeadSize(s))
  {
    var k := HeadSize(s);
    HeadShape(s);
    HeadShape(s[k..]);
    if k < |s| {
      assert HeadSize(s[k..]) > 0;
      assert s[k..][0] == s[k];
    }
  }

  // Counting runes is counting rune starts.
  function Starts(s: seq<Byte>): nat {
    if s == [] then 0 else Starts(s[..|s| - 1]) + if RuneStart(s[|s| - 1]) then 1 else 0
  }

  lemma {:induction false} StartsJoin(a: seq<Byte>, b: seq<Byte>)
    ensures Starts(a + b) == Starts(a) + Starts(b)
  {
    if b == [] {
      assert a + b == a;
    } else {
      assert (a + b)[..|a + b| - 1] == a + b[..|b| - 1];
      StartsJoin(a, b[..|b| - 1]);
    }
  }

  lemma {:induction false} NoStarts(s: seq<Byte>)
    requires forall k | 0 <= k < |s| :: Continuation(s[k])
    ensures Starts(s) == 0
  {
    if s != [] {
      NoStarts(s[..|s| - 1]);
    }
  }

  lemma OneStart(rune: seq<Byte>)
    requires HeadSize(rune) == |rune| > 0
    ensures Starts(rune) == 1
  {
    HeadShape(rune);
    assert rune == [rune[0]] + rune[1..];
    StartsJoin([rune[0]], rune[1..]);
    NoStarts(rune[1..]);
    assert [rune[0]][..0] == [];
  }

  lemma {:induction false} RuneCountIsStarts(s: seq<Byte>)
    requires Valid(s)
    ensures RuneCount(s) == Starts(s)
    decreases |s|
  {
    if s != [] {
      UnconsValid(s);
      var k := HeadSize(s);
      RuneCountIsStarts(s[k..]);
      Regroup(s, [], k);
      ConsValid(s[..k], s[k..]);
      StartsJoin(s[..k], s[k..]);
      OneStart(s[..k]);
    }
  }
}
