// A bounded sweep over a table in id order: every run repairs the next batch
// after a persistent cursor and starts over behind the last row
// (reconcile/repository.go, nextRepairBatch).
module Sweep {
  import opened IdSorting
  import opened Sequences

  // SELECT id ... WHERE id > cursor ORDER BY id
  function After(ids: seq<nat>, cursor: nat): seq<nat> {
    if ids == [] then []
    else (if ids[0] > cursor then [ids[0]] else []) + After(ids[1..], cursor)
  }

  // LIMIT
  function Limit<T>(s: seq<T>, limit: nat): seq<T> {
    s[..if |s| <= limit then |s| else limit]
  }

  function NextBatch(ids: seq<nat>, cursor: nat, limit: nat): seq<nat> {
    var batch := Limit(After(ids, cursor), limit);
    if batch == [] && cursor > 0 then Limit(After(ids, 0), limit) else batch
  }

  function NextCursor(batch: seq<nat>): nat {
    if batch == [] then 0 else batch[|batch| - 1]
  }

  function Keys<R>(rows: seq<R>, key: R -> nat): seq<nat> {
    seq(|rows|, k requires 0 <= k < |rows| => key(rows[k]))
  }

  // UPDATE ... WHERE id = ANY(batch)
  function Apply<R>(rows: seq<R>, key: R -> nat, fix: R -> R, batch: seq<nat>): seq<R> {
    seq(|rows|, k requires 0 <= k < |rows| => if key(rows[k]) in batch then fix(rows[k]) else rows[k])
  }

  // RowsAffected: a row is written only when the repair changes it.
  function Changed<R(==)>(before: seq<R>, after: seq<R>): nat
    requires |before| == |after|
  {
    if before == [] then 0
    else Changed(before[1..], after[1..]) + if before[0] == after[0] then 0 else 1
  }

  lemma {:induction false} ChangedZero<R>(before: seq<R>, after: seq<R>)
    requires |before| == |after|
    ensures Changed(before, after) == 0 <==> before == after
  {
    if before != [] {
      ChangedZero(before[1..], after[1..]);
      assert before == [before[0]] + before[1..] && after == [after[0]] + after[1..];
    }
  }

  ghost function Differing<R>(before: seq<R>, after: seq<R>): set<nat>
    requires |before| == |after|
  {
    set k: nat | k < |before| && before[k] != after[k]
  }

  // It is the number of rows that differ.
  lemma {:induction false} ChangedCounts<R>(before: seq<R>, after: seq<R>)
    requires |before| == |after|
    ensures Changed(before, after) == |Differing(before, after)|
  {
    if before != [] {
      ChangedCounts(before[1..], after[1..]);
      DifferingTail(before, after);
    } else {
      assert Differing(before, after) == {};
    }
  }

  lemma DifferingTail<R>(before: seq<R>, after: seq<R>)
    requires |before| == |after| > 0
    ensures |Differing(before, after)| == |Differing(before[1..], after[1..])| + if before[0] == after[0] then 0 else 1
  {
    var tail, all := Differing(before[1..], after[1..]), Differing(before, after);
    forall k: nat
      ensures k in tail <==> k + 1 in all - {0}
    {
      assert k < |before[1..]| ==> before[1..][k] == before[k + 1] && after[1..][k] == after[k + 1];
    }
    ShiftCount(tail, all - {0});
    assert 0 in all <==> before[0] != after[0];
    assert 0 !in all ==> all - {0} == all;
  }

  lemma {:induction false} ShiftCount(a: set<nat>, b: set<nat>)
    requires forall k: nat :: k in a <==> k + 1 in b
    requires 0 !in b
    ensures |a| == |b|
    decreases |b|
  {
    assert forall k: nat :: k in a ==> k + 1 in b;
    if b != {} {
      var k: nat :| k in b;
      assert k > 0 && (k - 1) + 1 in b;
      ShiftCount(a - {k - 1}, b - {k});
    } else {
      assert a == {};
    }
  }

  // ---- The cursor as a position ----------------------------------------------

  ghost predicate Table<R(!new)>(rows: seq<R>, key: R -> nat, fix: R -> R) {
    && StrictlyAscending(Keys(rows, key))
    && (forall k | 0 <= k < |rows| :: key(rows[k]) > 0)
    && (forall r :: key(fix(r)) == key(r) && fix(fix(r)) == fix(r))
  }

  // Number of rows the cursor has passed.
  function Position(ids: seq<nat>, cursor: nat): (p: nat)
    ensures p <= |ids|
  {
    if ids == [] || ids[0] > cursor then 0 else 1 + Position(ids[1..], cursor)
  }

  lemma {:induction false} AfterIsSuffix(ids: seq<nat>, cursor: nat)
    requires StrictlyAscending(ids)
    ensures After(ids, cursor) == ids[Position(ids, cursor)..]
  {
    if ids != [] {
      assert StrictlyAscending(ids[1..]);
      AfterIsSuffix(ids[1..], cursor);
      if ids[0] > cursor {
        assert Position(ids[1..], cursor) == 0 by {
          if |ids| > 1 {
            assert ids[1..][0] == ids[1] > ids[0];
          }
        }
        assert [ids[0]] + ids[1..] == ids;
      }
    }
  }

  lemma {:induction false} PositionAt(ids: seq<nat>, k: nat)
    requires StrictlyAscending(ids) && k < |ids|
    ensures Position(ids, ids[k]) == k + 1
  {
    if k > 0 {
      assert ids[1..][k - 1] == ids[k];
      PositionAt(ids[1..], k - 1);
    } else if |ids| > 1 {
      assert ids[1..][0] == ids[1];
    }
  }

  lemma PositionOfZero(ids: seq<nat>)
    requires forall k | 0 <= k < |ids| :: ids[k] > 0
    ensures Position(ids, 0) == 0
  {
  }

  function Min(a: nat, b: nat): nat { if a <= b then a else b }

  // A run takes the rows after the position, from the first row when none is left.
  lemma BatchIsWindow(ids: seq<nat>, cursor: nat, limit: nat)
    requires StrictlyAscending(ids) && (forall k | 0 <= k < |ids| :: ids[k] > 0) && limit > 0 && ids != []
    ensures var p := Position(ids, cursor);
            var s := if p == |ids| then 0 else p;
            var e := Min(s + limit, |ids|);
            && s < e
            && NextBatch(ids, cursor, limit) == ids[s..e]
            && Position(ids, NextCursor(NextBatch(ids, cursor, limit))) == e
  {
    hide After, Position, StrictlyAscending;
    AfterIsSuffix(ids, cursor);
    AfterIsSuffix(ids, 0);
    PositionOfZero(ids);
    var p := Position(ids, cursor);
    var s := if p == |ids| then 0 else p;
    var e := Min(s + limit, |ids|);
    assert Limit(ids[s..], limit) == ids[s..e];
    PositionAt(ids, e - 1);
  }

  lemma WindowMembers(ids: seq<nat>, s: nat, e: nat, k: nat)
    requires StrictlyAscending(ids) && s <= e <= |ids| && k < |ids|
    ensures ids[k] in ids[s..e] <==> s <= k < e
  {
    if s <= k < e {
      assert ids[s..e][k - s] == ids[k];
    }
  }

  // ---- Runs ------------------------------------------------------------------

  datatype State<R> = State(rows: seq<R>, cursor: nat)

  function Run<R>(st: State<R>, key: R -> nat, fix: R -> R, limit: nat): State<R> {
    var batch := NextBatch(Keys(st.rows, key), st.cursor, limit);
    State(Apply(st.rows, key, fix, batch), NextCursor(batch))
  }

  function Runs<R>(st: State<R>, key: R -> nat, fix: R -> R, limit: nat, n: nat): State<R>
    decreases n
  {
    if n == 0 then st else Runs(Run(st, key, fix, limit), key, fix, limit, n - 1)
  }

  ghost predicate Clean<R>(rows: seq<R>, fix: R -> R, low: nat, high: nat) {
    forall k | low <= k < high && k < |rows| :: fix(rows[k]) == rows[k]
  }

  ghost predicate AllClean<R>(rows: seq<R>, fix: R -> R) {
    forall k | 0 <= k < |rows| :: fix(rows[k]) == rows[k]
  }

  function PositionIn<R>(st: State<R>, key: R -> nat): nat {
    Position(Keys(st.rows, key), st.cursor)
  }

  lemma RunWindow<R(!new)>(st: State<R>, key: R -> nat, fix: R -> R, limit: nat)
    requires Table(st.rows, key, fix) && limit > 0 && st.rows != []
    ensures var p := PositionIn(st, key);
            var s := if p == |st.rows| then 0 else p;
            var e := Min(s + limit, |st.rows|);
            var r := Run(st, key, fix, limit);
            && Table(r.rows, key, fix) && |r.rows| == |st.rows| && PositionIn(r, key) == e && p <= |st.rows|
            && Keys(r.rows, key) == Keys(st.rows, key)
            && (forall k | 0 <= k < |st.rows| :: r.rows[k] == if s <= k < e then fix(st.rows[k]) else st.rows[k])
  {
    hide NextBatch, Position, NextCursor, StrictlyAscending;
    var ids := Keys(st.rows, key);
    BatchIsWindow(ids, st.cursor, limit);
    var p := PositionIn(st, key);
    var s := if p == |st.rows| then 0 else p;
    var e := Min(s + limit, |st.rows|);
    var r := Run(st, key, fix, limit);
    forall k | 0 <= k < |st.rows|
      ensures r.rows[k] == if s <= k < e then fix(st.rows[k]) else st.rows[k]
    {
      WindowMembers(ids, s, e, k);
      assert ids[k] == key(st.rows[k]);
    }
    assert Keys(r.rows, key) == ids;
  }

  // Second lap: rows from p on and before the position are clean.
  lemma {:induction false} SecondLap<R(!new)>(st: State<R>, key: R -> nat, fix: R -> R, limit: nat, p: nat, n: nat)
    requires Table(st.rows, key, fix) && limit > 0 && p <= |st.rows| && st.rows != []
    requires var q := PositionIn(st, key);
             var s := if q == |st.rows| then 0 else q;
             Clean(st.rows, fix, p, |st.rows|) && Clean(st.rows, fix, 0, s) && s + n * limit >= p
    ensures AllClean(Runs(st, key, fix, limit, n).rows, fix)
    decreases n
  {
    hide Table, PositionIn, Keys, Run;
    if n > 0 {
      RunWindow(st, key, fix, limit);
      var q := PositionIn(st, key);
      var s := if q == |st.rows| then 0 else q;
      var r := Run(st, key, fix, limit);
      FixIsStable(st.rows, key, fix);
      assert n * limit == (n - 1) * limit + limit;
      if s + limit >= |st.rows| {
        CleanStays(r, key, fix, limit, n - 1);
      } else {
        SecondLap(r, key, fix, limit, p, n - 1);
      }
    }
  }

  lemma FixIsStable<R(!new)>(rows: seq<R>, key: R -> nat, fix: R -> R)
    requires Table(rows, key, fix)
    ensures forall r :: fix(fix(r)) == fix(r)
  {
  }

  lemma CleanRun<R(!new)>(st: State<R>, key: R -> nat, fix: R -> R, limit: nat)
    requires AllClean(st.rows, fix)
    ensures Run(st, key, fix, limit).rows == st.rows
  {
    hide NextBatch;
  }

  lemma {:induction false} CleanStays<R(!new)>(st: State<R>, key: R -> nat, fix: R -> R, limit: nat, n: nat)
    requires Table(st.rows, key, fix) && AllClean(st.rows, fix) && limit > 0
    ensures Runs(st, key, fix, limit, n).rows == st.rows
    decreases n
  {
    if n > 0 {
      CleanRun(st, key, fix, limit);
      CleanStays(Run(st, key, fix, limit), key, fix, limit, n - 1);
    }
  }

  // First lap: rows from p up to the position are clean.
  lemma {:induction false} FirstLap<R(!new)>(st: State<R>, key: R -> nat, fix: R -> R, limit: nat, p: nat, n: nat, first: nat, second: nat)
    requires Table(st.rows, key, fix) && limit > 0
    requires p <= PositionIn(st, key) < |st.rows| && Clean(st.rows, fix, p, PositionIn(st, key))
    requires PositionIn(st, key) + first * limit >= |st.rows| && second * limit >= p && n == first + second
    ensures AllClean(Runs(st, key, fix, limit, n).rows, fix)
    decreases n
  {
    hide Table, PositionIn, Keys, Run;
    assert first > 0;
    assert first * limit == (first - 1) * limit + limit;
    RunWindow(st, key, fix, limit);
    FixIsStable(st.rows, key, fix);
    var r := Run(st, key, fix, limit);
    if PositionIn(st, key) + limit >= |st.rows| {
      assert (first - 1) * limit >= 0;
      assert (n - 1) * limit == (first - 1) * limit + second * limit;
      SecondLap(r, key, fix, limit, p, n - 1);
    } else {
      FirstLap(r, key, fix, limit, p, n - 1, first - 1, second);
    }
  }

  lemma {:induction false} RunsKeep<R(!new)>(st: State<R>, key: R -> nat, fix: R -> R, limit: nat, n: nat)
    requires Table(st.rows, key, fix) && limit > 0
    ensures var r := Runs(st, key, fix, limit, n);
            && Table(r.rows, key, fix) && |r.rows| == |st.rows|
            && Map(fix, r.rows) == Map(fix, st.rows)
    decreases n
  {
    hide PositionIn;
    if n > 0 {
      var r := Run(st, key, fix, limit);
      if st.rows != [] {
        RunWindow(st, key, fix, limit);
      }
      assert Map(fix, r.rows) == Map(fix, st.rows);
      RunsKeep(r, key, fix, limit, n - 1);
    }
  }

  function Ceiling(n: nat, limit: nat): nat
    requires limit > 0
  {
    (n + limit - 1) / limit
  }

  lemma CeilingIs(n: nat, limit: nat)
    requires limit > 0
    ensures var c := Ceiling(n, limit); n <= c * limit < n + limit
  {
    var x := n + limit - 1;
    assert x == x / limit * limit + x % limit;
  }

  lemma CeilingSplit(p: nat, q: nat, limit: nat)
    requires limit > 0
    ensures Ceiling(p, limit) + Ceiling(q, limit) <= Ceiling(p + q, limit) + 1
  {
    CeilingIs(p, limit);
    CeilingIs(q, limit);
    CeilingIs(p + q, limit);
    var a, b, c := Ceiling(p, limit), Ceiling(q, limit), Ceiling(p + q, limit);
    if a + b >= c + 2 {
      FewerRuns(a, b, c, limit);
      assert false;
    }
  }

  lemma FewerRuns(a: nat, b: nat, c: nat, limit: nat)
    requires a + b >= c + 2 && limit > 0
    ensures a * limit + b * limit >= c * limit + 2 * limit
  {
    AtLeast(a + b, c + 2, limit);
    Distribute(a, b, limit);
    Distribute(c, 2, limit);
  }

  lemma Distribute(x: nat, y: nat, limit: nat)
    ensures (x + y) * limit == x * limit + y * limit
  {
  }

  // Convergence: from any cursor, Ceiling(rows, limit) + 1 runs repair every
  // row, whatever the rows held before.
  lemma SweepConverges<R(!new)>(st: State<R>, key: R -> nat, fix: R -> R, limit: nat, n: nat)
    requires Table(st.rows, key, fix) && limit > 0 && n >= Ceiling(|st.rows|, limit) + 1
    ensures Runs(st, key, fix, limit, n).rows == Map(fix, st.rows)
  {
    hide Table, PositionIn, Run, Runs, Ceiling;
    RunsKeep(st, key, fix, limit, n);
    if st.rows != [] {
      var rows := |st.rows|;
      RunWindow(st, key, fix, limit);
      var p := PositionIn(st, key);
      CeilingSplit(rows - p, p, limit);
      CeilingIs(rows - p, limit);
      CeilingIs(p, limit);
      var first := Ceiling(rows - p, limit);
      AtLeast(n - first, Ceiling(p, limit), limit);
      if p < rows {
        FirstLap(st, key, fix, limit, p, n, first, n - first);
      } else {
        AtLeast(n, n - first, limit);
        SecondLap(st, key, fix, limit, p, n);
      }
    }
    var r := Runs(st, key, fix, limit, n);
    assert r.rows == Map(fix, r.rows);
  }

  lemma AtLeast(a: nat, b: nat, limit: nat)
    requires a >= b
    ensures a * limit >= b * limit
  {
  }
}
