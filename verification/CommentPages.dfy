// Keyset pages over a note's comments, newest first, the first page served from
// a cached larger one (note/repository.go, note/service.go).
module CommentPages {
  import opened Wrappers
  import opened StableSort

  const MAX_LIMIT := 100
  const DEFAULT_LIMIT := 20

  datatype Comment = Comment(id: nat, createdAt: int, active: bool, content: string)

  // The decoded cursor: created_at and id of the last comment of a page.
  datatype Key = Key(createdAt: int, id: nat)

  datatype Page = Page(items: seq<Comment>, nextCursor: Option<Key>)

  function KeyOf(c: Comment): Key {
    Key(c.createdAt, c.id)
  }

  // (created_at, id) < (other.created_at, other.id)
  predicate KeyBelow(a: Key, b: Key) {
    a.createdAt < b.createdAt || (a.createdAt == b.createdAt && a.id < b.id)
  }

  // ORDER BY created_at DESC, id DESC
  predicate Newer(a: Comment, b: Comment) {
    KeyBelow(KeyOf(b), KeyOf(a))
  }

  predicate Beyond(cursor: Option<Key>, k: Key) {
    cursor.Some? ==> KeyBelow(k, cursor.value)
  }

  // WHERE status = 1 AND (created_at, id) < cursor
  function Matching(rows: seq<Comment>, cursor: Option<Key>): seq<Comment> {
    if rows == [] then []
    else
      var c := rows[|rows| - 1];
      Matching(rows[..|rows| - 1], cursor) + if c.active && Beyond(cursor, KeyOf(c)) then [c] else []
  }

  function Visible(rows: seq<Comment>, cursor: Option<Key>): seq<Comment> {
    Sort(Newer, Matching(rows, cursor))
  }

  function Take<T>(s: seq<T>, n: nat): seq<T> {
    if |s| <= n then s else s[..n]
  }

  // The page of a query with one row of lookahead.
  function PageOf(rows: seq<Comment>, limit: nat, cursor: Option<Key>): Page {
    var found := Take(Visible(rows, cursor), limit + 1);
    if |found| > limit && limit > 0 then Page(found[..limit], Some(KeyOf(found[limit - 1])))
    else Page(Take(found, limit), None)
  }

  function LimitPage(page: Page, limit: int): Page {
    if limit <= 0 || |page.items| <= limit then page
    else Page(page.items[..limit], Some(KeyOf(page.items[limit - 1])))
  }

  function EffectiveLimit(limit: int): (n: nat)
    ensures 1 <= n <= 100
    ensures 1 <= limit <= 100 ==> n == limit
    ensures limit > 100 ==> n == 100
    ensures limit <= 0 ==> n == 20
  {
    if limit <= 0 then DEFAULT_LIMIT else if limit > MAX_LIMIT then MAX_LIMIT else limit
  }

  // The first page a request gets, from the cache or the table.
  function FirstPage(cache: Option<Page>, rows: seq<Comment>, limit: int): Page {
    LimitPage(if cache.Some? then cache.value else PageOf(rows, MAX_LIMIT, None), EffectiveLimit(limit))
  }

  // ---- The code --------------------------------------------------------------

  // The repository's query: scan, note whether there is more, drop the extra row.
  method ListRows(rows: seq<Comment>, limit: nat, cursor: Option<Key>) returns (comments: seq<Comment>, hasMore: bool)
    ensures hasMore <==> |Visible(rows, cursor)| > limit
    ensures comments == Take(Visible(rows, cursor), limit)
  {
    hide Visible;
    var found := Take(Visible(rows, cursor), limit + 1);
    comments := [];
    for k := 0 to |found|
      invariant comments == found[..k]
    {
      comments := comments + [found[k]];
    }
    hasMore := |comments| > limit;
    if hasMore {
      comments := comments[..limit];
    }
  }

  method BuildCommentPage(items: seq<Comment>, hasMore: bool) returns (page: Page)
    ensures page == Page(items, if hasMore && items != [] then Some(KeyOf(items[|items| - 1])) else None)
  {
    page := Page(items, None);
    if !hasMore || |items| == 0 {
      return;
    }
    page := page.(nextCursor := Some(KeyOf(items[|items| - 1])));
  }

  class CommentService {
    // The cached first page of the note.
    var cache: Option<Page>

    constructor ()
      ensures cache == None
    {
      cache := None;
    }

    method Query(rows: seq<Comment>, limit: nat, cursor: Option<Key>) returns (page: Page)
      ensures page == PageOf(rows, limit, cursor)
    {
      hide Visible;
      var items, hasMore := ListRows(rows, limit, cursor);
      page := BuildCommentPage(items, hasMore);
    }

    // `stored` answers whether writing the cache succeeds.
    method ListComments(rows: seq<Comment>, limit: int, cursor: Option<Key>, stored: bool) returns (page: Page)
      modifies this
      ensures cursor.None? ==> page == FirstPage(old(cache), rows, limit)
      ensures cursor.None? && old(cache).Some? ==> cache == old(cache)
      ensures cursor.None? && old(cache).None? ==> cache == if stored then Some(PageOf(rows, MAX_LIMIT, None)) else None
      ensures cursor.Some? ==> page == PageOf(rows, EffectiveLimit(limit), cursor) && cache == old(cache)
    {
      var effective := EffectiveLimit(limit);
      if cursor.None? {
        if cache.Some? {
          return LimitPage(cache.value, effective);
        }
        var loaded := Query(rows, MAX_LIMIT, None);
        if stored {
          cache := Some(loaded);
        }
        return LimitPage(loaded, effective);
      }
      page := Query(rows, effective, cursor);
    }

    // The next first page, whatever its limit, is that of the table by then.
    method InvalidateCommentFirstPage()
      modifies this
      ensures cache == None
      ensures forall rows, limit: int :: FirstPage(cache, rows, limit) == PageOf(rows, EffectiveLimit(limit), None)
    {
      cache := None;
      forall rows, limit: int
        ensures FirstPage(cache, rows, limit) == PageOf(rows, EffectiveLimit(limit), None)
      {
        CachedPageAgrees(rows, limit);
      }
    }
  }

  // ---- The cached page agrees with direct paging -----------------------------

  // Cutting the cached larger page gives the page a direct query gives, cursor
  // included; so a first page from the cache is the direct page of the table the
  // cache was filled from.
  lemma CachedPageAgrees(rows: seq<Comment>, limit: int)
    ensures LimitPage(PageOf(rows, MAX_LIMIT, None), EffectiveLimit(limit)) == PageOf(rows, EffectiveLimit(limit), None)
  {
    hide Visible;
    var all, n := Visible(rows, None), EffectiveLimit(limit);
    var found := Take(all, MAX_LIMIT + 1);
    assert Take(found, MAX_LIMIT) == Take(all, MAX_LIMIT);
    if |all| > n {
      assert Take(all, n + 1)[..n] == all[..n];
      assert Take(all, MAX_LIMIT)[..n] == all[..n];
    }
  }

  // ---- Visible comments ------------------------------------------------------

  // Ids are unique.
  ghost predicate Rows(rows: seq<Comment>) {
    forall i, j | 0 <= i < j < |rows| :: rows[i].id != rows[j].id
  }

  lemma {:induction false} MatchingMembers(rows: seq<Comment>, cursor: Option<Key>, c: Comment)
    ensures c in Matching(rows, cursor) <==> c in rows && c.active && Beyond(cursor, KeyOf(c))
  {
    if rows != [] {
      var front := rows[..|rows| - 1];
      MatchingMembers(front, cursor, c);
      assert rows == front + [rows[|rows| - 1]];
    }
  }

  lemma {:induction false} MatchingDistinct(rows: seq<Comment>, cursor: Option<Key>)
    requires Rows(rows)
    ensures Rows(Matching(rows, cursor))
  {
    if rows != [] {
      var front, c := rows[..|rows| - 1], rows[|rows| - 1];
      MatchingDistinct(front, cursor);
      forall x | x in Matching(front, cursor)
        ensures x.id != c.id
      {
        MatchingMembers(front, cursor, x);
      }
    }
  }

  ghost predicate Descending(s: seq<Comment>) {
    forall i, j | 0 <= i < j < |s| :: Newer(s[i], s[j])
  }

  lemma {:induction false} InsertMembers(s: seq<Comment>, c: Comment, x: Comment)
    ensures x in Insert(Newer, s, c) <==> x == c || x in s
  {
    if s != [] {
      assert s == s[..|s| - 1] + [s[|s| - 1]];
      if Newer(c, s[|s| - 1]) {
        InsertMembers(s[..|s| - 1], c, x);
      }
    }
  }

  lemma AppendDescending(s: seq<Comment>, c: Comment)
    requires Descending(s) && forall x | x in s :: Newer(x, c)
    ensures Descending(s + [c])
  {
    assert forall i | 0 <= i < |s| :: s[i] in s;
  }

  lemma {:induction false} InsertDescending(s: seq<Comment>, c: Comment)
    requires Descending(s) && forall x | x in s :: x.id != c.id
    ensures Descending(Insert(Newer, s, c))
  {
    if s != [] {
      var front, last := s[..|s| - 1], s[|s| - 1];
      assert s == front + [last];
      forall x | x in front
        ensures Newer(x, last)
      {
        var k :| 0 <= k < |front| && front[k] == x;
        assert Newer(s[k], s[|s| - 1]);
      }
      if Newer(c, last) {
        InsertDescending(front, c);
        forall x | x in Insert(Newer, front, c)
          ensures Newer(x, last)
        {
          InsertMembers(front, c, x);
        }
        AppendDescending(Insert(Newer, front, c), last);
      } else {
        assert Newer(last, c);
        AppendDescending(s, c);
      }
    }
  }

  lemma {:induction false} SortDescending(s: seq<Comment>)
    requires Rows(s)
    ensures Descending(Sort(Newer, s))
    ensures forall x :: x in Sort(Newer, s) <==> x in s
  {
    if s != [] {
      var front, c := s[..|s| - 1], s[|s| - 1];
      SortDescending(front);
      assert s == front + [c];
      InsertDescending(Sort(Newer, front), c);
      forall x
        ensures x in Sort(Newer, s) <==> x in s
      {
        InsertMembers(Sort(Newer, front), c, x);
      }
    }
  }

  // A query shows exactly the active comments beyond the cursor, newest first.
  lemma VisibleFacts(rows: seq<Comment>, cursor: Option<Key>)
    requires Rows(rows)
    ensures Descending(Visible(rows, cursor))
    ensures forall c :: c in Visible(rows, cursor) <==> c in rows && c.active && Beyond(cursor, KeyOf(c))
  {
    hide Sort, Matching, Descending;
    MatchingDistinct(rows, cursor);
    SortDescending(Matching(rows, cursor));
    forall c
      ensures c in Visible(rows, cursor) <==> c in rows && c.active && Beyond(cursor, KeyOf(c))
    {
      MatchingMembers(rows, cursor, c);
    }
  }

  // A page is the front of what is visible; what it leaves out lies beyond its
  // cursor, and without a cursor it leaves out nothing.
  lemma PageFacts(rows: seq<Comment>, limit: nat, cursor: Option<Key>)
    requires Rows(rows) && limit > 0
    ensures var p := PageOf(rows, limit, cursor);
            && |p.items| == (if |Visible(rows, cursor)| <= limit then |Visible(rows, cursor)| else limit)
            && (forall i, j | 0 <= i < j < |p.items| ::
                  || p.items[i].createdAt > p.items[j].createdAt
                  || (p.items[i].createdAt == p.items[j].createdAt && p.items[i].id > p.items[j].id))
            && (forall c | c in p.items :: c in rows && c.active && Beyond(cursor, KeyOf(c)))
            && (forall c | c in rows && c.active && Beyond(cursor, KeyOf(c)) && c !in p.items ::
                  p.nextCursor.Some? && Beyond(p.nextCursor, KeyOf(c)))
            && (p.nextCursor.Some? ==> p.items != [] && p.nextCursor.value == KeyOf(p.items[|p.items| - 1]))
  {
    hide Visible, Beyond;
    var all := Visible(rows, cursor);
    assert Descending(all) by { VisibleFacts(rows, cursor); }
    var p := PageOf(rows, limit, cursor);
    VisibleFacts(rows, cursor);
    assert p.items == Take(all, limit);
    forall c | c in rows && c.active && Beyond(cursor, KeyOf(c)) && c !in p.items
      ensures p.nextCursor.Some? && Beyond(p.nextCursor, KeyOf(c))
    {
      assert c in all;
      var k :| 0 <= k < |all| && all[k] == c;
      BeyondPage(all, limit, k, p);
    }
  }

  lemma BeyondPage(all: seq<Comment>, limit: nat, k: nat, p: Page)
    requires Descending(all) && k < |all| && p.items == Take(all, limit) && all[k] !in p.items && limit > 0
    requires |all| > limit ==> p.nextCursor == Some(KeyOf(all[limit - 1]))
    ensures p.nextCursor.Some? && Beyond(p.nextCursor, KeyOf(all[k]))
  {
    assert forall i | 0 <= i < |p.items| :: p.items[i] == all[i];
    assert k >= |p.items|;
    assert Newer(all[limit - 1], all[k]);
  }

  // ---- Walks -----------------------------------------------------------------

  // One request of a walk: the table it saw and the limit it asked for.
  datatype Visit = Visit(rows: seq<Comment>, limit: int)

  // Follow the cursors until a page has none or the visits are used up.
  function Walk(visits: seq<Visit>, cursor: Option<Key>): seq<Page> {
    if visits == [] then []
    else
      var page := PageOf(visits[0].rows, EffectiveLimit(visits[0].limit), cursor);
      [page] + if page.nextCursor.None? then [] else Walk(visits[1..], page.nextCursor)
  }

  predicate Completed(pages: seq<Page>) {
    pages != [] && pages[|pages| - 1].nextCursor.None?
  }

  function Items(pages: seq<Page>): seq<Comment> {
    if pages == [] then [] else pages[0].items + Items(pages[1..])
  }

  // Rows of one id keep their creation time from table to table.
  ghost predicate Tables(visits: seq<Visit>) {
    && (forall k | 0 <= k < |visits| :: Rows(visits[k].rows))
    && (forall i, j, c, d | 0 <= i < |visits| && 0 <= j < |visits| && c in visits[i].rows && d in visits[j].rows && c.id == d.id ::
          c.createdAt == d.createdAt)
  }

  lemma {:induction false} WalkDescends(visits: seq<Visit>, cursor: Option<Key>)
    requires forall k | 0 <= k < |visits| :: Rows(visits[k].rows)
    ensures var items := Items(Walk(visits, cursor));
            Descending(items) && forall k | 0 <= k < |items| :: Beyond(cursor, KeyOf(items[k]))
    decreases |visits|
  {
    hide PageOf;
    if visits != [] {
      var v := visits[0];
      PageFacts(v.rows, EffectiveLimit(v.limit), cursor);
      var page := PageOf(v.rows, EffectiveLimit(v.limit), cursor);
      var rest := if page.nextCursor.None? then [] else Walk(visits[1..], page.nextCursor);
      assert Walk(visits, cursor)[1..] == rest;
      if page.nextCursor.Some? {
        WalkDescends(visits[1..], page.nextCursor);
        JoinDescending(page.items, Items(rest), cursor, page.nextCursor);
      } else {
        assert Items(Walk(visits, cursor)) == page.items + [] == page.items;
      }
    }
  }

  lemma JoinDescending(a: seq<Comment>, b: seq<Comment>, cursor: Option<Key>, next: Option<Key>)
    requires Descending(a) && Descending(b) && a != [] && next == Some(KeyOf(a[|a| - 1]))
    requires forall c | c in a :: Beyond(cursor, KeyOf(c))
    requires forall k | 0 <= k < |b| :: Beyond(next, KeyOf(b[k]))
    ensures Descending(a + b) && forall k | 0 <= k < |a + b| :: Beyond(cursor, KeyOf((a + b)[k]))
  {
    var s, last := a + b, a[|a| - 1];
    forall i | 0 <= i < |a|
      ensures i == |a| - 1 || Newer(a[i], last)
      ensures Beyond(cursor, KeyOf(a[i]))
    {
      assert a[i] in a;
    }
  }

  // No comment is returned twice, whatever happens between the pages.
  lemma WalkNeverRepeats(visits: seq<Visit>, i: nat, j: nat)
    requires Tables(visits)
    requires i < j < |Items(Walk(visits, None))|
    ensures Items(Walk(visits, None))[i].id != Items(Walk(visits, None))[j].id
  {
    hide Walk, Items, Rows;
    WalkDescends(visits, None);
    var items := Items(Walk(visits, None));
    var a := ItemFrom(visits, None, i);
    var b := ItemFrom(visits, None, j);
    assert Newer(items[i], items[j]);
  }

  // Every item was an active row of the table of some visit.
  lemma {:induction false} ItemFrom(visits: seq<Visit>, cursor: Option<Key>, i: nat) returns (k: nat)
    requires (forall k | 0 <= k < |visits| :: Rows(visits[k].rows)) && i < |Items(Walk(visits, cursor))|
    ensures k < |visits| && Items(Walk(visits, cursor))[i] in visits[k].rows && Items(Walk(visits, cursor))[i].active
    decreases |visits|
  {
    hide PageOf, Rows;
    var v := visits[0];
    PageFacts(v.rows, EffectiveLimit(v.limit), cursor);
    var page := PageOf(v.rows, EffectiveLimit(v.limit), cursor);
    var rest := if page.nextCursor.None? then [] else Walk(visits[1..], page.nextCursor);
    assert Walk(visits, cursor)[1..] == rest;
    if i < |page.items| {
      k := 0;
      assert page.items[i] in page.items;
    } else {
      k := ItemFrom(visits[1..], page.nextCursor, i - |page.items|);
      k := k + 1;
    }
  }

  ghost predicate ActiveIn(rows: seq<Comment>, key: Key) {
    exists c :: c in rows && c.active && KeyOf(c) == key
  }

  ghost predicate Returned(items: seq<Comment>, key: Key) {
    exists k :: 0 <= k < |items| && KeyOf(items[k]) == key
  }

  // A completed walk returns every comment that was active at every visit.
  lemma {:induction false} WalkComplete(visits: seq<Visit>, cursor: Option<Key>, key: Key)
    requires forall k | 0 <= k < |visits| :: Rows(visits[k].rows) && ActiveIn(visits[k].rows, key)
    requires Completed(Walk(visits, cursor)) && Beyond(cursor, key)
    ensures Returned(Items(Walk(visits, cursor)), key)
    decreases |visits|
  {
    hide PageOf, Rows, Beyond, Descending, Returned;
    var v := visits[0];
    PageFacts(v.rows, EffectiveLimit(v.limit), cursor);
    var page := PageOf(v.rows, EffectiveLimit(v.limit), cursor);
    var rest := if page.nextCursor.None? then [] else Walk(visits[1..], page.nextCursor);
    var pages := Walk(visits, cursor);
    assert pages[1..] == rest;
    assert Items(pages) == page.items + Items(rest);
    var c :| c in v.rows && c.active && KeyOf(c) == key;
    if c !in page.items {
      assert rest != [] && rest[|rest| - 1] == pages[|pages| - 1];
      WalkComplete(visits[1..], page.nextCursor, key);
    }
    ReturnedJoin(page.items, Items(rest), c, key);
  }

  lemma ReturnedJoin(a: seq<Comment>, b: seq<Comment>, c: Comment, key: Key)
    requires KeyOf(c) == key && (c in a || Returned(b, key))
    ensures Returned(a + b, key)
  {
    if c in a {
      var k :| 0 <= k < |a| && a[k] == c;
      assert (a + b)[k] == c;
    } else {
      var k :| 0 <= k < |b| && KeyOf(b[k]) == key;
      assert (a + b)[|a| + k] == b[k];
    }
  }

  // Under any inserts and deletes between the pages, a completed walk returns
  // every comment active throughout exactly once.
  lemma WalkReturnsExactlyOnce(visits: seq<Visit>, key: Key)
    requires Tables(visits) && Completed(Walk(visits, None))
    requires forall k | 0 <= k < |visits| :: ActiveIn(visits[k].rows, key)
    ensures exists i :: && 0 <= i < |Items(Walk(visits, None))| && KeyOf(Items(Walk(visits, None))[i]) == key
                        && forall j :: 0 <= j < |Items(Walk(visits, None))| && Items(Walk(visits, None))[j].id == key.id ==> j == i
  {
    hide Walk, Items, Tables, ActiveIn;
    VisitRows(visits);
    WalkComplete(visits, None, key);
    var items := Items(Walk(visits, None));
    var i :| 0 <= i < |items| && KeyOf(items[i]) == key;
    forall j | 0 <= j < |items| && items[j].id == key.id
      ensures j == i
    {
      if i < j {
        WalkNeverRepeats(visits, i, j);
      } else if j < i {
        WalkNeverRepeats(visits, j, i);
      }
    }
  }

  lemma VisitRows(visits: seq<Visit>)
    requires Tables(visits)
    ensures forall k | 0 <= k < |visits| :: Rows(visits[k].rows)
  {
  }
}
