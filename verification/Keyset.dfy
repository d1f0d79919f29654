/** Keyset pagination over a set of sort keys: ORDER BY, "after the cursor", LIMIT n + 1, and
    whole cursor walks, on a fixed table and on one that changes between the fetches. */
module Keyset {
  import opened Wrappers

  ghost predicate StrictTotal<K(!new)>(lt: (K, K) -> bool) {
    && (forall x :: !lt(x, x))
    && (forall x, y, z :: lt(x, y) && lt(y, z) ==> lt(x, z))
    && (forall x, y :: x == y || lt(x, y) || lt(y, x))
  }

  ghost predicate Sorted<K>(lt: (K, K) -> bool, s: seq<K>) {
    forall i, j :: 0 <= i < j < |s| ==> lt(s[i], s[j])
  }

  ghost predicate IsLeast<K>(lt: (K, K) -> bool, keys: set<K>, k: K) {
    k in keys && forall x :: x in keys && x != k ==> lt(k, x)
  }

  lemma {:induction false} LeastExists<K(!new)>(lt: (K, K) -> bool, keys: set<K>)
    requires StrictTotal(lt) && keys != {}
    ensures exists k :: IsLeast(lt, keys, k)
  {
    var x :| x in keys;
    if keys - {x} == {} {
      assert forall y :: y in keys && y != x ==> y in keys - {x};
      assert IsLeast(lt, keys, x);
    } else {
      LeastExists(lt, keys - {x});
      var m :| IsLeast(lt, keys - {x}, m);
      var k := if lt(x, m) then x else m;
      forall y | y in keys && y != k ensures lt(k, y) {
        assert y == x || y == m || lt(m, y);
      }
      assert IsLeast(lt, keys, k);
    }
  }

  ghost predicate Orders<K(!new)>(lt: (K, K) -> bool, keys: set<K>, s: seq<K>) {
    Sorted(lt, s) && |s| == |keys| && forall k :: k in s <==> k in keys
  }

  lemma {:induction false} OrderExists<K(!new)>(lt: (K, K) -> bool, keys: set<K>) returns (s: seq<K>)
    requires StrictTotal(lt)
    ensures Orders(lt, keys, s)
  {
    if keys == {} {
      s := [];
    } else {
      LeastExists(lt, keys);
      var m :| IsLeast(lt, keys, m);
      var rest := OrderExists(lt, keys - {m});
      s := [m] + rest;
      assert forall i :: 0 <= i < |rest| ==> rest[i] in keys - {m};
    }
  }

  /** SELECT ... ORDER BY key. */
  ghost function OrderBy<K(!new)>(lt: (K, K) -> bool, keys: set<K>): (s: seq<K>)
    requires StrictTotal(lt)
    ensures Sorted(lt, s) && |s| == |keys| && forall k :: k in s <==> k in keys
  {
    assert exists s :: Orders(lt, keys, s) by {
      var s := OrderExists(lt, keys);
    }
    var s :| Orders(lt, keys, s);
    s
  }

  /** A sorted list is determined by its members. */
  lemma {:induction false} SortedUnique<K(!new)>(lt: (K, K) -> bool, a: seq<K>, b: seq<K>)
    requires StrictTotal(lt) && Sorted(lt, a) && Sorted(lt, b)
    requires forall k :: k in a <==> k in b
    ensures a == b
  {
    assert forall i :: 0 <= i < |a| ==> a[i] in b;
    assert forall i :: 0 <= i < |b| ==> b[i] in a;
    if a != [] && b != [] {
      assert a[0] == b[0];
      forall k ensures k in a[1..] <==> k in b[1..] {
        assert k in a <==> k == a[0] || k in a[1..];
        assert k in b <==> k == b[0] || k in b[1..];
      }
      SortedUnique(lt, a[1..], b[1..]);
    }
  }

  // ---------------------------------------------------------------- one page

  datatype Page<+K> = Page(rows: seq<K>, next: Option<K>, hasMore: bool)

  /** WHERE key after the cursor. */
  ghost function After<K>(lt: (K, K) -> bool, keys: set<K>, cursor: Option<K>): set<K> {
    set k | k in keys && (cursor.Some? ==> lt(cursor.value, k))
  }

  function Take<T>(s: seq<T>, n: nat): seq<T> {
    if |s| <= n then s else s[..n]
  }

  /** One fetch: limit + 1 rows are read, the extra one only tells whether more follow, and
      the last row kept becomes the next cursor. */
  ghost function Fetch<K(!new)>(lt: (K, K) -> bool, keys: set<K>, cursor: Option<K>, limit: nat): (page: Page<K>)
    requires StrictTotal(lt) && limit >= 1
    ensures Sorted(lt, page.rows) && |page.rows| <= limit
    ensures forall k :: k in page.rows ==> k in After(lt, keys, cursor)
    ensures page.hasMore <==> |After(lt, keys, cursor)| > limit
    ensures !page.hasMore ==> page.next == None && forall k :: k in After(lt, keys, cursor) ==> k in page.rows
    ensures page.hasMore ==> |page.rows| == limit && page.next == Some(page.rows[limit - 1])
    ensures page.hasMore ==> forall k :: k in After(lt, keys, cursor) ==> k in page.rows || lt(page.next.value, k)
  {
    var all := OrderBy(lt, After(lt, keys, cursor));
    var rows := Take(all, limit + 1);
    if |rows| > limit then
      assert forall k :: k in all ==> k in rows[..limit] || lt(rows[limit - 1], k) by {
        forall k | k in all ensures k in rows[..limit] || lt(rows[limit - 1], k) {
          var i :| 0 <= i < |all| && all[i] == k;
          if i < limit { assert rows[..limit][i] == k; }
        }
      }
      Page(rows[..limit], Some(rows[limit - 1]), true)
    else
      Page(rows, None, false)
  }

  // ---------------------------------------------------------------- walks

  /** Page `i` is fetched from `tables[i]` with the cursor of the page before; the last page
      says that nothing follows. */
  ghost predicate Walk<K(!new)>(
    lt: (K, K) -> bool, tables: seq<set<K>>, cursor: Option<K>, limit: nat, pages: seq<Page<K>>)
    requires StrictTotal(lt) && limit >= 1
    decreases |pages|
  {
    && |pages| == |tables| > 0
    && pages[0] == Fetch(lt, tables[0], cursor, limit)
    && (pages[0].hasMore <==> |pages| > 1)
    && (|pages| > 1 ==> Walk(lt, tables[1..], pages[0].next, limit, pages[1..]))
  }

  ghost function Rows<K>(pages: seq<Page<K>>): seq<K> {
    if pages == [] then [] else pages[0].rows + Rows(pages[1..])
  }

  /** A walk is its first page followed by a walk from that page's cursor. */
  lemma WalkCons<K(!new)>(
    lt: (K, K) -> bool, tables: seq<set<K>>, cursor: Option<K>, limit: nat, page: Page<K>, rest: seq<Page<K>>)
    requires StrictTotal(lt) && limit >= 1 && tables != []
    requires page == Fetch(lt, tables[0], cursor, limit)
    requires if page.hasMore then Walk(lt, tables[1..], page.next, limit, rest) else |tables| == 1 && rest == []
    ensures Walk(lt, tables, cursor, limit, [page] + rest)
    ensures Rows([page] + rest) == page.rows + Rows(rest)
  {
    assert ([page] + rest)[1..] == rest;
  }

  ghost predicate Beyond<K>(lt: (K, K) -> bool, cursor: Option<K>, k: K) {
    cursor.Some? ==> lt(cursor.value, k)
  }

  lemma {:induction false} WalkStaysBeyond<K(!new)>(
    lt: (K, K) -> bool, tables: seq<set<K>>, cursor: Option<K>, limit: nat, pages: seq<Page<K>>, k: K)
    requires StrictTotal(lt) && limit >= 1
    requires Walk(lt, tables, cursor, limit, pages) && k in Rows(pages)
    ensures Beyond(lt, cursor, k)
    decreases |pages|
  {
    if k !in pages[0].rows {
      assert k in Rows(pages[1..]);
      WalkStaysBeyond(lt, tables[1..], pages[0].next, limit, pages[1..], k);
      BeyondNext(lt, tables[0], cursor, limit, k);
    }
  }

  lemma {:induction false} WalkComesFromTables<K(!new)>(
    lt: (K, K) -> bool, tables: seq<set<K>>, cursor: Option<K>, limit: nat, pages: seq<Page<K>>, k: K)
    returns (i: nat)
    requires StrictTotal(lt) && limit >= 1
    requires Walk(lt, tables, cursor, limit, pages) && k in Rows(pages)
    ensures i < |tables| && k in tables[i]
    decreases |pages|
  {
    if k in pages[0].rows {
      FetchedFromTable(lt, tables[0], cursor, limit, k);
      i := 0;
    } else {
      assert k in Rows(pages[1..]);
      i := WalkComesFromTables(lt, tables[1..], pages[0].next, limit, pages[1..], k);
      i := i + 1;
    }
  }

  lemma FetchedFromTable<K(!new)>(lt: (K, K) -> bool, keys: set<K>, cursor: Option<K>, limit: nat, k: K)
    requires StrictTotal(lt) && limit >= 1 && k in Fetch(lt, keys, cursor, limit).rows
    ensures k in keys
  {
  }

  lemma BeyondNext<K(!new)>(lt: (K, K) -> bool, keys: set<K>, cursor: Option<K>, limit: nat, k: K)
    requires StrictTotal(lt) && limit >= 1
    requires Fetch(lt, keys, cursor, limit).hasMore && Beyond(lt, Fetch(lt, keys, cursor, limit).next, k)
    ensures Beyond(lt, cursor, k)
  {
    var page := Fetch(lt, keys, cursor, limit);
    assert page.next.value in page.rows;
  }

  lemma RestIsLater<K(!new)>(
    lt: (K, K) -> bool, tables: seq<set<K>>, cursor: K, limit: nat, pages: seq<Page<K>>)
    requires StrictTotal(lt) && limit >= 1 && Walk(lt, tables, Some(cursor), limit, pages)
    ensures forall j :: 0 <= j < |Rows(pages)| ==> lt(cursor, Rows(pages)[j])
  {
    forall j | 0 <= j < |Rows(pages)| ensures lt(cursor, Rows(pages)[j]) {
      WalkStaysBeyond(lt, tables, Some(cursor), limit, pages, Rows(pages)[j]);
    }
  }

  lemma {:induction false} WalkIsSorted<K(!new)>(
    lt: (K, K) -> bool, tables: seq<set<K>>, cursor: Option<K>, limit: nat, pages: seq<Page<K>>)
    requires StrictTotal(lt) && limit >= 1
    requires Walk(lt, tables, cursor, limit, pages)
    ensures Sorted(lt, Rows(pages))
    decreases |pages|
  {
    if |pages| > 1 {
      WalkIsSorted(lt, tables[1..], pages[0].next, limit, pages[1..]);
      var rest := Rows(pages[1..]);
      RestIsLater(lt, tables[1..], pages[0].next.value, limit, pages[1..]);
      SortedPage(lt, tables[0], cursor, limit);
      SortedConcat(lt, pages[0].rows, rest);
    } else {
      assert Rows(pages[1..]) == [] && pages[0].rows + [] == pages[0].rows;
    }
  }

  lemma SortedPage<K(!new)>(lt: (K, K) -> bool, keys: set<K>, cursor: Option<K>, limit: nat)
    requires StrictTotal(lt) && limit >= 1
    ensures var page := Fetch(lt, keys, cursor, limit);
            && Sorted(lt, page.rows)
            && (page.hasMore ==> page.rows != [] && page.next == Some(page.rows[|page.rows| - 1]))
  {
  }

  lemma SortedConcat<K(!new)>(lt: (K, K) -> bool, a: seq<K>, b: seq<K>)
    requires StrictTotal(lt) && Sorted(lt, a) && Sorted(lt, b) && a != []
    requires forall j :: 0 <= j < |b| ==> lt(a[|a| - 1], b[j])
    ensures Sorted(lt, a + b)
  {
    var last := a[|a| - 1];
    assert forall i :: 0 <= i < |a| ==> a[i] == last || lt(a[i], last);
  }

  /** A row that a page passes over is left for the next one. */
  lemma PassedOver<K(!new)>(lt: (K, K) -> bool, keys: set<K>, cursor: Option<K>, limit: nat, k: K)
    requires StrictTotal(lt) && limit >= 1 && k in keys && Beyond(lt, cursor, k)
    requires k !in Fetch(lt, keys, cursor, limit).rows
    ensures var page := Fetch(lt, keys, cursor, limit); page.hasMore && Beyond(lt, page.next, k)
  {
    assert k in After(lt, keys, cursor);
  }

  lemma {:induction false} WalkIsComplete<K(!new)>(
    lt: (K, K) -> bool, tables: seq<set<K>>, cursor: Option<K>, limit: nat, pages: seq<Page<K>>, k: K)
    requires StrictTotal(lt) && limit >= 1
    requires Walk(lt, tables, cursor, limit, pages)
    requires Beyond(lt, cursor, k) && forall i :: 0 <= i < |tables| ==> k in tables[i]
    ensures k in Rows(pages)
    decreases |pages|
  {
    if k !in pages[0].rows {
      PassedOver(lt, tables[0], cursor, limit, k);
      assert forall i :: 0 <= i < |tables[1..]| ==> k in tables[1..][i];
      WalkIsComplete(lt, tables[1..], pages[0].next, limit, pages[1..], k);
    }
  }

  /** Whatever happens to the table between the fetches, the joined pages are strictly sorted
      (so no key comes twice), every key on them was in the table at some fetch, and every
      key present at every fetch is on them. */
  lemma WalkIsCompleteAndDuplicateFree<K(!new)>(
    lt: (K, K) -> bool, tables: seq<set<K>>, limit: nat, pages: seq<Page<K>>)
    requires StrictTotal(lt) && limit >= 1
    requires Walk(lt, tables, None, limit, pages)
    ensures Sorted(lt, Rows(pages))
    ensures forall k :: k in Rows(pages) ==> exists i :: 0 <= i < |tables| && k in tables[i]
    ensures forall k :: (forall i :: 0 <= i < |tables| ==> k in tables[i]) ==> k in Rows(pages)
  {
    WalkIsSorted(lt, tables, None, limit, pages);
    forall k | k in Rows(pages) ensures exists i :: 0 <= i < |tables| && k in tables[i] {
      var i := WalkComesFromTables(lt, tables, None, limit, pages, k);
      assert k in tables[i];
    }
    forall k | forall i :: 0 <= i < |tables| ==> k in tables[i] ensures k in Rows(pages) {
      WalkIsComplete(lt, tables, None, limit, pages, k);
    }
  }

  // ---------------------------------------------------------------- a table at rest

  function Same<T>(x: T, n: nat): seq<T> {
    seq(n, _ => x)
  }

  /** The walk over a table that does not change. */
  ghost function StaticWalk<K(
    !new) >(lt: (K, K) -> bool, keys: set<K>, cursor: Option<K>, limit: nat): (pages: seq<Page<K>>)
    requires StrictTotal(lt) && limit >= 1
    ensures pages != []
    decreases |After(lt, keys, cursor)|
  {
    var page := Fetch(lt, keys, cursor, limit);
    if page.hasMore then
      assert After(lt, keys, page.next) < After(lt, keys, cursor) by { CursorAdvances(lt, keys, cursor, limit); }
      SubsetSize(After(lt, keys, page.next), After(lt, keys, cursor));
      [page] + StaticWalk(lt, keys, page.next, limit)
    else [page]
  }

  lemma SubsetSize<K>(a: set<K>, b: set<K>)
    requires a < b
    ensures |a| < |b|
  {
    var x :| x in b && x !in a;
    assert |a| <= |b - {x}| by { SubsetSizeLe(a, b - {x}); }
  }

  lemma {:induction false} SubsetSizeLe<K>(a: set<K>, b: set<K>)
    requires a <= b
    ensures |a| <= |b|
  {
    if a != {} {
      var x :| x in a;
      SubsetSizeLe(a - {x}, b - {x});
    }
  }

  lemma CursorAdvances<K(!new)>(lt: (K, K) -> bool, keys: set<K>, cursor: Option<K>, limit: nat)
    requires StrictTotal(lt) && limit >= 1 && Fetch(lt, keys, cursor, limit).hasMore
    ensures After(lt, keys, Fetch(lt, keys, cursor, limit).next) < After(lt, keys, cursor)
  {
    var page := Fetch(lt, keys, cursor, limit);
    var c := page.next.value;
    assert c in page.rows && c in After(lt, keys, cursor) && c !in After(lt, keys, Some(c));
    forall k | k in After(lt, keys, Some(c)) ensures k in After(lt, keys, cursor) {
      assert cursor.Some? ==> lt(cursor.value, c) && lt(c, k);
    }
  }

  /** One step of the walk over a fixed table. */
  lemma StaticWalkUnfolds<K(!new)>(lt: (K, K) -> bool, keys: set<K>, cursor: Option<K>, limit: nat)
    requires StrictTotal(lt) && limit >= 1
    ensures var page := Fetch(lt, keys, cursor, limit);
            var pages := StaticWalk(lt, keys, cursor, limit);
            && pages[0] == page
            && |pages[1..]| == |pages| - 1
            && if page.hasMore then
                 && pages[1..] == StaticWalk(lt, keys, page.next, limit)
                 && |After(lt, keys, page.next)| < |After(lt, keys, cursor)|
               else pages[1..] == []
  {
    var page := Fetch(lt, keys, cursor, limit);
    if page.hasMore {
      CursorAdvances(lt, keys, cursor, limit);
      SubsetSize(After(lt, keys, page.next), After(lt, keys, cursor));
    }
  }

  lemma SameTail<T>(x: T, n: nat)
    requires n > 0
    ensures Same(x, n)[0] == x && Same(x, n)[1..] == Same(x, n - 1)
  {
  }

  lemma {:induction false} StaticWalkIsWalk<K(!new)>(lt: (K, K) -> bool, keys: set<K>, cursor: Option<K>, limit: nat)
    requires StrictTotal(lt) && limit >= 1
    ensures var pages := StaticWalk(lt, keys, cursor, limit);
            Walk(lt, Same(keys, |pages|), cursor, limit, pages)
    decreases |After(lt, keys, cursor)|
  {
    var pages := StaticWalk(lt, keys, cursor, limit);
    StaticWalkUnfolds(lt, keys, cursor, limit);
    SameTail(keys, |pages|);
    if pages[0].hasMore {
      StaticWalkIsWalk(lt, keys, pages[0].next, limit);
    }
  }

  /** Every page but the last is full. */
  ghost predicate Full<K>(pages: seq<Page<K>>, limit: nat) {
    forall i :: 0 <= i < |pages| - 1 ==> |pages[i].rows| == limit
  }

  lemma FullCons<K>(pages: seq<Page<K>>, limit: nat)
    requires |pages| > 1 && |pages[0].rows| == limit && Full(pages[1..], limit)
    ensures Full(pages, limit) && pages[|pages| - 1] == pages[1..][|pages[1..]| - 1]
  {
    forall i | 0 <= i < |pages| - 1 ensures |pages[i].rows| == limit {
      assert i > 0 ==> pages[1..][i - 1] == pages[i];
    }
  }

  lemma {:induction false} StaticWalkIsPacked<K(!new)>(lt: (K, K) -> bool, keys: set<K>, cursor: Option<K>, limit: nat)
    requires StrictTotal(lt) && limit >= 1
    ensures var pages := StaticWalk(lt, keys, cursor, limit);
            Full(pages, limit) && (pages[|pages| - 1].rows == [] ==> After(lt, keys, cursor) == {})
    decreases |After(lt, keys, cursor)|
  {
    var pages := StaticWalk(lt, keys, cursor, limit);
    StaticWalkUnfolds(lt, keys, cursor, limit);
    if pages[0].hasMore {
      StaticWalkIsPacked(lt, keys, pages[0].next, limit);
      MoreFollow(lt, keys, cursor, limit);
      FullCons(pages, limit);
    }
  }

  /** A page that says more follows is followed by at least one row. */
  lemma MoreFollow<K(!new)>(lt: (K, K) -> bool, keys: set<K>, cursor: Option<K>, limit: nat)
    requires StrictTotal(lt) && limit >= 1 && Fetch(lt, keys, cursor, limit).hasMore
    ensures After(lt, keys, Fetch(lt, keys, cursor, limit).next) != {}
  {
    var page := Fetch(lt, keys, cursor, limit);
    var eligible, shown := After(lt, keys, cursor), set k | k in page.rows;
    SeqSetSize(page.rows);
    if eligible <= shown {
      SubsetSizeLe(eligible, shown);
    }
    var k :| k in eligible && k !in shown;
    assert k in After(lt, keys, page.next);
  }

  lemma StaticWalkMember<K(!new)>(lt: (K, K) -> bool, keys: set<K>, cursor: Option<K>, limit: nat, k: K)
    requires StrictTotal(lt) && limit >= 1
    ensures k in Rows(StaticWalk(lt, keys, cursor, limit)) <==> k in After(lt, keys, cursor)
  {
    var pages := StaticWalk(lt, keys, cursor, limit);
    StaticWalkIsWalk(lt, keys, cursor, limit);
    if k in Rows(pages) {
      WalkStaysBeyond(lt, Same(keys, |pages|), cursor, limit, pages, k);
      var _ := WalkComesFromTables(lt, Same(keys, |pages|), cursor, limit, pages, k);
    }
    if k in After(lt, keys, cursor) {
      WalkIsComplete(lt, Same(keys, |pages|), cursor, limit, pages, k);
    }
  }

  lemma StaticWalkRows<K(!new)>(lt: (K, K) -> bool, keys: set<K>, cursor: Option<K>, limit: nat)
    requires StrictTotal(lt) && limit >= 1
    ensures Rows(StaticWalk(lt, keys, cursor, limit)) == OrderBy(lt, After(lt, keys, cursor))
  {
    var pages := StaticWalk(lt, keys, cursor, limit);
    StaticWalkIsWalk(lt, keys, cursor, limit);
    WalkIsSorted(lt, Same(keys, |pages|), cursor, limit, pages);
    forall k ensures k in Rows(pages) <==> k in OrderBy(lt, After(lt, keys, cursor)) {
      StaticWalkMember(lt, keys, cursor, limit, k);
    }
    SortedUnique(lt, Rows(pages), OrderBy(lt, After(lt, keys, cursor)));
  }

  /** A walk is determined by its tables, so on a fixed table every complete walk is the
      static one. */
  lemma {:induction false} WalkOnFixedTable<K(!new)>(
    lt: (K, K) -> bool, keys: set<K>, cursor: Option<K>, limit: nat, pages: seq<Page<K>>)
    requires StrictTotal(lt) && limit >= 1 && Walk(lt, Same(keys, |pages|), cursor, limit, pages)
    ensures pages == StaticWalk(lt, keys, cursor, limit)
    decreases |pages|
  {
    var atRest := StaticWalk(lt, keys, cursor, limit);
    SameTail(keys, |pages|);
    StaticWalkUnfolds(lt, keys, cursor, limit);
    if |pages| > 1 {
      WalkOnFixedTable(lt, keys, pages[0].next, limit, pages[1..]);
    }
    assert pages == [pages[0]] + pages[1..] && atRest == [atRest[0]] + atRest[1..];
  }

  /** On a table at rest: the walk from no cursor ends, its joined pages are exactly the rows
      in sort order, every page but the last is full, and the last one is not empty unless
      the table is. */
  lemma WalkAtRestIsExact<K(!new)>(lt: (K, K) -> bool, keys: set<K>, limit: nat)
    requires StrictTotal(lt) && limit >= 1
    ensures var pages := StaticWalk(lt, keys, None, limit);
            && Walk(lt, Same(keys, |pages|), None, limit, pages)
            && Rows(pages) == OrderBy(lt, keys)
            && (forall i :: 0 <= i < |pages| - 1 ==> |pages[i].rows| == limit)
            && (pages[|pages| - 1].rows == [] ==> keys == {})
  {
    StaticWalkIsWalk(lt, keys, None, limit);
    StaticWalkIsPacked(lt, keys, None, limit);
    StaticWalkRows(lt, keys, None, limit);
    assert After(lt, keys, None) == keys;
  }

  lemma {:induction false} SeqSetSize<K>(s: seq<K>)
    ensures |set k | k in s| <= |s|
  {
    if s != [] {
      SeqSetSize(s[1..]);
      assert (set k | k in s) == {s[0]} + set k | k in s[1..];
    }
  }
}
