/** Keyset pagination: the cursor predicate, ORDER BY and LIMIT limit+1 of `apply_cursor`, the
    page trimming of `build_page`, and walks that follow `next_cursor` over a changing table.
    Sort keys and row ids are numbers here; only their total orders matter. */
module Pagination {
  import opened Digests

  datatype Row = Row(key: int, id: int)

  /** A decoded cursor is the (sort value, id) of the last row seen. */
  type Cursor = Row

  datatype Page = Page(items: seq<Row>, next: Option<Cursor>)
  /** `kept[-1]` fails when limit is 0 and there is a row. */
  datatype PageResult = Built(page: Page) | IndexError

  predicate Before(desc: bool, a: Row, b: Row) {
    if desc then b.key < a.key || (b.key == a.key && b.id < a.id)
    else b.key > a.key || (b.key == a.key && b.id > a.id)
  }

  predicate Past(desc: bool, c: Option<Cursor>, r: Row) {
    c.Some? ==> Before(desc, c.value, r)
  }

  ghost function Least(s: set<Row>, desc: bool): (m: Row)
    requires s != {}
    ensures m in s && forall r | r in s && r != m :: Before(desc, m, r)
  {
    var x :| x in s;
    if s == {x} then x
    else
      var y := Least(s - {x}, desc);
      assert forall r | r in s :: r == x || r in s - {x};
      if Before(desc, x, y) then x else y
  }

  /** ORDER BY key, id in the given direction. */
  ghost function Sorted(s: set<Row>, desc: bool): seq<Row>
    decreases s
  {
    if s == {} then [] else var m := Least(s, desc); [m] + Sorted(s - {m}, desc)
  }

  ghost function Matching(table: set<Row>, desc: bool, cursor: Option<Cursor>): set<Row> {
    set r | r in table && Past(desc, cursor, r)
  }

  function Take(rows: seq<Row>, n: nat): seq<Row> {
    if n <= |rows| then rows[..n] else rows
  }

  /** The statement of `apply_cursor`, executed against a table. */
  ghost function ApplyCursor(table: set<Row>, desc: bool, cursor: Option<Cursor>, limit: nat): seq<Row> {
    Take(Sorted(Matching(table, desc, cursor), desc), limit + 1)
  }

  function BuildPage(rows: seq<Row>, limit: nat): PageResult {
    if |rows| > limit then
      var kept := rows[..limit];
      if kept == [] then IndexError else Built(Page(kept, Some(kept[|kept| - 1])))
    else Built(Page(rows, None))
  }

  /** With a positive limit a page is always built. */
  ghost function FetchPage(table: set<Row>, desc: bool, cursor: Option<Cursor>, limit: nat): Page
    requires limit >= 1
  {
    BuildPage(ApplyCursor(table, desc, cursor, limit), limit).page
  }

  datatype Walk = Walk(items: seq<Row>, done: bool, pages: nat)

  /** Follow the cursor; page `i` reads table `tables[i]`. Stops at a page without next cursor. */
  ghost function WalkPages(tables: seq<set<Row>>, desc: bool, cursor: Option<Cursor>, limit: nat): Walk
    requires limit >= 1
    decreases |tables|
  {
    if tables == [] then Walk([], false, 0)
    else
      var page := FetchPage(tables[0], desc, cursor, limit);
      if page.next.None? then Walk(page.items, true, 1)
      else
        var rest := WalkPages(tables[1..], desc, page.next, limit);
        Walk(page.items + rest.items, rest.done, 1 + rest.pages)
  }

  predicate StrictlyOrdered(rows: seq<Row>, desc: bool) {
    forall i, j | 0 <= i < j < |rows| :: Before(desc, rows[i], rows[j])
  }

  // ---------------------------------------------------------------- one page

  lemma {:induction false} SortedProperties(s: set<Row>, desc: bool)
    ensures StrictlyOrdered(Sorted(s, desc), desc)
    ensures |Sorted(s, desc)| == |s|
    ensures forall r :: r in Sorted(s, desc) <==> r in s
    decreases s
  {
    if s != {} {
      var m := Least(s, desc);
      SortedProperties(s - {m}, desc);
    }
  }

  lemma TrimmedPage(all: seq<Row>, limit: nat)
    requires limit >= 1
    ensures BuildPage(Take(all, limit + 1), limit) ==
            Built(Page(Take(all, limit), if |all| > limit then Some(all[limit - 1]) else None))
  {
    if |all| > limit { assert Take(all, limit + 1)[..limit] == all[..limit]; }
  }

  /** A page holds the first matching rows: ordered, past the cursor, from the table, and every
      matching row it leaves out comes after its next cursor. */
  lemma PageProperties(table: set<Row>, desc: bool, cursor: Option<Cursor>, limit: nat)
    requires limit >= 1
    ensures BuildPage(ApplyCursor(table, desc, cursor, limit), limit).Built?
    ensures var page := FetchPage(table, desc, cursor, limit);
            var all := Sorted(Matching(table, desc, cursor), desc);
            && page.items == Take(all, limit)
            && page.next == (if |all| > limit then Some(all[limit - 1]) else None)
            && StrictlyOrdered(page.items, desc)
            && (forall r | r in page.items :: r in table && Past(desc, cursor, r))
            && (forall r | r in table && Past(desc, cursor, r) :: r in page.items || (page.next.Some? && Past(desc, page.next, r)))
  {
    var all := Sorted(Matching(table, desc, cursor), desc);
    TrimmedPage(all, limit);
    SortedProperties(Matching(table, desc, cursor), desc);
    var items := Take(all, limit);
    forall r | r in items
      ensures r in table && Past(desc, cursor, r)
    {
      assert r in all;
    }
    forall r | r in table && Past(desc, cursor, r)
      ensures r in items || (|all| > limit && Before(desc, all[limit - 1], r))
    {
      LeftOutComesLater(all, desc, limit, r);
    }
  }

  lemma LeftOutComesLater(all: seq<Row>, desc: bool, limit: nat, r: Row)
    requires limit >= 1 && StrictlyOrdered(all, desc) && r in all
    ensures r in Take(all, limit) || (|all| > limit && Before(desc, all[limit - 1], r))
  {
    var i :| 0 <= i < |all| && all[i] == r;
    if i < |Take(all, limit)| { assert Take(all, limit)[i] == r; }
  }

  // ---------------------------------------------------------------- walks

  lemma JoinOrdered(xs: seq<Row>, ys: seq<Row>, desc: bool)
    requires StrictlyOrdered(xs, desc) && StrictlyOrdered(ys, desc) && xs != []
    requires forall r | r in ys :: Before(desc, xs[|xs| - 1], r)
    ensures StrictlyOrdered(xs + ys, desc)
  {
    forall i, j | 0 <= i < |xs| <= j < |xs| + |ys|
      ensures Before(desc, (xs + ys)[i], (xs + ys)[j])
    {
      assert ys[j - |xs|] in ys;
    }
  }

  lemma LastOfFullPage(table: set<Row>, desc: bool, cursor: Option<Cursor>, limit: nat)
    requires limit >= 1 && FetchPage(table, desc, cursor, limit).next.Some?
    ensures var page := FetchPage(table, desc, cursor, limit);
            page.items != [] && page.next.value == page.items[|page.items| - 1] && page.next.value in page.items
  {
    PageProperties(table, desc, cursor, limit);
  }

  /** Whatever happens to the table between pages, a walk returns rows past its cursor in strict
      order, so no (key, id) is ever repeated. */
  lemma {:induction false} WalkIsStrictlyOrdered(tables: seq<set<Row>>, desc: bool, cursor: Option<Cursor>, limit: nat)
    requires limit >= 1
    ensures var w := WalkPages(tables, desc, cursor, limit);
            && w.pages <= |tables| && StrictlyOrdered(w.items, desc)
            && forall r | r in w.items :: Past(desc, cursor, r)
    decreases |tables|
  {
    if tables != [] {
      var page := FetchPage(tables[0], desc, cursor, limit);
      PageProperties(tables[0], desc, cursor, limit);
      if page.next.Some? {
        LastOfFullPage(tables[0], desc, cursor, limit);
        WalkIsStrictlyOrdered(tables[1..], desc, page.next, limit);
        JoinOrdered(page.items, WalkPages(tables[1..], desc, page.next, limit).items, desc);
      }
    }
  }

  lemma PageRowIsStored(table: set<Row>, desc: bool, cursor: Option<Cursor>, limit: nat, r: Row)
    requires limit >= 1 && r in FetchPage(table, desc, cursor, limit).items
    ensures r in table
  {
    PageProperties(table, desc, cursor, limit);
  }

  /** Every returned row was in one of the snapshots the walk read. */
  lemma {:induction false} WalkReturnsStoredRows(
    tables: seq<set<Row>>, desc: bool, cursor: Option<Cursor>, limit: nat, r: Row) returns (i: nat)
    requires limit >= 1 && r in WalkPages(tables, desc, cursor, limit).items
    ensures i < WalkPages(tables, desc, cursor, limit).pages && i < |tables| && r in tables[i]
    decreases |tables|
  {
    var page := FetchPage(tables[0], desc, cursor, limit);
    i := 0;
    if r in page.items {
      PageRowIsStored(tables[0], desc, cursor, limit, r);
    } else {
      var j := WalkReturnsStoredRows(tables[1..], desc, page.next, limit, r);
      i := j + 1;
    }
  }

  /** A finished walk has returned every row that was in all the snapshots it read. */
  lemma {:induction false} FinishedWalkMissesNothing(
    tables: seq<set<Row>>, desc: bool, cursor: Option<Cursor>, limit: nat, r: Row)
    requires limit >= 1 && WalkPages(tables, desc, cursor, limit).done && Past(desc, cursor, r)
    requires forall i | 0 <= i < |tables| && i < WalkPages(tables, desc, cursor, limit).pages :: r in tables[i]
    ensures r in WalkPages(tables, desc, cursor, limit).items
    decreases |tables|
  {
    var page := FetchPage(tables[0], desc, cursor, limit);
    PageProperties(tables[0], desc, cursor, limit);
    assert r in tables[0];
    if r !in page.items {
      forall i | 0 <= i < |tables[1..]| && i < WalkPages(tables[1..], desc, page.next, limit).pages
        ensures r in tables[1..][i]
      {
        assert r in tables[i + 1];
      }
      FinishedWalkMissesNothing(tables[1..], desc, page.next, limit, r);
    }
  }

  // ---------------------------------------------------------------- a table that stands still

  function Repeat(table: set<Row>, n: nat): seq<set<Row>> {
    seq(n, _ => table)
  }

  lemma PastMeansLater(all: seq<Row>, desc: bool, n: nat, r: Row)
    requires StrictlyOrdered(all, desc) && 1 <= n <= |all|
    ensures r in all[n..] <==> r in all && Before(desc, all[n - 1], r)
  {
    if r in all {
      var i :| 0 <= i < |all| && all[i] == r;
      if i >= n { assert all[n..][i - n] == r; }
    }
    if r in all[n..] {
      var j :| 0 <= j < |all[n..]| && all[n..][j] == r;
      assert all[n + j] == r;
    }
  }

  /** The sorted rows past a cursor that is itself in the sorted list are its tail. */
  lemma TailAfterCursor(table: set<Row>, desc: bool, cursor: Option<Cursor>, n: nat)
    requires 1 <= n <= |Sorted(Matching(table, desc, cursor), desc)|
    ensures var all := Sorted(Matching(table, desc, cursor), desc);
            Sorted(Matching(table, desc, Some(all[n - 1])), desc) == all[n..]
  {
    var all := Sorted(Matching(table, desc, cursor), desc);
    SortedProperties(Matching(table, desc, cursor), desc);
    assert all[n - 1] in all;
    forall r
      ensures r in Matching(table, desc, Some(all[n - 1])) <==> r in all[n..]
    {
      PastMeansLater(all, desc, n, r);
    }
    SortedIsUnique(Matching(table, desc, Some(all[n - 1])), desc, all[n..]);
  }

  lemma SortedIsUnique(s: set<Row>, desc: bool, xs: seq<Row>)
    requires StrictlyOrdered(xs, desc) && forall r :: r in s <==> r in xs
    ensures Sorted(s, desc) == xs
  {
    SortedProperties(s, desc);
    OrderedListsOfOneSet(Sorted(s, desc), xs, desc);
  }

  lemma FirstIsMember(xs: seq<Row>)
    requires xs != []
    ensures xs[0] in xs
  {
  }

  /** A strictly ordered list is determined by its elements. */
  lemma {:induction false} OrderedListsOfOneSet(xs: seq<Row>, ys: seq<Row>, desc: bool)
    requires StrictlyOrdered(xs, desc) && StrictlyOrdered(ys, desc)
    requires forall r :: r in xs <==> r in ys
    ensures xs == ys
    decreases |xs|
  {
    if xs == [] {
      if ys != [] { FirstIsMember(ys); }
    } else {
      FirstIsMember(xs);
      FirstIsMember(ys);
      assert ys[0] == xs[0];
      forall r
        ensures r in xs[1..] <==> r in ys[1..]
      {
        assert r in xs <==> r == xs[0] || r in xs[1..];
        assert r in ys <==> r == ys[0] || r in ys[1..];
        assert xs[0] !in xs[1..] && ys[0] !in ys[1..];
      }
      OrderedListsOfOneSet(xs[1..], ys[1..], desc);
    }
  }

  lemma JoinTakes(all: seq<Row>, a: nat, b: nat)
    requires a <= |all|
    ensures Take(all, a) + Take(all[a..], b) == Take(all, a + b)
  {
  }

  /** n * limit, as the walk adds it up. */
  function Budget(n: nat, limit: nat): nat {
    if n == 0 then 0 else limit + Budget(n - 1, limit)
  }

  lemma {:induction false} BudgetIsProduct(n: nat, limit: nat)
    ensures Budget(n, limit) == n * limit
  {
    if n > 0 {
      BudgetIsProduct(n - 1, limit);
      assert n * limit == limit + (n - 1) * limit;
    }
  }

  /** One page in front of a walk over the same table. */
  lemma {:induction false} FirstPageOfFixedTable(table: set<Row>, desc: bool, cursor: Option<Cursor>, limit: nat, n: nat)
    requires limit >= 1 && n >= 1
    ensures var all := Sorted(Matching(table, desc, cursor), desc);
            var w := WalkPages(Repeat(table, n), desc, cursor, limit);
            if |all| <= limit then w.items == all && w.done
            else
              var rest := WalkPages(Repeat(table, n - 1), desc, Some(all[limit - 1]), limit);
              w.items == all[..limit] + rest.items && w.done == rest.done
  {
    assert Repeat(table, n)[1..] == Repeat(table, n - 1) && Repeat(table, n)[0] == table;
    TrimmedPage(Sorted(Matching(table, desc, cursor), desc), limit);
  }

  /** The walk returned the first n * limit rows and is done exactly when those are all of them. */
  predicate FirstPages(all: seq<Row>, w: Walk, n: nat, limit: nat) {
    && w.items == Take(all, Budget(n, limit))
    && (w.done <==> n >= 1 && |all| <= Budget(n, limit))
  }

  lemma OnePageMore(all: seq<Row>, w: Walk, rest: Walk, n: nat, limit: nat)
    requires limit >= 1 && n >= 1 && |all| > limit
    requires FirstPages(all[limit..], rest, n - 1, limit)
    requires w.items == all[..limit] + rest.items && w.done == rest.done
    ensures FirstPages(all, w, n, limit)
  {
    JoinTakes(all, limit, Budget(n - 1, limit));
  }

  lemma LastPage(all: seq<Row>, w: Walk, n: nat, limit: nat)
    requires n >= 1 && |all| <= limit && w.items == all && w.done
    ensures FirstPages(all, w, n, limit)
  {
  }

  /** On a fixed table, `n` pages return the first n * limit rows of the sorted remainder and the
      walk is done exactly when that is all of it (at least one page is always read). */
  lemma {:induction false} WalkOverFixedTable(table: set<Row>, desc: bool, cursor: Option<Cursor>, limit: nat, n: nat)
    requires limit >= 1
    ensures FirstPages(Sorted(Matching(table, desc, cursor), desc),
                       WalkPages(Repeat(table, n), desc, cursor, limit), n, limit)
    decreases n
  {
    if n > 0 {
      var all, w := Sorted(Matching(table, desc, cursor), desc), WalkPages(Repeat(table, n), desc, cursor, limit);
      FirstPageOfFixedTable(table, desc, cursor, limit, n);
      if |all| <= limit {
        LastPage(all, w, n, limit);
      } else {
        var next := Some(all[limit - 1]);
        assert Sorted(Matching(table, desc, next), desc) == all[limit..] by { TailAfterCursor(table, desc, cursor, limit); }
        WalkOverFixedTable(table, desc, next, limit, n - 1);
        OnePageMore(all, w, WalkPages(Repeat(table, n - 1), desc, next, limit), n, limit);
      }
    }
  }

  /** A walk over a fixed table that is given enough pages ends with exactly the sorted table. */
  lemma FixedTableIsReturnedSorted(table: set<Row>, desc: bool, limit: nat, n: nat)
    requires limit >= 1 && n >= 1 && |table| <= n * limit
    ensures var w := WalkPages(Repeat(table, n), desc, None, limit);
            && w.done && w.items == Sorted(table, desc)
            && StrictlyOrdered(w.items, desc) && (forall r :: r in w.items <==> r in table)
  {
    assert Matching(table, desc, None) == table;
    BudgetIsProduct(n, limit);
    WalkOverFixedTable(table, desc, None, limit, n);
    SortedProperties(table, desc);
  }
}
