/** Keyset pagination of the activity log over three tables (lib/activity-log.ts,
    lib/server/activity-log-sql.ts). Stored timestamps are microseconds, as the
    database keeps them; a cursor carries whole milliseconds. */
module ActivityPaging {
  import opened Options
  import opened Rounding
  import opened Sorting

  datatype Source = Audit | System | Group

  datatype Row = Row(micros: nat, source: Source, id: nat)

  datatype Cursor = Cursor(occurredAtMs: nat, source: Source, id: nat)

  datatype Comparison = Same | After | Before

  function Rank(source: Source): nat {
    match source
    case Audit => 1
    case System => 2
    case Group => 3
  }

  /** How one table's timestamps compare with the cursor's. */
  function ComparisonFor(table: Source, cursorSource: Source): Comparison {
    if table == cursorSource then Same
    else if Rank(table) < Rank(cursorSource) then After
    else Before
  }

  /** The predicate pushed into one branch of the union. */
  predicate BranchAdmits(row: Row, cursor: Cursor) {
    var at := cursor.occurredAtMs * 1000;
    match ComparisonFor(row.source, cursor.source)
    case Same => row.micros < at || (row.micros == at && row.id < cursor.id)
    case After => row.micros <= at
    case Before => row.micros < at
  }

  /** `b` stands strictly after `a` in (time, rank, id), all descending. */
  predicate Precedes(aMicros: nat, aSource: Source, aId: nat, b: Row) {
    || b.micros < aMicros
    || (b.micros == aMicros && Rank(b.source) < Rank(aSource))
    || (b.micros == aMicros && Rank(b.source) == Rank(aSource) && b.id < aId)
  }

  /** The three per-branch cases together are "strictly after the cursor" in the page order. */
  lemma BranchPredicateIsThePageOrder(row: Row, cursor: Cursor)
    ensures BranchAdmits(row, cursor) <==> Precedes(cursor.occurredAtMs * 1000, cursor.source, cursor.id, row)
  {
  }

  predicate Later(a: Row, b: Row) { Precedes(a.micros, a.source, a.id, b) }

  predicate PageLe(a: Row, b: Row) { a == b || Later(a, b) }

  predicate BranchLe(a: Row, b: Row) { a.micros > b.micros || (a.micros == b.micros && a.id >= b.id) }

  /** Every row, or the rows the cursor leaves unread. */
  predicate Admits(row: Row, cursor: Option<Cursor>) {
    cursor.None? || BranchAdmits(row, cursor.value)
  }

  function Unread(rows: seq<Row>, cursor: Option<Cursor>): (r: seq<Row>)
    ensures forall x :: x in r <==> x in rows && Admits(x, cursor)
  {
    if rows == [] then []
    else
      assert rows == [rows[0]] + rows[1..];
      if Admits(rows[0], cursor) then [rows[0]] + Unread(rows[1..], cursor) else Unread(rows[1..], cursor)
  }

  function Of(rows: seq<Row>, source: Source): (r: seq<Row>)
    ensures forall x :: x in r <==> x in rows && x.source == source
    ensures |r| <= |rows|
  {
    if rows == [] then []
    else
      assert rows == [rows[0]] + rows[1..];
      if rows[0].source == source then [rows[0]] + Of(rows[1..], source) else Of(rows[1..], source)
  }

  function Take<T>(s: seq<T>, n: nat): seq<T> { if |s| <= n then s else s[..n] }

  /** One branch: its unread rows, newest first, at most `n`. */
  function Branch(rows: seq<Row>, source: Source, cursor: Option<Cursor>, n: nat): seq<Row> {
    Take(Sort(Of(Unread(rows, cursor), source), BranchLe), n)
  }

  /** The merged page: the union of the three limited branches, sorted and limited again. */
  function MergedPage(rows: seq<Row>, cursor: Option<Cursor>, n: nat): seq<Row> {
    Take(Sort(Branch(rows, Audit, cursor, n) + Branch(rows, System, cursor, n) + Branch(rows, Group, cursor, n), PageLe), n)
  }

  function CursorOf(row: Row): Cursor {
    Cursor(row.micros / 1000, row.source, row.id)
  }

  /** No two rows of one table share an id. */
  ghost predicate UniqueRows(rows: seq<Row>) {
    forall i, j :: 0 <= i < j < |rows| ==> rows[i].source != rows[j].source || rows[i].id != rows[j].id
  }

  // ---- The per-branch limit loses nothing ----

  lemma PageOrderIsTotal()
    ensures TotalOrder(PageLe)
  {
    forall x: Row, y: Row, z: Row
      ensures PageLe(x, y) || PageLe(y, x)
      ensures PageLe(x, y) && PageLe(y, z) ==> PageLe(x, z)
      ensures PageLe(x, y) && PageLe(y, x) ==> x == y
    {
    }
  }

  lemma {:induction false} OfSorted(rows: seq<Row>, source: Source)
    requires SortedBy(rows, PageLe)
    ensures SortedBy(Of(rows, source), PageLe)
    decreases |rows|
  {
    if rows != [] {
      OfSorted(rows[1..], source);
      forall x | x in rows[1..] ensures PageLe(rows[0], x) {
        var j :| 0 <= j < |rows[1..]| && rows[1..][j] == x;
        assert rows[j + 1] == x;
      }
    }
  }

  lemma {:induction false} CountOf(rows: seq<Row>, source: Source, x: Row)
    ensures multiset(Of(rows, source))[x] == if x.source == source then multiset(rows)[x] else 0
  {
    if rows != [] {
      assert rows == [rows[0]] + rows[1..];
      CountOf(rows[1..], source, x);
    }
  }

  /** A branch sorted by its own time index is the page order, narrowed to its table. */
  lemma BranchIsThePageOrder(rows: seq<Row>, source: Source)
    ensures Sort(Of(rows, source), BranchLe) == Of(Sort(rows, PageLe), source)
  {
    var own, page := Sort(Of(rows, source), BranchLe), Of(Sort(rows, PageLe), source);
    PageOrderIsTotal();
    SortKeepsAll(rows, PageLe);
    SortKeepsAll(Of(rows, source), BranchLe);
    SortSorts(rows, PageLe);
    OfSorted(Sort(rows, PageLe), source);
    assert TotalPreorder(BranchLe);
    SortSorts(Of(rows, source), BranchLe);
    forall x ensures multiset(own)[x] == multiset(page)[x] {
      CountOf(rows, source, x);
      CountOf(Sort(rows, PageLe), source, x);
    }
    forall i, j | 0 <= i < j < |own| ensures PageLe(own[i], own[j]) {
      assert own[i] in own && own[j] in own;
      assert BranchLe(own[i], own[j]);
    }
    SortedIsUnique(own, page, PageLe);
  }

  /** A row stands no later in its own table than in the whole page order. */
  lemma {:induction false} PlaceInItsTable(rows: seq<Row>, source: Source, i: nat) returns (k: nat)
    requires i < |rows| && rows[i].source == source
    ensures k <= i && k < |Of(rows, source)| && Of(rows, source)[k] == rows[i]
    decreases |rows|
  {
    if i == 0 {
      k := 0;
    } else {
      k := PlaceInItsTable(rows[1..], source, i - 1);
      k := if rows[0].source == source then k + 1 else k;
    }
  }

  /** A page: each row strictly before the next. */
  ghost predicate Strict(rows: seq<Row>) {
    forall i, j :: 0 <= i < j < |rows| ==> Later(rows[i], rows[j])
  }

  lemma SortIsStrict(rows: seq<Row>)
    requires UniqueRows(rows)
    ensures Strict(Sort(rows, PageLe))
    ensures forall x :: x in Sort(rows, PageLe) <==> x in rows
  {
    var s := Sort(rows, PageLe);
    PageOrderIsTotal();
    SortKeepsAll(rows, PageLe);
    SortSorts(rows, PageLe);
    DistinctStaysDistinct(rows, s);
    forall i, j | 0 <= i < j < |s| ensures Later(s[i], s[j]) {
      assert PageLe(s[i], s[j]) && s[i] != s[j];
    }
  }

  lemma HeadsAgree(all: seq<Row>, some: seq<Row>)
    requires Strict(all) && Strict(some) && all != [] && some != []
    requires all[0] in some && some[0] in all
    ensures all[0] == some[0]
  {
    var j :| 0 <= j < |some| && some[j] == all[0];
    var k :| 0 <= k < |all| && all[k] == some[0];
    HeadIsEarliest(all, k);
    HeadIsEarliest(some, j);
    OneWay(all[0], some[0]);
  }

  lemma HeadIsEarliest(rows: seq<Row>, k: nat)
    requires Strict(rows) && k < |rows|
    ensures k == 0 || Later(rows[0], rows[k])
  {
  }

  lemma OneWay(a: Row, b: Row)
    ensures !(Later(a, b) && Later(b, a))
  {
  }

  lemma InTail(rows: seq<Row>, x: Row)
    requires Strict(rows) && rows != []
    ensures x in rows[1..] <==> x in rows && x != rows[0]
  {
    if x in rows && x != rows[0] {
      var m :| 0 <= m < |rows| && rows[m] == x;
      assert rows[1..][m - 1] == x;
    }
    if x in rows[1..] {
      var m :| 0 <= m < |rows[1..]| && rows[1..][m] == x;
      assert Later(rows[0], rows[m + 1]);
    }
  }

  lemma TakeOneMore<T>(s: seq<T>, n: nat)
    requires s != [] && n > 0
    ensures Take(s, n) == [s[0]] + Take(s[1..], n - 1)
  {
  }

  /** A page that takes its rows from another, and holds that one's first `n`, starts with them. */
  lemma {:induction false} FirstRowsAgree(all: seq<Row>, some: seq<Row>, n: nat)
    requires Strict(all) && Strict(some)
    requires forall x :: x in some ==> x in all
    requires forall x :: x in Take(all, n) ==> x in some
    ensures Take(some, n) == Take(all, n)
  {
    if all == [] {
      EmptyOrNot(some);
    } else if n > 0 {
      assert all[0] == Take(all, n)[0] && all[0] in some;
      assert some[0] in some;
      HeadsAgree(all, some);
      TailsShare(all, some, n);
      FirstRowsAgree(all[1..], some[1..], n - 1);
      TakeOneMore(all, n);
      TakeOneMore(some, n);
    }
  }

  lemma TailsShare(all: seq<Row>, some: seq<Row>, n: nat)
    requires Strict(all) && Strict(some) && all != [] && some != [] && all[0] == some[0] && n > 0
    requires forall x :: x in some ==> x in all
    requires forall x :: x in Take(all, n) ==> x in some
    ensures forall x :: x in some[1..] ==> x in all[1..]
    ensures forall x :: x in Take(all[1..], n - 1) ==> x in some[1..]
  {
    forall x ensures (x in all[1..] <==> x in all && x != all[0]) && (x in some[1..] <==> x in some && x != some[0]) {
      InTail(all, x);
      InTail(some, x);
    }
    TakeOneMore(all, n);
    forall x | x in Take(all[1..], n - 1) ensures x in some[1..] {
      assert x in Take(all, n) && x in all[1..];
    }
  }

  lemma SameRowsSamePage(a: seq<Row>, b: seq<Row>)
    requires Strict(a) && Strict(b) && forall x :: x in a <==> x in b
    ensures a == b
  {
    var n := |a| + |b|;
    FirstRowsAgree(a, b, n);
  }

  lemma {:induction false} UnreadKeepsUnique(rows: seq<Row>, cursor: Option<Cursor>)
    requires UniqueRows(rows)
    ensures UniqueRows(Unread(rows, cursor))
  {
    if rows != [] {
      UnreadKeepsUnique(rows[1..], cursor);
      var rest := Unread(rows[1..], cursor);
      forall k | 0 <= k < |rest| ensures rest[k].source != rows[0].source || rest[k].id != rows[0].id {
        assert rest[k] in rest;
        var m :| 0 <= m < |rows[1..]| && rows[1..][m] == rest[k];
        assert rows[m + 1] == rest[k];
      }
    }
  }

  /** The page a reader should get: the first `n` unread rows of all three tables together. */
  function Page(rows: seq<Row>, cursor: Option<Cursor>, n: nat): seq<Row> {
    Take(Sort(Unread(rows, cursor), PageLe), n)
  }

  lemma BranchIsStrict(rows: seq<Row>, source: Source, cursor: Option<Cursor>, n: nat)
    requires UniqueRows(rows)
    ensures Strict(Branch(rows, source, cursor, n))
    ensures forall x :: x in Branch(rows, source, cursor, n) ==> x.source == source && x in Unread(rows, cursor)
  {
    var unread := Unread(rows, cursor);
    UnreadKeepsUnique(rows, cursor);
    SortIsStrict(unread);
    BranchIsThePageOrder(unread, source);
    OfStrict(Sort(unread, PageLe), source);
    var own := Of(Sort(unread, PageLe), source);
    forall x | x in Take(own, n) ensures x in own {}
  }

  lemma {:induction false} OfStrict(rows: seq<Row>, source: Source)
    requires Strict(rows)
    ensures Strict(Of(rows, source))
    decreases |rows|
  {
    if rows != [] {
      OfStrict(rows[1..], source);
      forall x | x in Of(rows[1..], source) ensures Later(rows[0], x) {
        var j :| 0 <= j < |rows[1..]| && rows[1..][j] == x;
        assert rows[j + 1] == x;
      }
    }
  }

  /** Limiting every table before merging loses nothing: the merged page is the page of the whole union. */
  lemma LimitedBranchesLoseNothing(rows: seq<Row>, cursor: Option<Cursor>, n: nat)
    requires UniqueRows(rows)
    ensures MergedPage(rows, cursor, n) == Page(rows, cursor, n)
  {
    var all := Sort(Unread(rows, cursor), PageLe);
    var a, s, g := Branch(rows, Audit, cursor, n), Branch(rows, System, cursor, n), Branch(rows, Group, cursor, n);
    UnreadKeepsUnique(rows, cursor);
    SortIsStrict(Unread(rows, cursor));
    BranchIsStrict(rows, Audit, cursor, n);
    BranchIsStrict(rows, System, cursor, n);
    BranchIsStrict(rows, Group, cursor, n);
    var merged := Sort(a + s + g, PageLe);
    MergedIsStrict(a, s, g);
    forall x | x in Take(all, n) ensures x in merged {
      var i :| 0 <= i < |Take(all, n)| && Take(all, n)[i] == x;
      BranchHolds(rows, cursor, n, i);
    }
    FirstRowsAgree(all, merged, n);
  }

  lemma BranchHolds(rows: seq<Row>, cursor: Option<Cursor>, n: nat, i: nat)
    requires i < |Sort(Unread(rows, cursor), PageLe)| && i < n
    ensures var x := Sort(Unread(rows, cursor), PageLe)[i]; x in Branch(rows, x.source, cursor, n)
  {
    var all := Sort(Unread(rows, cursor), PageLe);
    BranchIsThePageOrder(Unread(rows, cursor), all[i].source);
    var k := PlaceInItsTable(all, all[i].source, i);
    assert Branch(rows, all[i].source, cursor, n)[k] == all[i];
  }

  lemma MergedIsStrict(a: seq<Row>, s: seq<Row>, g: seq<Row>)
    requires Strict(a) && Strict(s) && Strict(g)
    requires (forall x :: x in a ==> x.source == Audit) && (forall x :: x in s ==> x.source == System) && (forall x :: x in g ==> x.source == Group)
    ensures Strict(Sort(a + s + g, PageLe))
    ensures forall x :: x in Sort(a + s + g, PageLe) <==> x in a || x in s || x in g
  {
    var all := a + s + g;
    forall i, j | 0 <= i < j < |all| ensures all[i] != all[j] {
      if i < |a| { assert all[i] in a; } else if i < |a| + |s| { assert all[i] in s; } else { assert all[i] in g; }
      if j < |a| { assert all[j] in a; } else if j < |a| + |s| { assert all[j] in s; } else { assert all[j] in g; }
    }
    var sorted := Sort(all, PageLe);
    PageOrderIsTotal();
    SortKeepsAll(all, PageLe);
    SortSorts(all, PageLe);
    DistinctStaysDistinct(all, sorted);
    forall i, j | 0 <= i < j < |sorted| ensures Later(sorted[i], sorted[j]) {
      assert PageLe(sorted[i], sorted[j]) && sorted[i] != sorted[j];
    }
  }

  // ---- Following the cursors ----

  /** A row and a row after it, of one millisecond, that stand the other way round once the first is cut to it. */
  predicate Skips(l: Row, r: Row) {
    && Later(l, r) && l.micros / 1000 == r.micros / 1000 && l.micros % 1000 != 0
    && (|| r.micros % 1000 != 0
        || Rank(r.source) > Rank(l.source)
        || (r.source == l.source && r.id >= l.id))
  }

  /** Those are the rows after it that the row's own cursor, in milliseconds, leaves out. */
  lemma CursorSkips(l: Row, r: Row)
    ensures Skips(l, r) <==> Later(l, r) && !BranchAdmits(r, CursorOf(l))
  {
  }

  /** No two rows share a millisecond in a way a cursor cannot tell apart. */
  ghost predicate NothingSkipped(rows: seq<Row>) {
    forall l, r :: l in rows && r in rows ==> !Skips(l, r)
  }

  /** What a row's cursor leaves unread was unread before, and does not hold the row. */
  lemma CursorMovesOn(row: Row, cursor: Option<Cursor>, x: Row)
    requires Admits(row, cursor)
    ensures Admits(x, Some(CursorOf(row))) ==> Admits(x, cursor) && Later(row, x)
    ensures !Admits(row, Some(CursorOf(row)))
  {
  }

  lemma {:induction false} UnreadShrinks(rows: seq<Row>, row: Row, cursor: Option<Cursor>)
    requires Admits(row, cursor)
    ensures |Unread(rows, Some(CursorOf(row)))| <= |Unread(rows, cursor)|
    ensures row in rows ==> |Unread(rows, Some(CursorOf(row)))| < |Unread(rows, cursor)|
  {
    if rows != [] {
      assert rows == [rows[0]] + rows[1..];
      UnreadShrinks(rows[1..], row, cursor);
      CursorMovesOn(row, cursor, rows[0]);
      CursorMovesOn(row, cursor, row);
    }
  }

  lemma PageRowsAreUnread(rows: seq<Row>, cursor: Option<Cursor>, n: nat)
    ensures forall x :: x in Page(rows, cursor, n) ==> x in Unread(rows, cursor)
  {
    var sorted := Sort(Unread(rows, cursor), PageLe);
    SortKeepsAll(Unread(rows, cursor), PageLe);
    forall x | x in Take(sorted, n) ensures x in sorted {}
  }

  /** All pages from a cursor on: each asks for one row too many, and goes on from its last row while there was one. */
  function Walk(rows: seq<Row>, cursor: Option<Cursor>, limit: nat): seq<Row>
    requires limit >= 1
    decreases |Unread(rows, cursor)|
  {
    var page := Page(rows, cursor, limit + 1);
    if |page| <= limit then page
    else
      PageRowsAreUnread(rows, cursor, limit + 1);
      assert page[limit - 1] in page;
      UnreadShrinks(rows, page[limit - 1], cursor);
      page[..limit] + Walk(rows, Some(CursorOf(page[limit - 1])), limit)
  }

  /** A walk that has more to read gives a page, then walks on from the page's last row. */
  lemma WalkGoesOn(rows: seq<Row>, cursor: Option<Cursor>, limit: nat, all: seq<Row>)
    requires 1 <= limit < |all| && all == Sort(Unread(rows, cursor), PageLe)
    ensures |Unread(rows, Some(CursorOf(all[limit - 1])))| < |Unread(rows, cursor)|
    ensures Walk(rows, cursor, limit) == all[..limit] + Walk(rows, Some(CursorOf(all[limit - 1])), limit)
  {
    SortKeepsAll(Unread(rows, cursor), PageLe);
    assert all[limit - 1] in all;
    UnreadShrinks(rows, all[limit - 1], cursor);
    var page := Page(rows, cursor, limit + 1);
    assert page == all[..limit + 1];
    assert page[..limit] == all[..limit] && page[limit - 1] == all[limit - 1];
    WalkUnfolds(rows, cursor, limit, page);
  }

  lemma WalkUnfolds(rows: seq<Row>, cursor: Option<Cursor>, limit: nat, page: seq<Row>)
    requires 1 <= limit < |page| && page == Page(rows, cursor, limit + 1)
    ensures Walk(rows, cursor, limit) == page[..limit] + Walk(rows, Some(CursorOf(page[limit - 1])), limit)
  {
  }

  lemma LaterIsFurther(all: seq<Row>, i: nat, k: nat)
    requires Strict(all) && i < |all| && k < |all| && Later(all[i], all[k])
    ensures i < k
  {
    OneWay(all[i], all[k]);
  }

  /** A page whose last row skips none of the rest goes on with the rest. */
  lemma RestIsSorted(rows: seq<Row>, cursor: Option<Cursor>, all: seq<Row>, limit: nat)
    requires UniqueRows(rows) && 1 <= limit < |all| && all == Sort(Unread(rows, cursor), PageLe)
    requires forall x :: x in all[limit..] ==> !Skips(all[limit - 1], x)
    ensures all[limit..] == Sort(Unread(rows, Some(CursorOf(all[limit - 1]))), PageLe)
  {
    var next := Some(CursorOf(all[limit - 1]));
    UnreadKeepsUnique(rows, cursor);
    SortIsStrict(Unread(rows, cursor));
    UnreadKeepsUnique(rows, next);
    SortIsStrict(Unread(rows, next));
    RestOfThePage(rows, cursor, all, limit);
    SameRowsSamePage(all[limit..], Sort(Unread(rows, next), PageLe));
  }

  lemma RestOfThePage(rows: seq<Row>, cursor: Option<Cursor>, all: seq<Row>, limit: nat)
    requires 1 <= limit < |all| && Strict(all) && forall x :: x in all[limit..] ==> !Skips(all[limit - 1], x)
    requires forall x :: x in all <==> x in Unread(rows, cursor)
    ensures forall x :: x in all[limit..] <==> x in Unread(rows, Some(CursorOf(all[limit - 1])))
  {
    var last := all[limit - 1];
    assert last in all;
    forall x ensures x in all[limit..] <==> x in Unread(rows, Some(CursorOf(last))) {
      if x in all[limit..] {
        var k :| 0 <= k < |all[limit..]| && all[limit..][k] == x;
        assert all[limit + k] == x && Later(last, x);
        assert x in all;
        CursorSkips(last, x);
      }
      if x in Unread(rows, Some(CursorOf(last))) {
        CursorMovesOn(last, cursor, x);
        assert x in all;
        var k :| 0 <= k < |all| && all[k] == x;
        LaterIsFurther(all, limit - 1, k);
        assert all[limit..][k - limit] == x;
      }
    }
  }

  lemma {:induction false} WalkReadsUnread(rows: seq<Row>, cursor: Option<Cursor>, limit: nat)
    requires limit >= 1
    ensures forall x :: x in Walk(rows, cursor, limit) ==> x in Unread(rows, cursor)
    decreases |Unread(rows, cursor)|
  {
    var page := Page(rows, cursor, limit + 1);
    PageRowsAreUnread(rows, cursor, limit + 1);
    if |page| > limit {
      var last := page[limit - 1];
      assert last in page;
      UnreadShrinks(rows, last, cursor);
      WalkReadsUnread(rows, Some(CursorOf(last)), limit);
      forall x | x in Walk(rows, cursor, limit) ensures x in Unread(rows, cursor) {
        if x in page[..limit] {
          assert x in page;
        } else {
          CursorMovesOn(last, cursor, x);
        }
      }
    }
  }

  /** The row at `i` is the last of its page. */
  predicate EndsPage(i: nat, limit: nat)
    requires limit >= 1
  {
    (i + 1) % limit == 0
  }

  /** No page of `limit` rows ends on a row that skips a later one. */
  ghost predicate NoPageSkips(all: seq<Row>, limit: nat)
    requires limit >= 1
  {
    forall i, j :: 0 <= i < j < |all| && EndsPage(i, limit) ==> !Skips(all[i], all[j])
  }

  lemma PagesRepeat(i: nat, limit: nat)
    requires limit >= 1
    ensures EndsPage(i + limit, limit) <==> EndsPage(i, limit)
    ensures i < limit ==> (EndsPage(i, limit) <==> i == limit - 1)
  {
    var q, r := (i + 1) / limit, (i + 1) % limit;
    assert limit * (q + 1) == limit * q + limit;
    RemainderIs(i + 1 + limit, limit, q + 1, r);
    if i + 1 < limit { RemainderIs(i + 1, limit, 0, i + 1); }
    if i + 1 == limit { RemainderIs(limit, limit, 1, 0); }
  }

  lemma PagesOfTheRest(all: seq<Row>, limit: nat)
    requires 1 <= limit < |all|
    ensures NoPageSkips(all, limit) <==>
            (forall x :: x in all[limit..] ==> !Skips(all[limit - 1], x)) && NoPageSkips(all[limit..], limit)
  {
    if NoPageSkips(all, limit) { LaterPagesSkipNothing(all, limit); }
    if (forall x :: x in all[limit..] ==> !Skips(all[limit - 1], x)) && NoPageSkips(all[limit..], limit) {
      AllPagesSkipNothing(all, limit);
    }
  }

  lemma LaterPagesSkipNothing(all: seq<Row>, limit: nat)
    requires 1 <= limit < |all| && NoPageSkips(all, limit)
    ensures forall x :: x in all[limit..] ==> !Skips(all[limit - 1], x)
    ensures NoPageSkips(all[limit..], limit)
  {
    var rest := all[limit..];
    forall x | x in rest ensures !Skips(all[limit - 1], x) {
      var j :| 0 <= j < |rest| && rest[j] == x;
      PagesRepeat(limit - 1, limit);
      assert all[limit + j] == x;
    }
    forall i, j | 0 <= i < j < |rest| && EndsPage(i, limit) ensures !Skips(rest[i], rest[j]) {
      PagesRepeat(i, limit);
      assert all[i + limit] == rest[i] && all[j + limit] == rest[j];
    }
  }

  lemma AllPagesSkipNothing(all: seq<Row>, limit: nat)
    requires 1 <= limit < |all| && forall x :: x in all[limit..] ==> !Skips(all[limit - 1], x)
    requires NoPageSkips(all[limit..], limit)
    ensures NoPageSkips(all, limit)
  {
    var rest := all[limit..];
    forall i, j | 0 <= i < j < |all| && EndsPage(i, limit) ensures !Skips(all[i], all[j]) {
      if i < limit {
        PagesRepeat(i, limit);
        assert all[i] == all[limit - 1] && all[j] == rest[j - limit] && rest[j - limit] in rest;
      } else {
        PagesRepeat(i - limit, limit);
        assert rest[i - limit] == all[i] && rest[j - limit] == all[j];
      }
    }
  }

  lemma ShortPagesEndNowhere(all: seq<Row>, limit: nat)
    requires |all| <= limit && limit >= 1
    ensures NoPageSkips(all, limit)
  {
    forall i: nat | i < limit - 1 ensures !EndsPage(i, limit) { PagesRepeat(i, limit); }
  }

  lemma SkippedIsNotAhead(rows: seq<Row>, l: Row, r: Row, limit: nat)
    requires Skips(l, r) && limit >= 1
    ensures r !in Walk(rows, Some(CursorOf(l)), limit)
  {
    CursorSkips(l, r);
    WalkReadsUnread(rows, Some(CursorOf(l)), limit);
  }

  /** A walk that goes on is complete exactly when its first page skips nothing and the rest of it is complete. */
  lemma WalkCompletes(rows: seq<Row>, cursor: Option<Cursor>, limit: nat, all: seq<Row>)
    requires UniqueRows(rows) && 1 <= limit < |all| && all == Sort(Unread(rows, cursor), PageLe)
    ensures var next := Some(CursorOf(all[limit - 1]));
            Walk(rows, cursor, limit) == all <==>
              (forall x :: x in all[limit..] ==> !Skips(all[limit - 1], x)) && Walk(rows, next, limit) == all[limit..]
  {
    var next := Some(CursorOf(all[limit - 1]));
    WalkGoesOn(rows, cursor, limit, all);
    assert all == all[..limit] + all[limit..];
    assert (all[..limit] + Walk(rows, next, limit))[limit..] == Walk(rows, next, limit);
    if x :| x in all[limit..] && Skips(all[limit - 1], x) {
      SkippedIsNotAhead(rows, all[limit - 1], x, limit);
    }
  }

  /** At one page size, following the cursors reads every unread row once, in order, exactly when no page ends on a
      row that skips a later one. */
  lemma {:induction false} WalkIsCompleteExactly(rows: seq<Row>, cursor: Option<Cursor>, limit: nat)
    requires limit >= 1 && UniqueRows(rows)
    ensures var all := Sort(Unread(rows, cursor), PageLe);
            Walk(rows, cursor, limit) == all <==> NoPageSkips(all, limit)
    decreases |Unread(rows, cursor)|
  {
    var all := Sort(Unread(rows, cursor), PageLe);
    if |all| <= limit {
      ShortPagesEndNowhere(all, limit);
    } else {
      WalkCompletes(rows, cursor, limit, all);
      PagesOfTheRest(all, limit);
      if forall x :: x in all[limit..] ==> !Skips(all[limit - 1], x) {
        WalkGoesOn(rows, cursor, limit, all);
        RestIsSorted(rows, cursor, all, limit);
        WalkIsCompleteExactly(rows, Some(CursorOf(all[limit - 1])), limit);
      }
    }
  }

  /** When nothing is skipped, the pages from any cursor are the unread rows in order, each once. */
  lemma WalkReadsTheRest(rows: seq<Row>, cursor: Option<Cursor>, limit: nat)
    requires limit >= 1 && UniqueRows(rows) && NothingSkipped(rows)
    ensures Walk(rows, cursor, limit) == Sort(Unread(rows, cursor), PageLe)
  {
    var all := Sort(Unread(rows, cursor), PageLe);
    SortKeepsAll(Unread(rows, cursor), PageLe);
    assert forall i :: 0 <= i < |all| ==> all[i] in all;
    WalkIsCompleteExactly(rows, cursor, limit);
  }

  /** One row a page: a row is lost once a row that skips it has been read. */
  lemma {:induction false} SkippedIsLost(rows: seq<Row>, cursor: Option<Cursor>, l: Row, r: Row)
    requires UniqueRows(rows) && r in rows && Skips(l, r)
    ensures !(l in Walk(rows, cursor, 1) && r in Walk(rows, cursor, 1))
    decreases |Unread(rows, cursor)|
  {
    var all := Sort(Unread(rows, cursor), PageLe);
    var page := Page(rows, cursor, 2);
    UnreadKeepsUnique(rows, cursor);
    SortIsStrict(Unread(rows, cursor));
    WalkReadsUnread(rows, cursor, 1);
    if l in Walk(rows, cursor, 1) && |page| > 1 {
      var first := all[0];
      assert first == page[0] && first in all && l in all;
      var k :| 0 <= k < |all| && all[k] == l;
      assert first == l || Later(first, l);
      assert first != r;
      UnreadShrinks(rows, first, cursor);
      SkippedIsLost(rows, Some(CursorOf(first)), l, r);
      SkippedIsNotAhead(rows, l, r, 1);
      assert page[..1] == [first];
      assert l != first ==> l in Walk(rows, Some(CursorOf(first)), 1);
    } else if |page| <= 1 {
      assert l in page && r in page ==> l == r;
    }
  }

  /** Following the cursors reads every row once, in order, at every page size, exactly when no cursor skips a row. */
  lemma WalksAreCompleteExactly(rows: seq<Row>)
    requires UniqueRows(rows)
    ensures (forall limit: nat :: limit >= 1 ==> Walk(rows, None, limit) == Sort(rows, PageLe)) <==> NothingSkipped(rows)
  {
    EverythingIsUnread(rows);
    if NothingSkipped(rows) {
      forall limit: nat | limit >= 1 ensures Walk(rows, None, limit) == Sort(rows, PageLe) {
        WalkReadsTheRest(rows, None, limit);
      }
    } else {
      var l, r :| l in rows && r in rows && Skips(l, r);
      SkippedIsLost(rows, None, l, r);
      SortKeepsAll(rows, PageLe);
      assert Walk(rows, None, 1) != Sort(rows, PageLe);
    }
  }

  lemma {:induction false} EverythingIsUnread(rows: seq<Row>)
    ensures Unread(rows, None) == rows
  {
    if rows != [] {
      EverythingIsUnread(rows[1..]);
    }
  }

  /** Rows stamped in whole milliseconds are never skipped. */
  lemma WholeMillisecondsAreNeverSkipped(rows: seq<Row>)
    requires forall x :: x in rows ==> x.micros % 1000 == 0
    ensures NothingSkipped(rows)
  {
    forall l, r | l in rows && r in rows ensures !Skips(l, r) {
      BranchPredicateIsThePageOrder(r, CursorOf(l));
      assert l.micros == (l.micros / 1000) * 1000;
    }
  }

  /** Two events of one table in one millisecond: read one a page, the page that ends on the first is the last. */
  lemma MicrosecondsCanBeSkipped()
    ensures Walk([Row(1500, Audit, 2), Row(1200, Audit, 1)], None, 1) == [Row(1500, Audit, 2)]
  {
    var l, r := Row(1500, Audit, 2), Row(1200, Audit, 1);
    var rows := [l, r];
    EverythingIsUnread(rows);
    assert rows[1..] == [r] && [r][1..] == [];
    assert Sort([r], PageLe) == [r];
    assert Sort(rows, PageLe) == rows;
    WalkGoesOn(rows, None, 1, rows);
    var rest := Walk(rows, Some(CursorOf(l)), 1);
    WalkReadsUnread(rows, Some(CursorOf(l)), 1);
    assert forall x :: x in rows ==> x == l || x == r;
    EmptyOrNot(rest);
  }
}
