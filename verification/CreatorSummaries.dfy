/** The creators a month's watchlist lists, the months each is drawn with and the
    branch totals they are measured against (lib/budget-burn-risk.ts). */
module CreatorSummaries {
  import opened Calendar
  import opened Gathering
  import opened InsertionMaps
  import opened KeyedRows
  import opened Numbers
  import opened Options
  import opened Sorting

  datatype Key = Key(userId: string, branchId: int)

  datatype CreatorFigures = CreatorFigures(
    role: string, spendCents: int, pendingCents: int, orderCount: int,
    pendingOrderCount: int, rejectedOrderCount: int, recentConsumedCents: int)

  /** One creator at one branch for one month. */
  type Creator = Keyed<Key, CreatorFigures>

  datatype Budget = Budget(totalCents: int, remainingCents: int)

  datatype BranchMonth = BranchMonth(
    branchId: int, consumedCents: int, otherCreatorsConsumedCents: int,
    activeRequesterCount: int, totalBudgetCents: int, remainingCents: int)

  datatype MonthConsumption = MonthConsumption(month: Month, spendCents: int, pendingCents: int, consumedCents: int)

  function Consumed(row: Creator): (c: int)
    ensures c >= 0
  {
    Max(0, row.data.spendCents) + Max(0, row.data.pendingCents)
  }

  // ---- The listed creators ----

  /** The row of a creator the selected month does not have: who they are, and nothing they did. */
  function Absent(row: Creator): Creator {
    Keyed(row.key, CreatorFigures(row.data.role, 0, 0, 0, 0, 0, 0))
  }

  function Fill(listed: map<Key, Creator>, rows: seq<Creator>, selected: bool, k: Key): Creator
    requires k in listed || k in Keys(rows)
  {
    if k in listed then listed[k]
    else if selected then FirstRow(rows, k).value
    else Absent(FirstRow(rows, k).value)
  }

  /** A bucket's first rows for creators not listed yet. */
  function Filled(listed: map<Key, Creator>, rows: seq<Creator>, selected: bool): map<Key, Creator> {
    map k | k in listed.Keys + Keys(rows) :: Fill(listed, rows, selected, k)
  }

  /** Who is listed, and with what figures. */
  function Listing(buckets: seq<seq<Creator>>): map<Key, Creator> {
    if buckets == [] then map[]
    else Filled(Listing(buckets[1..]), buckets[0], |buckets| == 1)
  }

  function KeyOf(row: Creator): Key { row.key }

  /** Everyone's keys, newest bucket first and each bucket in its own order. */
  function KeysNewestFirst(buckets: seq<seq<Creator>>): seq<Key> {
    if buckets == [] then [] else KeysNewestFirst(buckets[1..]) + Mapped(KeyOf, buckets[0])
  }

  /** Everyone once, where they are first met from the newest bucket on, as `Listing` has them. */
  ghost predicate IsListing(buckets: seq<seq<Creator>>, listed: seq<Creator>) {
    && OnePerKey(listed)
    && Mapped(KeyOf, listed) == Once(KeysNewestFirst(buckets))
    && (forall r :: r in listed ==> r.key in Listing(buckets) && Listing(buckets)[r.key] == r)
    && (forall k :: k in Listing(buckets) ==> Listing(buckets)[k] in listed)
  }

  /** `i` is the newest bucket with a row for `k`. */
  ghost predicate Newest(buckets: seq<seq<Creator>>, i: nat, k: Key) {
    && i < |buckets| && k in Keys(buckets[i])
    && forall j :: i < j < |buckets| ==> k !in Keys(buckets[j])
  }

  /** `k` is listed as the bucket's first row for it, with figures only when it is the selected month's. */
  ghost predicate ListedFrom(buckets: seq<seq<Creator>>, i: nat, k: Key)
    requires i < |buckets| && k in Keys(buckets[i]) && k in Listing(buckets)
  {
    var row := FirstRow(buckets[i], k).value;
    Listing(buckets)[k] == if i == |buckets| - 1 then row else Absent(row)
  }

  /** Everyone in any bucket is listed; figures are the selected month's, identity the newest bucket's. */
  lemma {:induction false} ListingMeans(buckets: seq<seq<Creator>>, k: Key)
    ensures k in Listing(buckets) <==> exists i :: 0 <= i < |buckets| && k in Keys(buckets[i])
    ensures k in Listing(buckets) ==> Listing(buckets)[k].key == k
    ensures forall i: nat :: Newest(buckets, i, k) ==> k in Listing(buckets) && ListedFrom(buckets, i, k)
  {
    if buckets != [] {
      var rest := buckets[1..];
      ListingMeans(rest, k);
      if k in Listing(rest) {
        var i :| 0 <= i < |rest| && k in Keys(rest[i]);
        assert buckets[i + 1] == rest[i];
      } else {
        assert forall j :: 0 < j < |buckets| ==> buckets[j] == rest[j - 1];
      }
      forall i: nat | Newest(buckets, i, k)
        ensures k in Listing(buckets) && ListedFrom(buckets, i, k)
      {
        if i > 0 { assert Newest(rest, i - 1, k) && rest[i - 1] == buckets[i]; }
      }
    }
  }

  lemma FillOfOneMore(listed: map<Key, Creator>, rows: seq<Creator>, row: Creator, selected: bool, k: Key)
    requires k in listed || k in Keys(rows) || k == row.key
    ensures k in listed || k in Keys(rows + [row])
    ensures Fill(listed, rows + [row], selected, k) ==
            if k in listed || k in Keys(rows) then Fill(listed, rows, selected, k) else if selected then row else Absent(row)
  {
    KeysOfOneMore(rows, row);
    FirstOfOneMore(rows, row, k);
  }

  ghost predicate FilledSoFar(filled: map<Key, Creator>, listed: map<Key, Creator>, rows: seq<Creator>, selected: bool) {
    && (forall k :: k in filled <==> k in listed || k in Keys(rows))
    && (forall k :: k in filled ==> filled[k] == Fill(listed, rows, selected, k))
  }

  lemma OneMoreFilled(filled: map<Key, Creator>, listed: map<Key, Creator>, rows: seq<Creator>, i: nat, selected: bool)
    requires i < |rows| && FilledSoFar(filled, listed, rows[..i], selected)
    ensures var row := rows[i];
            FilledSoFar(if row.key in filled then filled else filled[row.key := if selected then row else Absent(row)],
                        listed, rows[..i + 1], selected)
  {
    assert rows[..i + 1] == rows[..i] + [rows[i]];
    KeysOfOneMore(rows[..i], rows[i]);
    forall k | k in listed || k in Keys(rows[..i + 1]) {
      FillOfOneMore(listed, rows[..i], rows[i], selected, k);
    }
  }

  lemma OneMoreKey(newer: seq<Key>, rows: seq<Creator>, i: nat)
    requires i < |rows|
    ensures var before := newer + Mapped(KeyOf, rows[..i]);
            Once(newer + Mapped(KeyOf, rows[..i + 1])) == if rows[i].key in Once(before) then Once(before) else Once(before) + [rows[i].key]
  {
    var before := newer + Mapped(KeyOf, rows[..i]);
    MappedOfOneMore(KeyOf, rows, i);
    assert newer + Mapped(KeyOf, rows[..i + 1]) == before + [rows[i].key];
    OnceOfOneMore(before, rows[i].key);
  }

  ghost predicate AddedSoFar(added: InsertionMap<Key, Creator>, listed: map<Key, Creator>, rows: seq<Creator>, selected: bool, newer: seq<Key>) {
    added.Valid() && FilledSoFar(added.at, listed, rows, selected) && added.keys == Once(newer + Mapped(KeyOf, rows))
  }

  lemma AddNext(added: InsertionMap<Key, Creator>, listed: map<Key, Creator>, rows: seq<Creator>, i: nat, selected: bool, newer: seq<Key>)
    requires i < |rows| && AddedSoFar(added, listed, rows[..i], selected, newer)
    ensures var row := rows[i];
            AddedSoFar(if row.key in added.at then added else added.Set(row.key, if selected then row else Absent(row)),
                       listed, rows[..i + 1], selected, newer)
  {
    OneMoreFilled(added.at, listed, rows, i, selected);
    OneMoreKey(newer, rows, i);
    assert rows[i].key in added.at <==> rows[i].key in added.keys;
  }

  lemma NoneAdded(byKey: InsertionMap<Key, Creator>, none: seq<Creator>, selected: bool, newer: seq<Key>)
    requires byKey.Valid() && byKey.keys == Once(newer) && none == []
    ensures AddedSoFar(byKey, byKey.at, none, selected, newer)
  {
    assert newer + Mapped(KeyOf, none) == newer;
  }

  method AddBucket(byKey: InsertionMap<Key, Creator>, rows: seq<Creator>, selected: bool, ghost newer: seq<Key>)
    returns (added: InsertionMap<Key, Creator>)
    requires byKey.Valid() && byKey.keys == Once(newer)
    ensures added.Valid() && added.at == Filled(byKey.at, rows, selected)
    ensures added.keys == Once(newer + Mapped(KeyOf, rows))
  {
    added := byKey;
    NoneAdded(byKey, rows[..0], selected, newer);
    for i := 0 to |rows|
      invariant AddedSoFar(added, byKey.at, rows[..i], selected, newer)
    {
      AddNext(added, byKey.at, rows, i, selected, newer);
      if rows[i].key in added.at { continue; }
      added := added.Set(rows[i].key, if selected then rows[i] else Absent(rows[i]));
    }
    assert rows[..|rows|] == rows;
    AllFilled(added.at, byKey.at, rows, selected);
  }

  lemma AllFilled(filled: map<Key, Creator>, listed: map<Key, Creator>, rows: seq<Creator>, selected: bool)
    requires FilledSoFar(filled, listed, rows, selected)
    ensures filled == Filled(listed, rows, selected)
  {
  }

  method UnionCreators(buckets: seq<seq<Creator>>) returns (listed: seq<Creator>)
    ensures IsListing(buckets, listed)
  {
    var byKey: InsertionMap<Key, Creator> := Empty();
    for index := |buckets| downto 0
      invariant byKey.Valid() && byKey.at == Listing(buckets[index..])
      invariant byKey.keys == Once(KeysNewestFirst(buckets[index..]))
    {
      assert buckets[index..][1..] == buckets[index + 1..];
      byKey := AddBucket(byKey, buckets[index], index == |buckets| - 1, KeysNewestFirst(buckets[index + 1..]));
    }
    assert buckets[0..] == buckets;
    listed := byKey.Values();
    ValuesAreListing(buckets, byKey);
  }

  lemma ValuesAreListing(buckets: seq<seq<Creator>>, byKey: InsertionMap<Key, Creator>)
    requires byKey.Valid() && byKey.at == Listing(buckets) && byKey.keys == Once(KeysNewestFirst(buckets))
    ensures IsListing(buckets, byKey.Values())
  {
    var listed := byKey.Values();
    forall i | 0 <= i < |listed| ensures listed[i].key == byKey.keys[i] && byKey.keys[i] in byKey.at {
      ListingMeans(buckets, byKey.keys[i]);
    }
    forall k | k in Listing(buckets) { ValueOfKey(byKey, k); }
  }

  lemma ValueOfKey(byKey: InsertionMap<Key, Creator>, k: Key)
    requires byKey.Valid() && k in byKey.at
    ensures byKey.at[k] in byKey.Values()
  {
    assert k in byKey.keys;
    var i :| 0 <= i < |byKey.keys| && byKey.keys[i] == k;
    assert byKey.Values()[i] == byKey.at[k];
  }

  // ---- The pattern each creator is drawn with ----

  function Figures(month: Month, row: Option<Creator>): MonthConsumption {
    match row
    case None => MonthConsumption(month, 0, 0, 0)
    case Some(r) => MonthConsumption(month, Max(0, r.data.spendCents), Max(0, r.data.pendingCents), Consumed(r))
  }

  function CellOf(months: seq<Month>): (nat, Option<Creator>) -> MonthConsumption {
    (i: nat, row: Option<Creator>) => Figures(if i < |months| then months[i] else Month(0, 1), row)
  }

  function Pattern(months: seq<Month>, buckets: seq<seq<Creator>>, k: Key): seq<MonthConsumption> {
    Columns(|months|, CellOf(months), buckets, k)
  }

  function BlankPattern(months: seq<Month>): seq<MonthConsumption> { Blank(|months|, CellOf(months)) }

  lemma BlankCells(months: seq<Month>)
    ensures |BlankPattern(months)| == |months|
    ensures forall i :: 0 <= i < |months| ==> BlankPattern(months)[i] == MonthConsumption(months[i], 0, 0, 0)
  {
    assert forall i :: 0 <= i < |months| ==> BlankPattern(months)[i] == CellOf(months)(i, None);
  }

  /** Every creator of the months' buckets, with one entry per month. */
  ghost predicate ArePatterns(patterns: map<Key, seq<MonthConsumption>>, months: seq<Month>, buckets: seq<seq<Creator>>) {
    && (forall k :: k in patterns <==> k in KeysIn(buckets))
    && (forall k :: k in patterns ==> patterns[k] == Pattern(months, buckets, k))
  }

  function EntryOf(patterns: map<Key, seq<MonthConsumption>>, months: seq<Month>, k: Key): seq<MonthConsumption> {
    if k in patterns then patterns[k] else BlankPattern(months)
  }

  lemma EntryIsPattern(patterns: map<Key, seq<MonthConsumption>>, months: seq<Month>, buckets: seq<seq<Creator>>, k: Key)
    requires ArePatterns(patterns, months, buckets)
    ensures EntryOf(patterns, months, k) == Pattern(months, buckets, k)
  {
    if k !in KeysIn(buckets) { ColumnsOfNobody(|months|, CellOf(months), buckets, k); }
  }

  function Redrawn(patterns: map<Key, seq<MonthConsumption>>, months: seq<Month>, index: nat, row: Creator): seq<MonthConsumption>
    requires index < |months| == |EntryOf(patterns, months, row.key)|
  {
    EntryOf(patterns, months, row.key)[index := Figures(months[index], Some(row))]
  }

  lemma PatternsOfOneMore(patterns: map<Key, seq<MonthConsumption>>, months: seq<Month>, done: seq<seq<Creator>>, rows: seq<Creator>, row: Creator)
    requires |done| < |months| && ArePatterns(patterns, months, done + [rows])
    ensures |EntryOf(patterns, months, row.key)| == |months|
    ensures ArePatterns(patterns[row.key := Redrawn(patterns, months, |done|, row)], months, done + [rows + [row]])
  {
    KeysInOneMore(done, rows, row);
    EntryIsPattern(patterns, months, done + [rows], row.key);
    forall k ensures Pattern(months, done + [rows + [row]], k) ==
                     if k == row.key then Redrawn(patterns, months, |done|, row) else Pattern(months, done + [rows], k) {
      ColumnsOfOneMore(|months|, CellOf(months), done, rows, row, k);
    }
  }

  lemma EmptyBucketAddsNobody(patterns: map<Key, seq<MonthConsumption>>, months: seq<Month>, done: seq<seq<Creator>>, none: seq<Creator>)
    requires none == [] && ArePatterns(patterns, months, done)
    ensures ArePatterns(patterns, months, done + [none])
  {
    KeysInMore(done, none);
    RowsOfMore(none);
    forall k {
      ColumnsOfEmpty(|months|, CellOf(months), done, none, k);
    }
  }

  method AddMonth(byKey: InsertionMap<Key, seq<MonthConsumption>>, months: seq<Month>, ghost done: seq<seq<Creator>>, index: nat, rows: seq<Creator>)
    returns (added: InsertionMap<Key, seq<MonthConsumption>>)
    requires index == |done| < |months|
    requires byKey.Valid() && ArePatterns(byKey.at, months, done)
    ensures added.Valid() && ArePatterns(added.at, months, done + [rows])
  {
    added := byKey;
    EmptyBucketAddsNobody(byKey.at, months, done, rows[..0]);
    for i := 0 to |rows|
      invariant added.Valid() && ArePatterns(added.at, months, done + [rows[..i]])
    {
      var row := rows[i];
      assert rows[..i + 1] == rows[..i] + [row];
      PatternsOfOneMore(added.at, months, done, rows[..i], row);
      var entry := EntryOf(added.at, months, row.key);
      added := added.Set(row.key, entry[index := Figures(months[index], Some(row))]);
    }
    assert rows[..|rows|] == rows;
  }

  method PatternByCreator(months: seq<Month>, buckets: seq<seq<Creator>>) returns (byKey: InsertionMap<Key, seq<MonthConsumption>>)
    ensures byKey.Valid()
    ensures ArePatterns(byKey.at, months, if |buckets| <= |months| then buckets else buckets[..|months|])
  {
    byKey := Empty();
    for index := 0 to |buckets|
      invariant byKey.Valid()
      invariant ArePatterns(byKey.at, months, if index <= |months| then buckets[..index] else buckets[..|months|])
    {
      if index >= |months| { continue; }
      assert buckets[..index + 1] == buckets[..index] + [buckets[index]];
      byKey := AddMonth(byKey, months, buckets[..index], index, buckets[index]);
    }
    assert buckets[..|buckets|] == buckets;
  }

  /** With one row per creator in the selected month, everyone listed is drawn, and the
      last cell of their pattern is exactly the month figures on their row. */
  lemma ListedFiguresAreTheLastCell(months: seq<Month>, buckets: seq<seq<Creator>>, listed: seq<Creator>,
                                    patterns: map<Key, seq<MonthConsumption>>, r: Creator)
    requires ArePatterns(patterns, months, buckets)
    requires |months| == |buckets| > 0
    requires IsListing(buckets, listed) && r in listed
    requires OnePerKey(buckets[|buckets| - 1])
    ensures r.key in patterns && |patterns[r.key]| == |months|
    ensures patterns[r.key][|months| - 1] == Figures(months[|months| - 1], Some(r))
  {
    var last, k := |buckets| - 1, r.key;
    ListingMeans(buckets, k);
    var i := NewestOf(buckets, k);
    assert buckets[i] in buckets;
    assert Listing(buckets)[k] == r && ListedFrom(buckets, i, k);
    assert k in KeysIn(buckets) && patterns[k] == Pattern(months, buckets, k);
    assert patterns[k][last] == CellOf(months)(last, LastIn(buckets, last, k));
    FiguresOfListed(months[last], buckets, i, r);
  }

  lemma FiguresOfListed(month: Month, buckets: seq<seq<Creator>>, i: nat, r: Creator)
    requires Newest(buckets, i, r.key) && OnePerKey(buckets[|buckets| - 1])
    requires r == var row := FirstRow(buckets[i], r.key).value; if i == |buckets| - 1 then row else Absent(row)
    ensures Figures(month, LastRow(buckets[|buckets| - 1], r.key)) == Figures(month, Some(r))
  {
    if i == |buckets| - 1 { OnlyRow(buckets[i], r); }
  }

  lemma {:induction false} NewestOf(buckets: seq<seq<Creator>>, k: Key) returns (i: nat)
    requires exists i :: 0 <= i < |buckets| && k in Keys(buckets[i])
    ensures Newest(buckets, i, k)
  {
    i := |buckets| - 1;
    while k !in Keys(buckets[i])
      invariant 0 <= i < |buckets| && forall j :: i < j < |buckets| ==> k !in Keys(buckets[j])
      decreases i
    {
      i := i - 1;
    }
  }

  // ---- The cells, read off the rows ----

  /** A cell shows what a row spent and holds, nothing below zero, and both together as consumed. */
  lemma FiguresAreTheRows(month: Month, row: Creator)
    ensures var cell := Figures(month, Some(row));
            && cell.month == month
            && cell.spendCents == (if row.data.spendCents > 0 then row.data.spendCents else 0)
            && cell.pendingCents == (if row.data.pendingCents > 0 then row.data.pendingCents else 0)
            && cell.consumedCents == cell.spendCents + cell.pendingCents
    ensures Figures(month, None) == MonthConsumption(month, 0, 0, 0)
  {
  }

  /** A creator of an earlier month is listed as who they were, with nothing done. */
  lemma AbsentKeepsWhoTheyAre(row: Creator)
    ensures Absent(row).key == row.key && Absent(row).data.role == row.data.role
    ensures Absent(row).data == CreatorFigures(row.data.role, 0, 0, 0, 0, 0, 0)
  {
  }

  /** Everyone's pattern has a cell for each month, of the month's last row of theirs. */
  lemma PatternsAreOfLastRows(months: seq<Month>, buckets: seq<seq<Creator>>, k: Key, i: nat)
    requires i < |months|
    ensures |Pattern(months, buckets, k)| == |months|
    ensures i < |buckets| && k in Keys(buckets[i]) ==> Pattern(months, buckets, k)[i] == Figures(months[i], LastRow(buckets[i], k))
    ensures i >= |buckets| || k !in Keys(buckets[i]) ==> Pattern(months, buckets, k)[i] == Figures(months[i], None)
  {
    assert Pattern(months, buckets, k)[i] == CellOf(months)(i, LastIn(buckets, i, k));
  }
}
