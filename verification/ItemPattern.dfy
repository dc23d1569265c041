/** The products behind one requester's months (lib/budget-burn-item-comparison.ts):
    merged by product and unit across the months, and totalled again month by month. */
module ItemPattern {
  import opened Calendar
  import opened CreatorSummaries
  import opened Gathering
  import opened InsertionMaps
  import opened KeyedRows
  import opened KeyedTotals
  import opened Numbers
  import opened Options
  import opened Sorting
  import opened Sums
  import Watchlist

  datatype ItemKey = ItemKey(productId: Option<int>, unit: string)

  datatype Bought = Bought(productName: string, quantity: int, valueCents: int, orderCount: int)

  type Item = Keyed<ItemKey, Bought>

  datatype ItemMonth = ItemMonth(month: Month, quantity: int, spendCents: int, orderCount: int)

  datatype Entry = Entry(key: ItemKey, productName: string, months: seq<ItemMonth>)

  datatype ItemRow = ItemRow(entry: Entry, growth: Watchlist.Growth)

  function Quantity(): Item -> int { (r: Item) => Max(0, r.data.quantity) }

  function Spend(): Item -> int { (r: Item) => Max(0, r.data.valueCents) }

  function Orders(): Item -> int { (r: Item) => Max(0, r.data.orderCount) }

  function ItemFigures(month: Month, row: Option<Item>): ItemMonth {
    match row
    case None => ItemMonth(month, 0, 0, 0)
    case Some(r) => ItemMonth(month, Quantity()(r), Spend()(r), Orders()(r))
  }

  function ItemCell(months: seq<Month>): (nat, Option<Item>) -> ItemMonth {
    (i: nat, row: Option<Item>) => ItemFigures(if i < |months| then months[i] else Month(0, 1), row)
  }

  /** The name the product was last bought under. */
  function NewestName(buckets: seq<seq<Item>>, k: ItemKey): (name: Option<string>)
    ensures k in KeysIn(buckets) ==> name.Some?
    decreases |buckets|
  {
    if buckets == [] then None
    else
      var older, newest := buckets[..|buckets| - 1], buckets[|buckets| - 1];
      assert buckets == older + [newest];
      KeysInMore(older, newest);
      match LastRow(newest, k)
      case Some(r) => Some(r.data.productName)
      case None => NewestName(older, k)
  }

  function EntryFor(months: seq<Month>, buckets: seq<seq<Item>>, k: ItemKey): Entry
    requires k in KeysIn(buckets)
  {
    Entry(k, NewestName(buckets, k).value, Columns(|months|, ItemCell(months), buckets, k))
  }

  ghost predicate AreEntries(entries: map<ItemKey, Entry>, months: seq<Month>, buckets: seq<seq<Item>>) {
    && (forall k :: k in entries <==> k in KeysIn(buckets))
    && (forall k :: k in entries ==> entries[k] == EntryFor(months, buckets, k))
  }

  lemma NameOfOneMore(done: seq<seq<Item>>, rows: seq<Item>, row: Item, k: ItemKey)
    ensures NewestName(done + [rows + [row]], k) == if k == row.key then Some(row.data.productName) else NewestName(done + [rows], k)
  {
    LastOfOneMore(rows, row, k);
    assert (done + [rows + [row]])[..|done|] == done && (done + [rows])[..|done|] == done;
  }

  lemma NameOfEmpty(done: seq<seq<Item>>, none: seq<Item>, k: ItemKey)
    requires none == []
    ensures NewestName(done + [none], k) == NewestName(done, k)
  {
    assert (done + [none])[..|done|] == done;
  }

  function EntryOrBlank(entries: map<ItemKey, Entry>, months: seq<Month>, row: Item): Entry {
    if row.key in entries then entries[row.key]
    else Entry(row.key, row.data.productName, Blank(|months|, ItemCell(months)))
  }

  function Written(entry: Entry, months: seq<Month>, index: nat, row: Item): Entry
    requires index < |entry.months|
  {
    Entry(entry.key, row.data.productName, entry.months[index := ItemCell(months)(index, Some(row))])
  }

  lemma EntriesOfOneMore(entries: map<ItemKey, Entry>, months: seq<Month>, done: seq<seq<Item>>, rows: seq<Item>, row: Item)
    requires |done| < |months| && AreEntries(entries, months, done + [rows])
    ensures |EntryOrBlank(entries, months, row).months| == |months|
    ensures AreEntries(entries[row.key := Written(EntryOrBlank(entries, months, row), months, |done|, row)], months, done + [rows + [row]])
  {
    KeysInOneMore(done, rows, row);
    if row.key !in entries { ColumnsOfNobody(|months|, ItemCell(months), done + [rows], row.key); }
    forall k | k in KeysIn(done + [rows + [row]]) { EntryOfOneMore(months, done, rows, row, k); }
  }

  lemma EntryOfOneMore(months: seq<Month>, done: seq<seq<Item>>, rows: seq<Item>, row: Item, k: ItemKey)
    requires |done| < |months| && k in KeysIn(done + [rows + [row]])
    ensures k == row.key || k in KeysIn(done + [rows])
    ensures EntryFor(months, done + [rows + [row]], k) ==
            if k != row.key then EntryFor(months, done + [rows], k)
            else Entry(k, row.data.productName, Columns(|months|, ItemCell(months), done + [rows], k)[|done| := ItemCell(months)(|done|, Some(row))])
  {
    KeysInOneMore(done, rows, row);
    ColumnsOfOneMore(|months|, ItemCell(months), done, rows, row, k);
    NameOfOneMore(done, rows, row, k);
  }

  lemma EmptyMonthAddsNothing(entries: map<ItemKey, Entry>, months: seq<Month>, done: seq<seq<Item>>, none: seq<Item>)
    requires none == [] && AreEntries(entries, months, done)
    ensures AreEntries(entries, months, done + [none])
  {
    KeysInMore(done, none);
    RowsOfMore(none);
    forall k { ColumnsOfEmpty(|months|, ItemCell(months), done, none, k); }
    forall k { NameOfEmpty(done, none, k); }
  }

  method WriteMonth(byKey: InsertionMap<ItemKey, Entry>, months: seq<Month>, ghost done: seq<seq<Item>>, index: nat, rows: seq<Item>)
    returns (written: InsertionMap<ItemKey, Entry>)
    requires index == |done| < |months|
    requires byKey.Valid() && AreEntries(byKey.at, months, done)
    ensures written.Valid() && AreEntries(written.at, months, done + [rows])
  {
    written := byKey;
    EmptyMonthAddsNothing(byKey.at, months, done, rows[..0]);
    for i := 0 to |rows|
      invariant written.Valid() && AreEntries(written.at, months, done + [rows[..i]])
    {
      var row := rows[i];
      assert rows[..i + 1] == rows[..i] + [row];
      EntriesOfOneMore(written.at, months, done, rows[..i], row);
      var entry := EntryOrBlank(written.at, months, row);
      var cell := ItemMonth(months[index], Max(0, row.data.quantity), Max(0, row.data.valueCents), Max(0, row.data.orderCount));
      assert cell == ItemFigures(months[index], Some(row));
      entry := Entry(entry.key, row.data.productName, entry.months[index := cell]);
      written := written.Set(row.key, entry);
    }
    assert rows[..|rows|] == rows;
  }

  /** The months' buckets: a missing one is a month without purchases. */
  function Padded(months: seq<Month>, buckets: seq<seq<Item>>): seq<seq<Item>> {
    seq(|months|, i requires 0 <= i < |months| => if i < |buckets| then buckets[i] else [])
  }

  function SpendOfMonth(): ItemMonth -> MonthConsumption {
    (m: ItemMonth) => MonthConsumption(m.month, m.spendCents, 0, m.spendCents)
  }

  function Compared(entry: Entry): ItemRow {
    ItemRow(entry, Watchlist.MonthOverMonth(Mapped(SpendOfMonth(), entry.months)))
  }

  function NewestSpend(row: ItemRow): int {
    if row.entry.months == [] then 0 else row.entry.months[|row.entry.months| - 1].spendCents
  }

  function ItemOrder(textLe: (string, string) -> bool): (ItemRow, ItemRow) -> bool {
    (l: ItemRow, r: ItemRow) =>
      if l.growth.flagged != r.growth.flagged then l.growth.flagged
      else if NewestSpend(l) != NewestSpend(r) then NewestSpend(l) > NewestSpend(r)
      else if l.entry.productName != r.entry.productName then textLe(l.entry.productName, r.entry.productName)
      else textLe(l.entry.key.unit, r.entry.key.unit)
  }

  /** One row per product and unit of the buckets, each with its months. */
  ghost predicate AreRows(rows: seq<ItemRow>, months: seq<Month>, buckets: seq<seq<Item>>) {
    && (forall i, j :: 0 <= i < j < |rows| ==> rows[i].entry.key != rows[j].entry.key)
    && (forall row :: row in rows ==> row.entry.key in KeysIn(buckets) && row == Compared(EntryFor(months, buckets, row.entry.key)))
    && (forall k :: k in KeysIn(buckets) ==> exists row :: row in rows && row.entry.key == k)
  }

  method WriteMonths(months: seq<Month>, buckets: seq<seq<Item>>) returns (byKey: InsertionMap<ItemKey, Entry>)
    ensures byKey.Valid() && AreEntries(byKey.at, months, Padded(months, buckets))
  {
    byKey := Empty();
    ghost var padded := Padded(months, buckets);
    for index := 0 to |months|
      invariant byKey.Valid() && AreEntries(byKey.at, months, padded[..index])
    {
      PrefixGrows(padded, index);
      byKey := WriteMonth(byKey, months, padded[..index], index, if index < |buckets| then buckets[index] else []);
    }
    assert padded[..|months|] == padded;
  }

  method BuildItemPattern(months: seq<Month>, buckets: seq<seq<Item>>, textLe: (string, string) -> bool) returns (rows: seq<ItemRow>)
    requires TotalOrder(textLe)
    ensures AreRows(rows, months, Padded(months, buckets))
    ensures SortedBy(rows, ItemOrder(textLe))
  {
    var byKey := WriteMonths(months, buckets);
    var unsorted := Mapped(Compared, byKey.Values());
    RowsOfEntries(byKey, months, Padded(months, buckets), unsorted);
    rows := Sort(unsorted, ItemOrder(textLe));
    RowsStaySorted(unsorted, months, Padded(months, buckets), textLe);
  }

  lemma RowsOfEntries(byKey: InsertionMap<ItemKey, Entry>, months: seq<Month>, buckets: seq<seq<Item>>, rows: seq<ItemRow>)
    requires byKey.Valid() && AreEntries(byKey.at, months, buckets)
    requires rows == Mapped(Compared, byKey.Values())
    ensures AreRows(rows, months, buckets)
  {
    forall i | 0 <= i < |rows|
      ensures byKey.keys[i] in KeysIn(buckets) && rows[i] == Compared(EntryFor(months, buckets, byKey.keys[i])) && rows[i].entry.key == byKey.keys[i]
    {
      assert byKey.keys[i] in byKey.at;
    }
    forall k | k in KeysIn(buckets) ensures exists row :: row in rows && row.entry.key == k {
      assert k in byKey.at;
      var i :| 0 <= i < |byKey.keys| && byKey.keys[i] == k;
      assert rows[i] in rows;
    }
  }

  lemma ItemOrderIsTotal(textLe: (string, string) -> bool)
    requires TotalOrder(textLe)
    ensures TotalPreorder(ItemOrder(textLe))
  {
    forall l, r ensures ItemOrder(textLe)(l, r) || ItemOrder(textLe)(r, l) {
      assert textLe(l.entry.productName, r.entry.productName) || textLe(r.entry.productName, l.entry.productName);
      assert textLe(l.entry.key.unit, r.entry.key.unit) || textLe(r.entry.key.unit, l.entry.key.unit);
    }
    forall l, m, r | ItemOrder(textLe)(l, m) && ItemOrder(textLe)(m, r) ensures ItemOrder(textLe)(l, r) {
      var a, b, c := l.entry.productName, m.entry.productName, r.entry.productName;
      assert textLe(a, b) && textLe(b, c) ==> textLe(a, c);
      assert textLe(a, b) && textLe(b, a) ==> a == b;
    }
  }

  lemma RowsStaySorted(unsorted: seq<ItemRow>, months: seq<Month>, buckets: seq<seq<Item>>, textLe: (string, string) -> bool)
    requires TotalOrder(textLe) && AreRows(unsorted, months, buckets)
    ensures AreRows(Sort(unsorted, ItemOrder(textLe)), months, buckets)
    ensures SortedBy(Sort(unsorted, ItemOrder(textLe)), ItemOrder(textLe))
  {
    ItemOrderIsTotal(textLe);
    SortSorts(unsorted, ItemOrder(textLe));
    SortKeepsAll(unsorted, ItemOrder(textLe));
    var rows := Sort(unsorted, ItemOrder(textLe));
    DistinctStaysDistinct(unsorted, rows);
    forall i, j | 0 <= i < j < |rows| ensures rows[i].entry.key != rows[j].entry.key {
      assert rows[i] in rows && rows[j] in rows && rows[i] != rows[j];
    }
  }

  // ---- The footers ----

  function At(figure: ItemMonth -> int, i: nat): ItemRow -> int {
    (row: ItemRow) => if i < |row.entry.months| then figure(row.entry.months[i]) else 0
  }

  function QuantityOf(): ItemMonth -> int { (m: ItemMonth) => m.quantity }

  function SpendOf(): ItemMonth -> int { (m: ItemMonth) => m.spendCents }

  function OrdersOf(): ItemMonth -> int { (m: ItemMonth) => m.orderCount }

  function Totals(months: seq<Month>, rows: seq<ItemRow>): (totals: seq<ItemMonth>)
    ensures |totals| == |months|
  {
    seq(|months|, i requires 0 <= i < |months| =>
      ItemMonth(months[i], Sum(At(QuantityOf(), i), rows), Sum(At(SpendOf(), i), rows), Sum(At(OrdersOf(), i), rows)))
  }

  function KeyOf(): ItemRow -> ItemKey { (row: ItemRow) => row.entry.key }

  /** The footer of one figure is the month's bucket, less what later rows of the same product and unit replaced. */
  lemma FooterOf(months: seq<Month>, buckets: seq<seq<Item>>, rows: seq<ItemRow>, i: nat, figure: ItemMonth -> int, f: Item -> int)
    requires |months| == |buckets| && i < |months| && AreRows(rows, months, buckets)
    requires forall m, r :: figure(ItemFigures(m, Some(r))) == f(r)
    requires forall m :: figure(ItemFigures(m, None)) == 0
    ensures Sum(At(figure, i), rows) == Sum(f, buckets[i]) - Overwritten(f, buckets[i])
  {
    var ks := Mapped(KeyOf(), rows);
    forall r | r in buckets[i] ensures r.key in ks {
      assert buckets[i] in buckets && r.key in KeysIn(buckets);
      var row :| row in rows && row.entry.key == r.key;
      var j :| 0 <= j < |rows| && rows[j] == row;
      assert ks[j] == r.key;
    }
    LastRowsAddUp(f, buckets[i], ks);
    forall j | 0 <= j < |rows| ensures At(figure, i)(rows[j]) == LastFigure(f, buckets[i])(ks[j]) {
      var row := rows[j];
      assert row in rows;
      assert row.entry.months[i] == ItemCell(months)(i, LastIn(buckets, i, row.entry.key));
    }
    SumsMatch(At(figure, i), LastFigure(f, buckets[i]), rows, ks);
  }

  /** A month's footer is that month's bucket, figure by figure, exactly when no purchase with the
      figure is followed in its bucket by another row of its product and unit. */
  lemma FootersConserveExactly(months: seq<Month>, buckets: seq<seq<Item>>, rows: seq<ItemRow>, i: nat)
    requires |months| == |buckets| && i < |months| && AreRows(rows, months, buckets)
    ensures Totals(months, rows)[i].spendCents == Sum(Spend(), buckets[i]) <==> OnlyZerosReplaced(Spend(), buckets[i])
    ensures Totals(months, rows)[i].quantity == Sum(Quantity(), buckets[i]) <==> OnlyZerosReplaced(Quantity(), buckets[i])
    ensures Totals(months, rows)[i].orderCount == Sum(Orders(), buckets[i]) <==> OnlyZerosReplaced(Orders(), buckets[i])
  {
    FooterOf(months, buckets, rows, i, SpendOf(), Spend());
    FooterOf(months, buckets, rows, i, QuantityOf(), Quantity());
    FooterOf(months, buckets, rows, i, OrdersOf(), Orders());
    NothingLostExactly(Spend(), buckets[i]);
    NothingLostExactly(Quantity(), buckets[i]);
    NothingLostExactly(Orders(), buckets[i]);
  }

  /** A query grouped by product and unit has one row of each: its months are all conserved. */
  lemma GroupedMonthsAreConserved(months: seq<Month>, buckets: seq<seq<Item>>, rows: seq<ItemRow>, i: nat)
    requires |months| == |buckets| && i < |months| && AreRows(rows, months, buckets)
    requires OnePerKey(buckets[i])
    ensures Totals(months, rows)[i] == ItemMonth(months[i], Sum(Quantity(), buckets[i]), Sum(Spend(), buckets[i]), Sum(Orders(), buckets[i]))
  {
    FootersConserveExactly(months, buckets, rows, i);
  }

  // ---- The rows, read off the purchases ----

  /** Each cell shows what the month's last row of the product and unit says, nothing below zero. */
  lemma CellsAreTheirRows(months: seq<Month>, buckets: seq<seq<Item>>, rows: seq<ItemRow>, row: ItemRow, i: nat)
    requires |months| == |buckets| && i < |months| && AreRows(rows, months, buckets) && row in rows
    ensures |row.entry.months| == |months| && row.entry.months[i].month == months[i]
    ensures row.entry.key !in Keys(buckets[i]) ==> row.entry.months[i] == ItemMonth(months[i], 0, 0, 0)
    ensures row.entry.key in Keys(buckets[i]) ==>
              var last, cell := LastRow(buckets[i], row.entry.key).value.data, row.entry.months[i];
              && cell.quantity == (if last.quantity > 0 then last.quantity else 0)
              && cell.spendCents == (if last.valueCents > 0 then last.valueCents else 0)
              && cell.orderCount == (if last.orderCount > 0 then last.orderCount else 0)
  {
    assert row.entry.months[i] == ItemCell(months)(i, LastIn(buckets, i, row.entry.key));
  }

  /** The name shown is the last one of the newest month the product was bought in. */
  lemma {:induction false} NameIsTheNewest(buckets: seq<seq<Item>>, k: ItemKey, i: nat)
    requires i < |buckets| && k in Keys(buckets[i]) && forall j :: i < j < |buckets| ==> k !in Keys(buckets[j])
    ensures NewestName(buckets, k) == Some(LastRow(buckets[i], k).value.data.productName)
    decreases |buckets|
  {
    if i < |buckets| - 1 { NameIsTheNewest(buckets[..|buckets| - 1], k, i); }
  }

  /** Highlighted rows first, then by what was spent in the newest month, most first, then by name and unit. */
  lemma ItemsStandInOrder(rows: seq<ItemRow>, textLe: (string, string) -> bool, i: nat, j: nat)
    requires SortedBy(rows, ItemOrder(textLe)) && i < j < |rows|
    requires rows[i].entry.months != [] && rows[j].entry.months != []
    ensures var l, r := rows[i], rows[j];
            var x, y := l.entry.months[|l.entry.months| - 1].spendCents, r.entry.months[|r.entry.months| - 1].spendCents;
            && (r.growth.flagged ==> l.growth.flagged)
            && (l.growth.flagged == r.growth.flagged ==> x >= y)
            && (l.growth.flagged == r.growth.flagged && x == y && l.entry.productName != r.entry.productName ==>
                  textLe(l.entry.productName, r.entry.productName))
            && (l.growth.flagged == r.growth.flagged && x == y && l.entry.productName == r.entry.productName ==>
                  textLe(l.entry.key.unit, r.entry.key.unit))
  {
    var l, r := rows[i], rows[j];
    assert ItemOrder(textLe)(l, r);
    assert NewestSpend(l) == l.entry.months[|l.entry.months| - 1].spendCents && NewestSpend(r) == r.entry.months[|r.entry.months| - 1].spendCents;
  }

  /** A row's growth is that of its spend. */
  lemma GrowthIsOfSpend(months: seq<Month>, buckets: seq<seq<Item>>, rows: seq<ItemRow>, row: ItemRow)
    requires AreRows(rows, months, buckets) && row in rows
    ensures row.growth.flagged <==>
              && |row.entry.months| >= 2
              && var current, previous := row.entry.months[|row.entry.months| - 1].spendCents, row.entry.months[|row.entry.months| - 2].spendCents;
                 previous >= 500_000 && 100 * current >= 115 * previous
  {
    Watchlist.HighlightInCents(Mapped(SpendOfMonth(), row.entry.months));
  }
}
