/** The branch report rolled up by parent (lib/branch-hierarchy.ts): one row per family,
    every other branch as it was, and every column conserved. */
module BranchRollUp {
  import opened BranchHierarchy
  import opened Counting
  import opened Gathering
  import opened Grouping
  import opened InsertionMaps
  import opened KeyedRows
  import opened KeyedTotals
  import opened Numbers
  import opened Options
  import opened Sorting
  import opened Sums

  /** Report rows are keyed by a branch number, by some other text, or by the parent of a family. */
  datatype RowId = Numbered(n: int) | Texted(text: string) | FamilyOf(parentId: int)

  datatype RowName = Given(name: string) | BranchNumber(n: int)

  datatype BranchRow = BranchRow(
    id: RowId, name: RowName, status: Option<string>, role: Role,
    parentBranchId: Option<int>, parentBranchName: Option<string>, parentBranchStatus: Option<string>,
    totalOrders: int, fulfilledOrders: int, revenue: Option<int>, refunds: Option<int>)

  datatype RolledRow = RolledRow(row: BranchRow, memberCount: int, childCount: int)

  datatype Family = Family(parent: Option<BranchRow>, children: seq<BranchRow>)

  /** The family a child is folded into: a child without a parent number has none. */
  function ChildKey(): BranchRow -> Option<int> {
    (row: BranchRow) => if row.role.Child? && row.parentBranchId.Some? && row.parentBranchId.value != 0 then row.parentBranchId else None
  }

  function ParentKey(): BranchRow -> Option<int> {
    (row: BranchRow) => if row.role.Parent? && row.id.Numbered? then Some(row.id.n) else None
  }

  function OnItsOwn(): BranchRow -> bool { (row: BranchRow) => ChildKey()(row).None? && ParentKey()(row).None? }

  function ParentRow(): BranchRow -> Option<Keyed<int, BranchRow>> {
    (row: BranchRow) => match ParentKey()(row) case Some(p) => Some(Keyed(p, row)) case None => None
  }

  /** The parents' rows, filed by their own number. */
  function Parents(rows: seq<BranchRow>): seq<Keyed<int, BranchRow>> { Gathered(ParentRow(), rows) }

  function LastParent(rows: seq<BranchRow>, p: int): Option<BranchRow> {
    match LastRow(Parents(rows), p)
    case Some(r) => Some(r.data)
    case None => None
  }

  function ChildrenOf(rows: seq<BranchRow>, p: int): seq<BranchRow> { Filter(InGroup(ChildKey(), p), rows) }

  function FamilyIn(rows: seq<BranchRow>, p: int): Family { Family(LastParent(rows, p), ChildrenOf(rows, p)) }

  /** The families the report holds a parent or a child of. */
  predicate HasFamily(rows: seq<BranchRow>, p: int) { p in Keys(Parents(rows)) || ChildrenOf(rows, p) != [] }

  function Members(family: Family): seq<BranchRow> {
    if family.parent.Some? then [family.parent.value] + family.children else family.children
  }

  function Figure(): Option<int> -> Option<int> { (v: Option<int>) => v }

  function Plain(): int -> int { (n: int) => n }

  function SumNullable(values: seq<Option<int>>): Option<int> {
    var present := Gathered(Figure(), values);
    if present == [] then None else Some(Sum(Plain(), present))
  }

  function Revenue(): BranchRow -> Option<int> { (row: BranchRow) => row.revenue }
  function Refunds(): BranchRow -> Option<int> { (row: BranchRow) => row.refunds }
  function Orders(): BranchRow -> int { (row: BranchRow) => row.totalOrders }
  function Fulfilled(): BranchRow -> int { (row: BranchRow) => row.fulfilledOrders }

  function Alone(): BranchRow -> RolledRow { (row: BranchRow) => RolledRow(row, 1, 0) }

  function FamilyRow(p: int, family: Family): RolledRow
    requires Members(family) != []
  {
    var members := Members(family);
    var base := if family.parent.Some? then family.parent.value else family.children[0];
    RolledRow(
      base.(id := FamilyOf(p),
            name := if family.parent.Some? then base.name
                    else if base.parentBranchName.Some? then Given(base.parentBranchName.value) else BranchNumber(p),
            status := if family.parent.Some? then base.status else base.parentBranchStatus,
            role := Parent, parentBranchId := None, parentBranchName := None,
            totalOrders := Sum(Orders(), members), fulfilledOrders := Sum(Fulfilled(), members),
            revenue := SumNullable(Mapped(Revenue(), members)), refunds := SumNullable(Mapped(Refunds(), members))),
      |members|, |family.children|)
  }

  function LargestFirst(): (RolledRow, RolledRow) -> bool {
    (l: RolledRow, r: RolledRow) =>
      if OrZero(l.row.revenue) != OrZero(r.row.revenue) then OrZero(l.row.revenue) > OrZero(r.row.revenue)
      else l.row.totalOrders >= r.row.totalOrders
  }

  function RolledFamily(rows: seq<BranchRow>): int -> RolledRow {
    (p: int) => if Members(FamilyIn(rows, p)) != [] then FamilyRow(p, FamilyIn(rows, p)) else RolledRow(Nobody(), 0, 0)
  }

  function Nobody(): BranchRow {
    BranchRow(Texted(""), Given(""), None, Standalone, None, None, None, 0, 0, None, None)
  }

  ghost predicate Distinct(ps: seq<int>) { forall i, j :: 0 <= i < j < |ps| ==> ps[i] != ps[j] }

  /** One row per family, in the order of the families `ps`, and every other row as it was; largest first. */
  ghost predicate IsRollUp(rolled: seq<RolledRow>, rows: seq<BranchRow>, ps: seq<int>) {
    && Distinct(ps)
    && (forall p :: p in ps <==> HasFamily(rows, p))
    && multiset(rolled) == multiset(Mapped(Alone(), Filter(OnItsOwn(), rows)) + Mapped(RolledFamily(rows), ps))
    && SortedBy(rolled, LargestFirst())
  }

  ghost predicate AreFamilies(families: map<int, Family>, rows: seq<BranchRow>) {
    && (forall p :: p in families <==> HasFamily(rows, p))
    && (forall p :: p in families ==> families[p] == FamilyIn(rows, p))
  }

  function FamilyOrNew(families: map<int, Family>, p: int): Family {
    if p in families then families[p] else Family(None, [])
  }

  lemma ParentsOfOneMore(rows: seq<BranchRow>, row: BranchRow)
    ensures Parents(rows + [row]) == Parents(rows) + match ParentKey()(row) case Some(p) => [Keyed(p, row)] case None => []
  {
    GatheredOfMore(ParentRow(), rows, [row]);
  }

  lemma FamilyOfOneMore(rows: seq<BranchRow>, row: BranchRow, p: int)
    ensures ChildrenOf(rows + [row], p) == ChildrenOf(rows, p) + if ChildKey()(row) == Some(p) then [row] else []
    ensures LastParent(rows + [row], p) == if ParentKey()(row) == Some(p) then Some(row) else LastParent(rows, p)
    ensures HasFamily(rows + [row], p) <==> HasFamily(rows, p) || ChildKey()(row) == Some(p) || ParentKey()(row) == Some(p)
  {
    FilterOfOneMore(InGroup(ChildKey(), p), rows, row);
    ParentsOfOneMore(rows, row);
    if ParentKey()(row).Some? {
      LastOfOneMore(Parents(rows), Keyed(ParentKey()(row).value, row), p);
      KeysOfOneMore(Parents(rows), Keyed(ParentKey()(row).value, row));
    } else {
      assert Parents(rows) + [] == Parents(rows);
    }
  }

  lemma NewFamily(families: map<int, Family>, rows: seq<BranchRow>, p: int)
    requires AreFamilies(families, rows)
    ensures FamilyOrNew(families, p) == FamilyIn(rows, p)
  {
  }

  lemma FamiliesOfOneMore(families: map<int, Family>, rows: seq<BranchRow>, row: BranchRow)
    requires AreFamilies(families, rows)
    ensures AreFamilies(Filed(families, row), rows + [row])
  {
    forall p ensures HasFamily(rows + [row], p) <==> p in Filed(families, row)
             ensures FamilyOrNew(Filed(families, row), p) == FamilyIn(rows + [row], p) {
      FamilyOfOneMore(rows, row, p);
      NewFamily(families, rows, p);
    }
  }

  /** A row put into its family, if it has one. */
  function Filed(families: map<int, Family>, row: BranchRow): map<int, Family> {
    match ChildKey()(row)
    case Some(p) => families[p := Family(FamilyOrNew(families, p).parent, FamilyOrNew(families, p).children + [row])]
    case None =>
      match ParentKey()(row)
      case Some(p) => families[p := Family(Some(row), FamilyOrNew(families, p).children)]
      case None => families
  }

  ghost predicate FiledSoFar(families: map<int, Family>, standalone: seq<BranchRow>, rows: seq<BranchRow>) {
    AreFamilies(families, rows) && standalone == Filter(OnItsOwn(), rows)
  }

  lemma FileNext(families: map<int, Family>, standalone: seq<BranchRow>, rows: seq<BranchRow>, row: BranchRow)
    requires FiledSoFar(families, standalone, rows)
    ensures FiledSoFar(Filed(families, row), standalone + if OnItsOwn()(row) then [row] else [], rows + [row])
  {
    FamiliesOfOneMore(families, rows, row);
    FilterOfOneMore(OnItsOwn(), rows, row);
  }

  method FileRow(families: InsertionMap<int, Family>, standalone: seq<BranchRow>, row: BranchRow, ghost rows: seq<BranchRow>)
    returns (filed: InsertionMap<int, Family>, alone: seq<BranchRow>)
    requires families.Valid() && FiledSoFar(families.at, standalone, rows)
    ensures filed.Valid() && FiledSoFar(filed.at, alone, rows + [row])
  {
    FileNext(families.at, standalone, rows, row);
    filed, alone := families, standalone;
    if row.role.Child? && row.parentBranchId.Some? && row.parentBranchId.value != 0 {
      var p := row.parentBranchId.value;
      var family := if p in families.at then families.at[p] else Family(None, []);
      filed := families.Set(p, Family(family.parent, family.children + [row]));
    } else if row.role.Parent? && row.id.Numbered? {
      var p := row.id.n;
      var family := if p in families.at then families.at[p] else Family(None, []);
      filed := families.Set(p, Family(Some(row), family.children));
    } else {
      alone := alone + [row];
    }
  }

  lemma NothingFiled(none: seq<BranchRow>)
    requires none == []
    ensures FiledSoFar(map[], [], none)
  {
  }

  method FileRows(rows: seq<BranchRow>) returns (families: InsertionMap<int, Family>, standalone: seq<BranchRow>)
    ensures families.Valid() && FiledSoFar(families.at, standalone, rows)
  {
    families, standalone := Empty(), [];
    NothingFiled(rows[..0]);
    for i := 0 to |rows|
      invariant families.Valid() && FiledSoFar(families.at, standalone, rows[..i])
    {
      PrefixGrows(rows, i);
      families, standalone := FileRow(families, standalone, rows[i], rows[..i]);
    }
    assert rows[..|rows|] == rows;
  }

  lemma FamiliesHaveMembers(rows: seq<BranchRow>, p: int)
    ensures HasFamily(rows, p) <==> Members(FamilyIn(rows, p)) != []
  {
  }

  method RollUpBranchRowsByParent(rows: seq<BranchRow>) returns (rolled: seq<RolledRow>)
    ensures exists ps :: IsRollUp(rolled, rows, ps)
  {
    var families, standalone := FileRows(rows);
    var unsorted := Mapped(Alone(), standalone);
    for i := 0 to |families.keys|
      invariant unsorted == Mapped(Alone(), standalone) + Mapped(RolledFamily(rows), families.keys[..i])
    {
      var p := families.keys[i];
      assert p in families.at;
      FamiliesHaveMembers(rows, p);
      MappedOfOneMore(RolledFamily(rows), families.keys, i);
      unsorted := unsorted + [FamilyRow(p, families.at[p])];
    }
    assert families.keys[..|families.keys|] == families.keys;
    rolled := Sort(unsorted, LargestFirst());
    SortedRollUp(unsorted, rows, families);
  }

  lemma SortedRollUp(unsorted: seq<RolledRow>, rows: seq<BranchRow>, families: InsertionMap<int, Family>)
    requires families.Valid() && AreFamilies(families.at, rows)
    requires unsorted == Mapped(Alone(), Filter(OnItsOwn(), rows)) + Mapped(RolledFamily(rows), families.keys)
    ensures IsRollUp(Sort(unsorted, LargestFirst()), rows, families.keys)
  {
    forall p ensures p in families.keys <==> HasFamily(rows, p) {
      assert p in families.keys <==> p in families.at;
    }
    assert TotalPreorder(LargestFirst());
    SortSorts(unsorted, LargestFirst());
    SortKeepsAll(unsorted, LargestFirst());
  }

  // ---- What is conserved ----

  function OfParent(f: BranchRow -> int): Keyed<int, BranchRow> -> int { (r: Keyed<int, BranchRow>) => f(r.data) }

  function InFamilies(f: BranchRow -> int, rows: seq<BranchRow>): int -> int { (p: int) => Sum(f, Members(FamilyIn(rows, p))) }

  lemma FamilySplits(f: BranchRow -> int, rows: seq<BranchRow>, p: int)
    ensures InFamilies(f, rows)(p) == LastFigure(OfParent(f), Parents(rows))(p) + GroupTotal(f, ChildKey(), rows)(p)
  {
    var family := FamilyIn(rows, p);
    if family.parent.Some? { assert ([family.parent.value] + family.children)[1..] == family.children; }
  }

  lemma {:induction false} ParentRowsTotal(f: BranchRow -> int, rows: seq<BranchRow>)
    ensures Sum(OfParent(f), Parents(rows)) == Sum(Only(f, Grouped(ParentKey())), rows)
  {
    if rows != [] {
      ParentRowsTotal(f, rows[1..]);
      if ParentKey()(rows[0]).Some? {
        assert ([Keyed(rows[0].id.n, rows[0])] + Parents(rows[1..]))[1..] == Parents(rows[1..]);
      }
    }
  }

  /** Every row is on its own, a child of a family, or a parent. */
  lemma RowsSplit(f: BranchRow -> int, rows: seq<BranchRow>)
    ensures Sum(f, rows) == Sum(f, Filter(OnItsOwn(), rows)) + Sum(f, Filter(Grouped(ChildKey()), rows)) + Sum(OfParent(f), Parents(rows))
  {
    var inFamily := (row: BranchRow) => !OnItsOwn()(row);
    SumOfFiltered(f, OnItsOwn(), rows);
    SumOfFiltered(f, Grouped(ChildKey()), rows);
    ParentRowsTotal(f, rows);
    SumsAddUp(f, Only(f, OnItsOwn()), Only(f, inFamily), rows);
    SumsAddUp(Only(f, inFamily), Only(f, Grouped(ChildKey())), Only(f, Grouped(ParentKey())), rows);
  }

  ghost predicate Covers(rows: seq<BranchRow>, ps: seq<int>) {
    && (forall r :: r in Parents(rows) ==> r.key in ps)
    && (forall row :: row in rows && ChildKey()(row).Some? ==> ChildKey()(row).value in ps)
  }

  lemma ParentsTotal(f: BranchRow -> int, rows: seq<BranchRow>, ps: seq<int>)
    requires Distinct(ps) && Covers(rows, ps)
    ensures Sum(LastFigure(OfParent(f), Parents(rows)), ps) == Sum(OfParent(f), Parents(rows)) - Overwritten(OfParent(f), Parents(rows))
  {
    LastRowsAddUp(OfParent(f), Parents(rows), ps);
  }

  lemma ChildrenTotal(f: BranchRow -> int, rows: seq<BranchRow>, ps: seq<int>)
    requires Distinct(ps) && Covers(rows, ps)
    ensures Sum(GroupTotal(f, ChildKey(), rows), ps) == Sum(f, Filter(Grouped(ChildKey()), rows))
  {
    Grouping.GroupsAddUp(f, ChildKey(), rows, ps);
  }

  lemma FamiliesTotal(f: BranchRow -> int, rows: seq<BranchRow>, ps: seq<int>)
    requires Distinct(ps) && Covers(rows, ps)
    ensures Sum(InFamilies(f, rows), ps) ==
            Sum(OfParent(f), Parents(rows)) - Overwritten(OfParent(f), Parents(rows)) + Sum(f, Filter(Grouped(ChildKey()), rows))
  {
    FamilySumsSplit(f, rows, ps);
    ParentsTotal(f, rows, ps);
    ChildrenTotal(f, rows, ps);
  }

  lemma FamilySumsSplit(f: BranchRow -> int, rows: seq<BranchRow>, ps: seq<int>)
    ensures Sum(InFamilies(f, rows), ps) ==
            Sum(LastFigure(OfParent(f), Parents(rows)), ps) + Sum(GroupTotal(f, ChildKey(), rows), ps)
  {
    forall p { FamilySplits(f, rows, p); }
    SumsAddUp(InFamilies(f, rows), LastFigure(OfParent(f), Parents(rows)), GroupTotal(f, ChildKey(), rows), ps);
  }

  lemma FamiliesCover(rows: seq<BranchRow>, ps: seq<int>)
    requires forall p :: p in ps <==> HasFamily(rows, p)
    ensures Covers(rows, ps)
  {
    forall r | r in Parents(rows) ensures r.key in ps {
      assert HasFamily(rows, r.key);
    }
    forall row | row in rows && ChildKey()(row).Some? ensures ChildKey()(row).value in ps {
      assert row in ChildrenOf(rows, ChildKey()(row).value);
      assert HasFamily(rows, ChildKey()(row).value);
    }
  }

  /** A column summed over the rolled-up rows is the column summed over the report, less the parents' rows replaced
      by another row of the same number. */
  lemma ColumnTotal(figure: RolledRow -> int, f: BranchRow -> int, rolled: seq<RolledRow>, rows: seq<BranchRow>, ps: seq<int>)
    requires IsRollUp(rolled, rows, ps)
    requires forall row :: figure(Alone()(row)) == f(row)
    requires forall p, family | Members(family) != [] :: figure(FamilyRow(p, family)) == Sum(f, Members(family))
    ensures Sum(figure, rolled) == Sum(f, rows) - Overwritten(OfParent(f), Parents(rows))
  {
    var alone, families := Mapped(Alone(), Filter(OnItsOwn(), rows)), Mapped(RolledFamily(rows), ps);
    SumOfPermutation(figure, rolled, alone + families);
    SumOfMore(figure, alone, families);
    SumsMatch(figure, f, alone, Filter(OnItsOwn(), rows));
    forall i | 0 <= i < |ps| ensures figure(families[i]) == InFamilies(f, rows)(ps[i]) {
      FamiliesHaveMembers(rows, ps[i]);
    }
    SumsMatch(figure, InFamilies(f, rows), families, ps);
    FamiliesCover(rows, ps);
    FamiliesTotal(f, rows, ps);
    RowsSplit(f, rows);
  }

  function EachOne(): BranchRow -> int { (row: BranchRow) => 1 }

  function MemberCount(): RolledRow -> int { (r: RolledRow) => r.memberCount }

  lemma {:induction false} OnesAddUp(rows: seq<BranchRow>)
    ensures Sum(EachOne(), rows) == |rows|
  {
    if rows != [] { OnesAddUp(rows[1..]); }
  }

  /** The members counted are the rows of the report exactly when no two parents' rows share a number. */
  lemma MembersAreCountedExactly(rolled: seq<RolledRow>, rows: seq<BranchRow>, ps: seq<int>)
    requires IsRollUp(rolled, rows, ps)
    ensures Sum(MemberCount(), rolled) <= |rows|
    ensures Sum(MemberCount(), rolled) == |rows| <==> OnePerKey(Parents(rows))
  {
    forall p, family: Family | Members(family) != [] ensures MemberCount()(FamilyRow(p, family)) == Sum(EachOne(), Members(family)) {
      OnesAddUp(Members(family));
    }
    ColumnTotal(MemberCount(), EachOne(), rolled, rows, ps);
    OnesAddUp(rows);
    NothingLostExactly(OfParent(EachOne()), Parents(rows));
    var parents := Parents(rows);
    assert forall i :: 0 <= i < |parents| ==> OfParent(EachOne())(parents[i]) == 1;
  }

  lemma NothingReplaced(f: BranchRow -> int, rows: seq<BranchRow>)
    requires OnePerKey(Parents(rows))
    ensures Overwritten(OfParent(f), Parents(rows)) == 0
  {
    NothingReplacedIn(OfParent(f), Parents(rows));
  }

  lemma {:induction false} NothingReplacedIn(f: Keyed<int, BranchRow> -> int, parents: seq<Keyed<int, BranchRow>>)
    requires OnePerKey(parents)
    ensures Overwritten(f, parents) == 0
    decreases |parents|
  {
    if parents != [] {
      var before := parents[..|parents| - 1];
      NothingReplacedIn(f, before);
      forall r | r in before ensures r.key != parents[|parents| - 1].key {
        var i :| 0 <= i < |before| && before[i] == r;
        assert parents[i] == r;
      }
    }
  }

  /** A sum is hidden only when every figure in it is. */
  lemma {:induction false} HiddenSums(values: seq<Option<int>>)
    ensures SumNullable(values) == None <==> forall v :: v in values ==> v == None
  {
    if values != [] {
      HiddenSums(values[1..]);
      assert values == [values[0]] + values[1..];
      assert values[0] in values && (forall v :: v in values <==> v == values[0] || v in values[1..]);
      assert Figure()(values[0]) == values[0];
    }
  }

  lemma {:induction false} NullableSums(values: seq<Option<int>>)
    ensures OrZero(SumNullable(values)) == Sum(OrNothing(), values)
  {
    if values != [] {
      NullableSums(values[1..]);
      var rest := Gathered(Figure(), values[1..]);
      if values[0].Some? {
        assert Gathered(Figure(), values) == [values[0].value] + rest;
        assert ([values[0].value] + rest)[1..] == rest;
        assert Sum(Plain(), [values[0].value] + rest) == values[0].value + Sum(Plain(), rest);
      }
    }
  }

  function OrNothing(): Option<int> -> int { (v: Option<int>) => OrZero(v) }

  function Money(column: BranchRow -> Option<int>): BranchRow -> int { (row: BranchRow) => OrZero(column(row)) }

  lemma {:induction false} MoneyOfMembers(column: BranchRow -> Option<int>, members: seq<BranchRow>)
    ensures OrZero(SumNullable(Mapped(column, members))) == Sum(Money(column), members)
    ensures SumNullable(Mapped(column, members)) == None <==> forall m :: m in members ==> column(m) == None
  {
    NullableSums(Mapped(column, members));
    HiddenSums(Mapped(column, members));
    SumsMatch(OrNothing(), Money(column), Mapped(column, members), members);
    forall m | m in members ensures column(m) in Mapped(column, members) {
      var i :| 0 <= i < |members| && members[i] == m;
      assert Mapped(column, members)[i] == column(m);
    }
  }

  function RolledOrders(): RolledRow -> int { (r: RolledRow) => r.row.totalOrders }

  function RolledFulfilled(): RolledRow -> int { (r: RolledRow) => r.row.fulfilledOrders }

  function RolledRevenue(): RolledRow -> int { (r: RolledRow) => OrZero(r.row.revenue) }

  function RolledRefunds(): RolledRow -> int { (r: RolledRow) => OrZero(r.row.refunds) }

  /** What each column of the roll-up adds up to. */
  lemma ColumnTotals(rolled: seq<RolledRow>, rows: seq<BranchRow>, ps: seq<int>)
    requires IsRollUp(rolled, rows, ps)
    ensures Sum(RolledOrders(), rolled) == Sum(Orders(), rows) - Overwritten(OfParent(Orders()), Parents(rows))
    ensures Sum(RolledFulfilled(), rolled) == Sum(Fulfilled(), rows) - Overwritten(OfParent(Fulfilled()), Parents(rows))
    ensures Sum(RolledRevenue(), rolled)
            == Sum(Money(Revenue()), rows) - Overwritten(OfParent(Money(Revenue())), Parents(rows))
    ensures Sum(RolledRefunds(), rolled)
            == Sum(Money(Refunds()), rows) - Overwritten(OfParent(Money(Refunds())), Parents(rows))
  {
    forall family: Family {
      MoneyOfMembers(Revenue(), Members(family));
    }
    forall family: Family {
      MoneyOfMembers(Refunds(), Members(family));
    }
    ColumnTotal(RolledOrders(), Orders(), rolled, rows, ps);
    ColumnTotal(RolledFulfilled(), Fulfilled(), rolled, rows, ps);
    ColumnTotal(RolledRevenue(), Money(Revenue()), rolled, rows, ps);
    ColumnTotal(RolledRefunds(), Money(Refunds()), rolled, rows, ps);
  }

  /** With one row per parent branch every column is conserved: orders, fulfilled orders, revenue and refunds. */
  lemma ColumnsAreConserved(rolled: seq<RolledRow>, rows: seq<BranchRow>, ps: seq<int>)
    requires IsRollUp(rolled, rows, ps) && OnePerKey(Parents(rows))
    ensures Sum(RolledOrders(), rolled) == Sum(Orders(), rows)
    ensures Sum(RolledFulfilled(), rolled) == Sum(Fulfilled(), rows)
    ensures Sum(RolledRevenue(), rolled) == Sum(Money(Revenue()), rows)
    ensures Sum(RolledRefunds(), rolled) == Sum(Money(Refunds()), rows)
  {
    ColumnTotals(rolled, rows, ps);
    NothingReplaced(Orders(), rows);
    NothingReplaced(Fulfilled(), rows);
    NothingReplaced(Money(Revenue()), rows);
    NothingReplaced(Money(Refunds()), rows);
  }

  ghost predicate NoneNegative(f: BranchRow -> int, rows: seq<BranchRow>) { forall row :: row in rows ==> f(row) >= 0 }

  /** Only parents' rows without the figure are followed by another parent's row of their number. */
  ghost predicate ReplacesZeros(f: BranchRow -> int, rows: seq<BranchRow>) { OnlyZerosReplaced(OfParent(f), Parents(rows)) }

  lemma {:induction false} ParentsAreRows(rows: seq<BranchRow>)
    ensures forall r :: r in Parents(rows) ==> r.data in rows
  {
    if rows != [] {
      ParentsAreRows(rows[1..]);
      assert rows == [rows[0]] + rows[1..];
    }
  }

  lemma ConservedExactly(figure: RolledRow -> int, f: BranchRow -> int, rolled: seq<RolledRow>, rows: seq<BranchRow>)
    requires Sum(figure, rolled) == Sum(f, rows) - Overwritten(OfParent(f), Parents(rows))
    ensures NoneNegative(f, rows) ==> (Sum(figure, rolled) == Sum(f, rows) <==> ReplacesZeros(f, rows))
  {
    if NoneNegative(f, rows) {
      ParentsAreRows(rows);
      NothingLostExactly(OfParent(f), Parents(rows));
    }
  }

  /** A column without a negative figure is conserved exactly when no parent's row with the figure is followed by
      another parent's row of its number. */
  lemma ColumnsAreConservedExactly(rolled: seq<RolledRow>, rows: seq<BranchRow>, ps: seq<int>)
    requires IsRollUp(rolled, rows, ps)
    ensures NoneNegative(Orders(), rows) ==> (Sum(RolledOrders(), rolled) == Sum(Orders(), rows) <==> ReplacesZeros(Orders(), rows))
    ensures NoneNegative(Fulfilled(), rows) ==>
              (Sum(RolledFulfilled(), rolled) == Sum(Fulfilled(), rows) <==> ReplacesZeros(Fulfilled(), rows))
    ensures NoneNegative(Money(Revenue()), rows) ==>
              (Sum(RolledRevenue(), rolled) == Sum(Money(Revenue()), rows) <==> ReplacesZeros(Money(Revenue()), rows))
    ensures NoneNegative(Money(Refunds()), rows) ==>
              (Sum(RolledRefunds(), rolled) == Sum(Money(Refunds()), rows) <==> ReplacesZeros(Money(Refunds()), rows))
  {
    ColumnTotals(rolled, rows, ps);
    ConservedExactly(RolledOrders(), Orders(), rolled, rows);
    ConservedExactly(RolledFulfilled(), Fulfilled(), rolled, rows);
    ConservedExactly(RolledRevenue(), Money(Revenue()), rolled, rows);
    ConservedExactly(RolledRefunds(), Money(Refunds()), rolled, rows);
  }

  /** Every family has one row and it hides a money column only when every member hides it; every branch outside a family is kept. */
  lemma RowsOfTheRollUp(rolled: seq<RolledRow>, rows: seq<BranchRow>, ps: seq<int>, p: int)
    requires IsRollUp(rolled, rows, ps) && HasFamily(rows, p)
    ensures var members, row := Members(FamilyIn(rows, p)), RolledFamily(rows)(p);
            && row in rolled && row.row.id == FamilyOf(p) && row.memberCount == |members| > 0
            && (row.row.revenue == None <==> forall m :: m in members ==> m.revenue == None)
            && (row.row.refunds == None <==> forall m :: m in members ==> m.refunds == None)
    ensures |rolled| == |ps| + |Filter(OnItsOwn(), rows)|
    ensures forall r :: r in rows && OnItsOwn()(r) ==> RolledRow(r, 1, 0) in rolled
  {
    var alone, families := Mapped(Alone(), Filter(OnItsOwn(), rows)), Mapped(RolledFamily(rows), ps);
    SameElements(rolled, alone + families);
    FamiliesHaveMembers(rows, p);
    var i :| 0 <= i < |ps| && ps[i] == p;
    assert families[i] == RolledFamily(rows)(p) && families[i] in alone + families;
    MoneyOfMembers(Revenue(), Members(FamilyIn(rows, p)));
    MoneyOfMembers(Refunds(), Members(FamilyIn(rows, p)));
    forall r | r in rows && OnItsOwn()(r) { OnItsOwnIsKept(rows, r); }
    assert forall x :: x in alone ==> x in alone + families;
  }

  lemma OnItsOwnIsKept(rows: seq<BranchRow>, r: BranchRow)
    requires r in rows && OnItsOwn()(r)
    ensures Alone()(r) in Mapped(Alone(), Filter(OnItsOwn(), rows))
  {
    var own := Filter(OnItsOwn(), rows);
    var j :| 0 <= j < |own| && own[j] == r;
    assert Mapped(Alone(), own)[j] == Alone()(r);
  }

  // ---- A family's row, read off its members ----

  /** A family stands under its parent's name and status, or under what its first child says of the parent when the report
      has no row of it; it is a parent branch with no parent, and counts its members and its children. */
  lemma FamiliesReadAsTheirParent(rows: seq<BranchRow>, p: int)
    requires HasFamily(rows, p)
    ensures var row, parent, children := RolledFamily(rows)(p), LastParent(rows, p), ChildrenOf(rows, p);
            && row.row.role == Parent && row.row.parentBranchId == None && row.row.parentBranchName == None
            && row.childCount == |children|
            && row.memberCount == |children| + (if parent.Some? then 1 else 0)
            && (parent.Some? ==> row.row.name == parent.value.name && row.row.status == parent.value.status)
            && (parent == None ==>
                  && children != []
                  && row.row.status == children[0].parentBranchStatus
                  && row.row.name == match children[0].parentBranchName case Some(name) => Given(name) case None => BranchNumber(p))
    ensures var row, parent, children := RolledFamily(rows)(p), LastParent(rows, p), ChildrenOf(rows, p);
            && row.row.totalOrders == Sum(Orders(), children) + (if parent.Some? then parent.value.totalOrders else 0)
            && row.row.fulfilledOrders == Sum(Fulfilled(), children) + (if parent.Some? then parent.value.fulfilledOrders else 0)
  {
    FamiliesHaveMembers(rows, p);
    var family := FamilyIn(rows, p);
    if family.parent.Some? { assert ([family.parent.value] + family.children)[1..] == family.children; }
  }

  /** The children of a family are the report's child rows that name it. */
  lemma ChildrenNameTheirParent(rows: seq<BranchRow>, p: int, row: BranchRow)
    ensures row in ChildrenOf(rows, p) <==> row in rows && row.role == Child && row.parentBranchId == Some(p) && p != 0
  {
  }

  /** Largest revenue first, hidden revenue as none, and of one revenue the most orders first. */
  lemma RollUpsStandLargestFirst(rolled: seq<RolledRow>, rows: seq<BranchRow>, ps: seq<int>, i: nat, j: nat)
    requires IsRollUp(rolled, rows, ps) && i < j < |rolled|
    ensures OrZero(rolled[i].row.revenue) >= OrZero(rolled[j].row.revenue)
    ensures OrZero(rolled[i].row.revenue) == OrZero(rolled[j].row.revenue) ==> rolled[i].row.totalOrders >= rolled[j].row.totalOrders
  {
    assert LargestFirst()(rolled[i], rolled[j]);
  }
}
