/** The branch totals a requester's share is measured against (lib/budget-burn-risk.ts),
    and how they stay in step with the listed requesters. */
module BranchMonths {
  import opened Counting
  import opened CreatorSummaries
  import opened Gathering
  import opened InsertionMaps
  import opened KeyedRows
  import opened Sorting
  import opened Sums

  predicate IsRequester(row: Creator) { row.data.role == "ORDER_PORTAL" || row.data.role == "GROUP_ORDER_PORTAL" }

  function ConsumedOf(): Creator -> int { (r: Creator) => Consumed(r) }

  function ConsumedAt(b: int): Creator -> int { (r: Creator) => if r.key.branchId == b then Consumed(r) else 0 }

  function OthersAt(b: int): Creator -> int {
    (r: Creator) => if r.key.branchId == b && !IsRequester(r) then Consumed(r) else 0
  }

  function RequestersAt(b: int): Creator -> int {
    (r: Creator) => if r.key.branchId == b && IsRequester(r) then Consumed(r) else 0
  }

  function ActiveAt(b: int): Creator -> int {
    (r: Creator) => if r.key.branchId == b && IsRequester(r) && Consumed(r) > 0 then 1 else 0
  }

  function Requesters(rows: seq<Creator>): seq<Creator>
    decreases |rows|
  {
    if rows == [] then []
    else
      var before, last := Requesters(rows[..|rows| - 1]), rows[|rows| - 1];
      if IsRequester(last) then before + [last] else before
  }

  function BudgetOf(budgets: map<int, Budget>, b: int): Budget { if b in budgets then budgets[b] else Budget(0, 0) }

  function BranchOf(b: int, rows: seq<Creator>, budgets: map<int, Budget>): BranchMonth {
    BranchMonth(b, Sum(ConsumedAt(b), rows), Sum(OthersAt(b), rows), Sum(ActiveAt(b), rows),
                BudgetOf(budgets, b).totalCents, BudgetOf(budgets, b).remainingCents)
  }

  function BranchesOf(rows: seq<Creator>): set<int> { set r | r in rows :: r.key.branchId }

  function Funded(budgets: map<int, Budget>): set<int> { set b | b in budgets && budgets[b].totalCents > 0 }

  /** Every branch with rows, and every branch with a budget though nobody ordered there. */
  function Branches(rows: seq<Creator>, budgets: map<int, Budget>): map<int, BranchMonth> {
    map b | b in BranchesOf(rows) + Funded(budgets) :: BranchOf(b, rows, budgets)
  }

  function OrderingBranches(rows: seq<Creator>, budgets: map<int, Budget>): map<int, BranchMonth> {
    map b | b in BranchesOf(rows) :: BranchOf(b, rows, budgets)
  }

  lemma BranchOfOneMore(b: int, rows: seq<Creator>, row: Creator, budgets: map<int, Budget>)
    ensures BranchOf(b, rows + [row], budgets) ==
              if b == row.key.branchId then Booked(BranchOf(b, rows, budgets), row) else BranchOf(b, rows, budgets)
  {
    SumOfOneMore(ConsumedAt(b), rows, row);
    SumOfOneMore(OthersAt(b), rows, row);
    SumOfOneMore(ActiveAt(b), rows, row);
  }

  lemma BranchOfNobody(b: int, rows: seq<Creator>, budgets: map<int, Budget>)
    requires b !in BranchesOf(rows)
    ensures BranchOf(b, rows, budgets) == BranchMonth(b, 0, 0, 0, BudgetOf(budgets, b).totalCents, BudgetOf(budgets, b).remainingCents)
  {
    SumOfZeros(ConsumedAt(b), rows);
    SumOfZeros(OthersAt(b), rows);
    SumOfZeros(ActiveAt(b), rows);
  }

  lemma BranchesOfOneMore(rows: seq<Creator>, row: Creator)
    ensures BranchesOf(rows + [row]) == BranchesOf(rows) + {row.key.branchId}
  {
    assert forall r :: r in rows + [row] <==> r in rows || r == row;
  }

  function Unused(b: int, budgets: map<int, Budget>): BranchMonth {
    BranchMonth(b, 0, 0, 0, BudgetOf(budgets, b).totalCents, BudgetOf(budgets, b).remainingCents)
  }

  /** One creator's row on its branch's totals so far. */
  function Booked(branch: BranchMonth, row: Creator): BranchMonth {
    BranchMonth(branch.branchId, branch.consumedCents + Consumed(row),
                branch.otherCreatorsConsumedCents + (if IsRequester(row) then 0 else Consumed(row)),
                branch.activeRequesterCount + (if IsRequester(row) && Consumed(row) > 0 then 1 else 0),
                branch.totalBudgetCents, branch.remainingCents)
  }

  lemma OrderingOfOneMore(rows: seq<Creator>, row: Creator, budgets: map<int, Budget>)
    ensures var before, b := OrderingBranches(rows, budgets), row.key.branchId;
            OrderingBranches(rows + [row], budgets) == before[b := Booked(SoFar(before, b, budgets), row)]
  {
    BranchesOfOneMore(rows, row);
    if row.key.branchId !in BranchesOf(rows) { BranchOfNobody(row.key.branchId, rows, budgets); }
    forall b
      ensures BranchOf(b, rows + [row], budgets) ==
              if b == row.key.branchId then Booked(BranchOf(b, rows, budgets), row) else BranchOf(b, rows, budgets)
    {
      BranchOfOneMore(b, rows, row, budgets);
    }
  }

  function SoFar(branches: map<int, BranchMonth>, b: int, budgets: map<int, Budget>): BranchMonth {
    if b in branches then branches[b] else Unused(b, budgets)
  }

  method Book(branches: InsertionMap<int, BranchMonth>, row: Creator, budgets: map<int, Budget>)
    returns (booked: InsertionMap<int, BranchMonth>)
    requires branches.Valid()
    ensures booked == branches.Set(row.key.branchId, Booked(SoFar(branches.at, row.key.branchId, budgets), row))
  {
    var b, consumed := row.key.branchId, Consumed(row);
    var branch := if b in branches.at then branches.at[b]
                  else BranchMonth(b, 0, 0, 0, BudgetOf(budgets, b).totalCents, BudgetOf(budgets, b).remainingCents);
    branch := branch.(consumedCents := branch.consumedCents + consumed);
    if IsRequester(row) {
      if consumed > 0 { branch := branch.(activeRequesterCount := branch.activeRequesterCount + 1); }
    } else {
      branch := branch.(otherCreatorsConsumedCents := branch.otherCreatorsConsumedCents + consumed);
    }
    booked := branches.Set(b, branch);
  }

  function BranchIdOf(row: Creator): int { row.key.branchId }

  function IsFunded(budgets: map<int, Budget>): int -> bool { (b: int) => b in budgets && budgets[b].totalCents > 0 }

  /** The branches in the order they are met: those with rows first, then the funded ones nobody ordered at. */
  function BranchOrder(rows: seq<Creator>, budgets: InsertionMap<int, Budget>): seq<int> {
    Once(Mapped(BranchIdOf, rows) + Filter(IsFunded(budgets.at), budgets.keys))
  }

  method SummarizeCreators(rows: seq<Creator>, budgets: InsertionMap<int, Budget>)
    returns (requesters: seq<Creator>, branches: InsertionMap<int, BranchMonth>)
    requires budgets.Valid()
    ensures requesters == Requesters(rows)
    ensures branches.Valid() && branches.at == Branches(rows, budgets.at)
    ensures branches.keys == BranchOrder(rows, budgets)
  {
    requesters := [];
    branches := Empty();
    assert OrderingBranches(rows[..0], budgets.at) == map[];
    assert Mapped(BranchIdOf, rows[..0]) == [];
    for i := 0 to |rows|
      invariant requesters == Requesters(rows[..i])
      invariant BookedSoFar(branches, rows[..i], budgets.at)
    {
      OneMoreRow(rows, i, budgets.at);
      BookNext(branches, rows, i, budgets.at);
      if IsRequester(rows[i]) { requesters := requesters + [rows[i]]; }
      branches := Book(branches, rows[i], budgets.at);
    }
    assert rows[..|rows|] == rows;
    NoneAddedYet(branches, rows, budgets);
    branches := AddQuietBranches(rows, budgets, branches);
    AllAdded(branches, rows, budgets);
  }

  /** The branches with rows, each where it is first met. */
  ghost predicate BookedSoFar(branches: InsertionMap<int, BranchMonth>, rows: seq<Creator>, budgets: map<int, Budget>) {
    branches.Valid() && branches.at == OrderingBranches(rows, budgets) && branches.keys == Once(Mapped(BranchIdOf, rows))
  }

  lemma BookNext(branches: InsertionMap<int, BranchMonth>, rows: seq<Creator>, i: nat, budgets: map<int, Budget>)
    requires i < |rows| && BookedSoFar(branches, rows[..i], budgets)
    ensures BookedSoFar(branches.Set(rows[i].key.branchId, Booked(SoFar(branches.at, rows[i].key.branchId, budgets), rows[i])), rows[..i + 1], budgets)
  {
    var b := rows[i].key.branchId;
    MappedOfOneMore(BranchIdOf, rows, i);
    OnceOfOneMore(Mapped(BranchIdOf, rows[..i]), b);
    assert b in branches.at <==> b in branches.keys;
    OneMoreRow(rows, i, budgets);
  }

  lemma OneMoreRow(rows: seq<Creator>, i: nat, budgets: map<int, Budget>)
    requires i < |rows|
    ensures var before, b := OrderingBranches(rows[..i], budgets), rows[i].key.branchId;
            OrderingBranches(rows[..i + 1], budgets) == before[b := Booked(SoFar(before, b, budgets), rows[i])]
    ensures Requesters(rows[..i + 1]) == Requesters(rows[..i]) + if IsRequester(rows[i]) then [rows[i]] else []
  {
    assert rows[..i + 1] == rows[..i] + [rows[i]] && rows[..i + 1][..i] == rows[..i];
    OrderingOfOneMore(rows[..i], rows[i], budgets);
  }

  lemma OneMoreBudget(rows: seq<Creator>, budgets: InsertionMap<int, Budget>, i: nat)
    requires i < |budgets.keys|
    ensures var before := Mapped(BranchIdOf, rows) + Filter(IsFunded(budgets.at), budgets.keys[..i]);
            Once(Mapped(BranchIdOf, rows) + Filter(IsFunded(budgets.at), budgets.keys[..i + 1])) ==
              if budgets.keys[i] in Once(before) || !IsFunded(budgets.at)(budgets.keys[i]) then Once(before)
              else Once(before) + [budgets.keys[i]]
  {
    var ids, b := Mapped(BranchIdOf, rows), budgets.keys[i];
    var before := ids + Filter(IsFunded(budgets.at), budgets.keys[..i]);
    assert budgets.keys[..i + 1] == budgets.keys[..i] + [b];
    FilterOfOneMore(IsFunded(budgets.at), budgets.keys[..i], b);
    if !IsFunded(budgets.at)(b) {
      assert Filter(IsFunded(budgets.at), budgets.keys[..i]) + [] == Filter(IsFunded(budgets.at), budgets.keys[..i]);
    } else {
      assert ids + (Filter(IsFunded(budgets.at), budgets.keys[..i]) + [b]) == before + [b];
      OnceOfOneMore(before, b);
    }
  }

  /** The ordering branches and those of the first `n` budgets, each where it is first met. */
  ghost predicate AddedSoFar(branches: InsertionMap<int, BranchMonth>, rows: seq<Creator>, budgets: InsertionMap<int, Budget>, n: nat)
    requires budgets.Valid() && n <= |budgets.keys|
  {
    && branches.Valid()
    && branches.keys == Once(Mapped(BranchIdOf, rows) + Filter(IsFunded(budgets.at), budgets.keys[..n]))
    && (forall b :: b in branches.at ==> branches.at[b] == BranchOf(b, rows, budgets.at))
  }

  lemma AddNext(branches: InsertionMap<int, BranchMonth>, rows: seq<Creator>, budgets: InsertionMap<int, Budget>, i: nat)
    requires budgets.Valid() && i < |budgets.keys| && AddedSoFar(branches, rows, budgets, i)
    ensures budgets.keys[i] in budgets.at
    ensures var b := budgets.keys[i];
            AddedSoFar(if b in branches.at || budgets.at[b].totalCents <= 0 then branches else branches.Set(b, Unused(b, budgets.at)),
                       rows, budgets, i + 1)
  {
    var b := budgets.keys[i];
    OneMoreBudget(rows, budgets, i);
    assert b in budgets.at;
    assert b in branches.at <==> b in branches.keys;
    if b !in branches.at { NotMetNobody(branches, rows, budgets, i, b); }
  }

  lemma NotMetNobody(branches: InsertionMap<int, BranchMonth>, rows: seq<Creator>, budgets: InsertionMap<int, Budget>, i: nat, b: int)
    requires budgets.Valid() && i <= |budgets.keys| && AddedSoFar(branches, rows, budgets, i) && b !in branches.at
    ensures Unused(b, budgets.at) == BranchOf(b, rows, budgets.at)
  {
    IdsOfRows(rows);
    assert b !in branches.keys;
    BranchOfNobody(b, rows, budgets.at);
  }

  lemma IdsOfRows(rows: seq<Creator>)
    ensures forall b :: b in Mapped(BranchIdOf, rows) <==> b in BranchesOf(rows)
  {
    forall b | b in BranchesOf(rows) ensures b in Mapped(BranchIdOf, rows) {
      var i :| 0 <= i < |rows| && rows[i].key.branchId == b;
      assert Mapped(BranchIdOf, rows)[i] == b;
    }
  }

  /** A budgeted branch where nobody ordered is still a peer, at nothing consumed. */
  method AddQuietBranches(ghost rows: seq<Creator>, budgets: InsertionMap<int, Budget>, ordering: InsertionMap<int, BranchMonth>)
    returns (branches: InsertionMap<int, BranchMonth>)
    requires budgets.Valid()
    requires AddedSoFar(ordering, rows, budgets, 0)
    ensures AddedSoFar(branches, rows, budgets, |budgets.keys|)
  {
    branches := ordering;
    for i := 0 to |budgets.keys|
      invariant AddedSoFar(branches, rows, budgets, i)
    {
      AddNext(branches, rows, budgets, i);
      var b := budgets.keys[i];
      if b in branches.at || budgets.at[b].totalCents <= 0 { continue; }
      branches := branches.Set(b, BranchMonth(b, 0, 0, 0, budgets.at[b].totalCents, budgets.at[b].remainingCents));
    }
  }

  lemma NoneAddedYet(ordering: InsertionMap<int, BranchMonth>, rows: seq<Creator>, budgets: InsertionMap<int, Budget>)
    requires budgets.Valid() && BookedSoFar(ordering, rows, budgets.at)
    ensures AddedSoFar(ordering, rows, budgets, 0)
  {
    assert Mapped(BranchIdOf, rows) + Filter(IsFunded(budgets.at), budgets.keys[..0]) == Mapped(BranchIdOf, rows);
  }

  lemma AllAdded(branches: InsertionMap<int, BranchMonth>, rows: seq<Creator>, budgets: InsertionMap<int, Budget>)
    requires budgets.Valid() && AddedSoFar(branches, rows, budgets, |budgets.keys|)
    ensures branches.at == Branches(rows, budgets.at) && branches.keys == BranchOrder(rows, budgets)
  {
    assert budgets.keys[..|budgets.keys|] == budgets.keys;
    IdsOfRows(rows);
    forall b ensures b in branches.at <==> b in BranchesOf(rows) + Funded(budgets.at) {
      assert b in branches.at <==> b in branches.keys;
      assert b in Funded(budgets.at) <==> b in Filter(IsFunded(budgets.at), budgets.keys);
    }
  }

  // ---- What the totals add up to ----

  lemma {:induction false} RequestersConsume(rows: seq<Creator>, b: int)
    ensures Sum(ConsumedAt(b), Requesters(rows)) == Sum(RequestersAt(b), rows)
    decreases |rows|
  {
    if rows != [] {
      var before, last := rows[..|rows| - 1], rows[|rows| - 1];
      assert rows == before + [last];
      RequestersConsume(before, b);
      SumOfOneMore(RequestersAt(b), before, last);
      if IsRequester(last) { SumOfOneMore(ConsumedAt(b), Requesters(before), last); }
    }
  }

  /** Each branch's consumption is its requesters' and its other creators', with nothing counted twice. */
  lemma BranchesSplit(rows: seq<Creator>, budgets: map<int, Budget>, b: int)
    requires b in Branches(rows, budgets)
    ensures Branches(rows, budgets)[b].consumedCents ==
            Sum(ConsumedAt(b), Requesters(rows)) + Branches(rows, budgets)[b].otherCreatorsConsumedCents
  {
    SumsAddUp(ConsumedAt(b), RequestersAt(b), OthersAt(b), rows);
    RequestersConsume(rows, b);
  }

  function Totals(rows: seq<Creator>): int -> int { (b: int) => Sum(ConsumedAt(b), rows) }

  function OnBranch(row: Creator): int -> int { (b: int) => ConsumedAt(b)(row) }

  /** Over any distinct branches covering the rows, the branch totals are the total of the rows. */
  lemma {:induction false} BranchesAddUp(rows: seq<Creator>, ids: seq<int>)
    requires forall i, j :: 0 <= i < j < |ids| ==> ids[i] != ids[j]
    requires forall r :: r in rows ==> r.key.branchId in ids
    ensures Sum(Totals(rows), ids) == Sum(ConsumedOf(), rows)
    decreases |rows|
  {
    if rows == [] {
      SumOfZeros(Totals(rows), ids);
    } else {
      var before, last := rows[..|rows| - 1], rows[|rows| - 1];
      assert rows == before + [last];
      BranchesAddUp(before, ids);
      SumOfOneMore(ConsumedOf(), before, last);
      forall b | b in ids ensures Totals(rows)(b) == Totals(before)(b) + OnBranch(last)(b) {
        SumOfOneMore(ConsumedAt(b), before, last);
      }
      SumsAddUp(Totals(rows), Totals(before), OnBranch(last), ids);
      SumOfOnly(OnBranch(last), ids, last.key.branchId);
    }
  }

  function BranchConsumed(): BranchMonth -> int { (b: BranchMonth) => b.consumedCents }

  /** The summarized branches' consumption is the month's consumption. */
  lemma SummaryAddsUp(rows: seq<Creator>, budgets: map<int, Budget>, branches: InsertionMap<int, BranchMonth>)
    requires branches.Valid() && branches.at == Branches(rows, budgets)
    ensures Sum(BranchConsumed(), branches.Values()) == Sum(ConsumedOf(), rows)
  {
    SumsMatch(BranchConsumed(), Totals(rows), branches.Values(), branches.keys);
    forall r | r in rows ensures r.key.branchId in branches.keys {
      assert r.key.branchId in BranchesOf(rows) && r.key.branchId in branches.at;
    }
    BranchesAddUp(rows, branches.keys);
  }

  /** The listed creators consume, at each branch, what the selected month's rows do:
      those listed only for an earlier month add nothing. */
  lemma ListedConsumeTheMonth(buckets: seq<seq<Creator>>, listed: seq<Creator>, f: Creator -> int)
    requires buckets != [] && IsListing(buckets, listed)
    requires OnePerKey(buckets[|buckets| - 1])
    requires forall r :: f(Absent(r)) == 0
    ensures Sum(f, listed) == Sum(f, buckets[|buckets| - 1])
  {
    var month := buckets[|buckets| - 1];
    forall r | r in month { TheMonthIsListed(buckets, listed, r); }
    forall r | r in listed && r !in month ensures f(r) == 0 {
      OthersAreAbsent(buckets, listed, r);
    }
    SumOverFewer(f, listed, month);
  }

  lemma TheMonthIsListed(buckets: seq<seq<Creator>>, listed: seq<Creator>, r: Creator)
    requires buckets != [] && IsListing(buckets, listed)
    requires OnePerKey(buckets[|buckets| - 1]) && r in buckets[|buckets| - 1]
    ensures r in listed
  {
    assert Newest(buckets, |buckets| - 1, r.key);
    ListingMeans(buckets, r.key);
    OnlyRow(buckets[|buckets| - 1], r);
  }

  lemma OthersAreAbsent(buckets: seq<seq<Creator>>, listed: seq<Creator>, r: Creator)
    requires buckets != [] && IsListing(buckets, listed)
    requires r in listed && r !in buckets[|buckets| - 1]
    ensures exists row :: r == Absent(row)
  {
    ListingMeans(buckets, r.key);
    var i := NewestOf(buckets, r.key);
    assert ListedFrom(buckets, i, r.key);
  }

  /** The listed requesters, whichever month they come from, and the month's other
      creators split the branch totals the shares are taken of: exactly, at every branch. */
  lemma ListedRequestersSplitTheBranches(buckets: seq<seq<Creator>>, listed: seq<Creator>, budgets: map<int, Budget>, b: int)
    requires buckets != [] && IsListing(buckets, listed)
    requires OnePerKey(buckets[|buckets| - 1])
    requires b in Branches(buckets[|buckets| - 1], budgets)
    ensures var branch := Branches(buckets[|buckets| - 1], budgets)[b];
            Sum(ConsumedAt(b), Requesters(listed)) + branch.otherCreatorsConsumedCents == branch.consumedCents
  {
    var month := buckets[|buckets| - 1];
    BranchesSplit(month, budgets, b);
    RequestersConsume(month, b);
    RequestersConsume(listed, b);
    ListedConsumeTheMonth(buckets, listed, RequestersAt(b));
  }

  // ---- The branch figures, read off the rows ----

  function At(b: int): Creator -> bool { (r: Creator) => r.key.branchId == b }

  function ActiveRequester(b: int): Creator -> bool {
    (r: Creator) => r.key.branchId == b && Consumed(r) > 0 && (r.data.role == "ORDER_PORTAL" || r.data.role == "GROUP_ORDER_PORTAL")
  }

  function OtherCreator(b: int): Creator -> bool {
    (r: Creator) => r.key.branchId == b && r.data.role != "ORDER_PORTAL" && r.data.role != "GROUP_ORDER_PORTAL"
  }

  /** A branch's figures: what its rows consumed, what those of no requester did, how many requesters consumed anything,
      and its budget and remainder, none when it has no budget. */
  lemma BranchFiguresAreTheRows(b: int, rows: seq<Creator>, budgets: map<int, Budget>)
    requires b in Branches(rows, budgets)
    ensures var branch := Branches(rows, budgets)[b];
            && branch.branchId == b
            && branch.consumedCents == Sum(ConsumedOf(), Filter(At(b), rows))
            && branch.otherCreatorsConsumedCents == Sum(ConsumedOf(), Filter(OtherCreator(b), rows))
            && branch.activeRequesterCount == |Filter(ActiveRequester(b), rows)|
            && (b in budgets ==> branch.totalBudgetCents == budgets[b].totalCents && branch.remainingCents == budgets[b].remainingCents)
            && (b !in budgets ==> branch.totalBudgetCents == 0 && branch.remainingCents == 0)
  {
    SumOfFiltered(ConsumedOf(), At(b), rows);
    SumOfFiltered(ConsumedOf(), OtherCreator(b), rows);
    SumsAgree(Only(ConsumedOf(), At(b)), ConsumedAt(b), rows);
    SumsAgree(Only(ConsumedOf(), OtherCreator(b)), OthersAt(b), rows);
    FilterIsCounted(ActiveRequester(b), rows);
    SumsAgree(One(ActiveRequester(b)), ActiveAt(b), rows);
  }

  /** The requesters are exactly the rows of the two portal roles, in order. */
  lemma {:induction false} RequestersAreTheRows(rows: seq<Creator>)
    ensures Requesters(rows) == Filter((r: Creator) => r.data.role == "ORDER_PORTAL" || r.data.role == "GROUP_ORDER_PORTAL", rows)
    decreases |rows|
  {
    if rows != [] {
      var before, last := rows[..|rows| - 1], rows[|rows| - 1];
      RequestersAreTheRows(before);
      assert rows == before + [last];
      FilterOfOneMore((r: Creator) => r.data.role == "ORDER_PORTAL" || r.data.role == "GROUP_ORDER_PORTAL", before, last);
    }
  }
}
