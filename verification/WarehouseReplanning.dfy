/** When the planner refuses, what a second run plans, and why the order the accounts arrive in does not matter. */
module WarehouseReplanning {
  import opened Claims
  import opened Options
  import opened Sorting
  import opened WarehouseMigration
  import opened WarehouseFirstMigration
  import opened WarehouseReach
  import opened WarehouseWritten
  import Decimal

  // ---- Exactly when a plan is refused ----

  /** The entry names an active account and an active warehouse. */
  ghost predicate EntryFits(input: MigrationInput, entry: MappingEntry) {
    var account := AccountNamed(input.accounts, entry.username);
    var warehouse := WarehouseWithId(input.warehouses, entry.warehouseId);
    account.Some? && account.value.isActive && warehouse.Some? && warehouse.value.isActive
  }

  /** The user a mapping entry names. */
  function UserOf(input: MigrationInput, entry: MappingEntry): Option<string> {
    match AccountNamed(input.accounts, entry.username)
    case None => None
    case Some(account) => Some(account.userId)
  }

  /** Every entry names an active account and warehouse, and no account is mapped to two warehouses. */
  ghost predicate MappingFits(input: MigrationInput, mapping: seq<MappingEntry>) {
    forall e :: e in mapping ==>
      EntryFits(input, e) && Lookup(Targets(input.accounts, mapping), UserOf(input, e).value) == Some(e.warehouseId)
  }

  ghost predicate SharersRead(accounts: seq<Account>, targets: map<string, nat>, collation: Collation) {
    forall a, v | a in accounts && v in accounts && a.userId in targets && Lookup(targets, a.userId) == Lookup(targets, v.userId) ::
      ReachKeys(a, collation) == ReachKeys(v, collation)
  }

  /** The input is one the planner was written for. */
  ghost predicate NothingToRefuse(input: MigrationInput, collation: Collation) {
    var targets := Targets(input.accounts, input.mapping);
    && MappingFits(input, input.mapping)
    && (forall a :: a in input.accounts && a.isActive && a.userId !in targets ==>
                      a.branchIds == [] && forall o, c :: !HoldsPair(a, o, c))
    && SharersRead(input.accounts, targets, collation)
    && Agreed(CityRuleHolders(input.existingRules), RuleClaims(input, collation))
    && Agreed(RouteHolders(input.existingRoutes), RouteClaims(input, collation))
    && (forall a :: a in input.accounts ==> MembershipRefusal(targets, input.existingMemberships, a) == [])
  }

  lemma {:induction false} TargetsComeFromEntries(input: MigrationInput, mapping: seq<MappingEntry>, u: string)
    requires u in Targets(input.accounts, mapping)
    ensures exists e :: e in mapping && UserOf(input, e) == Some(u) && e.warehouseId == Targets(input.accounts, mapping)[u]
    decreases |mapping|
  {
    var before, last := mapping[..|mapping| - 1], mapping[|mapping| - 1];
    assert mapping == before + [last];
    if UserOf(input, last) == Some(u) {
      assert last in mapping;
    } else {
      TargetsComeFromEntries(input, before, u);
      var e :| e in before && UserOf(input, e) == Some(u) && e.warehouseId == Targets(input.accounts, before)[u];
      assert e in mapping;
    }
  }

  lemma {:induction false} MappingRefusedExactly(input: MigrationInput, mapping: seq<MappingEntry>)
    ensures MappingRefusals(input, mapping) == [] <==> MappingFits(input, mapping)
    decreases |mapping|
  {
    if mapping != [] {
      var before, last := mapping[..|mapping| - 1], mapping[|mapping| - 1];
      assert mapping == before + [last];
      MappingRefusedExactly(input, before);
      if MappingFits(input, mapping) {
        forall e | e in before {
          FitsBefore(input, before, last, e);
        }
        LastFits(input, before, last);
      }
      if MappingFits(input, before) && EntryRefusals(input, before, last) == [] {
        StillFits(input, before, last);
      }
    }
  }

  lemma LastFits(input: MigrationInput, before: seq<MappingEntry>, last: MappingEntry)
    requires MappingFits(input, before + [last])
    ensures EntryRefusals(input, before, last) == []
  {
    var mapping := before + [last];
    assert mapping[..|mapping| - 1] == before;
    assert last in mapping && EntryFits(input, last);
    var u := UserOf(input, last).value;
    if u in Targets(input.accounts, before) {
      TargetsComeFromEntries(input, before, u);
      var e :| e in before && UserOf(input, e) == Some(u) && e.warehouseId == Targets(input.accounts, before)[u];
      assert e in mapping;
    }
  }

  lemma StillFits(input: MigrationInput, before: seq<MappingEntry>, last: MappingEntry)
    requires MappingFits(input, before) && EntryRefusals(input, before, last) == []
    ensures MappingFits(input, before + [last])
  {
    var mapping := before + [last];
    assert mapping[..|mapping| - 1] == before;
    assert EntryFits(input, last);
    forall e | e in mapping
      ensures EntryFits(input, e) && Lookup(Targets(input.accounts, mapping), UserOf(input, e).value) == Some(e.warehouseId)
    {
      assert e in before || e == last;
    }
  }

  lemma {:induction false} FitsBefore(input: MigrationInput, before: seq<MappingEntry>, last: MappingEntry, e: MappingEntry)
    requires MappingFits(input, before + [last]) && e in before
    ensures EntryFits(input, e) && Lookup(Targets(input.accounts, before), UserOf(input, e).value) == Some(e.warehouseId)
  {
    var mapping := before + [last];
    assert mapping[..|mapping| - 1] == before;
    assert e in mapping && last in mapping;
    var u := UserOf(input, e).value;
    if UserOf(input, last) == Some(u) {
      NamedIsMapped(input, before, e);
      TargetsComeFromEntries(input, before, u);
      var f :| f in before && UserOf(input, f) == Some(u) && f.warehouseId == Targets(input.accounts, before)[u];
      assert f in mapping;
    }
  }

  lemma {:induction false} NamedIsMapped(input: MigrationInput, mapping: seq<MappingEntry>, e: MappingEntry)
    requires e in mapping && UserOf(input, e).Some?
    ensures UserOf(input, e).value in Targets(input.accounts, mapping)
    decreases |mapping|
  {
    var before, last := mapping[..|mapping| - 1], mapping[|mapping| - 1];
    assert mapping == before + [last];
    if e != last {
      NamedIsMapped(input, before, e);
    }
  }

  lemma {:induction false} UnmappedRefusedExactly(accounts: seq<Account>, targets: map<string, nat>, collation: Collation)
    ensures UnmappedRefusals(accounts, targets, collation) == [] <==>
            forall a :: a in accounts && a.isActive && a.userId !in targets ==> ReachKeys(a, collation) == ""
  {
    if accounts != [] {
      assert accounts == [accounts[0]] + accounts[1..];
      UnmappedRefusedExactly(accounts[1..], targets, collation);
    }
  }

  lemma {:induction false} SharedRefusedExactly(accounts: seq<Account>, targets: map<string, nat>, collation: Collation)
    ensures SharedRefusals(accounts, targets, collation) == [] <==> SharersRead(accounts, targets, collation)
    decreases |accounts|
  {
    if SharersRead(accounts, targets, collation) && accounts != [] {
      var n := |accounts| - 1;
      assert accounts[..n + 1] == accounts;
      assert accounts == accounts[..n] + [accounts[n]];
      SharedOneMore(accounts, n, targets, collation);
      assert SharersRead(accounts[..n], targets, collation);
      SharedRefusedExactly(accounts[..n], targets, collation);
      assert accounts[n] in accounts;
    }
    if SharedRefusals(accounts, targets, collation) == [] {
      forall a, v | a in accounts && v in accounts && a.userId in targets && Lookup(targets, a.userId) == Lookup(targets, v.userId)
        ensures ReachKeys(a, collation) == ReachKeys(v, collation)
      {
        SharersMatchTheFirst(accounts, targets, collation, a);
        SharersMatchTheFirst(accounts, targets, collation, v);
      }
    }
  }

  lemma {:induction false} MembershipRefusedExactly(accounts: seq<Account>, targets: map<string, nat>, existing: seq<Membership>)
    ensures MembershipRefusals(accounts, targets, existing) == [] <==>
            forall a :: a in accounts ==> MembershipRefusal(targets, existing, a) == []
    decreases |accounts|
  {
    if accounts != [] {
      var n := |accounts| - 1;
      assert accounts == accounts[..n] + [accounts[n]];
      MembershipRefusedExactly(accounts[..n], targets, existing);
    }
  }

  /** A plan carries no refusal exactly when the input gives no reason for one. */
  lemma RefusedExactly(input: MigrationInput, collation: Collation)
    ensures AllRefusals(input, collation) == [] <==> NothingToRefuse(input, collation)
  {
    var targets := Targets(input.accounts, input.mapping);
    MappingRefusedExactly(input, input.mapping);
    HoldersAreMappedExactly(input.accounts, targets, collation);
    SortedAccountsRefuseExactly(input, targets, collation);
    NoObjectionMeansAgreed(CityRuleHolders(input.existingRules), RuleClaims(input, collation));
    NoObjectionMeansAgreed(RouteHolders(input.existingRoutes), RouteClaims(input, collation));
  }

  lemma HoldersAreMappedExactly(accounts: seq<Account>, targets: map<string, nat>, collation: Collation)
    ensures UnmappedRefusals(accounts, targets, collation) == [] <==>
            forall a :: a in accounts && a.isActive && a.userId !in targets ==> a.branchIds == [] && forall o, c :: !HoldsPair(a, o, c)
  {
    UnmappedRefusedExactly(accounts, targets, collation);
    forall a { HoldsNothingReadsEmpty(a, collation); }
  }

  lemma SortedAccountsRefuseExactly(input: MigrationInput, targets: map<string, nat>, collation: Collation)
    ensures var accounts := Sort(input.accounts, ByUsername(collation));
            && (SharedRefusals(accounts, targets, collation) == [] <==> SharersRead(input.accounts, targets, collation))
            && (MembershipRefusals(accounts, targets, input.existingMemberships) == [] <==>
                  forall a :: a in input.accounts ==> MembershipRefusal(targets, input.existingMemberships, a) == [])
  {
    var accounts := Sort(input.accounts, ByUsername(collation));
    SortKeepsAll(input.accounts, ByUsername(collation));
    SharedRefusedExactly(accounts, targets, collation);
    MembershipRefusedExactly(accounts, targets, input.existingMemberships);
    assert SharersRead(accounts, targets, collation) <==> SharersRead(input.accounts, targets, collation);
  }

  // ---- The comma ----

  /** Ali holds one city whose key holds a comma and a bar. */
  const ALI := Account("u1", "ali", true, ["x,1|y"], [1], [])

  /** Bano holds two cities of the same organization, and reads the same. */
  const BANO := Account("u2", "bano", true, ["x", "y"], [1], [])

  const COMMA_INPUT := MigrationInput(
    [ALI, BANO], [MappingEntry("ali", 7), MappingEntry("bano", 7)], [Warehouse(7, "KHI", true)], [], [], [])

  lemma CommaReadsAlike(collation: Collation)
    requires collation("1|x", "1|y")
    ensures ReachKeys(ALI, collation) == ReachKeys(BANO, collation)
  {
    assert PairsOf([1], ["x,1|y"]) == [(1, "x,1|y")] + PairsOf([1][1..], ["x,1|y"]) == [(1, "x,1|y")];
    assert Decimal.Text(1) == "1";
    assert PairText((1, "x,1|y")) == "1|x,1|y" && PairText((1, "x")) == "1|x" && PairText((1, "y")) == "1|y";
    assert HoldingTexts(ALI) == ["1|x,1|y"];
    assert Sort(["1|x,1|y"], collation) == ["1|x,1|y"] by { assert ["1|x,1|y"][1..] == []; }
    assert PairsOf([1], ["x", "y"]) == [(1, "x"), (1, "y")] + PairsOf([1][1..], ["x", "y"]) == [(1, "x"), (1, "y")];
    assert HoldingTexts(BANO) == ["1|x", "1|y"];
    assert ["1|x", "1|y"][1..] == ["1|y"] && ["1|y"][1..] == [];
    assert Sort(["1|y"], collation) == ["1|y"];
    assert Sort(["1|x", "1|y"], collation) == ["1|x", "1|y"];
    assert Decimal.Join(["1|x", "1|y"], ',') == "1|x" + [','] + Decimal.Join(["1|x", "1|y"][1..], ',') == "1|x,1|y";
  }

  lemma CommaTargets()
    ensures Targets(COMMA_INPUT.accounts, COMMA_INPUT.mapping) == map["u1" := 7, "u2" := 7]
    ensures MappingFits(COMMA_INPUT, COMMA_INPUT.mapping)
  {
    var input := COMMA_INPUT;
    assert input.mapping[..1] == [MappingEntry("ali", 7)] && input.mapping[..1][..0] == [];
    assert AccountNamed(input.accounts, "ali") == Some(ALI) by { assert input.accounts[..1] == [ALI]; }
    assert AccountNamed(input.accounts, "bano") == Some(BANO);
    assert Targets(input.accounts, input.mapping[..1]) == map["u1" := 7];
  }

  /** Accounts mapped to one warehouse, with nothing configured, make no claims that disagree. */
  lemma OneWarehouseAgrees(input: MigrationInput, collation: Collation, w: nat)
    requires NothingConfigured(input)
    requires forall a :: a in input.accounts ==> Target(input, a) == Some(w)
    ensures Agreed(CityRuleHolders(input.existingRules), RuleClaims(input, collation))
    ensures Agreed(RouteHolders(input.existingRoutes), RouteClaims(input, collation))
  {
    RuleClaimsAreHoldings(input, collation);
    RouteClaimsAreHoldings(input, collation);
    forall c | c in RuleClaims(input, collation) ensures c.warehouseId == w {
      var a :| MappedTo(input, a, c.warehouseId);
    }
    forall c | c in RouteClaims(input, collation) ensures c.warehouseId == w {
      var a :| MappedTo(input, a, c.warehouseId);
    }
  }

  lemma AlikeIsNotRefused(input: MigrationInput, collation: Collation, w: nat)
    requires NothingConfigured(input) && MappingFits(input, input.mapping)
    requires forall a :: a in input.accounts ==> Target(input, a) == Some(w)
    requires forall a, v :: a in input.accounts && v in input.accounts ==> ReachKeys(a, collation) == ReachKeys(v, collation)
    ensures NothingToRefuse(input, collation)
  {
    OneWarehouseAgrees(input, collation, w);
  }

  /** Two accounts that read alike and hold different branches are put on one warehouse without a refusal, and one gains. */
  lemma ReadingAlikeGains(input: MigrationInput, collation: Collation, plan: MigrationPlan, a: Account, v: Account, w: nat)
    requires TotalOrder(collation) && IsPlanFor(input, collation, plan)
    requires NothingConfigured(input) && MappingFits(input, input.mapping)
    requires input.accounts == [a, v] && a.userId != v.userId && a.username != v.username
    requires Target(input, a) == Some(w) && Target(input, v) == Some(w)
    requires ReachKeys(a, collation) == ReachKeys(v, collation) && !SameHoldings(a, v)
    ensures plan.refusals == [] && !GainsNothing(input, plan)
  {
    TwoAlikeAreNotRefused(input, collation, a, v, w);
    TwoPeersDiffer(input, a, v);
    ExactlyWhenNothingIsGained(input, collation, plan);
  }

  lemma TwoAlikeAreNotRefused(input: MigrationInput, collation: Collation, a: Account, v: Account, w: nat)
    requires TotalOrder(collation) && NothingConfigured(input) && MappingFits(input, input.mapping)
    requires input.accounts == [a, v] && Target(input, a) == Some(w) && Target(input, v) == Some(w)
    requires ReachKeys(a, collation) == ReachKeys(v, collation)
    ensures AllRefusals(input, collation) == []
  {
    forall x | x in input.accounts ensures x == a || x == v {}
    AlikeIsNotRefused(input, collation, w);
    RefusedExactly(input, collation);
  }

  lemma TwoPeersDiffer(input: MigrationInput, a: Account, v: Account)
    requires input.accounts == [a, v] && Target(input, a).Some? && Target(input, a) == Target(input, v) && !SameHoldings(a, v)
    ensures !PeersHoldTheSame(input)
  {
    assert input.accounts[0] == a && input.accounts[1] == v;
  }

  /** With a comma in a city key, two accounts of one warehouse can read alike and hold different branches:
      the plan is not refused, and an account gains branches of the other. */
  lemma CommaLetsAnAccountGain(collation: Collation, plan: MigrationPlan)
    requires TotalOrder(collation) && collation("1|x", "1|y")
    requires IsPlanFor(COMMA_INPUT, collation, plan)
    ensures plan.refusals == [] && !GainsNothing(COMMA_INPUT, plan)
  {
    CommaTargets();
    CommaReadsAlike(collation);
    CommaAccountsDiffer();
    ReadingAlikeGains(COMMA_INPUT, collation, plan, ALI, BANO, 7);
  }

  lemma CommaAccountsDiffer()
    ensures ALI.userId != BANO.userId && ALI.username != BANO.username && !SameHoldings(ALI, BANO)
  {
    assert ALI.userId[1] != BANO.userId[1] && ALI.username[0] != BANO.username[0];
    assert HoldsPair(BANO, 1, "x") && !HoldsPair(ALI, 1, "x");
  }

  // ---- The comparison of sharers, read as holdings ----

  /** Without commas and with everything held once, sharers are refused exactly when two of them hold different things. */
  lemma SharersAreComparedExactly(input: MigrationInput, collation: Collation)
    requires TotalOrder(collation)
    requires forall a :: a in input.accounts ==> NoCommas(a) && HeldOnce(a)
    ensures SharedRefusals(Sort(input.accounts, ByUsername(collation)), Targets(input.accounts, input.mapping), collation) == []
            <==> PeersHoldTheSame(input)
  {
    SortedAccountsRefuseExactly(input, Targets(input.accounts, input.mapping), collation);
    if PeersHoldTheSame(input) { SameHoldingsRead(input, collation); }
    if SharersRead(input.accounts, Targets(input.accounts, input.mapping), collation) { ReadingAlikeHoldsTheSame(input, collation); }
  }

  lemma SameHoldingsRead(input: MigrationInput, collation: Collation)
    requires TotalOrder(collation) && PeersHoldTheSame(input)
    requires forall a :: a in input.accounts ==> HeldOnce(a)
    ensures SharersRead(input.accounts, Targets(input.accounts, input.mapping), collation)
  {
    var targets := Targets(input.accounts, input.mapping);
    forall a, v | a in input.accounts && v in input.accounts && a.userId in targets && Lookup(targets, a.userId) == Lookup(targets, v.userId)
      ensures ReachKeys(a, collation) == ReachKeys(v, collation)
    {
      assert Target(input, a).Some? && Target(input, a) == Target(input, v);
      SameHoldingsReadAlike(a, v, collation);
    }
  }

  lemma ReadingAlikeHoldsTheSame(input: MigrationInput, collation: Collation)
    requires SharersRead(input.accounts, Targets(input.accounts, input.mapping), collation)
    requires forall a :: a in input.accounts ==> NoCommas(a)
    ensures PeersHoldTheSame(input)
  {
    forall a, v | a in input.accounts && v in input.accounts && Target(input, a).Some? && Target(input, a) == Target(input, v)
      ensures SameHoldings(a, v)
    {
      ReachKeysTellHoldingsApart(a, v, collation);
    }
  }

  /** When no city key holds a comma, a written plan's accounts of one warehouse hold the same, and the first
      migration reproduces every reach exactly when no branch is split between warehouses. */
  lemma NoCommasNeedNoSplit(input: MigrationInput, collation: Collation, plan: MigrationPlan, directory: Directory)
    requires Writable(input, collation, plan) && NothingConfigured(input)
    requires forall a :: a in input.accounts ==> NoCommas(a)
    ensures PeersHoldTheSame(input) && GainsNothing(input, plan)
    ensures Reproduces(input, plan, directory) <==> NoSplitBranches(input, directory)
  {
    RefusedExactly(input, collation);
    ReadingAlikeHoldsTheSame(input, collation);
    ExactlyWhenNothingIsGained(input, collation, plan);
    WrittenPlansMove(input, collation, plan);
    SameHoldingsServeTheSame(input, directory);
    ReachIsReproduced(input, collation, plan, directory);
  }

  // ---- A branch lost ----

  /** Ali holds a city at one warehouse. */
  const CITY_HOLDER := Account("u1", "ali", true, ["xy"], [1], [])

  /** Bano holds a branch at another. */
  const BRANCH_HOLDER := Account("u2", "bano", true, [], [], [5])

  const SPLIT_INPUT := MigrationInput(
    [CITY_HOLDER, BRANCH_HOLDER], [MappingEntry("ali", 7), MappingEntry("bano", 8)],
    [Warehouse(7, "KHI", true), Warehouse(8, "LHE", true)], [], [], [])

  lemma SplitTargets()
    ensures Targets(SPLIT_INPUT.accounts, SPLIT_INPUT.mapping) == map["u1" := 7, "u2" := 8]
    ensures MappingFits(SPLIT_INPUT, SPLIT_INPUT.mapping)
  {
    var input := SPLIT_INPUT;
    assert input.mapping[..1] == [MappingEntry("ali", 7)] && input.mapping[..1][..0] == [];
    assert AccountNamed(input.accounts, "ali") == Some(CITY_HOLDER) by { assert input.accounts[..1] == [CITY_HOLDER]; }
    assert AccountNamed(input.accounts, "bano") == Some(BRANCH_HOLDER);
    assert Targets(input.accounts, input.mapping[..1]) == map["u1" := 7];
  }

  /** One account with pairs and one with single branches, at warehouses of their own, make no claims that disagree. */
  lemma PairsAndSinglesAgree(input: MigrationInput, collation: Collation, a: Account, v: Account)
    requires NothingConfigured(input) && input.accounts == [a, v] && a.branchIds == [] && v.organizationIds == []
    ensures Agreed(CityRuleHolders(input.existingRules), RuleClaims(input, collation))
    ensures Agreed(RouteHolders(input.existingRoutes), RouteClaims(input, collation))
  {
    RuleClaimsAreHoldings(input, collation);
    RouteClaimsAreHoldings(input, collation);
    forall c | c in RuleClaims(input, collation) ensures Target(input, a) == Some(c.warehouseId) {
      var u :| MappedTo(input, u, c.warehouseId) && HoldsPair(u, c.key.0, c.key.1);
    }
    forall c | c in RouteClaims(input, collation) ensures Target(input, v) == Some(c.warehouseId) {
      var u :| MappedTo(input, u, c.warehouseId) && c.key in u.branchIds;
    }
  }

  /** A pair at one warehouse and a branch of that pair held singly at another: the plan is not refused, and the
      branch is lost to the account that holds the pair. */
  lemma ASplitBranchIsLost(collation: Collation, plan: MigrationPlan)
    requires TotalOrder(collation) && IsPlanFor(SPLIT_INPUT, collation, plan)
    ensures var directory := map[5 := Place(1, Some("xy"))];
            && plan.refusals == []
            && ServesToday(CITY_HOLDER, directory, 5)
            && !ServesAfter(Applied(SPLIT_INPUT, plan), CITY_HOLDER, directory, 5)
  {
    SplitIsNotRefused(collation);
    SplitAccounts();
    ExactlyTheLost(SPLIT_INPUT, collation, plan, CITY_HOLDER, map[5 := Place(1, Some("xy"))], 5);
  }

  lemma SplitIsNotRefused(collation: Collation)
    requires TotalOrder(collation)
    ensures AllRefusals(SPLIT_INPUT, collation) == []
  {
    SplitTargets();
    ApartIsNotRefused(SPLIT_INPUT, collation, CITY_HOLDER, BRANCH_HOLDER);
    RefusedExactly(SPLIT_INPUT, collation);
  }

  lemma ApartIsNotRefused(input: MigrationInput, collation: Collation, a: Account, v: Account)
    requires NothingConfigured(input) && MappingFits(input, input.mapping)
    requires input.accounts == [a, v] && a.branchIds == [] && v.organizationIds == []
    requires Target(input, a).Some? && Target(input, v).Some? && Target(input, a) != Target(input, v)
    ensures NothingToRefuse(input, collation)
  {
    PairsAndSinglesAgree(input, collation, a, v);
    forall x | x in input.accounts ensures x == a || x == v {}
  }

  lemma SplitAccounts()
    ensures UniqueAccounts(SPLIT_INPUT.accounts) && CITY_HOLDER in SPLIT_INPUT.accounts
    ensures ServesToday(CITY_HOLDER, map[5 := Place(1, Some("xy"))], 5)
    ensures HeldSinglyElsewhere(SPLIT_INPUT, CITY_HOLDER, 5)
  {
    SplitTargets();
    assert CITY_HOLDER.userId[1] != BRANCH_HOLDER.userId[1] && CITY_HOLDER.username[0] != BRANCH_HOLDER.username[0];
    assert SPLIT_INPUT.accounts[0] == CITY_HOLDER && SPLIT_INPUT.accounts[1] == BRANCH_HOLDER;
    assert HoldsPair(CITY_HOLDER, 1, "xy") by {
      assert CITY_HOLDER.organizationIds[0] == 1 && CITY_HOLDER.cityKeys[0] == "xy";
    }
    assert 5 in BRANCH_HOLDER.branchIds by { assert BRANCH_HOLDER.branchIds[0] == 5; }
  }

  // ---- Planning again ----

  /** The input of a second run, once the plan is written. */
  function Rerun(input: MigrationInput, plan: MigrationPlan): MigrationInput {
    var configuration := Applied(input, plan);
    input.(existingRules := configuration.rules, existingRoutes := configuration.routes, existingMemberships := configuration.memberships)
  }

  /** Nothing is planned for keys that all have a holder. */
  lemma NothingLeftToPlan<K(!new)>(existing: map<K, nat>, claims: seq<Claim<K>>)
    requires Agreed(existing, claims)
    ensures var final := Final(existing, Planned(existing, claims)); Planned(final, claims) == map[] && Agreed(final, claims)
  {
    AgreedClaimsAreKept(existing, claims);
    var final := Final(existing, Planned(existing, claims));
    assert Planned(final, claims).Keys == {};
  }

  lemma RerunHasNothingToPlan(input: MigrationInput, collation: Collation, plan: MigrationPlan)
    requires RulesFit(input, collation, plan) && RoutesFit(input, collation, plan) && ClaimsAgree(input, collation)
    ensures var rerun := Rerun(input, plan);
            && Planned(CityRuleHolders(rerun.existingRules), RuleClaims(rerun, collation)) == map[]
            && Agreed(CityRuleHolders(rerun.existingRules), RuleClaims(rerun, collation))
            && Planned(RouteHolders(rerun.existingRoutes), RouteClaims(rerun, collation)) == map[]
            && Agreed(RouteHolders(rerun.existingRoutes), RouteClaims(rerun, collation))
  {
    AppliedCityRules(input, collation, plan);
    AppliedRoutes(input, collation, plan);
    NothingLeftToPlan(CityRuleHolders(input.existingRules), RuleClaims(input, collation));
    NothingLeftToPlan(RouteHolders(input.existingRoutes), RouteClaims(input, collation));
  }

  lemma RerunHasNothingToRefuse(input: MigrationInput, collation: Collation, plan: MigrationPlan)
    requires Writable(input, collation, plan)
    ensures NothingToRefuse(Rerun(input, plan), collation)
  {
    RefusedExactly(input, collation);
    ClaimsOfWritablePlanAgree(input, collation, plan);
    RerunHasNothingToPlan(input, collation, plan);
    RerunFitsTheMapping(input, plan);
    RerunRefusesNoMembership(input, collation, plan);
  }

  lemma RerunFitsTheMapping(input: MigrationInput, plan: MigrationPlan)
    requires MappingFits(input, input.mapping)
    ensures MappingFits(Rerun(input, plan), input.mapping)
  {
    var rerun := Rerun(input, plan);
    assert forall e :: EntryFits(rerun, e) == EntryFits(input, e) && UserOf(rerun, e) == UserOf(input, e);
  }

  lemma RerunRefusesNoMembership(input: MigrationInput, collation: Collation, plan: MigrationPlan)
    requires MembershipsFit(input, collation, plan)
    requires MembershipRefusals(Sort(input.accounts, ByUsername(collation)), Targets(input.accounts, input.mapping), input.existingMemberships) == []
    ensures forall a :: a in input.accounts ==>
              MembershipRefusal(Targets(input.accounts, input.mapping), Applied(input, plan).memberships, a) == []
  {
    forall a | a in input.accounts
      ensures MembershipRefusal(Targets(input.accounts, input.mapping), Applied(input, plan).memberships, a) == []
    {
      if Target(input, a).Some? {
        MembershipsAreThere(input, collation, plan, a);
      }
    }
  }

  lemma RerunMissesNoMembership(input: MigrationInput, collation: Collation, plan: MigrationPlan)
    requires Writable(input, collation, plan)
    ensures MissingMemberships(Sort(input.accounts, ByUsername(collation)), Targets(input.accounts, input.mapping),
                               Applied(input, plan).memberships) == []
  {
    var accounts := Sort(input.accounts, ByUsername(collation));
    var missing := MissingMemberships(accounts, Targets(input.accounts, input.mapping), Applied(input, plan).memberships);
    SortKeepsAll(input.accounts, ByUsername(collation));
    forall m ensures m !in missing {
      if a :| a in accounts && a.userId == m.userId && Target(input, a) == Some(m.warehouseId) {
        MembershipsAreThere(input, collation, plan, a);
      }
    }
    EmptyOrNot(missing);
  }

  /** Running the planner again after a plan is written finds nothing to write and nothing to refuse. */
  lemma ReplanningPlansNothing(input: MigrationInput, collation: Collation, plan: MigrationPlan, again: MigrationPlan)
    requires Writable(input, collation, plan)
    requires IsPlanFor(Rerun(input, plan), collation, again)
    ensures again == MigrationPlan([], [], [], [])
  {
    ClaimsOfWritablePlanAgree(input, collation, plan);
    RerunHasNothingToPlan(input, collation, plan);
    RerunHasNothingToRefuse(input, collation, plan);
    RefusedExactly(Rerun(input, plan), collation);
    RerunMissesNoMembership(input, collation, plan);
    EmptyOrNot(again.rules);
    EmptyOrNot(again.routes);
  }

  // ---- The unique indexes ----

  /** One rule per organization and city, as the database's unique index has it. */
  ghost predicate OneRulePerCity(rules: seq<Rule>) {
    forall i, j :: 0 <= i < j < |rules| && rules[i].cityKey.Some? ==>
      rules[i].organizationId != rules[j].organizationId || rules[i].cityKey != rules[j].cityKey
  }

  ghost predicate OneRoutePerBranch(routes: seq<Route>) {
    forall i, j :: 0 <= i < j < |routes| ==> routes[i].branchId != routes[j].branchId
  }

  lemma {:induction false} RulesAreHeld(rules: seq<Rule>, r: Rule)
    requires r in rules && r.cityKey.Some?
    ensures (r.organizationId, r.cityKey.value) in CityRuleHolders(rules)
    decreases |rules|
  {
    var before, last := rules[..|rules| - 1], rules[|rules| - 1];
    assert rules == before + [last];
    if r != last {
      RulesAreHeld(before, r);
    }
  }

  lemma {:induction false} RoutesAreHeld(routes: seq<Route>, r: Route)
    requires r in routes
    ensures r.branchId in RouteHolders(routes)
    decreases |routes|
  {
    var before, last := routes[..|routes| - 1], routes[|routes| - 1];
    assert routes == before + [last];
    if r != last {
      RoutesAreHeld(before, r);
    }
  }

  /** Refused or not, writing a plan never gives an organization and city two rules, nor a branch two routes. */
  lemma PlansKeepTheUniqueIndexes(input: MigrationInput, collation: Collation, plan: MigrationPlan)
    requires RulesFit(input, collation, plan) && RoutesFit(input, collation, plan)
    requires OneRulePerCity(input.existingRules) && OneRoutePerBranch(input.existingRoutes)
    ensures OneRulePerCity(Applied(input, plan).rules) && OneRoutePerBranch(Applied(input, plan).routes)
  {
    var n, rules := |input.existingRules|, Applied(input, plan).rules;
    forall i, j | 0 <= i < j < |rules| && rules[i].cityKey.Some?
      ensures rules[i].organizationId != rules[j].organizationId || rules[i].cityKey != rules[j].cityKey
    {
      if j >= n {
        assert plan.rules[j - n] in plan.rules;
        if i < n {
          RulesAreHeld(input.existingRules, rules[i]);
        } else {
          assert (plan.rules[i - n].organizationId, plan.rules[i - n].cityKey) != (plan.rules[j - n].organizationId, plan.rules[j - n].cityKey);
        }
      }
    }
    var m, routes := |input.existingRoutes|, Applied(input, plan).routes;
    forall i, j | 0 <= i < j < |routes| ensures routes[i].branchId != routes[j].branchId {
      if j >= m {
        assert plan.routes[j - m] in plan.routes;
        if i < m {
          RoutesAreHeld(input.existingRoutes, routes[i]);
        }
      }
    }
  }

  // ---- The order the accounts arrive in ----

  lemma ArrivalOrderOfAccounts(a: seq<Account>, b: seq<Account>, collation: Collation)
    requires TotalOrder(collation) && UniqueAccounts(a) && multiset(a) == multiset(b)
    ensures Sort(a, ByUsername(collation)) == Sort(b, ByUsername(collation))
    ensures forall u :: AccountNamed(a, u) == AccountNamed(b, u)
  {
    OrdersAreTotal(collation);
    SameElements(a, b);
    forall x, y | x in a && y in a && x.username == y.username ensures x == y {
      var i :| 0 <= i < |a| && a[i] == x;
      var j :| 0 <= j < |a| && a[j] == y;
    }
    SortIgnoresArrivalOrder(a, b, ByUsername(collation));
  }

  lemma {:induction false} ArrivalOrderOfTargets(a: seq<Account>, b: seq<Account>, mapping: seq<MappingEntry>)
    requires forall u :: AccountNamed(a, u) == AccountNamed(b, u)
    ensures Targets(a, mapping) == Targets(b, mapping)
    decreases |mapping|
  {
    if mapping != [] {
      ArrivalOrderOfTargets(a, b, mapping[..|mapping| - 1]);
    }
  }

  /** Rules, routes and memberships do not depend on the order the accounts arrive in. */
  lemma PlanIgnoresArrivalOrder(input: MigrationInput, other: MigrationInput, collation: Collation, plan: MigrationPlan, otherPlan: MigrationPlan)
    requires TotalOrder(collation) && UniqueAccounts(input.accounts)
    requires other == input.(accounts := other.accounts) && multiset(input.accounts) == multiset(other.accounts)
    requires IsPlanFor(input, collation, plan)
    requires IsPlanFor(other, collation, otherPlan)
    ensures plan.rules == otherPlan.rules && plan.routes == otherPlan.routes && plan.memberships == otherPlan.memberships
  {
    ArrivalOrderOfAccounts(input.accounts, other.accounts, collation);
    ArrivalOrderOfTargets(input.accounts, other.accounts, input.mapping);
    assert RuleClaims(input, collation) == RuleClaims(other, collation);
    assert RouteClaims(input, collation) == RouteClaims(other, collation);
    DistinctIsASet(plan.rules, otherPlan.rules);
    OneListOfRules(plan.rules, otherPlan.rules, collation);
    OneListOfRoutes(plan.routes, otherPlan.routes);
  }

  lemma OneListOfRules(a: seq<PlannedRule>, b: seq<PlannedRule>, collation: Collation)
    requires TotalOrder(collation) && SortedBy(a, RuleLe(collation)) && SortedBy(b, RuleLe(collation))
    requires forall i, j :: 0 <= i < j < |a| ==> (a[i].organizationId, a[i].cityKey) != (a[j].organizationId, a[j].cityKey)
    requires multiset(a) == multiset(b)
    ensures a == b
  {
    forall x, y | x in a && y in a && RuleLe(collation)(x, y) && RuleLe(collation)(y, x) ensures x == y {
      var i :| 0 <= i < |a| && a[i] == x;
      var j :| 0 <= j < |a| && a[j] == y;
    }
    SortedIsUnique(a, b, RuleLe(collation));
  }

  lemma OneListOfRoutes(a: seq<Route>, b: seq<Route>)
    requires forall i, j :: 0 <= i < j < |a| ==> a[i].branchId < a[j].branchId
    requires forall i, j :: 0 <= i < j < |b| ==> b[i].branchId < b[j].branchId
    requires forall r :: r in a <==> r in b
    ensures a == b
  {
    DistinctIsASet(a, b);
    SortedIsUnique(a, b, RouteLe());
  }
}
