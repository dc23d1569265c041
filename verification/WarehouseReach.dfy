/** What an applied migration plan means: which branches each account works
    before and after, decided by the three-level precedence. */
module WarehouseReach {
  import opened Options
  import opened Sorting
  import opened WarehouseMigration
  import Decimal

  /** Where a branch is; a branch with no city has no city key. */
  datatype Place = Place(organizationId: nat, cityKey: Option<string>)

  type Directory = map<nat, Place>

  datatype Configuration = Configuration(rules: seq<Rule>, routes: seq<Route>, memberships: seq<Membership>)

  // ---- Reach ----

  /** A manual route, else the rule for the organization and city, else the rule for the organization. */
  function ResolveBranchWarehouse(manual: Option<nat>, cityRule: Option<nat>, organizationRule: Option<nat>): Option<nat> {
    if manual.Some? then manual else if cityRule.Some? then cityRule else organizationRule
  }

  function OrganizationRuleHolders(rules: seq<Rule>): map<nat, nat>
    decreases |rules|
  {
    if rules == [] then map[]
    else
      var rest, last := OrganizationRuleHolders(rules[..|rules| - 1]), rules[|rules| - 1];
      if last.cityKey.None? then rest[last.organizationId := last.warehouseId] else rest
  }

  function Lookup<K(==)>(m: map<K, nat>, k: K): Option<nat> {
    if k in m then Some(m[k]) else None
  }

  function WarehouseOf(configuration: Configuration, branchId: nat, place: Place): Option<nat> {
    ResolveBranchWarehouse(
      Lookup(RouteHolders(configuration.routes), branchId),
      if place.cityKey.Some? then Lookup(CityRuleHolders(configuration.rules), (place.organizationId, place.cityKey.value)) else None,
      Lookup(OrganizationRuleHolders(configuration.rules), place.organizationId))
  }

  predicate HoldsPair(a: Account, organizationId: nat, cityKey: string) {
    organizationId in a.organizationIds && cityKey in a.cityKeys
  }

  /** Today: an active account works its single branches and every branch in one of its pairs. */
  predicate ServesToday(a: Account, directory: Directory, branchId: nat) {
    && a.isActive
    && branchId in directory
    && (|| branchId in a.branchIds
        || (var place := directory[branchId];
            place.cityKey.Some? && HoldsPair(a, place.organizationId, place.cityKey.value)))
  }

  /** A membership as an operator whose scope admits the branch: all of the warehouse's branches, or this one selected. */
  predicate IsOperator(m: Membership, a: Account, branchId: nat) {
    && m.userId == a.userId && m.responsibility == WarehouseOperator
    && (m.branchScope.All? || branchId in m.branchScope.branchIds)
  }

  /** Through membership: an active operator works the branches of its warehouses, narrowed by its scope. */
  ghost predicate ServesAfter(configuration: Configuration, a: Account, directory: Directory, branchId: nat) {
    && a.isActive
    && branchId in directory
    && exists m :: m in configuration.memberships && IsOperator(m, a, branchId)
                   && WarehouseOf(configuration, branchId, directory[branchId]) == Some(m.warehouseId)
  }

  /** The same, and what the account works today among branches in no warehouse. */
  ghost predicate ServesWithFallback(configuration: Configuration, a: Account, directory: Directory, branchId: nat) {
    || ServesAfter(configuration, a, directory, branchId)
    || (ServesToday(a, directory, branchId) && WarehouseOf(configuration, branchId, directory[branchId]).None?)
  }

  /** The rows a plan writes. */
  function AsRules(rules: seq<PlannedRule>): seq<Rule> {
    seq(|rules|, i requires 0 <= i < |rules| => Rule(rules[i].warehouseId, rules[i].organizationId, Some(rules[i].cityKey)))
  }

  function AsMemberships(memberships: seq<PlannedMembership>): seq<Membership> {
    seq(|memberships|, i requires 0 <= i < |memberships| =>
      Membership(memberships[i].warehouseId, memberships[i].userId, WarehouseOperator, All))
  }

  function Applied(input: MigrationInput, plan: MigrationPlan): Configuration {
    Configuration(
      input.existingRules + AsRules(plan.rules),
      input.existingRoutes + plan.routes,
      input.existingMemberships + AsMemberships(plan.memberships))
  }

  // ---- What the accounts must look like ----

  /** The database's unique account ids and usernames. */
  ghost predicate UniqueAccounts(accounts: seq<Account>) {
    forall i, j :: 0 <= i < j < |accounts| ==> accounts[i].userId != accounts[j].userId && accounts[i].username != accounts[j].username
  }

  /** The warehouse an account is mapped to. */
  function Target(input: MigrationInput, a: Account): Option<nat> {
    Lookup(Targets(input.accounts, input.mapping), a.userId)
  }

  ghost predicate MappedTo(input: MigrationInput, a: Account, warehouseId: nat) {
    a in input.accounts && Target(input, a) == Some(warehouseId)
  }

  ghost predicate SameHoldings(a: Account, v: Account) {
    && (forall o, c :: HoldsPair(a, o, c) <==> HoldsPair(v, o, c))
    && (forall b :: b in a.branchIds <==> b in v.branchIds)
  }

  /** Two accounts mapped to one warehouse hold the same pairs and the same single branches. */
  ghost predicate PeersHoldTheSame(input: MigrationInput) {
    forall a, v :: a in input.accounts && v in input.accounts && Target(input, a).Some? && Target(input, a) == Target(input, v) ==>
      SameHoldings(a, v)
  }

  ghost predicate NothingConfigured(input: MigrationInput) {
    input.existingRules == [] && input.existingRoutes == [] && input.existingMemberships == []
  }

  /** A plan that may be written. */
  ghost predicate Writable(input: MigrationInput, collation: Collation, plan: MigrationPlan) {
    && TotalOrder(collation)
    && UniqueAccounts(input.accounts)
    && IsPlanFor(input, collation, plan)
    && plan.refusals == []
  }

  // ---- What an absence of refusals says ----

  /** With no mapping refusal, every mapped account is one of the active accounts. */
  lemma {:induction false} TargetsAreActive(input: MigrationInput, mapping: seq<MappingEntry>, userId: string)
    requires MappingRefusals(input, mapping) == []
    requires userId in Targets(input.accounts, mapping)
    ensures exists a :: a in input.accounts && a.userId == userId && a.isActive
    decreases |mapping|
  {
    var before, last := mapping[..|mapping| - 1], mapping[|mapping| - 1];
    assert EntryRefusals(input, before, last) == [];
    var account := AccountNamed(input.accounts, last.username);
    assert account.Some? && account.value.isActive;
    if account.value.userId != userId {
      TargetsAreActive(input, before, userId);
    }
  }

  lemma {:induction false} UnmappedHoldNothing(accounts: seq<Account>, targets: map<string, nat>, collation: Collation, a: Account)
    requires UnmappedRefusals(accounts, targets, collation) == []
    requires a in accounts && a.isActive && a.userId !in targets
    ensures a.branchIds == [] && forall o, c :: !HoldsPair(a, o, c)
  {
    if a == accounts[0] {
      HoldsNothingReadsEmpty(a, collation);
    } else {
      assert accounts == [accounts[0]] + accounts[1..];
      UnmappedHoldNothing(accounts[1..], targets, collation, a);
    }
  }

  lemma {:induction false} SharersMatchTheFirst(accounts: seq<Account>, targets: map<string, nat>, collation: Collation, a: Account)
    requires SharedRefusals(accounts, targets, collation) == []
    requires a in accounts && a.userId in targets
    ensures FirstMappedTo(accounts, targets, targets[a.userId]).Some?
    ensures ReachKeys(FirstMappedTo(accounts, targets, targets[a.userId]).value, collation) == ReachKeys(a, collation)
    decreases |accounts|
  {
    var n := |accounts| - 1;
    assert accounts[..n + 1] == accounts;
    SharedOneMore(accounts, n, targets, collation);
    if a != accounts[n] {
      assert accounts == accounts[..n] + [accounts[n]];
      SharersMatchTheFirst(accounts[..n], targets, collation, a);
    } else {
      assert SharedRefusal(accounts[..n], targets, collation, a) == [];
    }
  }

  lemma {:induction false} ExistingMembershipsFit(accounts: seq<Account>, targets: map<string, nat>, existing: seq<Membership>, a: Account)
    requires MembershipRefusals(accounts, targets, existing) == []
    requires a in accounts
    ensures MembershipRefusal(targets, existing, a) == []
    decreases |accounts|
  {
    var n := |accounts| - 1;
    if a != accounts[n] {
      assert accounts == accounts[..n] + [accounts[n]];
      ExistingMembershipsFit(accounts[..n], targets, existing, a);
    }
  }

  // ---- The reach string ----

  lemma PairHasText(a: Account, o: nat, c: string)
    requires HoldsPair(a, o, c)
    ensures PairText((o, c)) in HoldingTexts(a)
  {
    var pairs := PairsOf(a.organizationIds, a.cityKeys);
    var i :| 0 <= i < |pairs| && pairs[i] == (o, c);
    assert HoldingTexts(a)[i] == PairText((o, c));
  }

  lemma BranchHasText(a: Account, b: nat)
    requires b in a.branchIds
    ensures BranchText(b) in HoldingTexts(a)
  {
    var pairs := PairsOf(a.organizationIds, a.cityKeys);
    var i :| 0 <= i < |a.branchIds| && a.branchIds[i] == b;
    assert HoldingTexts(a)[|pairs| + i] == BranchText(b);
  }

  lemma TextIsOfHolding(a: Account, t: string)
    requires t in HoldingTexts(a)
    ensures (exists o, c :: HoldsPair(a, o, c) && t == PairText((o, c))) || (exists b :: b in a.branchIds && t == BranchText(b))
  {
    var pairs := PairsOf(a.organizationIds, a.cityKeys);
    var i :| 0 <= i < |HoldingTexts(a)| && HoldingTexts(a)[i] == t;
    if i < |pairs| {
      assert HoldsPair(a, pairs[i].0, pairs[i].1) && t == PairText((pairs[i].0, pairs[i].1));
    } else {
      assert a.branchIds[i - |pairs|] in a.branchIds && t == BranchText(a.branchIds[i - |pairs|]);
    }
  }

  lemma TextsOfHoldings(a: Account)
    ensures forall o, c :: HoldsPair(a, o, c) ==> PairText((o, c)) in HoldingTexts(a)
    ensures forall b :: b in a.branchIds ==> BranchText(b) in HoldingTexts(a)
    ensures forall t :: t in HoldingTexts(a) ==>
              (exists o, c :: HoldsPair(a, o, c) && t == PairText((o, c))) || (exists b :: b in a.branchIds && t == BranchText(b))
  {
    forall o: nat, c | HoldsPair(a, o, c) { PairHasText(a, o, c); }
    forall b | b in a.branchIds { BranchHasText(a, b); }
    forall t | t in HoldingTexts(a) { TextIsOfHolding(a, t); }
  }

  /** The reach string is empty exactly when the account holds nothing. */
  lemma HoldsNothingReadsEmpty(a: Account, collation: Collation)
    ensures ReachKeys(a, collation) == "" <==> a.branchIds == [] && forall o, c :: !HoldsPair(a, o, c)
  {
    var texts := HoldingTexts(a);
    TextsOfHoldings(a);
    SortKeepsAll(texts, collation);
    Decimal.JoinOfSome(Sort(texts, collation), ',');
    if texts != [] { assert texts[0] in texts; }
    if a.branchIds != [] { assert a.branchIds[0] in a.branchIds; }
  }

  lemma PairTextsAreDistinct(p: (nat, string), q: (nat, string))
    requires PairText(p) == PairText(q)
    ensures p == q
  {
    assert PairText(p) == Decimal.Text(p.0) + (['|'] + p.1);
    assert PairText(q) == Decimal.Text(q.0) + (['|'] + q.1);
    Decimal.SplitAtSeparator(Decimal.Text(p.0), ['|'] + p.1, Decimal.Text(q.0), ['|'] + q.1, '|');
    Decimal.ValueOfText(p.0);
    Decimal.ValueOfText(q.0);
    assert p.1 == (['|'] + p.1)[1..] && q.1 == (['|'] + q.1)[1..];
  }

  lemma TextsDiffer(p: (nat, string), b: nat)
    ensures PairText(p) != BranchText(b)
  {
    assert Decimal.IsDigit(PairText(p)[0]);
  }

  lemma BranchTextsAreDistinct(b: nat, d: nat)
    requires BranchText(b) == BranchText(d)
    ensures b == d
  {
    assert Decimal.Text(b) == BranchText(b)[1..] && Decimal.Text(d) == BranchText(d)[1..];
    Decimal.ValueOfText(b);
    Decimal.ValueOfText(d);
  }

  ghost predicate NoCommas(a: Account) {
    forall c :: c in a.cityKeys ==> ',' !in c
  }

  lemma TextsHaveNoCommas(a: Account)
    requires NoCommas(a)
    ensures forall t :: t in HoldingTexts(a) ==> t != [] && ',' !in t
  {
    TextsOfHoldings(a);
  }

  /** Without a comma in a city key, equal reach strings are equal holdings. */
  lemma ReachKeysTellHoldingsApart(a: Account, v: Account, collation: Collation)
    requires NoCommas(a) && NoCommas(v)
    requires ReachKeys(a, collation) == ReachKeys(v, collation)
    ensures SameHoldings(a, v)
  {
    SortKeepsAll(HoldingTexts(a), collation);
    SortKeepsAll(HoldingTexts(v), collation);
    TextsHaveNoCommas(a);
    TextsHaveNoCommas(v);
    Decimal.JoinIsInjective(Sort(HoldingTexts(a), collation), Sort(HoldingTexts(v), collation), ',');
    SameTextsSameHoldings(a, v);
    SameTextsSameHoldings(v, a);
  }

  /** The database's unique indexes on an account's branches, organizations and cities. */
  ghost predicate HeldOnce(a: Account) {
    && (forall i, j :: 0 <= i < j < |a.branchIds| ==> a.branchIds[i] != a.branchIds[j])
    && (forall i, j :: 0 <= i < j < |a.organizationIds| ==> a.organizationIds[i] != a.organizationIds[j])
    && (forall i, j :: 0 <= i < j < |a.cityKeys| ==> a.cityKeys[i] != a.cityKeys[j])
  }

  lemma {:induction false} PairsAreDistinct(organizations: seq<nat>, cities: seq<string>)
    requires forall i, j :: 0 <= i < j < |organizations| ==> organizations[i] != organizations[j]
    requires forall i, j :: 0 <= i < j < |cities| ==> cities[i] != cities[j]
    ensures forall i, j :: 0 <= i < j < |PairsOf(organizations, cities)| ==> PairsOf(organizations, cities)[i] != PairsOf(organizations, cities)[j]
  {
    if organizations != [] {
      var pairs, rest := PairsOf(organizations, cities), PairsOf(organizations[1..], cities);
      PairsAreDistinct(organizations[1..], cities);
      forall i, j | 0 <= i < j < |pairs| ensures pairs[i] != pairs[j] {
        if |cities| <= i {
          assert pairs[i] == rest[i - |cities|] && pairs[j] == rest[j - |cities|];
        } else if j < |cities| {
          assert pairs[i].1 == cities[i] && pairs[j].1 == cities[j];
        } else {
          assert pairs[j] == rest[j - |cities|] && (rest[j - |cities|].0, rest[j - |cities|].1) in rest;
          assert pairs[i].0 == organizations[0] && pairs[j].0 in organizations[1..];
        }
      }
    }
  }

  lemma TextsAreDistinct(a: Account)
    requires HeldOnce(a)
    ensures var texts := HoldingTexts(a); forall i, j :: 0 <= i < j < |texts| ==> texts[i] != texts[j]
  {
    var pairs, texts := PairsOf(a.organizationIds, a.cityKeys), HoldingTexts(a);
    PairsAreDistinct(a.organizationIds, a.cityKeys);
    forall i, j | 0 <= i < j < |texts| ensures texts[i] != texts[j] {
      if j < |pairs| {
        assert pairs[i] != pairs[j];
        if texts[i] == texts[j] { PairTextsAreDistinct(pairs[i], pairs[j]); }
      } else if i < |pairs| {
        TextsDiffer(pairs[i], a.branchIds[j - |pairs|]);
      } else if texts[i] == texts[j] {
        BranchTextsAreDistinct(a.branchIds[i - |pairs|], a.branchIds[j - |pairs|]);
      }
    }
  }

  /** Accounts that hold the same, each thing once, have one reach string, commas or not. */
  lemma SameHoldingsReadAlike(a: Account, v: Account, collation: Collation)
    requires TotalOrder(collation) && HeldOnce(a) && HeldOnce(v)
    requires SameHoldings(a, v)
    ensures ReachKeys(a, collation) == ReachKeys(v, collation)
  {
    TextsAreDistinct(a);
    TextsAreDistinct(v);
    SameHoldingsSameTexts(a, v);
    SameHoldingsSameTexts(v, a);
    DistinctIsASet(HoldingTexts(a), HoldingTexts(v));
    SortIgnoresArrivalOrder(HoldingTexts(a), HoldingTexts(v), collation);
  }

  lemma SameHoldingsSameTexts(a: Account, v: Account)
    requires SameHoldings(a, v)
    ensures forall t :: t in HoldingTexts(a) ==> t in HoldingTexts(v)
  {
    TextsOfHoldings(a);
    TextsOfHoldings(v);
  }

  /** Without commas, and with everything held once, the comparison the planner makes is the right one. */
  lemma ReachKeysCompareHoldings(a: Account, v: Account, collation: Collation)
    requires TotalOrder(collation) && NoCommas(a) && NoCommas(v) && HeldOnce(a) && HeldOnce(v)
    ensures ReachKeys(a, collation) == ReachKeys(v, collation) <==> SameHoldings(a, v)
  {
    if ReachKeys(a, collation) == ReachKeys(v, collation) {
      ReachKeysTellHoldingsApart(a, v, collation);
    } else if SameHoldings(a, v) {
      SameHoldingsReadAlike(a, v, collation);
    }
  }

  /** A branch listed twice reads apart from the same branch listed once. */
  lemma RepeatsReadApart(a: Account, collation: Collation)
    requires TotalOrder(collation) && a.organizationIds == []
    requires a.branchIds == [5]
    ensures SameHoldings(a, a.(branchIds := [5, 5]))
    ensures ReachKeys(a, collation) != ReachKeys(a.(branchIds := [5, 5]), collation)
  {
    var twice := a.(branchIds := [5, 5]);
    SortKeepsAll(HoldingTexts(a), collation);
    SortKeepsAll(HoldingTexts(twice), collation);
    TextsOfHoldings(a);
    TextsOfHoldings(twice);
    forall t | t in HoldingTexts(a) || t in HoldingTexts(twice) ensures t == BranchText(5) && ',' !in t {}
    assert |HoldingTexts(a)| == 1 && |HoldingTexts(twice)| == 2;
    if ReachKeys(a, collation) == ReachKeys(twice, collation) {
      Decimal.JoinIsInjective(Sort(HoldingTexts(a), collation), Sort(HoldingTexts(twice), collation), ',');
    }
  }

  lemma SameTextsSameHoldings(a: Account, v: Account)
    requires forall t :: t in HoldingTexts(a) ==> t in HoldingTexts(v)
    ensures forall o, c :: HoldsPair(a, o, c) ==> HoldsPair(v, o, c)
    ensures forall b :: b in a.branchIds ==> b in v.branchIds
  {
    TextsOfHoldings(a);
    TextsOfHoldings(v);
    forall o: nat, c | HoldsPair(a, o, c) ensures HoldsPair(v, o, c) {
      var t := PairText((o, c));
      forall b: nat { TextsDiffer((o, c), b); }
      var o': nat, c' :| HoldsPair(v, o', c') && t == PairText((o', c'));
      PairTextsAreDistinct((o, c), (o', c'));
    }
    forall b | b in a.branchIds ensures b in v.branchIds {
      var t := BranchText(b);
      forall o: nat, c { TextsDiffer((o, c), b); }
      var b' :| b' in v.branchIds && t == BranchText(b');
      BranchTextsAreDistinct(b, b');
    }
  }

  // ---- What is configured, read off the rows ----

  /** Of rules of one pair, rules of one organization, or routes of one branch, the last is meant; and there is a holder only
      where there is a row. */
  lemma {:induction false} LastRuleIsMeant(rules: seq<Rule>, i: nat)
    requires i < |rules|
    requires forall j :: i < j < |rules| ==> rules[j].organizationId != rules[i].organizationId || rules[j].cityKey != rules[i].cityKey
    ensures rules[i].cityKey.Some? ==> Lookup(CityRuleHolders(rules), (rules[i].organizationId, rules[i].cityKey.value)) == Some(rules[i].warehouseId)
    ensures rules[i].cityKey.None? ==> Lookup(OrganizationRuleHolders(rules), rules[i].organizationId) == Some(rules[i].warehouseId)
    decreases |rules|
  {
    var n := |rules| - 1;
    if i < n { LastRuleIsMeant(rules[..n], i); }
  }

  lemma {:induction false} HoldersHaveRules(rules: seq<Rule>, o: nat, c: string)
    ensures (o, c) in CityRuleHolders(rules) ==> exists r :: r in rules && r.organizationId == o && r.cityKey == Some(c)
    ensures o in OrganizationRuleHolders(rules) ==> exists r :: r in rules && r.organizationId == o && r.cityKey == None
    decreases |rules|
  {
    if rules != [] {
      var n := |rules| - 1;
      HoldersHaveRules(rules[..n], o, c);
      assert rules == rules[..n] + [rules[n]];
    }
  }

  lemma {:induction false} LastRouteIsMeant(routes: seq<Route>, i: nat)
    requires i < |routes| && forall j :: i < j < |routes| ==> routes[j].branchId != routes[i].branchId
    ensures Lookup(RouteHolders(routes), routes[i].branchId) == Some(routes[i].warehouseId)
    decreases |routes|
  {
    if i < |routes| - 1 { LastRouteIsMeant(routes[..|routes| - 1], i); }
  }

  /** A branch is in the warehouse of its route, else of its city's rule, else of its organization's, else in none. */
  lemma PrecedenceOfRows(configuration: Configuration, b: nat, place: Place)
    ensures var route := Lookup(RouteHolders(configuration.routes), b);
            var organization := Lookup(OrganizationRuleHolders(configuration.rules), place.organizationId);
            && (route.Some? ==> WarehouseOf(configuration, b, place) == route)
            && (route.None? && place.cityKey.None? ==> WarehouseOf(configuration, b, place) == organization)
            && (route.None? && place.cityKey.Some? ==>
                  var city := Lookup(CityRuleHolders(configuration.rules), (place.organizationId, place.cityKey.value));
                  WarehouseOf(configuration, b, place) == if city.Some? then city else organization)
  {
  }

  /** What an account works: today its own branches and those of its cities in its organizations; through membership the
      branches of a warehouse it operates, all of them or those selected. An inactive account works nothing. */
  lemma WorksByItsRows(configuration: Configuration, a: Account, directory: Directory, b: nat)
    ensures ServesToday(a, directory, b) <==>
              && a.isActive && b in directory
              && (b in a.branchIds
                  || (directory[b].organizationId in a.organizationIds
                      && exists c :: c in a.cityKeys && directory[b].cityKey == Some(c)))
    ensures ServesAfter(configuration, a, directory, b) <==>
              && a.isActive && b in directory
              && exists m :: m in configuration.memberships && m.userId == a.userId && m.responsibility == WarehouseOperator
                             && (m.branchScope == All || (m.branchScope.Selected? && b in m.branchScope.branchIds))
                             && WarehouseOf(configuration, b, directory[b]) == Some(m.warehouseId)
  {
  }
}
