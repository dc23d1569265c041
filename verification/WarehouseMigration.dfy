/** Turning each mapped account's own reach into rules, routes and memberships on
    shared warehouses (lib/apricart-warehouses.ts). Strings are ordered by an
    arbitrary total order, the collation. */
module WarehouseMigration {
  import opened Claims
  import opened InsertionMaps
  import opened Options
  import opened Sorting
  import Decimal

  type Collation = (string, string) -> bool

  datatype Account = Account(
    userId: string,
    username: string,
    isActive: bool,
    cityKeys: seq<string>,
    organizationIds: seq<nat>,
    branchIds: seq<nat>)

  datatype MappingEntry = MappingEntry(username: string, warehouseId: nat)

  datatype Warehouse = Warehouse(id: nat, code: string, isActive: bool)

  datatype Rule = Rule(warehouseId: nat, organizationId: nat, cityKey: Option<string>)

  datatype Route = Route(branchId: nat, warehouseId: nat)

  datatype Responsibility = WarehouseOperator | Executive

  datatype Scope = All | Selected(branchIds: set<nat>)

  datatype Membership = Membership(warehouseId: nat, userId: string, responsibility: Responsibility, branchScope: Scope)

  datatype MigrationInput = MigrationInput(
    accounts: seq<Account>,
    mapping: seq<MappingEntry>,
    warehouses: seq<Warehouse>,
    existingRules: seq<Rule>,
    existingRoutes: seq<Route>,
    existingMemberships: seq<Membership>)

  datatype PlannedRule = PlannedRule(warehouseId: nat, organizationId: nat, cityKey: string)

  datatype PlannedMembership = PlannedMembership(warehouseId: nat, userId: string)

  /** Why a plan cannot be applied; the source words each as a sentence. */
  datatype Refusal =
    | UnknownAccount(username: string)
    | InactiveAccount(username: string)
    | UnknownWarehouse(warehouseId: nat)
    | InactiveWarehouse(code: string)
    | MappedTwice(username: string)
    | Unmapped(username: string)
    | DifferentReach(first: string, second: string, warehouseId: nat)
    | RuleRefused(rule: Objection<(nat, string)>)
    | RouteRefused(route: Objection<nat>)
    | NotAnOperator(username: string, warehouseId: nat)
    | NarrowScope(username: string, warehouseId: nat)

  datatype MigrationPlan = MigrationPlan(
    rules: seq<PlannedRule>,
    routes: seq<Route>,
    memberships: seq<PlannedMembership>,
    refusals: seq<Refusal>)

  // ---- Looking rows up, as a Map built from the list does: the last row wins ----

  function AccountNamed(accounts: seq<Account>, username: string): (r: Option<Account>)
    ensures r.Some? <==> exists a :: a in accounts && a.username == username
    ensures r.Some? ==> r.value in accounts && r.value.username == username
    decreases |accounts|
  {
    if accounts == [] then None
    else
      var rest, last := accounts[..|accounts| - 1], accounts[|accounts| - 1];
      assert accounts == rest + [last];
      if last.username == username then Some(last) else AccountNamed(rest, username)
  }

  function WarehouseWithId(warehouses: seq<Warehouse>, id: nat): (r: Option<Warehouse>)
    ensures r.Some? <==> exists w :: w in warehouses && w.id == id
    ensures r.Some? ==> r.value in warehouses && r.value.id == id
    decreases |warehouses|
  {
    if warehouses == [] then None
    else
      var rest, last := warehouses[..|warehouses| - 1], warehouses[|warehouses| - 1];
      assert warehouses == rest + [last];
      if last.id == id then Some(last) else WarehouseWithId(rest, id)
  }

  function CityRuleHolders(rules: seq<Rule>): map<(nat, string), nat>
    decreases |rules|
  {
    if rules == [] then map[]
    else
      var rest, last := CityRuleHolders(rules[..|rules| - 1]), rules[|rules| - 1];
      if last.cityKey.Some? then rest[(last.organizationId, last.cityKey.value) := last.warehouseId] else rest
  }

  function RouteHolders(routes: seq<Route>): map<nat, nat>
    decreases |routes|
  {
    if routes == [] then map[]
    else RouteHolders(routes[..|routes| - 1])[routes[|routes| - 1].branchId := routes[|routes| - 1].warehouseId]
  }

  function FirstMembership(memberships: seq<Membership>, warehouseId: nat, userId: string): (r: Option<Membership>)
    ensures r.Some? <==> exists m :: m in memberships && m.warehouseId == warehouseId && m.userId == userId
    ensures r.Some? ==> r.value in memberships && r.value.warehouseId == warehouseId && r.value.userId == userId
  {
    if memberships == [] then None
    else
      assert memberships == [memberships[0]] + memberships[1..];
      if memberships[0].warehouseId == warehouseId && memberships[0].userId == userId then Some(memberships[0])
      else FirstMembership(memberships[1..], warehouseId, userId)
  }

  // ---- The mapping ----

  /** Each mapped account's warehouse. */
  function Targets(accounts: seq<Account>, mapping: seq<MappingEntry>): map<string, nat>
    decreases |mapping|
  {
    if mapping == [] then map[]
    else
      var rest, last := Targets(accounts, mapping[..|mapping| - 1]), mapping[|mapping| - 1];
      match AccountNamed(accounts, last.username)
      case None => rest
      case Some(account) => rest[account.userId := last.warehouseId]
  }

  /** What is wrong with a mapping entry, given the entries before it. */
  function EntryRefusals(input: MigrationInput, before: seq<MappingEntry>, entry: MappingEntry): seq<Refusal> {
    var account := AccountNamed(input.accounts, entry.username);
    var warehouse := WarehouseWithId(input.warehouses, entry.warehouseId);
    var targets := Targets(input.accounts, before);
    (if account.None? then [UnknownAccount(entry.username)]
     else if !account.value.isActive then [InactiveAccount(entry.username)] else [])
    + (if warehouse.None? then [UnknownWarehouse(entry.warehouseId)]
       else if !warehouse.value.isActive then [InactiveWarehouse(warehouse.value.code)] else [])
    + (if account.Some? && account.value.userId in targets && targets[account.value.userId] != entry.warehouseId
       then [MappedTwice(entry.username)] else [])
  }

  function MappingRefusals(input: MigrationInput, mapping: seq<MappingEntry>): seq<Refusal>
    decreases |mapping|
  {
    if mapping == [] then []
    else
      var before, last := mapping[..|mapping| - 1], mapping[|mapping| - 1];
      MappingRefusals(input, before) + EntryRefusals(input, before, last)
  }

  /** The account-to-warehouse map, and what it pushes onto the refusals. */
  method ResolveMappingTargets(input: MigrationInput) returns (targets: map<string, nat>, found: seq<Refusal>)
    ensures targets == Targets(input.accounts, input.mapping)
    ensures found == MappingRefusals(input, input.mapping)
  {
    targets, found := map[], [];
    for i := 0 to |input.mapping|
      invariant targets == Targets(input.accounts, input.mapping[..i])
      invariant found == MappingRefusals(input, input.mapping[..i])
    {
      var entry := input.mapping[i];
      MappingOneMore(input, i);
      var account := AccountNamed(input.accounts, entry.username);
      var warehouse := WarehouseWithId(input.warehouses, entry.warehouseId);
      var pushed: seq<Refusal> := [];
      if account.None? {
        pushed := [UnknownAccount(entry.username)];
      } else if !account.value.isActive {
        pushed := [InactiveAccount(entry.username)];
      }
      if warehouse.None? {
        pushed := pushed + [UnknownWarehouse(entry.warehouseId)];
      } else if !warehouse.value.isActive {
        pushed := pushed + [InactiveWarehouse(warehouse.value.code)];
      }
      if account.Some? {
        var user := account.value.userId;
        if user in targets && targets[user] != entry.warehouseId {
          pushed := pushed + [MappedTwice(entry.username)];
        }
        targets := targets[user := entry.warehouseId];
      }
      assert pushed == EntryRefusals(input, input.mapping[..i], entry);
      found := found + pushed;
    }
    assert input.mapping[..|input.mapping|] == input.mapping;
  }

  lemma MappingOneMore(input: MigrationInput, i: nat)
    requires i < |input.mapping|
    ensures var entry := input.mapping[i];
            && MappingRefusals(input, input.mapping[..i + 1])
               == MappingRefusals(input, input.mapping[..i]) + EntryRefusals(input, input.mapping[..i], entry)
            && Targets(input.accounts, input.mapping[..i + 1])
               == match AccountNamed(input.accounts, entry.username)
                  case None => Targets(input.accounts, input.mapping[..i])
                  case Some(account) => Targets(input.accounts, input.mapping[..i])[account.userId := entry.warehouseId]
  {
    assert input.mapping[..i + 1][..i] == input.mapping[..i];
  }

  // ---- What an account holds ----

  function PairsOf(organizations: seq<nat>, cities: seq<string>): (r: seq<(nat, string)>)
    ensures forall o, c :: (o, c) in r <==> o in organizations && c in cities
  {
    if organizations == [] then []
    else
      assert organizations == [organizations[0]] + organizations[1..];
      var row := seq(|cities|, i requires 0 <= i < |cities| => (organizations[0], cities[i]));
      assert forall c :: (organizations[0], c) in row <==> c in cities by {
        assert forall i :: 0 <= i < |cities| ==> row[i] == (organizations[0], cities[i]);
      }
      row + PairsOf(organizations[1..], cities)
  }

  function PairText(pair: (nat, string)): string {
    Decimal.Text(pair.0) + ['|'] + pair.1
  }

  function BranchText(branchId: nat): string {
    ['#'] + Decimal.Text(branchId)
  }

  function HoldingTexts(account: Account): seq<string> {
    var pairs := PairsOf(account.organizationIds, account.cityKeys);
    seq(|pairs|, i requires 0 <= i < |pairs| => PairText(pairs[i]))
    + seq(|account.branchIds|, i requires 0 <= i < |account.branchIds| => BranchText(account.branchIds[i]))
  }

  /** What an account holds today, as the one string two accounts are compared by. */
  function ReachKeys(account: Account, collation: Collation): string {
    Decimal.Join(Sort(HoldingTexts(account), collation), ',')
  }

  function UnmappedRefusals(accounts: seq<Account>, targets: map<string, nat>, collation: Collation): seq<Refusal> {
    if accounts == [] then []
    else
      var a := accounts[0];
      (if a.isActive && ReachKeys(a, collation) != "" && a.userId !in targets then [Unmapped(a.username)] else [])
      + UnmappedRefusals(accounts[1..], targets, collation)
  }

  function ByUsername(collation: Collation): (Account, Account) -> bool {
    (a: Account, b: Account) => collation(a.username, b.username)
  }

  function FirstMappedTo(accounts: seq<Account>, targets: map<string, nat>, warehouseId: nat): (r: Option<Account>)
    ensures r.Some? <==> exists a :: a in accounts && a.userId in targets && targets[a.userId] == warehouseId
    ensures r.Some? ==> r.value in accounts && r.value.userId in targets && targets[r.value.userId] == warehouseId
  {
    if accounts == [] then None
    else
      assert accounts == [accounts[0]] + accounts[1..];
      if accounts[0].userId in targets && targets[accounts[0].userId] == warehouseId then Some(accounts[0])
      else FirstMappedTo(accounts[1..], targets, warehouseId)
  }

  /** An account is refused when the first account on its warehouse holds something else. */
  function SharedRefusal(accounts: seq<Account>, targets: map<string, nat>, collation: Collation, a: Account): seq<Refusal> {
    if a.userId !in targets then []
    else match FirstMappedTo(accounts, targets, targets[a.userId])
      case None => []
      case Some(first) =>
        if ReachKeys(first, collation) != ReachKeys(a, collation)
        then [DifferentReach(first.username, a.username, targets[a.userId])] else []
  }

  function SharedRefusals(accounts: seq<Account>, targets: map<string, nat>, collation: Collation): seq<Refusal>
    decreases |accounts|
  {
    if accounts == [] then []
    else
      var before, last := accounts[..|accounts| - 1], accounts[|accounts| - 1];
      SharedRefusals(before, targets, collation) + SharedRefusal(before, targets, collation, last)
  }

  lemma {:induction false} FirstMappedToOneMore(accounts: seq<Account>, targets: map<string, nat>, warehouseId: nat, a: Account)
    ensures FirstMappedTo(accounts + [a], targets, warehouseId) ==
            if FirstMappedTo(accounts, targets, warehouseId).Some? then FirstMappedTo(accounts, targets, warehouseId)
            else if a.userId in targets && targets[a.userId] == warehouseId then Some(a) else None
  {
    if accounts == [] {
      assert [a][1..] == [] && accounts + [a] == [a];
    } else {
      assert (accounts + [a])[1..] == accounts[1..] + [a];
      FirstMappedToOneMore(accounts[1..], targets, warehouseId, a);
    }
  }

  lemma SharedOneMore(accounts: seq<Account>, i: nat, targets: map<string, nat>, collation: Collation)
    requires i < |accounts|
    ensures SharedRefusals(accounts[..i + 1], targets, collation)
            == SharedRefusals(accounts[..i], targets, collation) + SharedRefusal(accounts[..i], targets, collation, accounts[i])
    ensures forall w :: FirstMappedTo(accounts[..i + 1], targets, w) ==
                        if FirstMappedTo(accounts[..i], targets, w).Some? then FirstMappedTo(accounts[..i], targets, w)
                        else if accounts[i].userId in targets && targets[accounts[i].userId] == w then Some(accounts[i]) else None
  {
    assert accounts[..i + 1] == accounts[..i] + [accounts[i]];
    assert accounts[..i + 1][..i] == accounts[..i];
    forall w { FirstMappedToOneMore(accounts[..i], targets, w, accounts[i]); }
  }

  method SharedWarehouseRefusals(accounts: seq<Account>, targets: map<string, nat>, collation: Collation)
    returns (refusals: seq<Refusal>)
    ensures refusals == SharedRefusals(Sort(accounts, ByUsername(collation)), targets, collation)
  {
    refusals := [];
    var sorted := Sort(accounts, ByUsername(collation));
    var firstOnWarehouse: map<nat, Account> := map[];
    for i := 0 to |sorted|
      invariant refusals == SharedRefusals(sorted[..i], targets, collation)
      invariant forall w :: FirstMappedTo(sorted[..i], targets, w) ==
                            if w in firstOnWarehouse then Some(firstOnWarehouse[w]) else None
    {
      var account := sorted[i];
      SharedOneMore(sorted, i, targets, collation);
      if account.userId in targets {
        var warehouseId := targets[account.userId];
        if warehouseId !in firstOnWarehouse {
          firstOnWarehouse := firstOnWarehouse[warehouseId := account];
        } else {
          var first := firstOnWarehouse[warehouseId];
          if ReachKeys(first, collation) != ReachKeys(account, collation) {
            refusals := refusals + [DifferentReach(first.username, account.username, warehouseId)];
          }
        }
      }
    }
    assert sorted[..|sorted|] == sorted;
  }

  // ---- Rules and routes ----

  function AllClaims<K>(accounts: seq<Account>, targets: map<string, nat>, keysOf: Account -> seq<K>): seq<Claim<K>>
    decreases |accounts|
  {
    if accounts == [] then []
    else
      var before, last := accounts[..|accounts| - 1], accounts[|accounts| - 1];
      AllClaims(before, targets, keysOf)
      + if last.userId in targets then ClaimsOn(keysOf(last), targets[last.userId], last.username) else []
  }

  lemma ClaimsOneMore<K>(accounts: seq<Account>, i: nat, targets: map<string, nat>, keysOf: Account -> seq<K>)
    requires i < |accounts|
    ensures AllClaims(accounts[..i + 1], targets, keysOf) ==
            AllClaims(accounts[..i], targets, keysOf)
            + if accounts[i].userId in targets then ClaimsOn(keysOf(accounts[i]), targets[accounts[i].userId], accounts[i].username) else []
  {
    assert accounts[..i + 1][..i] == accounts[..i];
  }

  lemma {:induction false} ClaimsComeFromHoldings<K(!new)>(
      accounts: seq<Account>, targets: map<string, nat>, keysOf: Account -> seq<K>, c: Claim<K>)
    ensures c in AllClaims(accounts, targets, keysOf) <==>
            exists a :: a in accounts && a.userId in targets && c.key in keysOf(a)
                        && c.warehouseId == targets[a.userId] && c.username == a.username
    decreases |accounts|
  {
    if accounts != [] {
      var before, last := accounts[..|accounts| - 1], accounts[|accounts| - 1];
      assert accounts == before + [last];
      ClaimsComeFromHoldings(before, targets, keysOf, c);
      if last.userId in targets {
        var own := ClaimsOn(keysOf(last), targets[last.userId], last.username);
        assert c in own <==> c.key in keysOf(last) && c == Claim(c.key, targets[last.userId], last.username) by {
          if c.key in keysOf(last) {
            var i :| 0 <= i < |keysOf(last)| && keysOf(last)[i] == c.key;
            assert own[i] == Claim(c.key, targets[last.userId], last.username);
          }
        }
      }
    }
  }

  function NatLe(a: nat, b: nat): bool { a <= b }

  /** The pairs an account claims rules for, in the order the planner walks them. */
  function RuleKeysOf(collation: Collation): Account -> seq<(nat, string)> {
    (a: Account) => PairsOf(Sort(a.organizationIds, NatLe), Sort(a.cityKeys, collation))
  }

  function RouteKeysOf(): Account -> seq<nat> {
    (a: Account) => Sort(a.branchIds, NatLe)
  }

  function RuleLe(collation: Collation): (PlannedRule, PlannedRule) -> bool {
    (a: PlannedRule, b: PlannedRule) =>
      a.organizationId < b.organizationId
      || (a.organizationId == b.organizationId && collation(a.cityKey, b.cityKey))
  }

  function RouteLe(): (Route, Route) -> bool {
    (a: Route, b: Route) => a.branchId <= b.branchId
  }

  function MembershipLe(collation: Collation): (PlannedMembership, PlannedMembership) -> bool {
    (a: PlannedMembership, b: PlannedMembership) =>
      a.warehouseId < b.warehouseId || (a.warehouseId == b.warehouseId && collation(a.userId, b.userId))
  }

  function WrapRules(objections: seq<Objection<(nat, string)>>): seq<Refusal> {
    seq(|objections|, i requires 0 <= i < |objections| => RuleRefused(objections[i]))
  }

  function WrapRoutes(objections: seq<Objection<nat>>): seq<Refusal> {
    seq(|objections|, i requires 0 <= i < |objections| => RouteRefused(objections[i]))
  }

  /** The rules that realise a planned claim map: each once, in order. */
  ghost predicate ListsRules(rules: seq<PlannedRule>, planned: map<(nat, string), Claim<(nat, string)>>, collation: Collation) {
    && (forall i, j :: 0 <= i < j < |rules| ==> (rules[i].organizationId, rules[i].cityKey) != (rules[j].organizationId, rules[j].cityKey))
    && (forall r :: r in rules <==>
                    (r.organizationId, r.cityKey) in planned && planned[(r.organizationId, r.cityKey)].warehouseId == r.warehouseId)
    && (TotalOrder(collation) ==> SortedBy(rules, RuleLe(collation)))
  }

  ghost predicate ListsRoutes(routes: seq<Route>, planned: map<nat, Claim<nat>>) {
    && (forall i, j :: 0 <= i < j < |routes| ==> routes[i].branchId < routes[j].branchId)
    && (forall r :: r in routes <==> r.branchId in planned && planned[r.branchId].warehouseId == r.warehouseId)
  }

  lemma OrdersAreTotal(collation: Collation)
    requires TotalOrder(collation)
    ensures TotalPreorder(RuleLe(collation)) && TotalPreorder(MembershipLe(collation)) && TotalPreorder(ByUsername(collation))
  {
    forall a, b, c
      ensures RuleLe(collation)(a, b) || RuleLe(collation)(b, a)
      ensures RuleLe(collation)(a, b) && RuleLe(collation)(b, c) ==> RuleLe(collation)(a, c)
    {
      assert collation(a.cityKey, b.cityKey) || collation(b.cityKey, a.cityKey);
      assert collation(a.cityKey, b.cityKey) && collation(b.cityKey, c.cityKey) ==> collation(a.cityKey, c.cityKey);
    }
    forall a, b, c
      ensures MembershipLe(collation)(a, b) || MembershipLe(collation)(b, a)
      ensures MembershipLe(collation)(a, b) && MembershipLe(collation)(b, c) ==> MembershipLe(collation)(a, c)
    {
      assert collation(a.userId, b.userId) || collation(b.userId, a.userId);
      assert collation(a.userId, b.userId) && collation(b.userId, c.userId) ==> collation(a.userId, c.userId);
    }
    forall a, b, c
      ensures ByUsername(collation)(a, b) || ByUsername(collation)(b, a)
      ensures ByUsername(collation)(a, b) && ByUsername(collation)(b, c) ==> ByUsername(collation)(a, c)
    {
      assert collation(a.username, b.username) || collation(b.username, a.username);
      assert collation(a.username, b.username) && collation(b.username, c.username) ==> collation(a.username, c.username);
    }
  }

  lemma RoutesAreOrdered()
    ensures TotalPreorder(RouteLe()) && TotalPreorder(NatLe)
  {
  }

  function RulesOf(planned: InsertionMap<(nat, string), Claim<(nat, string)>>): seq<PlannedRule>
    requires planned.Valid()
  {
    var values := planned.Values();
    seq(|values|, i requires 0 <= i < |values| =>
      PlannedRule(values[i].warehouseId, planned.keys[i].0, planned.keys[i].1))
  }

  lemma RulesOfThePlan(planned: InsertionMap<(nat, string), Claim<(nat, string)>>, r: PlannedRule)
    requires planned.Valid()
    ensures r in RulesOf(planned) <==>
            (r.organizationId, r.cityKey) in planned.at && planned.at[(r.organizationId, r.cityKey)].warehouseId == r.warehouseId
  {
    if (r.organizationId, r.cityKey) in planned.at {
      assert (r.organizationId, r.cityKey) in planned.keys;
      var i :| 0 <= i < |planned.keys| && planned.keys[i] == (r.organizationId, r.cityKey);
      assert RulesOf(planned)[i].organizationId == r.organizationId && RulesOf(planned)[i].cityKey == r.cityKey;
    }
  }

  lemma SortedRulesListThem(planned: InsertionMap<(nat, string), Claim<(nat, string)>>, collation: Collation)
    requires planned.Valid()
    ensures ListsRules(Sort(RulesOf(planned), RuleLe(collation)), planned.at, collation)
  {
    var unsorted := RulesOf(planned);
    var rules := Sort(unsorted, RuleLe(collation));
    SortKeepsAll(unsorted, RuleLe(collation));
    forall r { RulesOfThePlan(planned, r); }
    DistinctRules(planned);
    DistinctStaysDistinct(unsorted, rules);
    forall i, j | 0 <= i < j < |rules|
      ensures (rules[i].organizationId, rules[i].cityKey) != (rules[j].organizationId, rules[j].cityKey)
    {
      assert rules[i] in rules && rules[j] in rules;
    }
    if TotalOrder(collation) {
      OrdersAreTotal(collation);
      SortSorts(unsorted, RuleLe(collation));
    }
  }

  lemma DistinctRules(planned: InsertionMap<(nat, string), Claim<(nat, string)>>)
    requires planned.Valid()
    ensures var rules := RulesOf(planned);
            forall i, j :: 0 <= i < j < |rules| ==> rules[i] != rules[j]
  {
    var rules := RulesOf(planned);
    forall i, j | 0 <= i < j < |rules| ensures rules[i] != rules[j] {
      assert planned.keys[i] != planned.keys[j];
    }
  }

  method PlanRules(accounts: seq<Account>, targets: map<string, nat>, existingRules: seq<Rule>, collation: Collation)
    returns (rules: seq<PlannedRule>, found: seq<Refusal>)
    ensures var claims := AllClaims(accounts, targets, RuleKeysOf(collation));
            var existing := CityRuleHolders(existingRules);
            && ListsRules(rules, Planned(existing, claims), collation)
            && found == WrapRules(Objections(existing, claims))
  {
    var existing := CityRuleHolders(existingRules);
    var planned: InsertionMap<(nat, string), Claim<(nat, string)>> := Empty();
    ghost var claims := [];
    var objections := [];
    for i := 0 to |accounts|
      invariant planned.Valid()
      invariant claims == AllClaims(accounts[..i], targets, RuleKeysOf(collation))
      invariant planned.at == Planned(existing, claims)
      invariant objections == Objections(existing, claims)
    {
      var account := accounts[i];
      ClaimsOneMore(accounts, i, targets, RuleKeysOf(collation));
      if account.userId in targets {
        var pairs := PairsOf(Sort(account.organizationIds, NatLe), Sort(account.cityKeys, collation));
        planned, objections := TakeClaims(pairs, targets[account.userId], account.username, existing, planned, objections, claims);
        claims := claims + ClaimsOn(pairs, targets[account.userId], account.username);
      }
    }
    assert accounts[..|accounts|] == accounts;
    found := WrapRules(objections);
    SortedRulesListThem(planned, collation);
    rules := Sort(RulesOf(planned), RuleLe(collation));
  }

  function RoutesOf(planned: InsertionMap<nat, Claim<nat>>): (r: seq<Route>)
    requires planned.Valid()
  {
    var values := planned.Values();
    seq(|values|, i requires 0 <= i < |values| => Route(planned.keys[i], values[i].warehouseId))
  }

  lemma SortedRoutesListThem(planned: InsertionMap<nat, Claim<nat>>)
    requires planned.Valid()
    ensures ListsRoutes(Sort(RoutesOf(planned), RouteLe()), planned.at)
  {
    var unsorted := RoutesOf(planned);
    var routes := Sort(unsorted, RouteLe());
    SortKeepsAll(unsorted, RouteLe());
    RoutesAreOrdered();
    SortSorts(unsorted, RouteLe());
    forall r ensures r in routes <==> r.branchId in planned.at && planned.at[r.branchId].warehouseId == r.warehouseId {
      if r.branchId in planned.at {
        var i :| 0 <= i < |planned.keys| && planned.keys[i] == r.branchId;
        assert unsorted[i].branchId == r.branchId;
      }
    }
    forall i, j | 0 <= i < j < |unsorted| ensures unsorted[i] != unsorted[j] {
      assert planned.keys[i] != planned.keys[j];
    }
    DistinctStaysDistinct(unsorted, routes);
    forall i, j | 0 <= i < j < |routes| ensures routes[i].branchId < routes[j].branchId {
      assert routes[i] in routes && routes[j] in routes;
    }
  }

  method PlanRoutes(accounts: seq<Account>, targets: map<string, nat>, existingRoutes: seq<Route>)
    returns (routes: seq<Route>, found: seq<Refusal>)
    ensures var claims := AllClaims(accounts, targets, RouteKeysOf());
            var existing := RouteHolders(existingRoutes);
            && ListsRoutes(routes, Planned(existing, claims))
            && found == WrapRoutes(Objections(existing, claims))
  {
    var existing := RouteHolders(existingRoutes);
    var planned: InsertionMap<nat, Claim<nat>> := Empty();
    ghost var claims := [];
    var objections := [];
    for i := 0 to |accounts|
      invariant planned.Valid()
      invariant claims == AllClaims(accounts[..i], targets, RouteKeysOf())
      invariant planned.at == Planned(existing, claims)
      invariant objections == Objections(existing, claims)
    {
      var account := accounts[i];
      ClaimsOneMore(accounts, i, targets, RouteKeysOf());
      if account.userId in targets {
        var branches := Sort(account.branchIds, NatLe);
        planned, objections := TakeClaims(branches, targets[account.userId], account.username, existing, planned, objections, claims);
        claims := claims + ClaimsOn(branches, targets[account.userId], account.username);
      }
    }
    assert accounts[..|accounts|] == accounts;
    found := WrapRoutes(objections);
    SortedRoutesListThem(planned);
    routes := Sort(RoutesOf(planned), RouteLe());
  }

  // ---- Memberships ----

  /** The accounts that still need a membership, in walking order. */
  function MissingMemberships(accounts: seq<Account>, targets: map<string, nat>, existing: seq<Membership>): (r: seq<PlannedMembership>)
    ensures forall m :: m in r <==>
                        exists a :: a in accounts && a.userId == m.userId && m.userId in targets && targets[m.userId] == m.warehouseId
                                    && FirstMembership(existing, m.warehouseId, m.userId).None?
    decreases |accounts|
  {
    if accounts == [] then []
    else
      var before, last := accounts[..|accounts| - 1], accounts[|accounts| - 1];
      assert accounts == before + [last];
      var rest := MissingMemberships(before, targets, existing);
      if last.userId in targets && FirstMembership(existing, targets[last.userId], last.userId).None?
      then rest + [PlannedMembership(targets[last.userId], last.userId)] else rest
  }

  /** An existing membership must already make the account an all-branches operator. */
  function MembershipRefusal(targets: map<string, nat>, existing: seq<Membership>, a: Account): seq<Refusal> {
    if a.userId !in targets then []
    else match FirstMembership(existing, targets[a.userId], a.userId)
      case None => []
      case Some(m) =>
        if m.responsibility != WarehouseOperator then [NotAnOperator(a.username, targets[a.userId])]
        else if m.branchScope != All then [NarrowScope(a.username, targets[a.userId])]
        else []
  }

  function MembershipRefusals(accounts: seq<Account>, targets: map<string, nat>, existing: seq<Membership>): seq<Refusal>
    decreases |accounts|
  {
    if accounts == [] then []
    else
      MembershipRefusals(accounts[..|accounts| - 1], targets, existing)
      + MembershipRefusal(targets, existing, accounts[|accounts| - 1])
  }

  method PlanMemberships(accounts: seq<Account>, targets: map<string, nat>, existing: seq<Membership>, collation: Collation)
    returns (memberships: seq<PlannedMembership>, found: seq<Refusal>)
    ensures memberships == Sort(MissingMemberships(accounts, targets, existing), MembershipLe(collation))
    ensures found == MembershipRefusals(accounts, targets, existing)
  {
    memberships, found := [], [];
    for i := 0 to |accounts|
      invariant memberships == MissingMemberships(accounts[..i], targets, existing)
      invariant found == MembershipRefusals(accounts[..i], targets, existing)
    {
      var account := accounts[i];
      assert accounts[..i + 1][..i] == accounts[..i];
      if account.userId in targets {
        var warehouseId := targets[account.userId];
        var membership := FirstMembership(existing, warehouseId, account.userId);
        if membership.None? {
          memberships := memberships + [PlannedMembership(warehouseId, account.userId)];
        } else if membership.value.responsibility != WarehouseOperator {
          found := found + [NotAnOperator(account.username, warehouseId)];
        } else if membership.value.branchScope != All {
          found := found + [NarrowScope(account.username, warehouseId)];
        }
      }
    }
    assert accounts[..|accounts|] == accounts;
    memberships := Sort(memberships, MembershipLe(collation));
  }

  // ---- The whole plan ----

  function RuleClaims(input: MigrationInput, collation: Collation): seq<Claim<(nat, string)>> {
    AllClaims(Sort(input.accounts, ByUsername(collation)), Targets(input.accounts, input.mapping), RuleKeysOf(collation))
  }

  function RouteClaims(input: MigrationInput, collation: Collation): seq<Claim<nat>> {
    AllClaims(Sort(input.accounts, ByUsername(collation)), Targets(input.accounts, input.mapping), RouteKeysOf())
  }

  /** Every reason the input is refused for, in the order the planner finds them. */
  function AllRefusals(input: MigrationInput, collation: Collation): seq<Refusal> {
    var targets := Targets(input.accounts, input.mapping);
    var accounts := Sort(input.accounts, ByUsername(collation));
    MappingRefusals(input, input.mapping)
    + UnmappedRefusals(input.accounts, targets, collation)
    + SharedRefusals(accounts, targets, collation)
    + WrapRules(Objections(CityRuleHolders(input.existingRules), RuleClaims(input, collation)))
    + WrapRoutes(Objections(RouteHolders(input.existingRoutes), RouteClaims(input, collation)))
    + MembershipRefusals(accounts, targets, input.existingMemberships)
  }

  ghost predicate RulesFit(input: MigrationInput, collation: Collation, plan: MigrationPlan) {
    ListsRules(plan.rules, Planned(CityRuleHolders(input.existingRules), RuleClaims(input, collation)), collation)
  }

  ghost predicate RoutesFit(input: MigrationInput, collation: Collation, plan: MigrationPlan) {
    ListsRoutes(plan.routes, Planned(RouteHolders(input.existingRoutes), RouteClaims(input, collation)))
  }

  ghost predicate MembershipsFit(input: MigrationInput, collation: Collation, plan: MigrationPlan) {
    plan.memberships == Sort(
      MissingMemberships(Sort(input.accounts, ByUsername(collation)), Targets(input.accounts, input.mapping), input.existingMemberships),
      MembershipLe(collation))
  }

  /** What a plan for this input is. */
  ghost predicate IsPlanFor(input: MigrationInput, collation: Collation, plan: MigrationPlan) {
    && RulesFit(input, collation, plan)
    && RoutesFit(input, collation, plan)
    && MembershipsFit(input, collation, plan)
    && plan.refusals == Once(AllRefusals(input, collation))
  }

  method PlanCityRuleMigration(input: MigrationInput, collation: Collation) returns (plan: MigrationPlan)
    ensures IsPlanFor(input, collation, plan)
  {
    var targets, refusals := ResolveMappingTargets(input);
    refusals := refusals + UnmappedRefusals(input.accounts, targets, collation);
    var found := SharedWarehouseRefusals(input.accounts, targets, collation);
    refusals := refusals + found;
    var accounts := Sort(input.accounts, ByUsername(collation));
    var rules, routes, memberships;
    rules, found := PlanRules(accounts, targets, input.existingRules, collation);
    refusals := refusals + found;
    routes, found := PlanRoutes(accounts, targets, input.existingRoutes);
    refusals := refusals + found;
    memberships, found := PlanMemberships(accounts, targets, input.existingMemberships, collation);
    refusals := refusals + found;
    plan := MigrationPlan(rules, routes, memberships, Once(refusals));
  }

  // ---- Lookups and orders, read off the rows ----

  /** Of accounts of one name, or warehouses of one number, the last is meant; of memberships of one account at one
      warehouse the first. */
  lemma {:induction false} LastAccountIsMeant(accounts: seq<Account>, i: nat)
    requires i < |accounts| && forall j :: i < j < |accounts| ==> accounts[j].username != accounts[i].username
    ensures AccountNamed(accounts, accounts[i].username) == Some(accounts[i])
    decreases |accounts|
  {
    if i < |accounts| - 1 { LastAccountIsMeant(accounts[..|accounts| - 1], i); }
  }

  lemma {:induction false} LastWarehouseIsMeant(warehouses: seq<Warehouse>, i: nat)
    requires i < |warehouses| && forall j :: i < j < |warehouses| ==> warehouses[j].id != warehouses[i].id
    ensures WarehouseWithId(warehouses, warehouses[i].id) == Some(warehouses[i])
    decreases |warehouses|
  {
    if i < |warehouses| - 1 { LastWarehouseIsMeant(warehouses[..|warehouses| - 1], i); }
  }

  lemma {:induction false} FirstMembershipIsMeant(memberships: seq<Membership>, i: nat)
    requires i < |memberships|
    requires forall j :: 0 <= j < i ==> memberships[j].warehouseId != memberships[i].warehouseId || memberships[j].userId != memberships[i].userId
    ensures FirstMembership(memberships, memberships[i].warehouseId, memberships[i].userId) == Some(memberships[i])
  {
    if i > 0 { FirstMembershipIsMeant(memberships[1..], i - 1); }
  }

  /** Planned rules stand by organization, then city; planned memberships by warehouse, then account. */
  lemma PlansStandInOrder(input: MigrationInput, collation: Collation, plan: MigrationPlan, i: nat, j: nat)
    requires TotalOrder(collation) && IsPlanFor(input, collation, plan) && i < j
    ensures j < |plan.rules| ==>
              var r, q := plan.rules[i], plan.rules[j];
              r.organizationId < q.organizationId || (r.organizationId == q.organizationId && collation(r.cityKey, q.cityKey))
    ensures j < |plan.memberships| ==>
              var m, n := plan.memberships[i], plan.memberships[j];
              m.warehouseId < n.warehouseId || (m.warehouseId == n.warehouseId && collation(m.userId, n.userId))
  {
    var missing := MissingMemberships(Sort(input.accounts, ByUsername(collation)), Targets(input.accounts, input.mapping), input.existingMemberships);
    OrdersAreTotal(collation);
    SortSorts(missing, MembershipLe(collation));
    assert j < |plan.rules| ==> RuleLe(collation)(plan.rules[i], plan.rules[j]);
    assert j < |plan.memberships| ==> MembershipLe(collation)(plan.memberships[i], plan.memberships[j]);
  }
}
