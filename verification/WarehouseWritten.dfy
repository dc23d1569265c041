/** The configuration a written plan leaves behind, beside whatever was configured
    before, and what each account then works (lib/apricart-warehouses.ts,
    lib/server/branch-warehouse.ts). */
module WarehouseWritten {
  import opened Claims
  import opened Options
  import opened Sorting
  import opened WarehouseMigration
  import opened WarehouseReach

  // ---- The configuration a plan leaves behind ----

  /** The holders once the planned claims are written beside the existing rows. */
  function Final<K(==)>(existing: map<K, nat>, planned: map<K, Claim<K>>): map<K, nat> {
    map k | k in existing.Keys + planned.Keys :: if k in existing then existing[k] else planned[k].warehouseId
  }

  /** Agreed claims all end up with the warehouse they asked for. */
  lemma AgreedClaimsAreKept<K(!new)>(existing: map<K, nat>, claims: seq<Claim<K>>)
    requires Agreed(existing, claims)
    ensures var final := Final(existing, Planned(existing, claims));
            forall c :: c in claims ==> c.key in final && final[c.key] == c.warehouseId
  {
    forall c | c in claims
      ensures var final := Final(existing, Planned(existing, claims)); c.key in final && final[c.key] == c.warehouseId
    {
      assert c.key in Keys(claims);
    }
  }

  function PairOf(r: PlannedRule): (nat, string) { (r.organizationId, r.cityKey) }

  lemma LastRuleHolds(before: seq<Rule>, r: PlannedRule, k: (nat, string))
    ensures var all := before + [Rule(r.warehouseId, r.organizationId, Some(r.cityKey))];
            && Lookup(CityRuleHolders(all), k) == (if PairOf(r) == k then Some(r.warehouseId) else Lookup(CityRuleHolders(before), k))
            && OrganizationRuleHolders(all) == OrganizationRuleHolders(before)
  {
    assert (before + [Rule(r.warehouseId, r.organizationId, Some(r.cityKey))])[..|before|] == before;
  }

  lemma RowsOfOneMore(existing: seq<Rule>, rules: seq<PlannedRule>, n: nat)
    requires |rules| == n + 1
    ensures existing + AsRules(rules) ==
            existing + AsRules(rules[..n]) + [Rule(rules[n].warehouseId, rules[n].organizationId, Some(rules[n].cityKey))]
  {
  }

  /** Writing rules for distinct pairs gives each pair its rule and leaves every other pair and organization as it was. */
  lemma {:induction false} CityHolderOfMore(existing: seq<Rule>, rules: seq<PlannedRule>, k: (nat, string))
    requires forall i, j :: 0 <= i < j < |rules| ==> PairOf(rules[i]) != PairOf(rules[j])
    ensures forall r :: r in rules && PairOf(r) == k ==> Lookup(CityRuleHolders(existing + AsRules(rules)), k) == Some(r.warehouseId)
    ensures (forall r :: r in rules ==> PairOf(r) != k) ==>
              Lookup(CityRuleHolders(existing + AsRules(rules)), k) == Lookup(CityRuleHolders(existing), k)
    ensures OrganizationRuleHolders(existing + AsRules(rules)) == OrganizationRuleHolders(existing)
    decreases |rules|
  {
    if rules == [] {
      assert existing + AsRules(rules) == existing;
    } else {
      var n := |rules| - 1;
      CityHolderOfMore(existing, rules[..n], k);
      RowsOfOneMore(existing, rules, n);
      LastRuleHolds(existing + AsRules(rules[..n]), rules[n], k);
      assert rules == rules[..n] + [rules[n]];
      assert rules[n] in rules;
    }
  }

  lemma AppliedCityRules(input: MigrationInput, collation: Collation, plan: MigrationPlan)
    requires RulesFit(input, collation, plan)
    ensures CityRuleHolders(Applied(input, plan).rules) ==
            Final(CityRuleHolders(input.existingRules), Planned(CityRuleHolders(input.existingRules), RuleClaims(input, collation)))
    ensures OrganizationRuleHolders(Applied(input, plan).rules) == OrganizationRuleHolders(input.existingRules)
  {
    var existing := CityRuleHolders(input.existingRules);
    var planned := Planned(existing, RuleClaims(input, collation));
    var all := CityRuleHolders(Applied(input, plan).rules);
    forall k ensures Lookup(all, k) == Lookup(Final(existing, planned), k) {
      CityHolderOfMore(input.existingRules, plan.rules, k);
      if k in planned {
        assert PlannedRule(planned[k].warehouseId, k.0, k.1) in plan.rules;
      } else {
        assert forall r :: r in plan.rules ==> PairOf(r) != k;
      }
    }
    SameLookups(all, Final(existing, planned));
    CityHolderOfMore(input.existingRules, plan.rules, (0, ""));
  }

  lemma SameLookups<K(!new)>(m: map<K, nat>, n: map<K, nat>)
    requires forall k :: Lookup(m, k) == Lookup(n, k)
    ensures m == n
  {
    forall k ensures k in m <==> k in n {
      assert Lookup(m, k) == Lookup(n, k);
    }
    forall k | k in m ensures m[k] == n[k] {
      assert Lookup(m, k) == Lookup(n, k);
    }
  }

  lemma LastRouteHolds(before: seq<Route>, last: Route, k: nat)
    ensures Lookup(RouteHolders(before + [last]), k) ==
            if last.branchId == k then Some(last.warehouseId) else Lookup(RouteHolders(before), k)
  {
    assert (before + [last])[..|before|] == before;
  }

  lemma RoutesOfOneMore(existing: seq<Route>, routes: seq<Route>, n: nat)
    requires |routes| == n + 1
    ensures routes == routes[..n] + [routes[n]]
    ensures existing + routes == existing + routes[..n] + [routes[n]]
  {
  }

  /** Writing routes for distinct branches gives each branch its route and leaves every other branch as it was. */
  lemma {:induction false} RouteHolderOfMore(existing: seq<Route>, routes: seq<Route>, k: nat)
    requires forall i, j :: 0 <= i < j < |routes| ==> routes[i].branchId < routes[j].branchId
    ensures forall r :: r in routes && r.branchId == k ==> Lookup(RouteHolders(existing + routes), k) == Some(r.warehouseId)
    ensures (forall r :: r in routes ==> r.branchId != k) ==> Lookup(RouteHolders(existing + routes), k) == Lookup(RouteHolders(existing), k)
    decreases |routes|
  {
    if routes == [] {
      assert existing + routes == existing;
    } else {
      var n := |routes| - 1;
      RouteHolderOfMore(existing, routes[..n], k);
      RoutesOfOneMore(existing, routes, n);
      LastRouteHolds(existing + routes[..n], routes[n], k);
      assert routes[n] in routes;
    }
  }

  lemma AppliedRoutes(input: MigrationInput, collation: Collation, plan: MigrationPlan)
    requires RoutesFit(input, collation, plan)
    ensures RouteHolders(Applied(input, plan).routes) ==
            Final(RouteHolders(input.existingRoutes), Planned(RouteHolders(input.existingRoutes), RouteClaims(input, collation)))
  {
    var existing := RouteHolders(input.existingRoutes);
    var planned := Planned(existing, RouteClaims(input, collation));
    var all := RouteHolders(Applied(input, plan).routes);
    forall k: nat ensures Lookup(all, k) == Lookup(Final(existing, planned), k) {
      RouteHolderOfMore(input.existingRoutes, plan.routes, k);
      if k in planned {
        assert Route(k, planned[k].warehouseId) in plan.routes;
      } else {
        assert forall r :: r in plan.routes ==> r.branchId != k;
      }
    }
    SameLookups(all, Final(existing, planned));
  }

  lemma {:induction false} FirstMembershipOfMore(existing: seq<Membership>, more: seq<Membership>, warehouseId: nat, userId: string)
    ensures FirstMembership(existing + more, warehouseId, userId) ==
            if FirstMembership(existing, warehouseId, userId).Some? then FirstMembership(existing, warehouseId, userId)
            else FirstMembership(more, warehouseId, userId)
  {
    if existing == [] {
      assert existing + more == more;
    } else {
      assert (existing + more)[1..] == existing[1..] + more;
      FirstMembershipOfMore(existing[1..], more, warehouseId, userId);
    }
  }

  // ---- Claims, read as holdings ----

  lemma RuleClaimsAreHoldings(input: MigrationInput, collation: Collation)
    ensures forall a, w, o, c :: MappedTo(input, a, w) && HoldsPair(a, o, c) ==> Claim((o, c), w, a.username) in RuleClaims(input, collation)
    ensures forall cl :: cl in RuleClaims(input, collation) ==>
              exists a :: MappedTo(input, a, cl.warehouseId) && HoldsPair(a, cl.key.0, cl.key.1)
  {
    var accounts := Sort(input.accounts, ByUsername(collation));
    var targets := Targets(input.accounts, input.mapping);
    SortKeepsAll(input.accounts, ByUsername(collation));
    forall a: Account, o: nat, c ensures (o, c) in RuleKeysOf(collation)(a) <==> HoldsPair(a, o, c) {
      SortKeepsAll(a.organizationIds, NatLe);
      SortKeepsAll(a.cityKeys, collation);
    }
    forall a, w, o: nat, c | MappedTo(input, a, w) && HoldsPair(a, o, c)
      ensures Claim((o, c), w, a.username) in RuleClaims(input, collation)
    {
      ClaimsComeFromHoldings(accounts, targets, RuleKeysOf(collation), Claim((o, c), w, a.username));
    }
    forall cl | cl in RuleClaims(input, collation)
      ensures exists a :: MappedTo(input, a, cl.warehouseId) && HoldsPair(a, cl.key.0, cl.key.1)
    {
      ClaimsComeFromHoldings(accounts, targets, RuleKeysOf(collation), cl);
      var a :| a in accounts && a.userId in targets && cl.key in RuleKeysOf(collation)(a)
               && cl.warehouseId == targets[a.userId] && cl.username == a.username;
      assert cl.key == (cl.key.0, cl.key.1);
      assert MappedTo(input, a, cl.warehouseId) && HoldsPair(a, cl.key.0, cl.key.1);
    }
  }

  lemma RouteClaimsAreHoldings(input: MigrationInput, collation: Collation)
    ensures forall a, w, b :: MappedTo(input, a, w) && b in a.branchIds ==> Claim(b, w, a.username) in RouteClaims(input, collation)
    ensures forall cl :: cl in RouteClaims(input, collation) ==>
              exists a :: MappedTo(input, a, cl.warehouseId) && cl.key in a.branchIds
  {
    var accounts := Sort(input.accounts, ByUsername(collation));
    var targets := Targets(input.accounts, input.mapping);
    SortKeepsAll(input.accounts, ByUsername(collation));
    forall a: Account, b ensures b in RouteKeysOf()(a) <==> b in a.branchIds {
      SortKeepsAll(a.branchIds, NatLe);
    }
    forall a, w, b: nat | MappedTo(input, a, w) && b in a.branchIds
      ensures Claim(b, w, a.username) in RouteClaims(input, collation)
    {
      ClaimsComeFromHoldings(accounts, targets, RouteKeysOf(), Claim(b, w, a.username));
    }
    forall cl | cl in RouteClaims(input, collation)
      ensures exists a :: MappedTo(input, a, cl.warehouseId) && cl.key in a.branchIds
    {
      ClaimsComeFromHoldings(accounts, targets, RouteKeysOf(), cl);
      var a :| a in accounts && a.userId in targets && cl.key in RouteKeysOf()(a)
               && cl.warehouseId == targets[a.userId] && cl.username == a.username;
      assert MappedTo(input, a, cl.warehouseId);
    }
  }

  // ---- What a written plan changes ----

  /** Mapped accounts are active, and active accounts left unmapped hold nothing. */
  ghost predicate IsMapped(input: MigrationInput, a: Account) {
    && (Target(input, a).Some? ==> a.isActive)
    && (a.isActive && Target(input, a).None? ==> a.branchIds == [] && forall o, c :: !HoldsPair(a, o, c))
  }

  lemma AccountsAreMapped(input: MigrationInput, collation: Collation, a: Account)
    requires MappingRefusals(input, input.mapping) == []
    requires UnmappedRefusals(input.accounts, Targets(input.accounts, input.mapping), collation) == []
    requires UniqueAccounts(input.accounts) && a in input.accounts
    ensures IsMapped(input, a)
  {
    if Target(input, a).Some? {
      TargetsAreActive(input, input.mapping, a.userId);
    } else if a.isActive {
      UnmappedHoldNothing(input.accounts, Targets(input.accounts, input.mapping), collation, a);
    }
  }

  ghost predicate ClaimsAgree(input: MigrationInput, collation: Collation) {
    && Agreed(CityRuleHolders(input.existingRules), RuleClaims(input, collation))
    && Agreed(RouteHolders(input.existingRoutes), RouteClaims(input, collation))
  }

  lemma ClaimsOfWritablePlanAgree(input: MigrationInput, collation: Collation, plan: MigrationPlan)
    requires Writable(input, collation, plan)
    ensures ClaimsAgree(input, collation)
  {
    NoObjectionMeansAgreed(CityRuleHolders(input.existingRules), RuleClaims(input, collation));
    NoObjectionMeansAgreed(RouteHolders(input.existingRoutes), RouteClaims(input, collation));
  }

  /** A branch's route, present or to be written: the existing one, or the warehouse of an account that holds the branch singly. */
  ghost predicate RoutedTo(input: MigrationInput, b: nat, w: nat) {
    Lookup(RouteHolders(input.existingRoutes), b) == Some(w) || exists v :: MappedTo(input, v, w) && b in v.branchIds
  }

  /** A pair's rule, present or to be written: the existing one, or the warehouse of an account that holds the pair. */
  ghost predicate RuledTo(input: MigrationInput, o: nat, c: string, w: nat) {
    Lookup(CityRuleHolders(input.existingRules), (o, c)) == Some(w) || exists v :: MappedTo(input, v, w) && HoldsPair(v, o, c)
  }

  /** The warehouse a branch is in once everything is written, read off the input. */
  ghost predicate PutIn(input: MigrationInput, b: nat, place: Place, w: nat) {
    if exists x :: RoutedTo(input, b, x) then RoutedTo(input, b, w)
    else if place.cityKey.Some? && exists x :: RuledTo(input, place.organizationId, place.cityKey.value, x)
    then RuledTo(input, place.organizationId, place.cityKey.value, w)
    else Lookup(OrganizationRuleHolders(input.existingRules), place.organizationId) == Some(w)
  }

  /** Once agreed claims are written, a key's holder is the existing one or whoever claims the key. */
  lemma HoldersLeft<K(!new)>(existing: map<K, nat>, claims: seq<Claim<K>>, key: K, w: nat)
    requires Agreed(existing, claims)
    ensures Lookup(Final(existing, Planned(existing, claims)), key) == Some(w) <==>
            Lookup(existing, key) == Some(w) || exists c :: c in claims && c.key == key && c.warehouseId == w
  {
    AgreedClaimsAreKept(existing, claims);
    if key in Planned(existing, claims) {
      assert FirstOn(claims, key).value in claims;
    }
  }

  /** Whatever was configured before, the routes left are the existing ones and one for each branch held singly. */
  lemma RoutesLeft(input: MigrationInput, collation: Collation, plan: MigrationPlan, b: nat, w: nat)
    requires RoutesFit(input, collation, plan) && ClaimsAgree(input, collation)
    ensures Lookup(RouteHolders(Applied(input, plan).routes), b) == Some(w) <==> RoutedTo(input, b, w)
  {
    AppliedRoutes(input, collation, plan);
    HoldersLeft(RouteHolders(input.existingRoutes), RouteClaims(input, collation), b, w);
    RouteClaimed(input, collation, b, w);
  }

  lemma RouteClaimed(input: MigrationInput, collation: Collation, b: nat, w: nat)
    ensures (exists c :: c in RouteClaims(input, collation) && c.key == b && c.warehouseId == w) <==>
            exists v :: MappedTo(input, v, w) && b in v.branchIds
  {
    RouteClaimsAreHoldings(input, collation);
    if v :| MappedTo(input, v, w) && b in v.branchIds {
      assert Claim(b, w, v.username) in RouteClaims(input, collation);
    }
  }

  /** Whatever was configured before, the city rules left are the existing ones and one for each pair held. */
  lemma RulesLeft(input: MigrationInput, collation: Collation, plan: MigrationPlan, o: nat, c: string, w: nat)
    requires RulesFit(input, collation, plan) && ClaimsAgree(input, collation)
    ensures Lookup(CityRuleHolders(Applied(input, plan).rules), (o, c)) == Some(w) <==> RuledTo(input, o, c, w)
  {
    AppliedCityRules(input, collation, plan);
    HoldersLeft(CityRuleHolders(input.existingRules), RuleClaims(input, collation), (o, c), w);
    RuleClaimed(input, collation, o, c, w);
  }

  lemma RuleClaimed(input: MigrationInput, collation: Collation, o: nat, c: string, w: nat)
    ensures (exists cl :: cl in RuleClaims(input, collation) && cl.key == (o, c) && cl.warehouseId == w) <==>
            exists v :: MappedTo(input, v, w) && HoldsPair(v, o, c)
  {
    RuleClaimsAreHoldings(input, collation);
    if v :| MappedTo(input, v, w) && HoldsPair(v, o, c) {
      assert Claim((o, c), w, v.username) in RuleClaims(input, collation);
    }
  }

  /** Every branch ends up in the warehouse the input puts it in, whatever was configured before. */
  lemma BranchesArePut(input: MigrationInput, collation: Collation, plan: MigrationPlan, b: nat, place: Place, w: nat)
    requires RulesFit(input, collation, plan) && RoutesFit(input, collation, plan) && ClaimsAgree(input, collation)
    ensures WarehouseOf(Applied(input, plan), b, place) == Some(w) <==> PutIn(input, b, place, w)
  {
    AppliedCityRules(input, collation, plan);
    forall x { RoutesLeft(input, collation, plan, b, x); }
    if place.cityKey.Some? {
      forall x { RulesLeft(input, collation, plan, place.organizationId, place.cityKey.value, x); }
    }
    var route := Lookup(RouteHolders(Applied(input, plan).routes), b);
    assert route.Some? ==> RoutedTo(input, b, route.value);
    if place.cityKey.Some? {
      var rule := Lookup(CityRuleHolders(Applied(input, plan).rules), (place.organizationId, place.cityKey.value));
      assert rule.Some? ==> RuledTo(input, place.organizationId, place.cityKey.value, rule.value);
    }
  }

  lemma ElementsOfMemberships(memberships: seq<PlannedMembership>, m: Membership)
    ensures m in AsMemberships(memberships) <==>
            m.responsibility == WarehouseOperator && m.branchScope == All && PlannedMembership(m.warehouseId, m.userId) in memberships
  {
    var written := AsMemberships(memberships);
    if PlannedMembership(m.warehouseId, m.userId) in memberships {
      var i :| 0 <= i < |memberships| && memberships[i] == PlannedMembership(m.warehouseId, m.userId);
      assert written[i] == Membership(m.warehouseId, m.userId, WarehouseOperator, All);
    }
  }

  /** The memberships written are the mapped accounts' that had none at their warehouse, all-branches operators. */
  lemma MembershipsOfPlan(input: MigrationInput, collation: Collation, plan: MigrationPlan, m: Membership)
    requires MembershipsFit(input, collation, plan)
    ensures m in Applied(input, plan).memberships <==>
              || m in input.existingMemberships
              || (&& m.responsibility == WarehouseOperator && m.branchScope == All
                  && FirstMembership(input.existingMemberships, m.warehouseId, m.userId).None?
                  && exists a :: a in input.accounts && a.userId == m.userId && Target(input, a) == Some(m.warehouseId))
  {
    ElementsOfMemberships(plan.memberships, m);
    MissingArePlanned(input, collation, plan, PlannedMembership(m.warehouseId, m.userId));
  }

  lemma MissingArePlanned(input: MigrationInput, collation: Collation, plan: MigrationPlan, p: PlannedMembership)
    requires MembershipsFit(input, collation, plan)
    ensures p in plan.memberships <==>
              && FirstMembership(input.existingMemberships, p.warehouseId, p.userId).None?
              && exists a :: a in input.accounts && a.userId == p.userId && Target(input, a) == Some(p.warehouseId)
  {
    var accounts := Sort(input.accounts, ByUsername(collation));
    var missing := MissingMemberships(accounts, Targets(input.accounts, input.mapping), input.existingMemberships);
    SortKeepsAll(input.accounts, ByUsername(collation));
    SortKeepsAll(missing, MembershipLe(collation));
    if a :| a in input.accounts && a.userId == p.userId && Target(input, a) == Some(p.warehouseId) {
      assert a in accounts;
    }
  }

  /** A written plan leaves every mapped account an all-branches operator of its warehouse. */
  lemma MembershipsAreThere(input: MigrationInput, collation: Collation, plan: MigrationPlan, a: Account)
    requires MembershipsFit(input, collation, plan) && a in input.accounts && Target(input, a).Some?
    requires MembershipRefusals(Sort(input.accounts, ByUsername(collation)), Targets(input.accounts, input.mapping), input.existingMemberships) == []
    ensures var m := FirstMembership(Applied(input, plan).memberships, Target(input, a).value, a.userId);
            m.Some? && m.value.responsibility == WarehouseOperator && m.value.branchScope == All
  {
    var w := Target(input, a).value;
    var written := AsMemberships(plan.memberships);
    FirstMembershipOfMore(input.existingMemberships, written, w, a.userId);
    if FirstMembership(input.existingMemberships, w, a.userId).None? {
      MissingArePlanned(input, collation, plan, PlannedMembership(w, a.userId));
      ElementsOfMemberships(plan.memberships, Membership(w, a.userId, WarehouseOperator, All));
      ElementsOfMemberships(plan.memberships, FirstMembership(written, w, a.userId).value);
    } else {
      SortKeepsAll(input.accounts, ByUsername(collation));
      ExistingMembershipsFit(Sort(input.accounts, ByUsername(collation)), Targets(input.accounts, input.mapping),
                             input.existingMemberships, a);
    }
  }

  /** The warehouses whose branch `b` an account works once everything is written: its own, and those it already works `b` at. */
  ghost predicate WorksAt(input: MigrationInput, a: Account, b: nat, w: nat) {
    || Target(input, a) == Some(w)
    || (exists m :: m in input.existingMemberships && IsOperator(m, a, b) && m.warehouseId == w)
  }

  lemma OperatorsLeft(input: MigrationInput, collation: Collation, plan: MigrationPlan, a: Account, b: nat, w: nat)
    requires MembershipsFit(input, collation, plan) && a in input.accounts
    requires MembershipRefusals(Sort(input.accounts, ByUsername(collation)), Targets(input.accounts, input.mapping), input.existingMemberships) == []
    ensures (exists m :: m in Applied(input, plan).memberships && IsOperator(m, a, b) && m.warehouseId == w) <==> WorksAt(input, a, b, w)
  {
    if Target(input, a) == Some(w) {
      MembershipsAreThere(input, collation, plan, a);
      assert IsOperator(FirstMembership(Applied(input, plan).memberships, w, a.userId).value, a, b);
    } else {
      forall m { MembershipsOfPlan(input, collation, plan, m); }
    }
  }

  /** What a written plan amounts to. */
  ghost predicate Moves(input: MigrationInput, collation: Collation, plan: MigrationPlan) {
    && ClaimsAgree(input, collation) && RulesFit(input, collation, plan) && RoutesFit(input, collation, plan)
    && (forall a :: a in input.accounts ==> IsMapped(input, a))
    && (forall a, b, w :: a in input.accounts ==>
                            ((exists m :: m in Applied(input, plan).memberships && IsOperator(m, a, b) && m.warehouseId == w) <==> WorksAt(input, a, b, w)))
  }

  lemma WrittenPlansMove(input: MigrationInput, collation: Collation, plan: MigrationPlan)
    requires Writable(input, collation, plan)
    ensures Moves(input, collation, plan)
  {
    ClaimsOfWritablePlanAgree(input, collation, plan);
    forall a | a in input.accounts { AccountsAreMapped(input, collation, a); }
    forall a, b: nat, w: nat | a in input.accounts { OperatorsLeft(input, collation, plan, a, b, w); }
  }

  /** A branch is worked exactly at the one warehouse it ends up in. */
  lemma WorkedWhereItIsPut(input: MigrationInput, collation: Collation, plan: MigrationPlan, a: Account, b: nat, place: Place)
    requires Moves(input, collation, plan) && a in input.accounts
    ensures (exists m :: m in Applied(input, plan).memberships && IsOperator(m, a, b) && WarehouseOf(Applied(input, plan), b, place) == Some(m.warehouseId))
            <==> exists w :: PutIn(input, b, place, w) && WorksAt(input, a, b, w)
  {
    forall w { BranchesArePut(input, collation, plan, b, place, w); }
    var w := WarehouseOf(Applied(input, plan), b, place);
    if w.Some? {
      assert PutIn(input, b, place, w.value);
      assert WorksAt(input, a, b, w.value) <==>
             exists m :: m in Applied(input, plan).memberships && IsOperator(m, a, b) && m.warehouseId == w.value;
    }
  }

  /** What an account works after the migration, whatever was configured before: the branches put in a warehouse it works at. */
  lemma ServesAfterExactly(input: MigrationInput, collation: Collation, plan: MigrationPlan, a: Account, directory: Directory, b: nat)
    requires Writable(input, collation, plan) && a in input.accounts
    ensures ServesAfter(Applied(input, plan), a, directory, b) <==>
            a.isActive && b in directory && exists w :: PutIn(input, b, directory[b], w) && WorksAt(input, a, b, w)
  {
    if b in directory {
      WrittenPlansMove(input, collation, plan);
      WorkedWhereItIsPut(input, collation, plan, a, b, directory[b]);
    }
  }

  /** What is lost, whatever was configured before: exactly the branches routed, by an existing row or by being
      held singly, to a warehouse the account does not work them at. */
  lemma LostToARoute(input: MigrationInput, collation: Collation, plan: MigrationPlan, a: Account, directory: Directory, b: nat)
    requires Writable(input, collation, plan)
    requires a in input.accounts && ServesToday(a, directory, b)
    ensures !ServesAfter(Applied(input, plan), a, directory, b) <==> exists w :: RoutedTo(input, b, w) && !WorksAt(input, a, b, w)
  {
    WrittenPlansMove(input, collation, plan);
    assert IsMapped(input, a);
    var own, place := Target(input, a).value, directory[b];
    ServesAfterExactly(input, collation, plan, a, directory, b);
    assert MappedTo(input, a, own) && WorksAt(input, a, b, own);
    forall w { RoutesLeft(input, collation, plan, b, w); }
    if w :| RoutedTo(input, b, w) {
      assert PutIn(input, b, place, w);
    } else {
      assert RuledTo(input, place.organizationId, place.cityKey.value, own);
      assert PutIn(input, b, place, own);
    }
  }

  /** A branch an account holds, singly or in a pair, is in some warehouse once the account's claims are written. */
  lemma HeldBranchesHaveAWarehouse(input: MigrationInput, collation: Collation, plan: MigrationPlan, a: Account, own: nat, b: nat, place: Place)
    requires RulesFit(input, collation, plan) && RoutesFit(input, collation, plan) && ClaimsAgree(input, collation)
    requires MappedTo(input, a, own)
    requires b in a.branchIds || (place.cityKey.Some? && HoldsPair(a, place.organizationId, place.cityKey.value))
    ensures WarehouseOf(Applied(input, plan), b, place).Some?
  {
    if b in a.branchIds {
      RoutesLeft(input, collation, plan, b, own);
    } else {
      RulesLeft(input, collation, plan, place.organizationId, place.cityKey.value, own);
    }
  }

  /** Falling back on today's assignments adds nothing: a written plan leaves no branch an account works without a warehouse. */
  lemma FallbackAddsNothing(input: MigrationInput, collation: Collation, plan: MigrationPlan, a: Account, directory: Directory, b: nat)
    requires Writable(input, collation, plan) && a in input.accounts
    ensures ServesWithFallback(Applied(input, plan), a, directory, b) <==> ServesAfter(Applied(input, plan), a, directory, b)
  {
    if ServesToday(a, directory, b) {
      ClaimsOfWritablePlanAgree(input, collation, plan);
      AccountsAreMapped(input, collation, a);
      HeldBranchesHaveAWarehouse(input, collation, plan, a, Target(input, a).value, b, directory[b]);
    }
  }
}
