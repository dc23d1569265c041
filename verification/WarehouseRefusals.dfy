/** Which refusals a migration plan carries: each one exactly when its reason is there (lib/apricart-warehouses.ts). */
module WarehouseRefusals {
  import opened Claims
  import opened Options
  import opened Sorting
  import opened WarehouseMigration
  import opened WarehouseReach
  import opened WarehouseReplanning

  // ---- Where a refusal comes from ----

  lemma {:induction false} FromAHolder(accounts: seq<Account>, targets: map<string, nat>, collation: Collation, r: Refusal)
    ensures r in UnmappedRefusals(accounts, targets, collation) <==>
            exists a :: a in accounts && a.isActive && a.userId !in targets && ReachKeys(a, collation) != "" && r == Unmapped(a.username)
  {
    if accounts != [] {
      assert accounts == [accounts[0]] + accounts[1..];
      FromAHolder(accounts[1..], targets, collation, r);
    }
  }

  lemma {:induction false} FromAMember(accounts: seq<Account>, targets: map<string, nat>, existing: seq<Membership>, r: Refusal)
    ensures r in MembershipRefusals(accounts, targets, existing) <==>
            exists a :: a in accounts && r in MembershipRefusal(targets, existing, a)
    decreases |accounts|
  {
    if accounts != [] {
      var n := |accounts| - 1;
      assert accounts == accounts[..n] + [accounts[n]];
      FromAMember(accounts[..n], targets, existing, r);
    }
  }

  /** A claim on a key held by another warehouse, or disputed by the first claim on it, and nothing else, is objected to. */
  ghost predicate Objectionable<K(!new)>(existing: map<K, nat>, claims: seq<Claim<K>>, o: Objection<K>) {
    match o
    case HeldElsewhere(key, holder, wanted) =>
      key in existing && existing[key] == holder && holder != wanted && exists c :: c in claims && c.key == key && c.warehouseId == wanted
    case Disputed(first, second, key) =>
      && key !in existing && FirstOn(claims, key).Some? && FirstOn(claims, key).value.username == first
      && exists c :: c in claims && c.key == key && c.username == second && c.warehouseId != FirstOn(claims, key).value.warehouseId
  }

  lemma ObjectionableToOne<K(!new)>(existing: map<K, nat>, claims: seq<Claim<K>>, c: Claim<K>, o: Objection<K>)
    ensures Objectionable(existing, claims + [c], o) <==> Objectionable(existing, claims, o) || o in ObjectionsTo(existing, claims, c)
  {
    assert forall d :: d in claims + [c] <==> d in claims || d == c;
    FirstOnOfOneMore(claims, c, o.key);
    FirstOnOfOneMore(claims, c, c.key);
  }

  /** The planner objects to exactly those claims. */
  lemma {:induction false} ObjectionsAreExact<K(!new)>(existing: map<K, nat>, claims: seq<Claim<K>>, o: Objection<K>)
    ensures o in Objections(existing, claims) <==> Objectionable(existing, claims, o)
    decreases |claims|
  {
    if claims != [] {
      var n := |claims| - 1;
      assert claims == claims[..n] + [claims[n]];
      ObjectionsAreExact(existing, claims[..n], o);
      ObjectionsOfOneMore(existing, claims[..n], claims[n]);
      ObjectionableToOne(existing, claims[..n], claims[n], o);
    }
  }

  // ---- The mapping ----

  /** Two entries send one account to different warehouses. */
  ghost predicate SentTwice(input: MigrationInput, mapping: seq<MappingEntry>, username: string) {
    && AccountNamed(input.accounts, username).Some?
    && exists d, e :: d in mapping && e in mapping && d.username == username && e.username == username && d.warehouseId != e.warehouseId
  }

  ghost predicate MappingReason(input: MigrationInput, mapping: seq<MappingEntry>, r: Refusal) {
    match r
    case UnknownAccount(username) =>
      (exists e :: e in mapping && e.username == username) && forall a :: a in input.accounts ==> a.username != username
    case InactiveAccount(username) =>
      (exists e :: e in mapping && e.username == username)
      && AccountNamed(input.accounts, username).Some? && !AccountNamed(input.accounts, username).value.isActive
    case UnknownWarehouse(id) =>
      (exists e :: e in mapping && e.warehouseId == id) && forall w :: w in input.warehouses ==> w.id != id
    case InactiveWarehouse(code) =>
      exists e, w :: e in mapping && WarehouseWithId(input.warehouses, e.warehouseId) == Some(w) && !w.isActive && w.code == code
    case MappedTwice(username) => SentTwice(input, mapping, username)
    case _ => false
  }

  lemma OneAccountPerName(input: MigrationInput, u: string, v: string)
    requires UniqueAccounts(input.accounts)
    requires AccountNamed(input.accounts, u).Some? && AccountNamed(input.accounts, v).Some?
    requires AccountNamed(input.accounts, u).value.userId == AccountNamed(input.accounts, v).value.userId
    ensures u == v
  {
    var a, b := AccountNamed(input.accounts, u).value, AccountNamed(input.accounts, v).value;
    var i :| 0 <= i < |input.accounts| && input.accounts[i] == a;
    var j :| 0 <= j < |input.accounts| && input.accounts[j] == b;
  }

  /** With no account sent to two warehouses, whoever is mapped is mapped to the warehouse any of their entries names. */
  lemma MappedAsNamed(input: MigrationInput, mapping: seq<MappingEntry>, e: MappingEntry)
    requires UniqueAccounts(input.accounts) && !SentTwice(input, mapping, e.username)
    requires e in mapping && AccountNamed(input.accounts, e.username).Some?
    ensures var u := AccountNamed(input.accounts, e.username).value.userId;
            u in Targets(input.accounts, mapping) && Targets(input.accounts, mapping)[u] == e.warehouseId
  {
    var u := AccountNamed(input.accounts, e.username).value.userId;
    NamedIsMapped(input, mapping, e);
    TargetsComeFromEntries(input, mapping, u);
    var d :| d in mapping && UserOf(input, d) == Some(u) && d.warehouseId == Targets(input.accounts, mapping)[u];
    OneAccountPerName(input, d.username, e.username);
  }

  lemma MappedTwiceExactly(input: MigrationInput, before: seq<MappingEntry>, last: MappingEntry, username: string)
    requires UniqueAccounts(input.accounts)
    ensures SentTwice(input, before + [last], username) <==>
            SentTwice(input, before, username) || MappedTwice(username) in EntryRefusals(input, before, last)
  {
    assert forall e :: e in before + [last] <==> e in before || e == last;
    var account := AccountNamed(input.accounts, last.username);
    if MappedTwice(username) in EntryRefusals(input, before, last) {
      var u := account.value.userId;
      TargetsComeFromEntries(input, before, u);
      var d :| d in before && UserOf(input, d) == Some(u) && d.warehouseId == Targets(input.accounts, before)[u];
      OneAccountPerName(input, d.username, username);
      assert d in before + [last] && last in before + [last];
    }
    if SentTwice(input, before + [last], username) && !SentTwice(input, before, username) {
      var d, e :| d in before + [last] && e in before + [last] && d.username == username && e.username == username && d.warehouseId != e.warehouseId;
      var other := if d == last then e else d;
      assert other in before && last.username == username;
      MappedAsNamed(input, before, other);
    }
  }

  lemma ReasonsOfOneMore(input: MigrationInput, before: seq<MappingEntry>, last: MappingEntry, r: Refusal)
    requires UniqueAccounts(input.accounts)
    ensures MappingReason(input, before + [last], r) <==> MappingReason(input, before, r) || r in EntryRefusals(input, before, last)
  {
    assert forall e :: e in before + [last] <==> e in before || e == last;
    match r
    case MappedTwice(username) => MappedTwiceExactly(input, before, last, username);
    case _ =>
  }

  /** The mapping is refused for exactly those reasons. */
  lemma {:induction false} MappingRefusalsAreExact(input: MigrationInput, mapping: seq<MappingEntry>, r: Refusal)
    requires UniqueAccounts(input.accounts)
    ensures r in MappingRefusals(input, mapping) <==> MappingReason(input, mapping, r)
    decreases |mapping|
  {
    if mapping != [] {
      var n := |mapping| - 1;
      assert mapping == mapping[..n] + [mapping[n]];
      MappingRefusalsAreExact(input, mapping[..n], r);
      ReasonsOfOneMore(input, mapping[..n], mapping[n], r);
    }
  }

  // ---- Accounts of one warehouse ----

  /** An account that reads unlike the first account of its warehouse. */
  ghost predicate ReadsUnlike(accounts: seq<Account>, targets: map<string, nat>, collation: Collation, first: string, second: string, w: nat) {
    && FirstMappedTo(accounts, targets, w).Some? && FirstMappedTo(accounts, targets, w).value.username == first
    && exists a :: a in accounts && a.userId in targets && targets[a.userId] == w && a.username == second
                   && ReachKeys(a, collation) != ReachKeys(FirstMappedTo(accounts, targets, w).value, collation)
  }

  ghost predicate SharingReason(accounts: seq<Account>, targets: map<string, nat>, collation: Collation, r: Refusal) {
    r.DifferentReach? && ReadsUnlike(accounts, targets, collation, r.first, r.second, r.warehouseId)
  }

  lemma UnlikeOneMore(accounts: seq<Account>, a: Account, targets: map<string, nat>, collation: Collation, r: Refusal)
    ensures SharingReason(accounts + [a], targets, collation, r) <==>
            SharingReason(accounts, targets, collation, r) || r in SharedRefusal(accounts, targets, collation, a)
  {
    assert forall x :: x in accounts + [a] <==> x in accounts || x == a;
    if r.DifferentReach? { FirstMappedToOneMore(accounts, targets, r.warehouseId, a); }
  }

  lemma {:induction false} SharedRefusalsAreExact(accounts: seq<Account>, targets: map<string, nat>, collation: Collation, r: Refusal)
    ensures r in SharedRefusals(accounts, targets, collation) <==> SharingReason(accounts, targets, collation, r)
    decreases |accounts|
  {
    if accounts != [] {
      var n := |accounts| - 1;
      assert accounts == accounts[..n] + [accounts[n]];
      SharedRefusalsAreExact(accounts[..n], targets, collation, r);
      UnlikeOneMore(accounts[..n], accounts[n], targets, collation, r);
    }
  }

  // ---- The whole plan ----

  /** The account's existing membership at its warehouse is not an operator's, or is narrowed. */
  ghost predicate Unfit(input: MigrationInput, a: Account, r: Refusal) {
    match r
    case NotAnOperator(username, w) =>
      && a.username == username && Target(input, a) == Some(w)
      && var m := FirstMembership(input.existingMemberships, w, a.userId); m.Some? && m.value.responsibility != WarehouseOperator
    case NarrowScope(username, w) =>
      && a.username == username && Target(input, a) == Some(w)
      && var m := FirstMembership(input.existingMemberships, w, a.userId);
         m.Some? && m.value.responsibility == WarehouseOperator && m.value.branchScope != All
    case _ => false
  }

  lemma UnfitIsRefused(input: MigrationInput, a: Account, r: Refusal)
    ensures r in MembershipRefusal(Targets(input.accounts, input.mapping), input.existingMemberships, a) <==> Unfit(input, a, r)
  {
  }

  /** Why a plan carries a refusal. */
  ghost predicate Reason(input: MigrationInput, collation: Collation, r: Refusal) {
    match r
    case Unmapped(username) =>
      exists a :: a in input.accounts && a.isActive && Target(input, a) == None && a.username == username
                  && (a.branchIds != [] || (a.organizationIds != [] && a.cityKeys != []))
    case DifferentReach(first, second, w) =>
      ReadsUnlike(Sort(input.accounts, ByUsername(collation)), Targets(input.accounts, input.mapping), collation, first, second, w)
    case RuleRefused(o) => Objectionable(CityRuleHolders(input.existingRules), RuleClaims(input, collation), o)
    case RouteRefused(o) => Objectionable(RouteHolders(input.existingRoutes), RouteClaims(input, collation), o)
    case NotAnOperator(_, _) => exists a :: a in input.accounts && Unfit(input, a, r)
    case NarrowScope(_, _) => exists a :: a in input.accounts && Unfit(input, a, r)
    case _ => MappingReason(input, input.mapping, r)
  }

  lemma HoldsSomething(a: Account, collation: Collation)
    ensures ReachKeys(a, collation) != "" <==> a.branchIds != [] || (a.organizationIds != [] && a.cityKeys != [])
  {
    HoldsNothingReadsEmpty(a, collation);
    if a.organizationIds != [] && a.cityKeys != [] {
      assert HoldsPair(a, a.organizationIds[0], a.cityKeys[0]);
    }
  }

  lemma WrappedRule(objections: seq<Objection<(nat, string)>>, r: Refusal)
    ensures r in WrapRules(objections) <==> r.RuleRefused? && r.rule in objections
  {
    var wrapped := WrapRules(objections);
    if r.RuleRefused? && r.rule in objections {
      var i :| 0 <= i < |objections| && objections[i] == r.rule;
      assert wrapped[i] == r;
    }
  }

  lemma WrappedRoute(objections: seq<Objection<nat>>, r: Refusal)
    ensures r in WrapRoutes(objections) <==> r.RouteRefused? && r.route in objections
  {
    var wrapped := WrapRoutes(objections);
    if r.RouteRefused? && r.route in objections {
      var i :| 0 <= i < |objections| && objections[i] == r.route;
      assert wrapped[i] == r;
    }
  }

  lemma MembershipsRefused(input: MigrationInput, collation: Collation, r: Refusal)
    ensures r in MembershipRefusals(Sort(input.accounts, ByUsername(collation)), Targets(input.accounts, input.mapping), input.existingMemberships)
            <==> (r.NotAnOperator? || r.NarrowScope?) && Reason(input, collation, r)
  {
    var accounts, targets := Sort(input.accounts, ByUsername(collation)), Targets(input.accounts, input.mapping);
    SortKeepsAll(input.accounts, ByUsername(collation));
    FromAMember(accounts, targets, input.existingMemberships, r);
    forall a { UnfitIsRefused(input, a, r); }
  }

  lemma HoldersRefused(input: MigrationInput, collation: Collation, r: Refusal)
    ensures r in UnmappedRefusals(input.accounts, Targets(input.accounts, input.mapping), collation)
            <==> r.Unmapped? && Reason(input, collation, r)
  {
    FromAHolder(input.accounts, Targets(input.accounts, input.mapping), collation, r);
    forall a { HoldsSomething(a, collation); }
  }

  lemma ClaimsRefused(input: MigrationInput, collation: Collation, r: Refusal)
    ensures r in WrapRules(Objections(CityRuleHolders(input.existingRules), RuleClaims(input, collation)))
            <==> r.RuleRefused? && Reason(input, collation, r)
    ensures r in WrapRoutes(Objections(RouteHolders(input.existingRoutes), RouteClaims(input, collation)))
            <==> r.RouteRefused? && Reason(input, collation, r)
  {
    WrappedRule(Objections(CityRuleHolders(input.existingRules), RuleClaims(input, collation)), r);
    WrappedRoute(Objections(RouteHolders(input.existingRoutes), RouteClaims(input, collation)), r);
    if r.RuleRefused? { ObjectionsAreExact(CityRuleHolders(input.existingRules), RuleClaims(input, collation), r.rule); }
    if r.RouteRefused? { ObjectionsAreExact(RouteHolders(input.existingRoutes), RouteClaims(input, collation), r.route); }
  }

  lemma InOneOfSix(input: MigrationInput, collation: Collation, r: Refusal)
    ensures var targets, accounts := Targets(input.accounts, input.mapping), Sort(input.accounts, ByUsername(collation));
            r in AllRefusals(input, collation) <==>
              || r in MappingRefusals(input, input.mapping)
              || r in UnmappedRefusals(input.accounts, targets, collation)
              || r in SharedRefusals(accounts, targets, collation)
              || r in WrapRules(Objections(CityRuleHolders(input.existingRules), RuleClaims(input, collation)))
              || r in WrapRoutes(Objections(RouteHolders(input.existingRoutes), RouteClaims(input, collation)))
              || r in MembershipRefusals(accounts, targets, input.existingMemberships)
  {
  }

  /** A plan carries each refusal once, and exactly those there is a reason for. */
  lemma RefusalsAreExact(input: MigrationInput, collation: Collation, plan: MigrationPlan, r: Refusal)
    requires UniqueAccounts(input.accounts) && IsPlanFor(input, collation, plan)
    ensures r in plan.refusals <==> Reason(input, collation, r)
    ensures forall i, j :: 0 <= i < j < |plan.refusals| ==> plan.refusals[i] != plan.refusals[j]
  {
    InOneOfSix(input, collation, r);
    MappingRefusalsAreExact(input, input.mapping, r);
    HoldersRefused(input, collation, r);
    SharedRefusalsAreExact(Sort(input.accounts, ByUsername(collation)), Targets(input.accounts, input.mapping), collation, r);
    ClaimsRefused(input, collation, r);
    MembershipsRefused(input, collation, r);
  }

  // ---- The order of the refusals ----

  /** The planner's own order: the mapping, accounts left out, accounts that read unlike, rules, routes, memberships. */
  function Place(r: Refusal): nat {
    match r
    case Unmapped(_) => 1
    case DifferentReach(_, _, _) => 2
    case RuleRefused(_) => 3
    case RouteRefused(_) => 4
    case NotAnOperator(_, _) => 5
    case NarrowScope(_, _) => 5
    case _ => 0
  }

  predicate ByPlace(r: Refusal, q: Refusal) { Place(r) <= Place(q) }

  lemma {:induction false} OnceStandsInOrder<T(!new)>(s: seq<T>, le: (T, T) -> bool)
    requires SortedBy(s, le)
    ensures SortedBy(Once(s), le)
    decreases |s|
  {
    if s != [] {
      var n := |s| - 1;
      OnceStandsInOrder(s[..n], le);
      forall x | x in s[..n] ensures le(x, s[n]) {
        var i :| 0 <= i < n && s[i] == x;
      }
      assert forall i :: 0 <= i < |Once(s[..n])| ==> Once(s[..n])[i] in Once(s[..n]);
    }
  }

  lemma KindOfMapping(input: MigrationInput)
    requires UniqueAccounts(input.accounts)
    ensures forall r :: r in MappingRefusals(input, input.mapping) ==> Place(r) == 0
  {
    forall r | r in MappingRefusals(input, input.mapping) { MappingRefusalsAreExact(input, input.mapping, r); }
  }

  lemma KindOfHolders(input: MigrationInput, collation: Collation)
    ensures forall r :: r in UnmappedRefusals(input.accounts, Targets(input.accounts, input.mapping), collation) ==> Place(r) == 1
  {
    forall r | r in UnmappedRefusals(input.accounts, Targets(input.accounts, input.mapping), collation) {
      HoldersRefused(input, collation, r);
    }
  }

  lemma KindOfSharers(accounts: seq<Account>, targets: map<string, nat>, collation: Collation)
    ensures forall r :: r in SharedRefusals(accounts, targets, collation) ==> Place(r) == 2
  {
    forall r | r in SharedRefusals(accounts, targets, collation) { SharedRefusalsAreExact(accounts, targets, collation, r); }
  }

  lemma KindOfClaims(rules: seq<Objection<(nat, string)>>, routes: seq<Objection<nat>>)
    ensures forall r :: r in WrapRules(rules) ==> Place(r) == 3
    ensures forall r :: r in WrapRoutes(routes) ==> Place(r) == 4
  {
    forall r | r in WrapRules(rules) { WrappedRule(rules, r); }
    forall r | r in WrapRoutes(routes) { WrappedRoute(routes, r); }
  }

  lemma KindOfMembers(input: MigrationInput, collation: Collation)
    ensures forall r :: r in MembershipRefusals(Sort(input.accounts, ByUsername(collation)), Targets(input.accounts, input.mapping), input.existingMemberships)
              ==> Place(r) == 5
  {
    forall r | r in MembershipRefusals(Sort(input.accounts, ByUsername(collation)), Targets(input.accounts, input.mapping), input.existingMemberships) {
      MembershipsRefused(input, collation, r);
    }
  }

  ghost predicate AllAt(s: seq<Refusal>, n: nat) { forall r :: r in s ==> Place(r) == n }

  lemma SixStandByKind(a: seq<Refusal>, b: seq<Refusal>, c: seq<Refusal>, e: seq<Refusal>, f: seq<Refusal>, g: seq<Refusal>)
    requires AllAt(a, 0) && AllAt(b, 1) && AllAt(c, 2) && AllAt(e, 3) && AllAt(f, 4) && AllAt(g, 5)
    ensures SortedBy(a + b + c + e + f + g, ByPlace)
  {
    assert forall i, j :: 0 <= i < j < |a| ==> a[i] in a && a[j] in a;
    PlacedTogether(a, b, 1);
    PlacedTogether(a + b, c, 2);
    PlacedTogether(a + b + c, e, 3);
    PlacedTogether(a + b + c + e, f, 4);
    PlacedTogether(a + b + c + e + f, g, 5);
  }

  lemma PlacedTogether(s: seq<Refusal>, t: seq<Refusal>, n: nat)
    requires SortedBy(s, ByPlace) && (forall r :: r in s ==> Place(r) <= n) && forall r :: r in t ==> Place(r) == n
    ensures SortedBy(s + t, ByPlace) && forall r :: r in s + t ==> Place(r) <= n
  {
    var all := s + t;
    forall i, j | 0 <= i < j < |all| ensures ByPlace(all[i], all[j]) {
      if |s| <= i {
        assert all[i] == t[i - |s|] && all[j] == t[j - |s|];
      } else if |s| <= j {
        assert all[i] in s && all[j] == t[j - |s|];
      }
    }
  }

  /** Refusals stand in that order. */
  lemma RefusalsStandByKind(input: MigrationInput, collation: Collation, plan: MigrationPlan)
    requires UniqueAccounts(input.accounts) && IsPlanFor(input, collation, plan)
    ensures forall i, j :: 0 <= i < j < |plan.refusals| ==> Place(plan.refusals[i]) <= Place(plan.refusals[j])
  {
    AllStandByKind(input, collation);
    OnceStandsInOrder(AllRefusals(input, collation), ByPlace);
    assert forall i, j :: 0 <= i < j < |plan.refusals| ==> ByPlace(plan.refusals[i], plan.refusals[j]);
  }

  lemma AllStandByKind(input: MigrationInput, collation: Collation)
    requires UniqueAccounts(input.accounts)
    ensures SortedBy(AllRefusals(input, collation), ByPlace)
  {
    var targets, accounts := Targets(input.accounts, input.mapping), Sort(input.accounts, ByUsername(collation));
    var rules := Objections(CityRuleHolders(input.existingRules), RuleClaims(input, collation));
    var routes := Objections(RouteHolders(input.existingRoutes), RouteClaims(input, collation));
    KindOfMapping(input);
    KindOfHolders(input, collation);
    KindOfSharers(accounts, targets, collation);
    KindOfClaims(rules, routes);
    KindOfMembers(input, collation);
    SixStandByKind(MappingRefusals(input, input.mapping), UnmappedRefusals(input.accounts, targets, collation),
                   SharedRefusals(accounts, targets, collation), WrapRules(rules), WrapRoutes(routes),
                   MembershipRefusals(accounts, targets, input.existingMemberships));
  }

  // ---- Who is named first ----

  ghost predicate StandByName<K>(claims: seq<Claim<K>>, collation: Collation) {
    forall i, j :: 0 <= i < j < |claims| ==> collation(claims[i].username, claims[j].username)
  }

  lemma OneMoreName<K>(earlier: seq<Claim<K>>, own: seq<Claim<K>>, name: string, collation: Collation)
    requires TotalOrder(collation) && StandByName(earlier, collation)
    requires forall c :: c in earlier ==> collation(c.username, name)
    requires forall i :: 0 <= i < |own| ==> own[i].username == name
    ensures StandByName(earlier + own, collation)
  {
    assert collation(name, name);
    forall i, j | 0 <= i < j < |earlier + own| ensures collation((earlier + own)[i].username, (earlier + own)[j].username) {
      if i < |earlier| { assert earlier[i] in earlier; }
    }
  }

  /** Claims of accounts in the order of their names stand in that order. */
  lemma {:induction false} ClaimsStandByName<K(!new)>(accounts: seq<Account>, targets: map<string, nat>, keysOf: Account -> seq<K>, collation: Collation)
    requires TotalOrder(collation) && SortedBy(accounts, ByUsername(collation))
    ensures StandByName(AllClaims(accounts, targets, keysOf), collation)
    decreases |accounts|
  {
    if accounts != [] {
      var before, last := accounts[..|accounts| - 1], accounts[|accounts| - 1];
      var earlier := AllClaims(before, targets, keysOf);
      ClaimsStandByName(before, targets, keysOf, collation);
      forall c | c in earlier ensures collation(c.username, last.username) {
        ClaimsComeFromHoldings(before, targets, keysOf, c);
        var a :| a in before && a.username == c.username;
        var i :| 0 <= i < |before| && before[i] == a;
        assert ByUsername(collation)(accounts[i], accounts[|accounts| - 1]);
      }
      if last.userId in targets {
        OneMoreName(earlier, ClaimsOn(keysOf(last), targets[last.userId], last.username), last.username, collation);
      } else {
        assert earlier + [] == earlier;
      }
    }
  }

  lemma {:induction false} FirstOnComesFirst<K>(claims: seq<Claim<K>>, key: K, j: nat)
    requires j < |claims| && claims[j].key == key
    ensures FirstOn(claims, key).Some? && exists i :: 0 <= i <= j && claims[i] == FirstOn(claims, key).value
  {
    if claims[0].key != key { FirstOnComesFirst(claims[1..], key, j - 1); }
  }

  lemma FirstClaimIsEarlier<K>(claims: seq<Claim<K>>, c: Claim<K>, collation: Collation)
    requires StandByName(claims, collation) && c in claims
    ensures FirstOn(claims, c.key).Some?
    ensures FirstOn(claims, c.key).value != c ==> collation(FirstOn(claims, c.key).value.username, c.username)
  {
    var j :| 0 <= j < |claims| && claims[j] == c;
    FirstOnComesFirst(claims, c.key, j);
    var i :| 0 <= i <= j && claims[i] == FirstOn(claims, c.key).value;
  }

  /** Of two claims that dispute a key the first named is the earlier username. */
  lemma TheEarlierNameComesFirst(input: MigrationInput, collation: Collation, plan: MigrationPlan, first: string, second: string, key: (nat, string))
    requires TotalOrder(collation) && IsPlanFor(input, collation, plan) && UniqueAccounts(input.accounts)
    requires RuleRefused(Disputed(first, second, key)) in plan.refusals
    ensures collation(first, second)
  {
    RefusalsAreExact(input, collation, plan, RuleRefused(Disputed(first, second, key)));
    RuleClaimsStandByName(input, collation);
    EarlierOfADispute(CityRuleHolders(input.existingRules), RuleClaims(input, collation), collation, first, second, key);
  }

  lemma RuleClaimsStandByName(input: MigrationInput, collation: Collation)
    requires TotalOrder(collation)
    ensures StandByName(RuleClaims(input, collation), collation)
  {
    OrdersAreTotal(collation);
    SortSorts(input.accounts, ByUsername(collation));
    ClaimsStandByName(Sort(input.accounts, ByUsername(collation)), Targets(input.accounts, input.mapping), RuleKeysOf(collation), collation);
  }

  lemma EarlierOfADispute<K(!new)>(existing: map<K, nat>, claims: seq<Claim<K>>, collation: Collation, first: string, second: string, key: K)
    requires StandByName(claims, collation) && Objectionable(existing, claims, Disputed(first, second, key))
    ensures collation(first, second)
  {
    var c :| c in claims && c.key == key && c.username == second && c.warehouseId != FirstOn(claims, key).value.warehouseId;
    FirstClaimIsEarlier(claims, c, collation);
  }
}
