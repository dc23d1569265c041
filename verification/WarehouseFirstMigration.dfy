/** The first migration (lib/apricart-warehouses.ts), with nothing configured before:
    what each account loses and gains, and exactly when its reach is reproduced. */
module WarehouseFirstMigration {
  import opened Options
  import opened WarehouseMigration
  import opened WarehouseReach
  import opened WarehouseWritten

  // ---- What is lost and what is gained ----

  lemma NothingElseIsConfigured(input: MigrationInput, a: Account, b: nat, place: Place, w: nat)
    requires NothingConfigured(input)
    ensures WorksAt(input, a, b, w) <==> Target(input, a) == Some(w)
    ensures RoutedTo(input, b, w) <==> exists v :: MappedTo(input, v, w) && b in v.branchIds
    ensures PutIn(input, b, place, w) ==>
              exists v :: MappedTo(input, v, w)
                          && (b in v.branchIds || (place.cityKey.Some? && HoldsPair(v, place.organizationId, place.cityKey.value)))
  {
  }

  /** An account mapped to another warehouse holds the branch one by one. */
  ghost predicate HeldSinglyElsewhere(input: MigrationInput, a: Account, b: nat) {
    exists v :: v in input.accounts && Target(input, v).Some? && Target(input, v) != Target(input, a) && b in v.branchIds
  }

  /** What is lost: exactly the branches another warehouse's account holds one by one. */
  lemma ExactlyTheLost(input: MigrationInput, collation: Collation, plan: MigrationPlan, a: Account, directory: Directory, b: nat)
    requires Writable(input, collation, plan) && NothingConfigured(input)
    requires a in input.accounts && ServesToday(a, directory, b)
    ensures !ServesAfter(Applied(input, plan), a, directory, b) <==> HeldSinglyElsewhere(input, a, b)
  {
    LostToARoute(input, collation, plan, a, directory, b);
    forall w { NothingElseIsConfigured(input, a, b, directory[b], w); }
    if v :| v in input.accounts && Target(input, v).Some? && Target(input, v) != Target(input, a) && b in v.branchIds {
      assert MappedTo(input, v, Target(input, v).value);
      assert RoutedTo(input, b, Target(input, v).value);
    }
  }

  /** An account that shares `a`'s warehouse works the branch today. */
  ghost predicate PeerServes(input: MigrationInput, a: Account, directory: Directory, b: nat) {
    exists v :: v in input.accounts && Target(input, v).Some? && Target(input, v) == Target(input, a) && ServesToday(v, directory, b)
  }

  /** Accounts that share a warehouse work the same branches after the migration. */
  lemma PeersServeAlike(input: MigrationInput, collation: Collation, plan: MigrationPlan, a: Account, v: Account, directory: Directory, b: nat)
    requires Writable(input, collation, plan) && NothingConfigured(input)
    requires a in input.accounts && v in input.accounts && Target(input, v).Some? && Target(input, v) == Target(input, a)
    ensures ServesAfter(Applied(input, plan), a, directory, b) <==> ServesAfter(Applied(input, plan), v, directory, b)
  {
    WrittenPlansMove(input, collation, plan);
    ServesAfterExactly(input, collation, plan, a, directory, b);
    ServesAfterExactly(input, collation, plan, v, directory, b);
    assert IsMapped(input, a) && IsMapped(input, v);
    assert forall w :: WorksAt(input, a, b, w) <==> WorksAt(input, v, b, w);
  }

  /** Only what some account of the warehouse works today is worked after the migration. */
  lemma ServedByAPeer(input: MigrationInput, collation: Collation, plan: MigrationPlan, a: Account, directory: Directory, b: nat)
    requires Writable(input, collation, plan) && NothingConfigured(input)
    requires a in input.accounts && ServesAfter(Applied(input, plan), a, directory, b)
    ensures PeerServes(input, a, directory, b)
  {
    WrittenPlansMove(input, collation, plan);
    ServesAfterExactly(input, collation, plan, a, directory, b);
    var place := directory[b];
    var w :| PutIn(input, b, place, w) && WorksAt(input, a, b, w);
    NothingElseIsConfigured(input, a, b, place, w);
    var v :| MappedTo(input, v, w)
             && (b in v.branchIds || (place.cityKey.Some? && HoldsPair(v, place.organizationId, place.cityKey.value)));
    assert IsMapped(input, v);
    assert ServesToday(v, directory, b);
  }

  /** What is gained: exactly the branches a peer works today, unless another warehouse's account holds them one by one. */
  lemma ExactlyTheGained(input: MigrationInput, collation: Collation, plan: MigrationPlan, a: Account, directory: Directory, b: nat)
    requires Writable(input, collation, plan) && NothingConfigured(input)
    requires a in input.accounts && !ServesToday(a, directory, b)
    ensures ServesAfter(Applied(input, plan), a, directory, b) <==>
            PeerServes(input, a, directory, b) && !HeldSinglyElsewhere(input, a, b)
  {
    WrittenPlansMove(input, collation, plan);
    if ServesAfter(Applied(input, plan), a, directory, b) {
      ServedByAPeer(input, collation, plan, a, directory, b);
    }
    if v :| v in input.accounts && Target(input, v).Some? && Target(input, v) == Target(input, a) && ServesToday(v, directory, b) {
      ExactlyTheLost(input, collation, plan, v, directory, b);
      PeersServeAlike(input, collation, plan, a, v, directory, b);
    }
  }

  // ---- Exactly when a reach is reproduced ----

  /** Every account works after the migration what it works today. */
  ghost predicate Reproduces(input: MigrationInput, plan: MigrationPlan, directory: Directory) {
    forall a, b :: a in input.accounts ==> (ServesToday(a, directory, b) <==> ServesAfter(Applied(input, plan), a, directory, b))
  }

  /** No account holds one by one a branch that an account of another warehouse works today. */
  ghost predicate NoSplitBranches(input: MigrationInput, directory: Directory) {
    forall a, b :: a in input.accounts && ServesToday(a, directory, b) ==> !HeldSinglyElsewhere(input, a, b)
  }

  /** Accounts that share a warehouse work the same branches today. */
  ghost predicate PeersServeTheSame(input: MigrationInput, directory: Directory) {
    forall a, b :: a in input.accounts && PeerServes(input, a, directory, b) ==> ServesToday(a, directory, b)
  }

  /** The migration reproduces every account's reach in a directory exactly when no branch of it is split between
      warehouses and accounts of one warehouse work the same there. */
  lemma ReachIsReproduced(input: MigrationInput, collation: Collation, plan: MigrationPlan, directory: Directory)
    requires Writable(input, collation, plan) && NothingConfigured(input)
    ensures Reproduces(input, plan, directory) <==> NoSplitBranches(input, directory) && PeersServeTheSame(input, directory)
  {
    forall a, b: nat | a in input.accounts
      ensures ServesAfter(Applied(input, plan), a, directory, b) <==>
              (ServesToday(a, directory, b) || PeerServes(input, a, directory, b)) && !HeldSinglyElsewhere(input, a, b)
    {
      if ServesToday(a, directory, b) {
        ExactlyTheLost(input, collation, plan, a, directory, b);
      } else {
        ExactlyTheGained(input, collation, plan, a, directory, b);
      }
    }
    if Reproduces(input, plan, directory) {
      PeersOfAReproduction(input, collation, plan, directory);
    }
  }

  lemma PeersOfAReproduction(input: MigrationInput, collation: Collation, plan: MigrationPlan, directory: Directory)
    requires Writable(input, collation, plan) && NothingConfigured(input) && Reproduces(input, plan, directory)
    ensures PeersServeTheSame(input, directory)
  {
    WrittenPlansMove(input, collation, plan);
    forall a, b: nat | a in input.accounts && PeerServes(input, a, directory, b) ensures ServesToday(a, directory, b) {
      var v :| v in input.accounts && Target(input, v).Some? && Target(input, v) == Target(input, a) && ServesToday(v, directory, b);
      PeersServeAlike(input, collation, plan, a, v, directory, b);
    }
  }

  ghost predicate Apart(input: MigrationInput, a: Account, v: Account) {
    a in input.accounts && v in input.accounts && Target(input, a).Some? && Target(input, v).Some? && Target(input, a) != Target(input, v)
  }

  /** Of two accounts at different warehouses, if one holds a pair the other holds no branch one by one. */
  ghost predicate PairsOrSingles(input: MigrationInput) {
    forall a, v, o, c :: Apart(input, a, v) && HoldsPair(a, o, c) ==> v.branchIds == []
  }

  lemma PairsOrSinglesNeverSplit(input: MigrationInput, collation: Collation, plan: MigrationPlan, directory: Directory)
    requires Moves(input, collation, plan) && PairsOrSingles(input)
    ensures NoSplitBranches(input, directory)
  {
    forall a, b: nat | a in input.accounts && ServesToday(a, directory, b) ensures !HeldSinglyElsewhere(input, a, b) {
      assert IsMapped(input, a);
      if v :| v in input.accounts && Target(input, v).Some? && Target(input, v) != Target(input, a) && b in v.branchIds {
        assert b in a.branchIds;
        assert MappedTo(input, a, Target(input, a).value) && MappedTo(input, v, Target(input, v).value);
        RoutesLeft(input, collation, plan, b, Target(input, a).value);
        RoutesLeft(input, collation, plan, b, Target(input, v).value);
      }
    }
  }

  /** A pair of one warehouse and a single branch of another: the branch, were it in the pair, would be split. */
  lemma APairAndASingleSplit(input: MigrationInput, a: Account, v: Account, o: nat, c: string)
    requires Apart(input, a, v) && IsMapped(input, a) && HoldsPair(a, o, c) && v.branchIds != []
    ensures !NoSplitBranches(input, map[v.branchIds[0] := Place(o, Some(c))])
  {
    var b := v.branchIds[0];
    assert b in v.branchIds;
    assert ServesToday(a, map[b := Place(o, Some(c))], b);
    assert HeldSinglyElsewhere(input, a, b);
  }

  ghost predicate GainsNothing(input: MigrationInput, plan: MigrationPlan) {
    forall a, directory, b :: a in input.accounts && ServesAfter(Applied(input, plan), a, directory, b) ==> ServesToday(a, directory, b)
  }

  lemma {:induction false} Unused(used: set<nat>) returns (n: nat)
    ensures n !in used && forall m :: m in used ==> m < n
  {
    if used == {} {
      n := 0;
    } else {
      var m :| m in used;
      var below := Unused(used - {m});
      n := if m < below then below else m + 1;
      assert forall k :: k in used ==> k == m || k in used - {m};
    }
  }

  lemma ABranchNobodyHolds(accounts: seq<Account>) returns (b: nat)
    ensures forall a :: a in accounts ==> b !in a.branchIds
  {
    b := Unused(set a, c | a in accounts && c in a.branchIds :: c);
  }

  /** Two warehouses never both have accounts that hold a branch one by one: one of them would be refused. */
  lemma SinglesAreNotSplit(input: MigrationInput, collation: Collation, plan: MigrationPlan, v: Account, b: nat)
    requires RoutesFit(input, collation, plan) && ClaimsAgree(input, collation)
    requires v in input.accounts && Target(input, v).Some? && b in v.branchIds
    ensures !HeldSinglyElsewhere(input, v, b)
  {
    assert MappedTo(input, v, Target(input, v).value);
    RoutesLeft(input, collation, plan, b, Target(input, v).value);
    if u :| u in input.accounts && Target(input, u).Some? && Target(input, u) != Target(input, v) && b in u.branchIds {
      assert MappedTo(input, u, Target(input, u).value);
      RoutesLeft(input, collation, plan, b, Target(input, u).value);
    }
  }

  lemma PeersFollow(input: MigrationInput, collation: Collation, plan: MigrationPlan, a: Account, v: Account, directory: Directory, b: nat)
    requires Writable(input, collation, plan) && NothingConfigured(input) && GainsNothing(input, plan)
    requires a in input.accounts && v in input.accounts && Target(input, v).Some? && Target(input, a) == Target(input, v)
    requires ServesToday(v, directory, b) && !HeldSinglyElsewhere(input, v, b)
    ensures ServesToday(a, directory, b)
  {
    WrittenPlansMove(input, collation, plan);
    ExactlyTheLost(input, collation, plan, v, directory, b);
    PeersServeAlike(input, collation, plan, a, v, directory, b);
  }

  /** If nothing is gained, the pairs of a peer are held: a branch opened in the pair would show it. */
  lemma PeersPairsFollow(input: MigrationInput, collation: Collation, plan: MigrationPlan, a: Account, v: Account, o: nat, c: string)
    requires Writable(input, collation, plan) && NothingConfigured(input) && GainsNothing(input, plan)
    requires a in input.accounts && v in input.accounts && Target(input, v).Some? && Target(input, a) == Target(input, v)
    requires HoldsPair(v, o, c)
    ensures HoldsPair(a, o, c)
  {
    var b := ABranchNobodyHolds(input.accounts);
    var directory := map[b := Place(o, Some(c))];
    WrittenPlansMove(input, collation, plan);
    assert IsMapped(input, v);
    PeersFollow(input, collation, plan, a, v, directory, b);
  }

  /** If nothing is gained, the single branches of a peer are held: the branch in no city would show it. */
  lemma PeersBranchesFollow(input: MigrationInput, collation: Collation, plan: MigrationPlan, a: Account, v: Account, b: nat)
    requires Writable(input, collation, plan) && NothingConfigured(input) && GainsNothing(input, plan)
    requires a in input.accounts && v in input.accounts && Target(input, v).Some? && Target(input, a) == Target(input, v)
    requires b in v.branchIds
    ensures b in a.branchIds
  {
    var directory := map[b := Place(0, None)];
    WrittenPlansMove(input, collation, plan);
    assert IsMapped(input, v);
    SinglesAreNotSplit(input, collation, plan, v, b);
    PeersFollow(input, collation, plan, a, v, directory, b);
  }

  lemma SameHoldingsServeTheSame(input: MigrationInput, directory: Directory)
    requires PeersHoldTheSame(input) && forall a :: a in input.accounts ==> IsMapped(input, a)
    ensures PeersServeTheSame(input, directory)
  {
    forall a, b: nat | a in input.accounts && PeerServes(input, a, directory, b) ensures ServesToday(a, directory, b) {
      var v :| v in input.accounts && Target(input, v).Some? && Target(input, v) == Target(input, a) && ServesToday(v, directory, b);
      assert IsMapped(input, a);
      assert SameHoldings(v, a);
    }
  }

  /** What is gained: nothing, in any directory of branches, exactly when accounts sharing a warehouse hold the same. */
  lemma ExactlyWhenNothingIsGained(input: MigrationInput, collation: Collation, plan: MigrationPlan)
    requires Writable(input, collation, plan) && NothingConfigured(input)
    ensures GainsNothing(input, plan) <==> PeersHoldTheSame(input)
  {
    WrittenPlansMove(input, collation, plan);
    if PeersHoldTheSame(input) {
      forall a, directory: Directory, b: nat | a in input.accounts && ServesAfter(Applied(input, plan), a, directory, b)
        ensures ServesToday(a, directory, b)
      {
        ServedByAPeer(input, collation, plan, a, directory, b);
        SameHoldingsServeTheSame(input, directory);
      }
    }
    if GainsNothing(input, plan) {
      forall a, v | a in input.accounts && v in input.accounts && Target(input, a).Some? && Target(input, a) == Target(input, v)
        ensures SameHoldings(a, v)
      {
        forall o: nat, c ensures HoldsPair(a, o, c) <==> HoldsPair(v, o, c) {
          if HoldsPair(v, o, c) { PeersPairsFollow(input, collation, plan, a, v, o, c); }
          if HoldsPair(a, o, c) { PeersPairsFollow(input, collation, plan, v, a, o, c); }
        }
        forall b: nat ensures b in a.branchIds <==> b in v.branchIds {
          if b in v.branchIds { PeersBranchesFollow(input, collation, plan, a, v, b); }
          if b in a.branchIds { PeersBranchesFollow(input, collation, plan, v, a, b); }
        }
      }
    }
  }

  /** The migration reproduces every reach in every directory, branches yet to open included, exactly when accounts of
      one warehouse hold the same and no two warehouses have a pair on one side and a single branch on the other. */
  lemma AlwaysReproducedExactly(input: MigrationInput, collation: Collation, plan: MigrationPlan)
    requires Writable(input, collation, plan) && NothingConfigured(input)
    ensures (forall directory :: Reproduces(input, plan, directory)) <==> PeersHoldTheSame(input) && PairsOrSingles(input)
  {
    if PeersHoldTheSame(input) && PairsOrSingles(input) {
      forall directory: Directory ensures Reproduces(input, plan, directory) {
        WrittenPlansMove(input, collation, plan);
        PairsOrSinglesNeverSplit(input, collation, plan, directory);
        SameHoldingsServeTheSame(input, directory);
        ReachIsReproduced(input, collation, plan, directory);
      }
    }
    if forall directory :: Reproduces(input, plan, directory) {
      AlwaysReproducedGainsNothing(input, plan);
      ExactlyWhenNothingIsGained(input, collation, plan);
      AlwaysReproducedSplitsNothing(input, collation, plan);
    }
  }

  lemma AlwaysReproducedSplitsNothing(input: MigrationInput, collation: Collation, plan: MigrationPlan)
    requires Writable(input, collation, plan) && NothingConfigured(input)
    requires forall directory :: Reproduces(input, plan, directory)
    ensures PairsOrSingles(input)
  {
    forall a, v, o: nat, c | Apart(input, a, v) && HoldsPair(a, o, c) ensures v.branchIds == [] {
      if v.branchIds != [] {
        WrittenPlansMove(input, collation, plan);
        assert IsMapped(input, a);
        APairAndASingleSplit(input, a, v, o, c);
        ReachIsReproduced(input, collation, plan, map[v.branchIds[0] := Place(o, Some(c))]);
      }
    }
  }

  lemma AlwaysReproducedGainsNothing(input: MigrationInput, plan: MigrationPlan)
    requires forall directory :: Reproduces(input, plan, directory)
    ensures GainsNothing(input, plan)
  {
    forall a, directory: Directory, b: nat | a in input.accounts && ServesAfter(Applied(input, plan), a, directory, b)
      ensures ServesToday(a, directory, b)
    {
      assert Reproduces(input, plan, directory);
    }
  }
}
