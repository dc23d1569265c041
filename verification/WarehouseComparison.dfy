/** What each account would lose and gain going from one reach to another
    (lib/apricart-warehouses.ts), and what it reports of a migration. */
module WarehouseComparison {
  import opened Counting
  import opened Gathering
  import opened InsertionMaps
  import opened Options
  import opened Sorting
  import opened WarehouseFirstMigration
  import opened WarehouseMigration
  import opened WarehouseReach
  import opened WarehouseWritten

  datatype Difference = Difference(accountId: string, lost: seq<nat>, gained: seq<nat>)

  type Reach = InsertionMap<string, seq<nat>>

  function ReachOf(reach: Reach, accountId: string): seq<nat> {
    if accountId in reach.at then reach.at[accountId] else []
  }

  function NotIn(other: seq<nat>): nat -> bool { (b: nat) => b !in other }

  /** The branches of one reach that are not in another, ascending. */
  function Missing(from: seq<nat>, other: seq<nat>): seq<nat> {
    Sort(Filter(NotIn(other), Once(from)), NatLe)
  }

  function DifferenceFor(current: Reach, proposed: Reach): string -> Option<Difference> {
    (id: string) =>
      var before, after := ReachOf(current, id), ReachOf(proposed, id);
      var lost, gained := Missing(before, after), Missing(after, before);
      if lost == [] && gained == [] then None else Some(Difference(id, lost, gained))
  }

  function CompareWarehouseReach(current: Reach, proposed: Reach, collation: Collation): seq<Difference> {
    Gathered(DifferenceFor(current, proposed), Sort(Once(current.keys + proposed.keys), collation))
  }

  lemma MissingIsTheDifference(from: seq<nat>, other: seq<nat>)
    ensures forall b :: b in Missing(from, other) <==> b in from && b !in other
    ensures forall i, j :: 0 <= i < j < |Missing(from, other)| ==> Missing(from, other)[i] < Missing(from, other)[j]
  {
    var kept := Filter(NotIn(other), Once(from));
    var sorted := Sort(kept, NatLe);
    SortKeepsAll(kept, NatLe);
    SortSorts(kept, NatLe);
    FilterStaysDistinct(NotIn(other), Once(from));
    DistinctStaysDistinct(kept, sorted);
    forall i, j | 0 <= i < j < |sorted| ensures sorted[i] < sorted[j] {
      assert NatLe(sorted[i], sorted[j]) && sorted[i] != sorted[j];
    }
  }

  lemma {:induction false} DifferencesOf(ids: seq<string>, current: Reach, proposed: Reach, d: Difference)
    ensures d in Gathered(DifferenceFor(current, proposed), ids) <==>
            d.accountId in ids && DifferenceFor(current, proposed)(d.accountId) == Some(d)
  {
    if ids != [] {
      assert ids == [ids[0]] + ids[1..];
      DifferencesOf(ids[1..], current, proposed, d);
    }
  }

  /** An account whose reaches differ, with exactly what it loses and gains, each ascending. */
  ghost predicate IsDifference(d: Difference, before: seq<nat>, after: seq<nat>) {
    && (exists b :: (b in before) != (b in after))
    && (forall b :: b in d.lost <==> b in before && b !in after)
    && (forall b :: b in d.gained <==> b in after && b !in before)
    && (forall i, j :: 0 <= i < j < |d.lost| ==> d.lost[i] < d.lost[j])
    && (forall i, j :: 0 <= i < j < |d.gained| ==> d.gained[i] < d.gained[j])
  }

  lemma DifferenceOfTwo(d: Difference, before: seq<nat>, after: seq<nat>)
    ensures d.lost == Missing(before, after) && d.gained == Missing(after, before) && (d.lost != [] || d.gained != [])
            <==> IsDifference(d, before, after)
  {
    MissingIsTheDifference(before, after);
    MissingIsTheDifference(after, before);
    AscendingIsUnique(d.lost, Missing(before, after));
    AscendingIsUnique(d.gained, Missing(after, before));
    EmptyOrNot(Missing(before, after));
    EmptyOrNot(Missing(after, before));
    if b :| (b in before) != (b in after) {
      assert b in Missing(before, after) || b in Missing(after, before);
    }
  }

  lemma ListedIds(current: Reach, proposed: Reach, collation: Collation, id: string)
    requires current.Valid() && proposed.Valid()
    ensures id in Sort(Once(current.keys + proposed.keys), collation) <==> id in current.at || id in proposed.at
  {
    SortKeepsAll(Once(current.keys + proposed.keys), collation);
    assert id in current.keys + proposed.keys <==> id in current.keys || id in proposed.keys;
  }

  /** The report lists exactly the accounts whose reaches differ, each with its difference. */
  lemma ComparisonIsExact(current: Reach, proposed: Reach, collation: Collation, d: Difference)
    requires current.Valid() && proposed.Valid()
    ensures d in CompareWarehouseReach(current, proposed, collation) <==>
            IsDifference(d, ReachOf(current, d.accountId), ReachOf(proposed, d.accountId))
  {
    DifferencesOf(Sort(Once(current.keys + proposed.keys), collation), current, proposed, d);
    ListedIds(current, proposed, collation, d.accountId);
    DifferenceOfTwo(d, ReachOf(current, d.accountId), ReachOf(proposed, d.accountId));
  }

  lemma AscendingIsUnique(a: seq<nat>, b: seq<nat>)
    requires forall i, j :: 0 <= i < j < |b| ==> b[i] < b[j]
    ensures a == b <==> (forall x :: x in a <==> x in b) && (forall i, j :: 0 <= i < j < |a| ==> a[i] < a[j])
  {
    if (forall x :: x in a <==> x in b) && (forall i, j :: 0 <= i < j < |a| ==> a[i] < a[j]) {
      DistinctIsASet(a, b);
      SortedIsUnique(a, b, NatLe);
    }
  }

  /** The two maps list, for every account of the input and nobody else, the branches it serves today and after the plan. */
  ghost predicate Reaches(input: MigrationInput, plan: MigrationPlan, directory: Directory, current: Reach, proposed: Reach) {
    && current.Valid() && proposed.Valid()
    && (forall k :: k in current.keys || k in proposed.keys ==> exists a :: a in input.accounts && a.userId == k)
    && (forall a, b: nat :: a in input.accounts ==> (b in ReachOf(current, a.userId) <==> ServesToday(a, directory, b)))
    && (forall a, b: nat :: a in input.accounts ==> (b in ReachOf(proposed, a.userId) <==> ServesAfter(Applied(input, plan), a, directory, b)))
  }

  /** An account's entry holds what it works on one side of the migration only. */
  lemma EntryOf(input: MigrationInput, plan: MigrationPlan, collation: Collation, directory: Directory,
                current: Reach, proposed: Reach, d: Difference, a: Account)
    requires Reaches(input, plan, directory, current, proposed)
    requires d in CompareWarehouseReach(current, proposed, collation) && a in input.accounts && a.userId == d.accountId
    ensures forall b: nat :: b in d.lost <==> ServesToday(a, directory, b) && !ServesAfter(Applied(input, plan), a, directory, b)
    ensures forall b: nat :: b in d.gained <==> !ServesToday(a, directory, b) && ServesAfter(Applied(input, plan), a, directory, b)
    ensures d.lost != [] || d.gained != []
  {
    ComparisonIsExact(current, proposed, collation, d);
    var b :| (b in ReachOf(current, d.accountId)) != (b in ReachOf(proposed, d.accountId));
    assert b in d.lost || b in d.gained;
  }

  /** What the comparison reports of a written plan, whatever was configured before: as lost exactly the branches
      routed where the account does not work them, as gained exactly the others put where it does. */
  lemma MigrationReport(input: MigrationInput, collation: Collation, plan: MigrationPlan, directory: Directory,
                        current: Reach, proposed: Reach, d: Difference, a: Account)
    requires Writable(input, collation, plan)
    requires Reaches(input, plan, directory, current, proposed)
    requires d in CompareWarehouseReach(current, proposed, collation) && a in input.accounts && a.userId == d.accountId
    ensures forall b: nat :: b in d.lost <==>
              ServesToday(a, directory, b) && exists w :: RoutedTo(input, b, w) && !WorksAt(input, a, b, w)
    ensures forall b: nat :: b in d.gained <==>
              && !ServesToday(a, directory, b) && a.isActive && b in directory
              && exists w :: PutIn(input, b, directory[b], w) && WorksAt(input, a, b, w)
  {
    EntryOf(input, plan, collation, directory, current, proposed, d, a);
    WrittenPlansMove(input, collation, plan);
    forall b: nat ensures b in d.lost <==>
        ServesToday(a, directory, b) && exists w :: RoutedTo(input, b, w) && !WorksAt(input, a, b, w) {
      if ServesToday(a, directory, b) { LostToARoute(input, collation, plan, a, directory, b); }
    }
    forall b: nat { ServesAfterExactly(input, collation, plan, a, directory, b); }
  }

  /** From an empty configuration: lost is what another warehouse's account holds one by one, gained what a peer
      works unless it is held so, and nothing is gained where peers hold the same. */
  lemma FirstMigrationReport(input: MigrationInput, collation: Collation, plan: MigrationPlan, directory: Directory,
                             current: Reach, proposed: Reach, d: Difference, a: Account)
    requires Writable(input, collation, plan) && NothingConfigured(input)
    requires Reaches(input, plan, directory, current, proposed)
    requires d in CompareWarehouseReach(current, proposed, collation) && a in input.accounts && a.userId == d.accountId
    ensures forall b: nat :: b in d.lost <==> ServesToday(a, directory, b) && HeldSinglyElsewhere(input, a, b)
    ensures forall b: nat :: b in d.gained <==>
              !ServesToday(a, directory, b) && PeerServes(input, a, directory, b) && !HeldSinglyElsewhere(input, a, b)
    ensures PeersHoldTheSame(input) ==> d.gained == [] && d.lost != []
  {
    EntryOf(input, plan, collation, directory, current, proposed, d, a);
    forall b: nat ensures b in d.lost <==> ServesToday(a, directory, b) && HeldSinglyElsewhere(input, a, b) {
      if ServesToday(a, directory, b) { ExactlyTheLost(input, collation, plan, a, directory, b); }
    }
    forall b: nat ensures b in d.gained <==>
        !ServesToday(a, directory, b) && PeerServes(input, a, directory, b) && !HeldSinglyElsewhere(input, a, b) {
      if !ServesToday(a, directory, b) { ExactlyTheGained(input, collation, plan, a, directory, b); }
    }
    if PeersHoldTheSame(input) {
      ExactlyWhenNothingIsGained(input, collation, plan);
      EmptyOrNot(d.gained);
    }
  }

  /** The report is empty exactly when every reach is reproduced. */
  lemma NothingToReport(input: MigrationInput, collation: Collation, plan: MigrationPlan, directory: Directory,
                        current: Reach, proposed: Reach)
    requires Reaches(input, plan, directory, current, proposed)
    ensures CompareWarehouseReach(current, proposed, collation) == [] <==> Reproduces(input, plan, directory)
  {
    var report := CompareWarehouseReach(current, proposed, collation);
    EmptyOrNot(report);
    if d :| d in report {
      OnlyAccountsAreListed(input, plan, collation, directory, current, proposed, d);
    } else if a, b: nat :| a in input.accounts && !(ServesToday(a, directory, b) <==> ServesAfter(Applied(input, plan), a, directory, b)) {
      DifferingIsListed(current, proposed, collation, a.userId, b);
    }
  }

  lemma DifferingIsListed(current: Reach, proposed: Reach, collation: Collation, id: string, b: nat)
    requires current.Valid() && proposed.Valid()
    requires (b in ReachOf(current, id)) != (b in ReachOf(proposed, id))
    ensures CompareWarehouseReach(current, proposed, collation) != []
  {
    var before, after := ReachOf(current, id), ReachOf(proposed, id);
    var d := Difference(id, Missing(before, after), Missing(after, before));
    SomethingIsMissing(before, after, b);
    DifferencesOf(Sort(Once(current.keys + proposed.keys), collation), current, proposed, d);
    ListedIds(current, proposed, collation, id);
  }

  lemma SomethingIsMissing(before: seq<nat>, after: seq<nat>, b: nat)
    requires (b in before) != (b in after)
    ensures Missing(before, after) != [] || Missing(after, before) != []
  {
    MissingIsTheDifference(before, after);
    MissingIsTheDifference(after, before);
  }

  /** Whoever is listed is one of the accounts, with a branch on one side only. */
  lemma OnlyAccountsAreListed(input: MigrationInput, plan: MigrationPlan, collation: Collation, directory: Directory,
                              current: Reach, proposed: Reach, d: Difference)
    requires Reaches(input, plan, directory, current, proposed) && d in CompareWarehouseReach(current, proposed, collation)
    ensures exists a, b :: a in input.accounts && a.userId == d.accountId
                           && ServesToday(a, directory, b) != ServesAfter(Applied(input, plan), a, directory, b)
  {
    ComparisonIsExact(current, proposed, collation, d);
    var b :| (b in ReachOf(current, d.accountId)) != (b in ReachOf(proposed, d.accountId));
    assert d.accountId in current.keys || d.accountId in proposed.keys;
    var a :| a in input.accounts && a.userId == d.accountId;
    assert ServesToday(a, directory, b) != ServesAfter(Applied(input, plan), a, directory, b);
  }
}
