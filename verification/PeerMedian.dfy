/** The median budget utilization of a branch's peers (lib/budget-burn-risk.ts). */
module PeerMedian {
  import opened CreatorSummaries
  import opened Gathering
  import opened Options
  import opened Sorting
  import opened Sums

  const PEERS_MIN_COUNT := 2

  function Utilization(branch: BranchMonth): Option<real> {
    if branch.totalBudgetCents > 0
    then Some((branch.consumedCents as real / branch.totalBudgetCents as real) * 100.0)
    else None
  }

  function UtilizationOf(): BranchMonth -> Option<real> { (b: BranchMonth) => Utilization(b) }

  /** The utilizations that can be computed. */
  function Utilizations(branches: seq<BranchMonth>): seq<real> { Gathered(UtilizationOf(), branches) }

  function AtMost(): (real, real) -> bool { (a: real, b: real) => a <= b }

  function Middle(values: seq<real>): real
    requires values != []
  {
    var middle := |values| / 2;
    if |values| % 2 == 0 then (values[middle - 1] + values[middle]) / 2.0 else values[middle]
  }

  function Median(peers: seq<BranchMonth>): Option<real>
  {
    var values := Sort(Utilizations(peers), AtMost());
    if |values| < PEERS_MIN_COUNT then None else Some(Middle(values))
  }

  function NoMore(m: real): real -> int { (v: real) => if v <= m then 1 else 0 }

  function NoLess(m: real): real -> int { (v: real) => if v >= m then 1 else 0 }

  lemma MiddleOfSorted(s: seq<real>)
    requires s != [] && SortedBy(s, AtMost())
    ensures 2 * Sum(NoMore(Middle(s)), s) >= |s|
    ensures 2 * Sum(NoLess(Middle(s)), s) >= |s|
  {
    var middle, m := |s| / 2, Middle(s);
    if |s| % 2 == 0 {
      assert AtMost()(s[middle - 1], s[middle]);
      assert s[middle - 1] <= m <= s[middle];
    }
    var below := if |s| % 2 == 0 then middle else middle + 1;
    forall k | 0 <= k < below ensures s[k] <= m {
      if k < below - 1 { assert AtMost()(s[k], s[below - 1]); }
    }
    forall k | middle <= k < |s| ensures s[k] >= m {
      if middle < k { assert AtMost()(s[middle], s[k]); }
    }
    RunCounts(NoMore(m), s, 0, below);
    RunCounts(NoLess(m), s, middle, |s|);
  }

  lemma AtMostIsTotal()
    ensures TotalOrder(AtMost())
  {
  }

  /** At least half of the peers are at or below the median and at least half at or above it;
      there is none exactly when fewer than two peers have a utilization. */
  lemma MedianIsInTheMiddle(peers: seq<BranchMonth>)
    ensures Median(peers).None? <==> |Utilizations(peers)| < 2
    ensures Median(peers).Some? ==> 2 * Sum(NoMore(Median(peers).value), Utilizations(peers)) >= |Utilizations(peers)|
    ensures Median(peers).Some? ==> 2 * Sum(NoLess(Median(peers).value), Utilizations(peers)) >= |Utilizations(peers)|
  {
    var values := Utilizations(peers);
    AtMostIsTotal();
    SortSorts(values, AtMost());
    SortKeepsAll(values, AtMost());
    var sorted := Sort(values, AtMost());
    if sorted != [] {
      MiddleOfSorted(sorted);
      SumOfPermutation(NoMore(Middle(sorted)), values, sorted);
      SumOfPermutation(NoLess(Middle(sorted)), values, sorted);
    }
  }

  /** The median forgets the order the branches came in. */
  lemma MedianForgetsOrder(a: seq<BranchMonth>, b: seq<BranchMonth>)
    requires multiset(a) == multiset(b)
    ensures Median(a) == Median(b)
  {
    GatheredOfPermutation(UtilizationOf(), a, b);
    AtMostIsTotal();
    SortIgnoresArrivalOrder(Utilizations(a), Utilizations(b), AtMost());
  }

  /** In any ascending arrangement of the utilizations the median is the middle one, or the mean of the middle two. */
  lemma MedianIsTheMiddle(peers: seq<BranchMonth>, ascending: seq<real>)
    requires multiset(ascending) == multiset(Utilizations(peers)) && |ascending| >= 2
    requires forall i, j :: 0 <= i < j < |ascending| ==> ascending[i] <= ascending[j]
    ensures Median(peers).Some?
    ensures |ascending| % 2 == 1 ==> Median(peers).value == ascending[|ascending| / 2]
    ensures |ascending| % 2 == 0 ==> 2.0 * Median(peers).value == ascending[|ascending| / 2 - 1] + ascending[|ascending| / 2]
  {
    var values := Utilizations(peers);
    AtMostIsTotal();
    SortSorts(values, AtMost());
    SortKeepsAll(values, AtMost());
    SameElements(ascending, values);
    SortedIsUnique(Sort(values, AtMost()), ascending, AtMost());
  }

  /** The utilizations are of the branches with a budget, what they consumed of it. */
  lemma {:induction false} UtilizationsAreOfBudgets(peers: seq<BranchMonth>, u: real)
    ensures u in Utilizations(peers) <==>
            exists b :: b in peers && b.totalBudgetCents > 0 && u * b.totalBudgetCents as real == 100.0 * b.consumedCents as real
  {
    if peers != [] {
      UtilizationsAreOfBudgets(peers[1..], u);
      UtilizationIs(peers[0], u);
      assert peers == [peers[0]] + peers[1..];
    }
  }

  lemma UtilizationIs(b: BranchMonth, u: real)
    ensures Utilization(b) == Some(u) <==> b.totalBudgetCents > 0 && u * b.totalBudgetCents as real == 100.0 * b.consumedCents as real
  {
    if b.totalBudgetCents > 0 {
      var q, total := b.consumedCents as real / b.totalBudgetCents as real, b.totalBudgetCents as real;
      assert q * total == b.consumedCents as real;
      assert (q * 100.0) * total == 100.0 * (q * total);
      if u * total == 100.0 * b.consumedCents as real { SameFactor(u, q * 100.0, total); }
    }
  }

  lemma SameFactor(x: real, y: real, z: real)
    requires z > 0.0 && x * z == y * z
    ensures x == y
  {
    assert (x - y) * z == 0.0;
  }
}
