/** Withdrawing the unspent part of one-time budget add-ons whose validity has
    passed (lib/budget-addon-expiry.ts). Amounts are whole cents, instants are
    milliseconds; an add-on with no validity lasts the month. */
module AddonSettlement {
  import opened Numbers
  import opened Options
  import opened Sorting

  datatype Ledger = Ledger(allocatedCents: int, spentCents: int, heldCents: int, creditedCents: int)

  datatype Addon = Addon(id: nat, amountCents: int, validUntil: Option<int>, expiredAt: Option<int>, forfeitedCents: int)

  datatype Forfeit = Forfeit(addonId: nat, amountCents: int, forfeitedCents: int)

  datatype Plan = Plan(
    forfeits: seq<Forfeit>,
    withdrawnCents: int,
    creditedBeforeCents: int,
    creditedAfterCents: int,
    remainingBeforeCents: int,
    remainingAfterCents: int)

  function Remaining(ledger: Ledger): int {
    ledger.allocatedCents + ledger.creditedCents - ledger.spentCents - ledger.heldCents
  }

  predicate IsAddonDue(addon: Addon, now: int) {
    addon.expiredAt.None? && addon.validUntil.Some? && addon.validUntil.value <= now
  }

  /** What a settlement closes: the add-ons due, or on a reset every open one. */
  predicate Closes(addon: Addon, now: int, closeAll: bool) {
    if closeAll then addon.expiredAt.None? else IsAddonDue(addon, now)
  }

  function Closing(addons: seq<Addon>, now: int, closeAll: bool): (r: seq<Addon>)
    ensures forall a :: a in r <==> a in addons && Closes(a, now, closeAll)
  {
    if addons == [] then []
    else
      assert addons == [addons[0]] + addons[1..];
      if Closes(addons[0], now, closeAll) then [addons[0]] + Closing(addons[1..], now, closeAll)
      else Closing(addons[1..], now, closeAll)
  }

  /** Earlier validity first, no validity last, ties by id. */
  predicate ClosesBefore(a: Addon, b: Addon) {
    match (a.validUntil, b.validUntil)
    case (Some(s), Some(t)) => s < t || (s == t && a.id <= b.id)
    case (Some(_), None) => true
    case (None, Some(_)) => false
    case (None, None) => a.id <= b.id
  }

  function Due(addons: seq<Addon>, now: int, closeAll: bool): seq<Addon> {
    Sort(Closing(addons, now, closeAll), ClosesBefore)
  }

  /** What can be withdrawn at all: what the branch has left, within what was credited. */
  function Available(ledger: Ledger): (r: int)
    ensures r >= 0
  {
    Max(0, Min(Max(0, Remaining(ledger)), ledger.creditedCents))
  }

  /** What the first `n` add-ons of the walk would take together. */
  function Claimed(due: seq<Addon>, n: nat): (r: int)
    requires n <= |due|
    ensures r >= 0
  {
    if n == 0 then 0 else Claimed(due, n - 1) + Max(0, due[n - 1].amountCents)
  }

  /** How much of one pool the first `n` add-ons drain. */
  function Drained(due: seq<Addon>, n: nat, pool: int): int
    requires n <= |due|
  {
    Min(Claimed(due, n), pool)
  }

  function Forfeits(due: seq<Addon>, pool: int): (r: seq<Forfeit>)
    ensures |r| == |due|
  {
    seq(|due|, i requires 0 <= i < |due| =>
      Forfeit(due[i].id, Max(0, due[i].amountCents), Drained(due, i + 1, pool) - Drained(due, i, pool)))
  }

  /** The settlement as one pool drained in order of validity. */
  function Settlement(ledger: Ledger, addons: seq<Addon>, now: int, closeAll: bool): Plan {
    var due := Due(addons, now, closeAll);
    var withdrawn := Drained(due, |due|, Available(ledger));
    Plan(Forfeits(due, Available(ledger)), withdrawn, ledger.creditedCents, ledger.creditedCents - withdrawn,
         Remaining(ledger), Remaining(ledger) - withdrawn)
  }

  function TotalForfeited(forfeits: seq<Forfeit>): int {
    if forfeits == [] then 0 else TotalForfeited(forfeits[..|forfeits| - 1]) + forfeits[|forfeits| - 1].forfeitedCents
  }

  /** One turn of the walk drains the shared pool by the add-on's amount, as far as it goes. */
  lemma TakesItsShare(remaining: int, credited: int, claimed: int, amount: int)
    requires remaining >= 0 && claimed >= 0 && amount >= 0
    ensures var pool := Max(0, Min(remaining, credited));
            var drained := Min(claimed, pool);
            Max(0, Min(amount, Min(remaining - drained, credited - drained))) == Min(claimed + amount, pool) - drained
  {
  }

  /** The walk: each add-on takes what it can of what is left, capped by what was credited. */
  method PlanAddonSettlement(ledger: Ledger, addons: seq<Addon>, now: int, closeAll: bool) returns (plan: Plan)
    ensures plan == Settlement(ledger, addons, now, closeAll)
  {
    var due := Due(addons, now, closeAll);
    var remaining := Max(0, Remaining(ledger));
    var credited := ledger.creditedCents;
    var forfeits: seq<Forfeit> := [];
    ghost var pool := Available(ledger);
    ghost var expected := Forfeits(due, pool);
    for i := 0 to |due|
      invariant forfeits == expected[..i]
      invariant remaining == Max(0, Remaining(ledger)) - Drained(due, i, pool)
      invariant credited == ledger.creditedCents - Drained(due, i, pool)
    {
      var amount := Max(0, due[i].amountCents);
      TakesItsShare(Max(0, Remaining(ledger)), ledger.creditedCents, Claimed(due, i), amount);
      var forfeitedCents := Max(0, Min(amount, Min(remaining, credited)));
      remaining := remaining - forfeitedCents;
      credited := credited - forfeitedCents;
      forfeits := forfeits + [Forfeit(due[i].id, amount, forfeitedCents)];
      assert expected[..i + 1] == expected[..i] + [expected[i]];
    }
    SumOfForfeits(due, pool, |due|);
    var withdrawn := TotalForfeited(forfeits);
    plan := Plan(forfeits, withdrawn, ledger.creditedCents, ledger.creditedCents - withdrawn,
                 Remaining(ledger), Remaining(ledger) - withdrawn);
  }

  // ---- What a settlement takes ----

  lemma {:induction false} ClaimedGrows(due: seq<Addon>, m: nat, n: nat)
    requires m <= n <= |due|
    ensures Claimed(due, m) <= Claimed(due, n)
    decreases n
  {
    if m < n { ClaimedGrows(due, m, n - 1); }
  }

  /** The withdrawal is the least of what the due add-ons ask for, what is left and what was credited; and it keeps the row solvent. */
  lemma WithdrawsTheLeast(ledger: Ledger, addons: seq<Addon>, now: int, closeAll: bool)
    requires ledger.creditedCents >= 0
    ensures var plan := Settlement(ledger, addons, now, closeAll);
            var due := Due(addons, now, closeAll);
            && plan.withdrawnCents == Min(Claimed(due, |due|), Min(Max(0, Remaining(ledger)), ledger.creditedCents))
            && plan.withdrawnCents == TotalForfeited(plan.forfeits)
            && plan.creditedAfterCents >= 0
            && (plan.remainingBeforeCents >= 0 ==> plan.remainingAfterCents >= 0)
  {
    var due := Due(addons, now, closeAll);
    SumOfForfeits(due, Available(ledger), |due|);
    assert Forfeits(due, Available(ledger))[..|due|] == Forfeits(due, Available(ledger));
  }

  lemma {:induction false} SumOfForfeits(due: seq<Addon>, pool: int, n: nat)
    requires n <= |due| && pool >= 0
    ensures TotalForfeited(Forfeits(due, pool)[..n]) == Drained(due, n, pool)
  {
    if n > 0 {
      SumOfForfeits(due, pool, n - 1);
      assert Forfeits(due, pool)[..n][..n - 1] == Forfeits(due, pool)[..n - 1];
    }
  }

  /** Forfeits are full, then at most one is partial, then nothing; each lies between zero and its add-on's amount. */
  lemma ForfeitsAreAWaterfall(ledger: Ledger, addons: seq<Addon>, now: int, closeAll: bool)
    ensures var forfeits := Settlement(ledger, addons, now, closeAll).forfeits;
            && (forall i :: 0 <= i < |forfeits| ==> 0 <= forfeits[i].forfeitedCents <= forfeits[i].amountCents)
            && (forall i, j :: 0 <= i < j < |forfeits| && forfeits[j].forfeitedCents > 0 ==>
                  forfeits[i].forfeitedCents == forfeits[i].amountCents)
  {
    var due := Due(addons, now, closeAll);
    var forfeits := Forfeits(due, Available(ledger));
    forall i, j | 0 <= i < j < |forfeits| && forfeits[j].forfeitedCents > 0
      ensures forfeits[i].forfeitedCents == forfeits[i].amountCents
    {
      ClaimedGrows(due, i + 1, j);
    }
  }

  // ---- Settling twice ----

  ghost predicate DistinctIds(addons: seq<Addon>) {
    forall i, j :: 0 <= i < j < |addons| ==> addons[i].id != addons[j].id
  }

  /** The forfeit a settlement records for an add-on. */
  function ForfeitOf(forfeits: seq<Forfeit>, id: nat): int {
    if forfeits == [] then 0
    else if forfeits[0].addonId == id then forfeits[0].forfeitedCents
    else ForfeitOf(forfeits[1..], id)
  }

  /** The add-on rows after a settlement is written: those closed are stamped and record their forfeit. */
  function Closed(addons: seq<Addon>, now: int, closeAll: bool, forfeits: seq<Forfeit>): (r: seq<Addon>)
    ensures |r| == |addons|
    ensures forall i :: 0 <= i < |r| ==> r[i] == ClosedRow(addons[i], now, closeAll, forfeits)
  {
    seq(|addons|, i requires 0 <= i < |addons| => ClosedRow(addons[i], now, closeAll, forfeits))
  }

  function ClosedRow(addon: Addon, now: int, closeAll: bool, forfeits: seq<Forfeit>): Addon {
    if Closes(addon, now, closeAll)
    then addon.(expiredAt := Some(now), forfeitedCents := ForfeitOf(forfeits, addon.id)) else addon
  }

  lemma ValidityOrder()
    ensures TotalPreorder(ClosesBefore)
  {
  }

  lemma DueIsSorted(addons: seq<Addon>, now: int, closeAll: bool)
    requires DistinctIds(addons)
    ensures SortedBy(Due(addons, now, closeAll), ClosesBefore)
    ensures multiset(Due(addons, now, closeAll)) == multiset(Closing(addons, now, closeAll))
    ensures Separates(Due(addons, now, closeAll), ClosesBefore)
    ensures forall a :: a in Due(addons, now, closeAll) <==> a in addons && Closes(a, now, closeAll)
  {
    ValidityOrder();
    SortSorts(Closing(addons, now, closeAll), ClosesBefore);
    SortKeepsAll(Closing(addons, now, closeAll), ClosesBefore);
  }

  /** What is due now, and then what becomes due, is together what is due later. */
  lemma {:induction false} ClosingInTwoSteps(addons: seq<Addon>, forfeits: seq<Forfeit>, t1: int, t2: int, closeAll: bool)
    requires t1 <= t2 || closeAll
    ensures multiset(Closing(addons, t2, closeAll)) ==
            multiset(Closing(addons, t1, false)) + multiset(Closing(Closed(addons, t1, false, forfeits), t2, closeAll))
  {
    var closed := Closed(addons, t1, false, forfeits);
    if addons != [] {
      assert closed[1..] == Closed(addons[1..], t1, false, forfeits);
      ClosingInTwoSteps(addons[1..], forfeits, t1, t2, closeAll);
    }
  }

  lemma DueInTwoSteps(addons: seq<Addon>, forfeits: seq<Forfeit>, t1: int, t2: int, closeAll: bool)
    requires DistinctIds(addons) && (t1 <= t2 || closeAll)
    ensures Due(addons, t2, closeAll) == Due(addons, t1, false) + Due(Closed(addons, t1, false, forfeits), t2, closeAll)
  {
    var closed := Closed(addons, t1, false, forfeits);
    var first, second := Due(addons, t1, false), Due(closed, t2, closeAll);
    DueIsSorted(addons, t1, false);
    DueIsSorted(closed, t2, closeAll);
    DueIsSorted(addons, t2, closeAll);
    ClosingInTwoSteps(addons, forfeits, t1, t2, closeAll);
    forall a, b | a in first && b in second {
      LaterDueClosesLater(addons, forfeits, t1, t2, closeAll, a, b);
    }
    SortedInTwo(first, second);
    SortedIsUnique(Due(addons, t2, closeAll), first + second, ClosesBefore);
  }

  lemma LaterDueClosesLater(addons: seq<Addon>, forfeits: seq<Forfeit>, t1: int, t2: int, closeAll: bool, a: Addon, b: Addon)
    requires a in addons && Closes(a, t1, false)
    requires b in Closed(addons, t1, false, forfeits) && Closes(b, t2, closeAll)
    ensures ClosesBefore(a, b)
  {
    var closed := Closed(addons, t1, false, forfeits);
    var i :| 0 <= i < |closed| && closed[i] == b;
    assert !Closes(addons[i], t1, false);
  }

  lemma SortedInTwo(first: seq<Addon>, second: seq<Addon>)
    requires SortedBy(first, ClosesBefore) && SortedBy(second, ClosesBefore)
    requires forall a, b :: a in first && b in second ==> ClosesBefore(a, b)
    ensures SortedBy(first + second, ClosesBefore)
  {
  }

  lemma {:induction false} ClaimedOfMore(first: seq<Addon>, second: seq<Addon>, n: nat)
    requires n <= |first| + |second|
    ensures Claimed(first + second, n) ==
            if n <= |first| then Claimed(first, n) else Claimed(first, |first|) + Claimed(second, n - |first|)
  {
    if n > 0 {
      ClaimedOfMore(first, second, n - 1);
    }
  }

  /** Draining a pool in two goes forfeits, add-on by add-on, what draining it in one would. */
  lemma ForfeitsInTwoSteps(first: seq<Addon>, second: seq<Addon>, pool: int)
    requires pool >= 0
    ensures Forfeits(first + second, pool) == Forfeits(first, pool) + Forfeits(second, pool - Drained(first, |first|, pool))
  {
    var n := |first|;
    forall i | 0 <= i < n + |second|
      ensures Forfeits(first + second, pool)[i] == (Forfeits(first, pool) + Forfeits(second, pool - Drained(first, n, pool)))[i]
    {
      ClaimedOfMore(first, second, i);
      ClaimedOfMore(first, second, i + 1);
    }
  }

  /** The row once a settlement is written. */
  function After(ledger: Ledger, plan: Plan): Ledger {
    ledger.(creditedCents := plan.creditedAfterCents)
  }

  /** Settling when add-ons fall due and again later forfeits exactly what one later settlement would. */
  lemma SettlingEarlyChangesNothing(ledger: Ledger, addons: seq<Addon>, t1: int, t2: int, closeAll: bool)
    requires DistinctIds(addons) && (t1 <= t2 || closeAll)
    ensures var early := Settlement(ledger, addons, t1, false);
            var later := Settlement(After(ledger, early), Closed(addons, t1, false, early.forfeits), t2, closeAll);
            var once := Settlement(ledger, addons, t2, closeAll);
            && early.forfeits + later.forfeits == once.forfeits
            && early.withdrawnCents + later.withdrawnCents == once.withdrawnCents
            && later.creditedAfterCents == once.creditedAfterCents
  {
    var early := Settlement(ledger, addons, t1, false);
    var closed := Closed(addons, t1, false, early.forfeits);
    var first, second := Due(addons, t1, false), Due(closed, t2, closeAll);
    DueInTwoSteps(addons, early.forfeits, t1, t2, closeAll);
    assert Available(After(ledger, early)) == Available(ledger) - early.withdrawnCents;
    ForfeitsInTwoSteps(first, second, Available(ledger));
    ClaimedOfMore(first, second, |first| + |second|);
  }

  /** Settling again at the same instant closes nothing and withdraws nothing. */
  lemma SettlingAgainFindsNothing(ledger: Ledger, addons: seq<Addon>, now: int, closeAll: bool)
    ensures var plan := Settlement(ledger, addons, now, closeAll);
            var again := Settlement(After(ledger, plan), Closed(addons, now, closeAll, plan.forfeits), now, closeAll);
            again.forfeits == [] && again.withdrawnCents == 0
  {
    var plan := Settlement(ledger, addons, now, closeAll);
    var closing := Closing(Closed(addons, now, closeAll, plan.forfeits), now, closeAll);
    assert closing == [] || exists a :: a in closing by {
      if closing != [] { assert closing[0] in closing; }
    }
    assert closing == [];
  }

  /** The figures a plan reports: the row's credit and remainder before, and both less the withdrawal after. */
  lemma PlansReportTheRow(ledger: Ledger, addons: seq<Addon>, now: int, closeAll: bool)
    ensures var plan := Settlement(ledger, addons, now, closeAll);
            && plan.creditedBeforeCents == ledger.creditedCents
            && plan.remainingBeforeCents + ledger.spentCents + ledger.heldCents == ledger.allocatedCents + ledger.creditedCents
            && plan.creditedBeforeCents - plan.creditedAfterCents == plan.withdrawnCents
            && plan.remainingBeforeCents - plan.remainingAfterCents == plan.withdrawnCents
            && |plan.forfeits| == |Due(addons, now, closeAll)|
            && forall i :: 0 <= i < |plan.forfeits| ==>
                 var due := Due(addons, now, closeAll)[i];
                 plan.forfeits[i].addonId == due.id && plan.forfeits[i].amountCents == if due.amountCents > 0 then due.amountCents else 0
  {
  }
}
