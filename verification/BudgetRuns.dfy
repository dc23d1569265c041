/** What every run of the budget row keeps, and exactly when the row agrees with the orders. */
module BudgetRuns {
  import opened AddonSettlement
  import opened BudgetLedger
  import opened Options
  import opened Sums
  import Sorting

  // ---- A settlement takes from the credited column exactly what it records as forfeited ----

  lemma {:induction false} ForfeitFound(forfeits: seq<Forfeit>, i: nat)
    requires i < |forfeits|
    requires forall j, k :: 0 <= j < k < |forfeits| ==> forfeits[j].addonId != forfeits[k].addonId
    ensures ForfeitOf(forfeits, forfeits[i].addonId) == forfeits[i].forfeitedCents
  {
    if i > 0 {
      assert forfeits[0].addonId != forfeits[i].addonId;
      ForfeitFound(forfeits[1..], i - 1);
    }
  }

  lemma DueHasDistinctIds(addons: seq<Addon>, now: int, closeAll: bool)
    requires DistinctIds(addons)
    ensures DistinctIds(Due(addons, now, closeAll))
  {
    var due := Due(addons, now, closeAll);
    ClosingKeepsDistinct(addons, now, closeAll);
    DueIsSorted(addons, now, closeAll);
    assert forall i, j :: 0 <= i < j < |Closing(addons, now, closeAll)| ==> Closing(addons, now, closeAll)[i].id != Closing(addons, now, closeAll)[j].id;
    Sorting.DistinctStaysDistinct(Closing(addons, now, closeAll), due);
    forall i, j | 0 <= i < j < |due| ensures due[i].id != due[j].id {
      assert due[i] in due && due[j] in due;
      if due[i].id == due[j].id {
        SameIdSameAddon(addons, due[i], due[j]);
        assert false;
      }
    }
  }

  lemma SameIdSameAddon(addons: seq<Addon>, a: Addon, b: Addon)
    requires DistinctIds(addons) && a in addons && b in addons && a.id == b.id
    ensures a == b
  {
    var i :| 0 <= i < |addons| && addons[i] == a;
    var j :| 0 <= j < |addons| && addons[j] == b;
  }

  lemma {:induction false} ClosingKeepsDistinct(addons: seq<Addon>, now: int, closeAll: bool)
    requires DistinctIds(addons)
    ensures DistinctIds(Closing(addons, now, closeAll))
  {
    if addons != [] {
      ClosingKeepsDistinct(addons[1..], now, closeAll);
      var rest := Closing(addons[1..], now, closeAll);
      forall k | 0 <= k < |rest| ensures rest[k].id != addons[0].id {
        assert rest[k] in rest;
        var m :| 0 <= m < |addons[1..]| && addons[1..][m] == rest[k];
        assert addons[m + 1].id != addons[0].id;
      }
    }
  }

  /** What a closed add-on's row records. */
  function RecordedIn(forfeits: seq<Forfeit>): Addon -> int { (a: Addon) => ForfeitOf(forfeits, a.id) }

  /** What the rows of the closed add-ons record is what the plan withdrew. */
  lemma RecordedIsWithdrawn(ledger: Ledger, addons: seq<Addon>, now: int, closeAll: bool)
    requires DistinctIds(addons)
    ensures var plan := Settlement(ledger, addons, now, closeAll);
            Sum(RecordedIn(plan.forfeits), Closing(addons, now, closeAll)) == plan.withdrawnCents
  {
    var plan := Settlement(ledger, addons, now, closeAll);
    var due := Due(addons, now, closeAll);
    var recorded := RecordedIn(plan.forfeits);
    DueHasDistinctIds(addons, now, closeAll);
    DueIsSorted(addons, now, closeAll);
    RecordedOfDue(due, Available(ledger), |due|);
    SumOfPermutation(recorded, due, Closing(addons, now, closeAll));
    assert due[..|due|] == due;
  }

  lemma {:induction false} RecordedOfDue(due: seq<Addon>, pool: int, n: nat)
    requires DistinctIds(due) && pool >= 0 && n <= |due|
    ensures Sum(RecordedIn(Forfeits(due, pool)), due[..n]) == Drained(due, n, pool)
  {
    var recorded := RecordedIn(Forfeits(due, pool));
    if n > 0 {
      RecordedOfDue(due, pool, n - 1);
      assert due[..n] == due[..n - 1] + [due[n - 1]];
      SumOfOneMore(recorded, due[..n - 1], due[n - 1]);
      RecordedOfOne(due, pool, n - 1);
    }
  }

  lemma RecordedOfOne(due: seq<Addon>, pool: int, i: nat)
    requires DistinctIds(due) && pool >= 0 && i < |due|
    ensures ForfeitOf(Forfeits(due, pool), due[i].id) == Drained(due, i + 1, pool) - Drained(due, i, pool)
  {
    ForfeitFound(Forfeits(due, pool), i);
  }

  lemma {:induction false} GrantedAfterClosing(addons: seq<Addon>, now: int, closeAll: bool, forfeits: seq<Forfeit>)
    requires forall a :: a in addons ==> AddonFits(a)
    ensures Sum(Granted, Closed(addons, now, closeAll, forfeits)) ==
            Sum(Granted, addons) - Sum(RecordedIn(forfeits), Closing(addons, now, closeAll))
  {
    var closed := Closed(addons, now, closeAll, forfeits);
    var recorded := RecordedIn(forfeits);
    if addons != [] {
      assert closed[1..] == Closed(addons[1..], now, closeAll, forfeits);
      GrantedAfterClosing(addons[1..], now, closeAll, forfeits);
      assert AddonFits(addons[0]);
      if Closes(addons[0], now, closeAll) {
        assert Closing(addons, now, closeAll)[1..] == Closing(addons[1..], now, closeAll);
      }
    }
  }

  lemma ClosedAddonsFit(ledger: Ledger, addons: seq<Addon>, now: int, closeAll: bool, i: nat)
    requires DistinctIds(addons) && i < |addons| && AddonFits(addons[i])
    ensures AddonFits(Closed(addons, now, closeAll, Settlement(ledger, addons, now, closeAll).forfeits)[i])
  {
    var plan := Settlement(ledger, addons, now, closeAll);
    var due := Due(addons, now, closeAll);
    if Closes(addons[i], now, closeAll) {
      DueIsSorted(addons, now, closeAll);
      DueHasDistinctIds(addons, now, closeAll);
      var k :| 0 <= k < |due| && due[k] == addons[i];
      ForfeitFound(plan.forfeits, k);
      ForfeitsAreAWaterfall(ledger, addons, now, closeAll);
    }
  }

  lemma SettlingKeeps(s: State, now: int, closeAll: bool)
    requires Kept(s)
    ensures Kept(SettleAt(s, now, closeAll))
  {
    var plan := Settlement(s.row, s.addons, now, closeAll);
    RecordedIsWithdrawn(s.row, s.addons, now, closeAll);
    GrantedAfterClosing(s.addons, now, closeAll, plan.forfeits);
    WithdrawsTheLeast(s.row, s.addons, now, closeAll);
    forall i | 0 <= i < |s.addons| {
      ClosedAddonsFit(s.row, s.addons, now, closeAll, i);
    }
  }

  // ---- One order at a time ----

  /** Replacing one order moves each total by that order's difference. */
  lemma OrderReplaced(orders: seq<Order>, i: nat, o: Order)
    requires i < |orders|
    ensures Sum(SpentPart, orders[i := o]) == Sum(SpentPart, orders) - SpentPart(orders[i]) + SpentPart(o)
    ensures Sum(HeldPart, orders[i := o]) == Sum(HeldPart, orders) - HeldPart(orders[i]) + HeldPart(o)
    ensures Sum(CreditedPart, orders[i := o]) == Sum(CreditedPart, orders) - CreditedPart(orders[i]) + CreditedPart(o)
    ensures forall x :: x in orders[i := o] ==> x in orders || x == o
  {
    SumOfUpdate(SpentPart, orders, i, o);
    SumOfUpdate(HeldPart, orders, i, o);
    SumOfUpdate(CreditedPart, orders, i, o);
  }

  /** The row holds or has spent at least what any one order put on it. */
  lemma EachOrderIsCovered(s: State)
    requires Kept(s)
    ensures forall o :: o in s.orders ==> HeldPart(o) <= s.row.heldCents && SpentPart(o) <= s.row.spentCents
  {
    SumOfNonNegatives(HeldPart, s.orders);
    SumOfNonNegatives(SpentPart, s.orders);
  }

  /** On a row that agrees with its orders, releasing or fulfilling never finds the hold missing, and a refund of
      spent money is never partly credited. */
  lemma LedgerInvariantNeverFails(s: State, i: nat, amount: int)
    requires Kept(s) && i < |s.orders|
    ensures s.orders[i].status == Pending ==> Take(s, Reject(i)).Some?
    ensures s.orders[i].status == Approved ==> Take(s, Fulfil(i)).Some?
    ensures s.orders[i].status == Fulfilled && 0 <= amount <= s.orders[i].totalCents - s.orders[i].refundCents ==>
              PlanRefund(Fulfilled, amount, s.row.spentCents) == RefundMove(amount, 0)
  {
    var o := s.orders[i];
    EachOrderIsCovered(s);
    assert o in s.orders && OrderFits(o);
    assert HeldPart(o) <= s.row.heldCents && SpentPart(o) <= s.row.spentCents;
  }

  /** The row moves by what the one order replaced moves by, and stays solvent: all that is left to show of an order's step. */
  lemma ReplacingKeeps(s: State, i: nat, o: Order, row: Ledger)
    requires Kept(s) && i < |s.orders| && OrderFits(o) && Solvent(row)
    requires row.spentCents == s.row.spentCents - SpentPart(s.orders[i]) + SpentPart(o)
    requires row.heldCents == s.row.heldCents - HeldPart(s.orders[i]) + HeldPart(o)
    requires row.creditedCents == s.row.creditedCents - CreditedPart(s.orders[i]) + CreditedPart(o)
    ensures Kept(s.(row := row, orders := s.orders[i := o]))
  {
    OrderReplaced(s.orders, i, o);
  }

  lemma DecisionsKeep(s: State, step: Step)
    requires Kept(s) && (step.Approve? || step.Reject? || step.Fulfil?)
    ensures Take(s, step).Some? ==> Kept(Take(s, step).value)
  {
    if Take(s, step).Some? {
      var next := Take(s, step).value;
      assert OrderFits(s.orders[step.order]);
      ReplacingKeeps(s, step.order, next.orders[step.order], next.row);
    }
  }

  lemma RefundsKeep(s: State, i: nat, amount: int)
    requires Kept(s)
    ensures Take(s, BudgetLedger.Refund(i, amount)).Some? ==> Kept(Take(s, BudgetLedger.Refund(i, amount)).value)
  {
    if Take(s, BudgetLedger.Refund(i, amount)).Some? {
      var next := Take(s, BudgetLedger.Refund(i, amount)).value;
      assert OrderFits(s.orders[i]);
      LedgerInvariantNeverFails(s, i, amount);
      ReplacingKeeps(s, i, next.orders[i], next.row);
    }
  }

  lemma PlacingKeeps(s: State, now: int, totalCents: int, autoApproved: bool)
    requires Kept(s) && Take(s, Place(now, totalCents, autoApproved)).Some?
    ensures Kept(Take(s, Place(now, totalCents, autoApproved)).value)
  {
    var settled := SettleAt(s, now, false);
    SettlingKeeps(s, now, false);
    var o := Order(if autoApproved then Approved else Pending, totalCents, 0, None, 0);
    SumOfOneMore(SpentPart, settled.orders, o);
    SumOfOneMore(HeldPart, settled.orders, o);
    SumOfOneMore(CreditedPart, settled.orders, o);
  }

  lemma CreditingKeeps(s: State, now: int, amountCents: int, validUntil: Option<int>, reset: bool)
    requires Kept(s) && Take(s, Credit(now, amountCents, validUntil, reset)).Some?
    ensures Kept(Take(s, Credit(now, amountCents, validUntil, reset)).value)
  {
    var settled := SettleAt(s, now, reset);
    SettlingKeeps(s, now, reset);
    SumOfOneMore(Granted, settled.addons, Addon(|settled.addons|, amountCents, validUntil, None, 0));
  }

  /** No step breaks what is kept. */
  lemma EveryStepKeeps(s: State, step: Step)
    requires Kept(s)
    ensures Take(s, step).Some? ==> Kept(Take(s, step).value)
  {
    if Take(s, step).Some? {
      match step
      case Settle(now) => SettlingKeeps(s, now, false);
      case Allocate(now, _) => SettlingKeeps(s, now, false);
      case Credit(now, amount, validUntil, reset) => CreditingKeeps(s, now, amount, validUntil, reset);
      case Place(now, total, auto) => PlacingKeeps(s, now, total, auto);
      case Refund(i, amount) => RefundsKeep(s, i, amount);
      case _ => DecisionsKeep(s, step);
    }
  }

  /** Every run from an opened row keeps the database's check, and every column the sum of what it is for. */
  lemma {:induction false} EveryRunKeeps(baselineCents: int, steps: seq<Step>)
    requires baselineCents >= 0
    ensures Kept(Run(Opened(baselineCents), steps))
    decreases |steps|
  {
    if steps != [] {
      var before := steps[..|steps| - 1];
      EveryRunKeeps(baselineCents, before);
      EveryStepKeeps(Run(Opened(baselineCents), before), steps[|steps| - 1]);
    }
  }

  // ---- Where orders can go ----

  /** A step leaves each order's status or moves it along the allowed transitions, and nothing about a closed order changes. */
  lemma OrdersMoveAlong(s: State, step: Step)
    requires Take(s, step).Some?
    ensures var next := Take(s, step).value;
            && |s.orders| <= |next.orders|
            && forall i :: 0 <= i < |s.orders| ==>
                 && (next.orders[i].status == s.orders[i].status || CanTransition(s.orders[i].status, next.orders[i].status))
                 && ((forall to :: !CanTransition(s.orders[i].status, to)) ==> next.orders[i] == s.orders[i])
  {
    assert CanTransition(Pending, Approved) && CanTransition(Approved, Fulfilled) && CanTransition(Fulfilled, Refunded);
  }

  /** Once rejected or refunded, an order stays as it is in every run. */
  lemma {:induction false} ClosedOrdersStay(s: State, steps: seq<Step>, i: nat)
    requires i < |s.orders| && s.orders[i].status in {Rejected, Refunded}
    ensures i < |Run(s, steps).orders| && Run(s, steps).orders[i] == s.orders[i]
    decreases |steps|
  {
    if steps != [] {
      var before, last := steps[..|steps| - 1], steps[|steps| - 1];
      ClosedOrdersStay(s, before, i);
      if Take(Run(s, before), last).Some? {
        OrdersMoveAlong(Run(s, before), last);
      }
    }
  }

  // ---- Exactly when the ledger and the orders agree ----

  /** What a rejected order had been refunded before its whole hold was released. */
  function RefundedThenReleased(order: Order): int {
    if order.status == Rejected then order.refundCents else 0
  }

  /** What refunds credited while the order's hold stayed whole, or its total went from held to spent. */
  function CreditedWhileCarried(order: Order): int {
    if order.status == Rejected then 0 else order.creditedRefundCents
  }

  function Unconsumed(order: Order): int {
    CreditedPart(order) - SpentPart(order) - HeldPart(order)
  }

  /** What an order consumes on either side of the ledger. */
  function Consumed(order: Order): int { OrderSpent(order) + OrderHeld(order) }

  function Negated(order: Order): int { -Consumed(order) }

  lemma {:induction false} SumOfNegated(orders: seq<Order>)
    ensures Sum(Negated, orders) == -Sum(Consumed, orders)
  {
    if orders != [] { SumOfNegated(orders[1..]); }
  }

  lemma {:induction false} SumOfUnconsumed(orders: seq<Order>)
    ensures Sum(Unconsumed, orders) == Sum(CreditedPart, orders) - Sum(SpentPart, orders) - Sum(HeldPart, orders)
  {
    if orders != [] { SumOfUnconsumed(orders[1..]); }
  }

  /** What is left is the allocation and the add-ons' own credit, less what the orders consume, plus what was refunded
      on orders rejected later, less what resets dropped. */
  lemma RemainingIsAccountedFor(s: State)
    requires Kept(s)
    ensures Remaining(s.row) == s.row.allocatedCents + Sum(Granted, s.addons) - Sum(Consumed, s.orders)
                                + Sum(RefundedThenReleased, s.orders) - s.clearedCents
  {
    forall o | o in s.orders ensures Unconsumed(o) == RefundedThenReleased(o) + Negated(o) {
      assert OrderFits(o);
    }
    SumsAddUp(Unconsumed, RefundedThenReleased, Negated, s.orders);
    SumOfNegated(s.orders);
    SumOfUnconsumed(s.orders);
  }

  /** Without a reset, the row's remaining equals allocation plus add-ons less order consumption exactly when
      no order was rejected after part of it had been refunded. */
  lemma RemainingMatchesOrders(s: State)
    requires Kept(s) && s.clearedCents == 0
    ensures Remaining(s.row) == s.row.allocatedCents + Sum(Granted, s.addons) - Sum(Consumed, s.orders)
            <==> forall o :: o in s.orders && o.status == Rejected ==> o.refundCents == 0
  {
    RemainingIsAccountedFor(s);
    assert forall o :: o in s.orders ==> OrderFits(o);
    SumOfNonNegatives(RefundedThenReleased, s.orders);
  }

  function SpentGap(order: Order): int { SpentPart(order) - OrderSpent(order) }

  function HeldGap(order: Order): int { HeldPart(order) - OrderHeld(order) }

  lemma {:induction false} GapsAddUp(orders: seq<Order>)
    ensures Sum(SpentGap, orders) == Sum(SpentPart, orders) - Sum(OrderSpent, orders)
    ensures Sum(HeldGap, orders) == Sum(HeldPart, orders) - Sum(OrderHeld, orders)
  {
    if orders != [] { GapsAddUp(orders[1..]); }
  }

  /** Spent and held equal the two order sums exactly when no order still carried on the row was refunded while it was held. */
  lemma ColumnsMatchOrders(s: State)
    requires Kept(s)
    ensures s.row.spentCents == Sum(OrderSpent, s.orders) && s.row.heldCents == Sum(OrderHeld, s.orders)
            <==> forall o :: o in s.orders ==> CreditedWhileCarried(o) == 0
  {
    GapsAddUp(s.orders);
    forall o | o in s.orders ensures SpentGap(o) >= 0 && HeldGap(o) >= 0 && SpentGap(o) + HeldGap(o) == CreditedWhileCarried(o) {
      assert OrderFits(o);
    }
    SumOfNonNegatives(SpentGap, s.orders);
    SumOfNonNegatives(HeldGap, s.orders);
  }

  // ---- The columns of a run ----

  /** Step `n` of the run refunds some of order `i` while the order is held. */
  ghost predicate RefundsHeld(baselineCents: int, steps: seq<Step>, n: nat, i: nat) {
    && n < |steps|
    && steps[n].Refund? && steps[n].order == i && steps[n].amountCents > 0
    && Take(Run(Opened(baselineCents), steps[..n]), steps[n]).Some?
    && Run(Opened(baselineCents), steps[..n]).orders[i].status != Fulfilled
  }

  /** Some step of the run did. */
  ghost predicate RefundedWhileHeld(baselineCents: int, steps: seq<Step>, i: nat) {
    exists n: nat :: RefundsHeld(baselineCents, steps, n, i)
  }

  /** What an accepted step credits an order with. */
  function CreditOf(s: State, step: Step, i: nat): int {
    if step.Refund? && step.order == i && i < |s.orders| && s.orders[i].status != Fulfilled then step.amountCents else 0
  }

  lemma CreditedByAStep(s: State, step: Step, i: nat)
    requires Kept(s) && Take(s, step).Some?
    ensures |s.orders| <= |Take(s, step).value.orders|
    ensures i < |Take(s, step).value.orders| ==>
              Take(s, step).value.orders[i].creditedRefundCents == (if i < |s.orders| then s.orders[i].creditedRefundCents else 0) + CreditOf(s, step, i)
  {
    if step.Refund? { LedgerInvariantNeverFails(s, step.order, step.amountCents); }
  }

  /** An order of the row that was credited something. */
  predicate WasCredited(s: State, i: nat) { i < |s.orders| && s.orders[i].creditedRefundCents > 0 }

  lemma CreditedSince(s: State, step: Step, i: nat)
    requires Kept(s) && Take(s, step).Some?
    ensures WasCredited(Take(s, step).value, i) <==> WasCredited(s, i) || CreditOf(s, step, i) > 0
  {
    CreditedByAStep(s, step, i);
    if i < |s.orders| {
      assert OrderFits(s.orders[i]);
      assert CreditOf(s, step, i) >= 0;
    }
  }

  /** The steps of a run but its last refund a held order exactly as they do in the whole run. */
  lemma EarlierRefunds(baselineCents: int, steps: seq<Step>, i: nat)
    requires steps != []
    ensures RefundedWhileHeld(baselineCents, steps, i) <==>
            RefundedWhileHeld(baselineCents, steps[..|steps| - 1], i) || RefundsHeld(baselineCents, steps, |steps| - 1, i)
  {
    var before := steps[..|steps| - 1];
    forall n: nat | n < |before| ensures RefundsHeld(baselineCents, steps, n, i) <==> RefundsHeld(baselineCents, before, n, i) {
      assert before[..n] == steps[..n];
    }
    forall n: nat | RefundsHeld(baselineCents, steps, n, i) ensures n < |before| || n == |steps| - 1 {}
  }

  /** An order of a run was credited something exactly when a step refunded some of it while it was held. */
  lemma {:induction false} CreditedByARun(baselineCents: int, steps: seq<Step>, i: nat)
    requires baselineCents >= 0
    ensures RefundedWhileHeld(baselineCents, steps, i) <==> WasCredited(Run(Opened(baselineCents), steps), i)
    decreases |steps|
  {
    if steps != [] {
      var m := |steps| - 1;
      var before := Run(Opened(baselineCents), steps[..m]);
      EveryRunKeeps(baselineCents, steps[..m]);
      CreditedByARun(baselineCents, steps[..m], i);
      EarlierRefunds(baselineCents, steps, i);
      if Take(before, steps[m]).Some? { CreditedSince(before, steps[m], i); }
    }
  }

  lemma CreditedAndCarried(s: State)
    requires Kept(s)
    ensures (forall o :: o in s.orders ==> CreditedWhileCarried(o) == 0) <==>
            forall i: nat :: WasCredited(s, i) ==> s.orders[i].status == Rejected
  {
    if forall i: nat :: WasCredited(s, i) ==> s.orders[i].status == Rejected {
      forall o | o in s.orders ensures CreditedWhileCarried(o) == 0 {
        var i :| 0 <= i < |s.orders| && s.orders[i] == o;
        assert OrderFits(o) && (WasCredited(s, i) ==> o.status == Rejected);
      }
    }
    if forall o :: o in s.orders ==> CreditedWhileCarried(o) == 0 {
      forall i: nat | WasCredited(s, i) ensures s.orders[i].status == Rejected {
        assert s.orders[i] in s.orders;
      }
    }
  }

  /** After a run spent and held are the two order sums exactly when every order that was refunded while it was held
      has been rejected since. */
  lemma ColumnsOfRuns(baselineCents: int, steps: seq<Step>)
    requires baselineCents >= 0
    ensures var s := Run(Opened(baselineCents), steps);
            s.row.spentCents == Sum(OrderSpent, s.orders) && s.row.heldCents == Sum(OrderHeld, s.orders)
            <==> forall i: nat :: RefundedWhileHeld(baselineCents, steps, i) ==> i < |s.orders| && s.orders[i].status == Rejected
  {
    var s := Run(Opened(baselineCents), steps);
    EveryRunKeeps(baselineCents, steps);
    ColumnsMatchOrders(s);
    CreditedAndCarried(s);
    forall i: nat { CreditedByARun(baselineCents, steps, i); }
  }

  lemma RejectedByIndex(s: State)
    requires Kept(s)
    ensures (forall o :: o in s.orders && o.status == Rejected ==> o.refundCents == 0) <==>
            forall i: nat :: WasCredited(s, i) ==> s.orders[i].status != Rejected
  {
    if forall i: nat :: WasCredited(s, i) ==> s.orders[i].status != Rejected {
      forall o | o in s.orders && o.status == Rejected ensures o.refundCents == 0 {
        var i :| 0 <= i < |s.orders| && s.orders[i] == o;
        assert OrderFits(o) && !WasCredited(s, i);
      }
    }
    if forall o :: o in s.orders && o.status == Rejected ==> o.refundCents == 0 {
      forall i: nat | WasCredited(s, i) ensures s.orders[i].status != Rejected {
        assert s.orders[i] in s.orders && OrderFits(s.orders[i]);
      }
    }
  }

  /** After a run without a reset what remains is what the orders say exactly when no order that was refunded while it
      was held has been rejected since; so nothing disagrees exactly when no order was refunded while it was held. */
  lemma RemainingOfRuns(baselineCents: int, steps: seq<Step>)
    requires baselineCents >= 0 && Run(Opened(baselineCents), steps).clearedCents == 0
    ensures var s := Run(Opened(baselineCents), steps);
            Remaining(s.row) == s.row.allocatedCents + Sum(Granted, s.addons) - Sum(Consumed, s.orders)
            <==> forall i: nat :: RefundedWhileHeld(baselineCents, steps, i) ==> i < |s.orders| && s.orders[i].status != Rejected
    ensures var s := Run(Opened(baselineCents), steps);
            && Remaining(s.row) == s.row.allocatedCents + Sum(Granted, s.addons) - Sum(Consumed, s.orders)
            && s.row.spentCents == Sum(OrderSpent, s.orders) && s.row.heldCents == Sum(OrderHeld, s.orders)
            <==> forall i: nat :: !RefundedWhileHeld(baselineCents, steps, i)
  {
    var s := Run(Opened(baselineCents), steps);
    EveryRunKeeps(baselineCents, steps);
    RemainingMatchesOrders(s);
    RejectedByIndex(s);
    ColumnsOfRuns(baselineCents, steps);
    forall i: nat { CreditedByARun(baselineCents, steps, i); }
  }

  /** A run that refunds part of a pending order leaves the row holding what the orders no longer do. */
  lemma RefundingAHeldOrderParts(baselineCents: int)
    requires baselineCents >= 100
    ensures var s := Run(Opened(baselineCents), [Place(0, 100, false), BudgetLedger.Refund(0, 40)]);
            s.row.heldCents == 100 && Sum(OrderHeld, s.orders) == 60
  {
    var s0 := Opened(baselineCents);
    var steps := [Place(0, 100, false), BudgetLedger.Refund(0, 40)];
    assert steps[..1][..0] == [];
    assert Run(s0, []) == s0;
    assert SettleAt(s0, 0, false) == s0;
    var s1 := Run(s0, steps[..1]);
    assert s1 == s0.(row := s0.row.(heldCents := 100), orders := [Order(Pending, 100, 0, None, 0)]);
    var order := Order(Pending, 100, 40, Some(Pending), 40);
    assert Run(s0, steps).orders == [order];
    SumOfOneMore(OrderHeld, [], order);
    assert [] + [order] == [order];
  }

  /** A run that rejects an order after refunding part of it leaves the branch richer than its orders say. */
  lemma RejectingARefundedOrderOvercredits(baselineCents: int)
    requires baselineCents >= 100
    ensures var s := Run(Opened(baselineCents), [Place(0, 100, false), BudgetLedger.Refund(0, 40), Reject(0)]);
            s.orders[..] == [Order(Rejected, 100, 40, Some(Pending), 40)] && Remaining(s.row) == baselineCents + 40
  {
    var s0 := Opened(baselineCents);
    var steps := [Place(0, 100, false), BudgetLedger.Refund(0, 40), Reject(0)];
    assert steps[..2][..1] == steps[..1] && steps[..1][..0] == [];
    assert Run(s0, []) == s0;
    assert SettleAt(s0, 0, false) == s0;
    var s1 := Run(s0, steps[..1]);
    assert s1 == s0.(row := s0.row.(heldCents := 100), orders := [Order(Pending, 100, 0, None, 0)]);
    var s2 := Run(s0, steps[..2]);
    assert s2 == s1.(row := s1.row.(creditedCents := 40), orders := [Order(Pending, 100, 40, Some(Pending), 40)]);
  }
}
