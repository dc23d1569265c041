/** One branch's budget row over a month: the steps orders, refunds, add-ons and
    allocations take on it, and the order totals it has to agree with
    (lib/budget-consumption.ts, lib/business-rules.ts). */
module BudgetLedger {
  import opened AddonSettlement
  import opened BudgetOpening
  import opened Numbers
  import opened Options
  import opened Sums

  datatype Status = Pending | Approved | Fulfilled | Partial | PartiallyFulfilled | Rejected | Cancelled | Refunded | Unrecognised

  datatype Bucket = SpentBucket | HeldBucket | NoBucket

  /** An order's money: `statusAtRefund` is the status it had when last refunded, and
      `creditedRefundCents` the part of its refunds that was credited rather than taken from spent. */
  datatype Order = Order(status: Status, totalCents: int, refundCents: int, statusAtRefund: Option<Status>, creditedRefundCents: int)

  datatype RefundMove = RefundMove(spentDebitCents: int, creditCents: int)

  // ---- Consumption ----

  function Classify(status: Status): Bucket {
    match status
    case Fulfilled | Partial | PartiallyFulfilled => SpentBucket
    case Pending | Approved => HeldBucket
    case _ => NoBucket
  }

  function Consumption(order: Order): int {
    Max(0, order.totalCents - order.refundCents)
  }

  function OrderSpent(order: Order): int {
    if Classify(order.status) == SpentBucket then Consumption(order) else 0
  }

  function OrderHeld(order: Order): int {
    if Classify(order.status) == HeldBucket then Consumption(order) else 0
  }

  predicate CanTransition(from: Status, to: Status) {
    match from
    case Pending => to in {Approved, Rejected, Refunded}
    case Approved => to in {Fulfilled, Refunded}
    case Fulfilled => to == Refunded
    case _ => false
  }

  predicate IsRefundEligible(status: Status) {
    status in {Pending, Approved, Fulfilled}
  }

  /** How an approved refund moves its order's row: spent money is taken back from spent, the rest is credited. */
  function PlanRefund(status: Status, refundCents: int, rowSpentCents: int): RefundMove {
    var refund := Max(0, refundCents);
    if Classify(status) != SpentBucket then RefundMove(0, refund)
    else
      var debit := Min(refund, Max(0, rowSpentCents));
      RefundMove(debit, refund - debit)
  }

  /** The refund always comes back to the branch exactly, and never out of money the row has not spent. */
  lemma RefundsComeBackExactly(status: Status, refundCents: int, row: Ledger)
    requires row.spentCents >= 0 && refundCents >= 0
    ensures var move := PlanRefund(status, refundCents, row.spentCents);
            var moved := row.(spentCents := row.spentCents - move.spentDebitCents, creditedCents := row.creditedCents + move.creditCents);
            Remaining(moved) == Remaining(row) + refundCents && 0 <= moved.spentCents && row.creditedCents <= moved.creditedCents
  {
  }

  // ---- The machine ----

  /** `clearedCents` is what resets dropped from the credited column. */
  datatype State = State(row: Ledger, orders: seq<Order>, addons: seq<Addon>, clearedCents: int)

  datatype Step =
    | Settle(now: int)
    | Allocate(now: int, amountCents: int)
    | Credit(now: int, amountCents: int, validUntil: Option<int>, reset: bool)
    | Place(now: int, totalCents: int, autoApproved: bool)
    | Approve(order: nat)
    | Reject(order: nat)
    | Fulfil(order: nat)
    | Refund(order: nat, amountCents: int)

  function SettleAt(s: State, now: int, closeAll: bool): State {
    var plan := Settlement(s.row, s.addons, now, closeAll);
    s.(row := After(s.row, plan), addons := Closed(s.addons, now, closeAll, plan.forfeits))
  }

  /** A step's transaction, or None when it is refused and rolls back. */
  function Take(s: State, step: Step): Option<State> {
    match step
    case Settle(now) => Some(SettleAt(s, now, false))
    case Allocate(now, amount) =>
      var settled := SettleAt(s, now, false);
      if amount < 0 || amount + settled.row.creditedCents < settled.row.spentCents + settled.row.heldCents then None
      else Some(settled.(row := settled.row.(allocatedCents := amount)))
    case Credit(now, amount, validUntil, reset) =>
      var settled := SettleAt(s, now, reset);
      var kept := if reset then 0 else settled.row.creditedCents;
      if amount < 0 || settled.row.allocatedCents + kept + amount < settled.row.spentCents + settled.row.heldCents then None
      else Some(settled.(
        row := settled.row.(creditedCents := kept + amount),
        addons := if amount > 0 then settled.addons + [Addon(|settled.addons|, amount, validUntil, None, 0)] else settled.addons,
        clearedCents := settled.clearedCents + settled.row.creditedCents - kept))
    case Place(now, total, autoApproved) =>
      var settled := SettleAt(s, now, false);
      if total < 0 || Remaining(settled.row) < 0 || total > Remaining(settled.row) then None
      else Some(settled.(
        row := settled.row.(heldCents := settled.row.heldCents + total),
        orders := settled.orders + [Order(if autoApproved then Approved else Pending, total, 0, None, 0)]))
    case Approve(i) =>
      if i >= |s.orders| || s.orders[i].status != Pending then None
      else Some(s.(orders := s.orders[i := s.orders[i].(status := Approved)]))
    case Reject(i) =>
      if i >= |s.orders| || s.orders[i].status != Pending || s.row.heldCents < s.orders[i].totalCents then None
      else Some(s.(
        row := s.row.(heldCents := s.row.heldCents - s.orders[i].totalCents),
        orders := s.orders[i := s.orders[i].(status := Rejected)]))
    case Fulfil(i) =>
      if i >= |s.orders| || s.orders[i].status != Approved || s.row.heldCents < s.orders[i].totalCents then None
      else Some(s.(
        row := s.row.(heldCents := s.row.heldCents - s.orders[i].totalCents, spentCents := s.row.spentCents + s.orders[i].totalCents),
        orders := s.orders[i := s.orders[i].(status := Fulfilled)]))
    case Refund(i, amount) =>
      if i >= |s.orders| || !IsRefundEligible(s.orders[i].status) || amount < 0
         || amount > s.orders[i].totalCents - s.orders[i].refundCents then None
      else
        var order := s.orders[i];
        var move := PlanRefund(order.status, amount, s.row.spentCents);
        Some(s.(
          row := s.row.(spentCents := s.row.spentCents - move.spentDebitCents, creditedCents := s.row.creditedCents + move.creditCents),
          orders := s.orders[i := Order(
            if order.refundCents + amount >= order.totalCents then Refunded else order.status,
            order.totalCents, order.refundCents + amount, Some(order.status), order.creditedRefundCents + move.creditCents)]))
  }

  /** A month of steps on a newly opened row; a refused step leaves the state as it was. */
  function Run(s: State, steps: seq<Step>): State
    decreases |steps|
  {
    if steps == [] then s
    else
      var before, last := Run(s, steps[..|steps| - 1]), steps[|steps| - 1];
      match Take(before, last)
      case None => before
      case Some(after) => after
  }

  function Opened(baselineCents: int): State {
    State(OpenedRow(baselineCents), [], [], 0)
  }

  // ---- What every run keeps ----

  /** Where an order's money sits on the row, read off its status and the status it was refunded from. */
  function MoneyIn(order: Order): Bucket {
    if order.status == Refunded && order.statusAtRefund.Some? then Classify(order.statusAtRefund.value) else Classify(order.status)
  }

  function SpentPart(order: Order): int {
    if MoneyIn(order) == SpentBucket then order.totalCents - (order.refundCents - order.creditedRefundCents) else 0
  }

  function HeldPart(order: Order): int {
    if MoneyIn(order) == HeldBucket then order.totalCents else 0
  }

  function CreditedPart(order: Order): int { order.creditedRefundCents }

  function Granted(addon: Addon): int { addon.amountCents - addon.forfeitedCents }

  ghost predicate OrderFits(o: Order) {
    && 0 <= o.refundCents <= o.totalCents
    && 0 <= o.creditedRefundCents <= o.refundCents
    && o.status in {Pending, Approved, Fulfilled, Rejected, Refunded}
    && (o.status in {Pending, Approved, Rejected} ==> o.creditedRefundCents == o.refundCents)
    && (o.status == Refunded ==>
          && o.refundCents == o.totalCents
          && o.statusAtRefund.Some? && IsRefundEligible(o.statusAtRefund.value)
          && (o.statusAtRefund.value != Fulfilled ==> o.creditedRefundCents == o.refundCents))
  }

  ghost predicate AddonFits(a: Addon) {
    && 0 <= a.forfeitedCents <= a.amountCents
    && (a.expiredAt.None? ==> a.forfeitedCents == 0)
  }

  /** Every column is what the orders and add-ons say it is, and the row is solvent. */
  ghost predicate Kept(s: State) {
    && (forall o :: o in s.orders ==> OrderFits(o))
    && (forall i :: 0 <= i < |s.addons| ==> s.addons[i].id == i && AddonFits(s.addons[i]))
    && s.row.spentCents == Sum(SpentPart, s.orders)
    && s.row.heldCents == Sum(HeldPart, s.orders)
    && s.row.creditedCents == Sum(Granted, s.addons) + Sum(CreditedPart, s.orders) - s.clearedCents
    && Solvent(s.row)
  }

  /** The database's check on the row. */
  predicate Solvent(row: Ledger) {
    && row.allocatedCents >= 0 && row.spentCents >= 0 && row.heldCents >= 0 && row.creditedCents >= 0
    && row.allocatedCents + row.creditedCents >= row.spentCents + row.heldCents
  }

  // ---- What orders consume ----

  /** What is left of an order after its refunds is spent once it is fulfilled, in part or in full, held while it is
      pending or approved, and nothing otherwise. */
  lemma ConsumedByStatus(order: Order)
    ensures var left := if order.totalCents > order.refundCents then order.totalCents - order.refundCents else 0;
            && OrderSpent(order) == (if order.status in {Fulfilled, Partial, PartiallyFulfilled} then left else 0)
            && OrderHeld(order) == (if order.status in {Pending, Approved} then left else 0)
  {
  }
}
