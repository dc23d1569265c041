/** When a step on the budget row is accepted and what it does, read off the stored fields and off the
    steps accepted before it, whatever the machine's own cases are. */
module BudgetEffects {
  import opened AddonSettlement
  import opened BudgetLedger
  import opened BudgetRuns
  import opened Numbers
  import opened Options
  import opened Sorting
  import opened Sums

  // ---- What a settlement does ----

  /** What an open add-on asks for when it closes: one whose validity has passed, or on a reset any. */
  function AsksFor(now: int, reset: bool): Addon -> int {
    (a: Addon) => if a.expiredAt == None && (reset || (a.validUntil.Some? && a.validUntil.value <= now)) then Max(0, a.amountCents) else 0
  }

  /** What settling at `now` withdraws: what the add-ons ask for, as far as the branch has it left and it was credited. */
  function Withdrawal(s: State, now: int, reset: bool): int {
    Min(Sum(AsksFor(now, reset), s.addons), Min(Remaining(s.row), s.row.creditedCents))
  }

  function Amount(): Addon -> int { (a: Addon) => Max(0, a.amountCents) }

  lemma {:induction false} ClaimedIsASum(due: seq<Addon>, n: nat)
    requires n <= |due|
    ensures Claimed(due, n) == Sum(Amount(), due[..n])
  {
    if n > 0 {
      ClaimedIsASum(due, n - 1);
      PrefixGrows(due, n - 1);
      SumOfOneMore(Amount(), due[..n - 1], due[n - 1]);
    }
  }

  lemma {:induction false} ClosingAsks(addons: seq<Addon>, now: int, reset: bool)
    ensures Sum(Amount(), Closing(addons, now, reset)) == Sum(AsksFor(now, reset), addons)
  {
    if addons != [] {
      var rest := Closing(addons[1..], now, reset);
      ClosingAsks(addons[1..], now, reset);
      assert ([addons[0]] + rest)[1..] == rest;
    }
  }

  lemma WithdrawalIsTheSettlement(s: State, now: int, reset: bool)
    requires Kept(s)
    ensures Settlement(s.row, s.addons, now, reset).withdrawnCents == Withdrawal(s, now, reset)
    ensures SettleAt(s, now, reset).row == s.row.(creditedCents := s.row.creditedCents - Withdrawal(s, now, reset))
  {
    var due := Due(s.addons, now, reset);
    WithdrawsTheLeast(s.row, s.addons, now, reset);
    ClaimedIsASum(due, |due|);
    assert due[..|due|] == due;
    SortKeepsAll(Closing(s.addons, now, reset), ClosesBefore);
    SumOfPermutation(Amount(), due, Closing(s.addons, now, reset));
    ClosingAsks(s.addons, now, reset);
  }

  // ---- When a step is accepted ----

  /** On a kept state: decisions go by the order's status alone, a refund by what is left of the order, a placement by
      what is left of the branch after the add-ons due are withdrawn, and a figure set by administration unless it is
      negative or leaves less than is spent and held. */
  lemma AcceptedExactly(s: State, step: Step)
    requires Kept(s)
    ensures Take(s, step).Some? <==> match step
      case Settle(_) => true
      case Allocate(now, amount) =>
        amount >= 0 && amount + s.row.creditedCents - Withdrawal(s, now, false) >= s.row.spentCents + s.row.heldCents
      case Credit(now, amount, _, reset) =>
        amount >= 0 && (reset ==> s.row.allocatedCents + amount >= s.row.spentCents + s.row.heldCents)
      case Place(now, total, _) => 0 <= total <= Remaining(s.row) - Withdrawal(s, now, false)
      case Approve(i) => i < |s.orders| && s.orders[i].status == Pending
      case Reject(i) => i < |s.orders| && s.orders[i].status == Pending
      case Fulfil(i) => i < |s.orders| && s.orders[i].status == Approved
      case Refund(i, amount) =>
        && i < |s.orders| && (s.orders[i].status == Pending || s.orders[i].status == Approved || s.orders[i].status == Fulfilled)
        && 0 <= amount <= s.orders[i].totalCents - s.orders[i].refundCents
  {
    match step
    case Allocate(now, _) => WithdrawalIsTheSettlement(s, now, false);
    case Place(now, _, _) => WithdrawalIsTheSettlement(s, now, false);
    case Credit(now, _, _, reset) =>
      WithdrawalIsTheSettlement(s, now, reset);
      WithdrawsTheLeast(s.row, s.addons, now, reset);
    case Reject(i) => if i < |s.orders| { LedgerInvariantNeverFails(s, i, 0); }
    case Fulfil(i) => if i < |s.orders| { LedgerInvariantNeverFails(s, i, 0); }
    case _ =>
  }

  // ---- The credited column and the add-ons ----

  /** The instant a step settles at. */
  function SettlesAt(step: Step): Option<int> {
    match step
    case Settle(now) => Some(now)
    case Allocate(now, _) => Some(now)
    case Credit(now, _, _, _) => Some(now)
    case Place(now, _, _) => Some(now)
    case _ => None
  }

  predicate Resets(step: Step) { step.Credit? && step.reset }

  /** The credited column after a step: an addition comes on top of what the settlement left, a reset leaves the
      addition alone, and a refund of an order not yet fulfilled is credited. */
  lemma CreditedAfter(s: State, step: Step)
    requires Kept(s) && Take(s, step).Some?
    ensures Take(s, step).value.row.creditedCents ==
              (if Resets(step) then 0
               else s.row.creditedCents - (if SettlesAt(step).Some? then Withdrawal(s, SettlesAt(step).value, false) else 0))
              + (if step.Credit? then step.amountCents
                 else if step.Refund? && s.orders[step.order].status != Fulfilled then step.amountCents else 0)
  {
    if SettlesAt(step).Some? { WithdrawalIsTheSettlement(s, SettlesAt(step).value, Resets(step)); }
    if step.Refund? { LedgerInvariantNeverFails(s, step.order, step.amountCents); }
  }

  /** Whether a step closes an add-on: an open one, once its validity has passed or everything is reset. */
  predicate ClosedBy(a: Addon, step: Step) {
    a.expiredAt == None && SettlesAt(step).Some?
    && (Resets(step) || (a.validUntil.Some? && a.validUntil.value <= SettlesAt(step).value))
  }

  /** Which add-ons a step stamps, and that it leaves every other alone; only an addition of more than nothing adds one. */
  lemma AddonsAfter(s: State, step: Step)
    requires Kept(s) && Take(s, step).Some?
    ensures var next := Take(s, step).value;
            && |next.addons| == |s.addons| + (if step.Credit? && step.amountCents > 0 then 1 else 0)
            && (forall i :: 0 <= i < |s.addons| ==>
                  if ClosedBy(s.addons[i], step)
                  then next.addons[i] == s.addons[i].(expiredAt := SettlesAt(step), forfeitedCents := next.addons[i].forfeitedCents)
                  else next.addons[i] == s.addons[i])
            && (step.Credit? && step.amountCents > 0 ==>
                  next.addons[|s.addons|] == Addon(|s.addons|, step.amountCents, step.validUntil, None, 0))
  {
  }

  /** Earlier validity first, none last, and of one validity the lower number. */
  predicate Sooner(a: Addon, b: Addon) {
    || (a.validUntil.Some? && b.validUntil.None?)
    || (a.validUntil.Some? && b.validUntil.Some? && a.validUntil.value < b.validUntil.value)
    || (a.validUntil == b.validUntil && a.id < b.id)
  }

  /** Of two add-ons a step closes the later one forfeits only once the sooner one has forfeited everything. */
  lemma SoonerForfeitsFirst(s: State, step: Step, i: nat, j: nat)
    requires Kept(s) && Take(s, step).Some?
    requires i < |s.addons| && j < |s.addons| && Sooner(s.addons[i], s.addons[j])
    requires ClosedBy(s.addons[i], step) && ClosedBy(s.addons[j], step)
    ensures Take(s, step).value.addons[j].forfeitedCents > 0 ==> Take(s, step).value.addons[i].forfeitedCents == s.addons[i].amountCents
  {
    var now, reset := SettlesAt(step).value, Resets(step);
    var k, l := PlacesInTheWalk(s.addons, now, reset, s.addons[i], s.addons[j]);
    ForfeitOfDue(s, now, reset, k, i);
    ForfeitOfDue(s, now, reset, l, j);
    ForfeitsAreAWaterfall(s.row, s.addons, now, reset);
    StampedBySettling(s, step, i);
    StampedBySettling(s, step, j);
    assert AddonFits(s.addons[i]);
  }

  lemma PlacesInTheWalk(addons: seq<Addon>, now: int, reset: bool, a: Addon, b: Addon) returns (k: nat, l: nat)
    requires DistinctIds(addons) && a in addons && b in addons && Sooner(a, b)
    requires Closes(a, now, reset) && Closes(b, now, reset)
    ensures k < l < |Due(addons, now, reset)| && Due(addons, now, reset)[k] == a && Due(addons, now, reset)[l] == b
  {
    var due := Due(addons, now, reset);
    DueIsSorted(addons, now, reset);
    assert a in due && b in due;
    k :| 0 <= k < |due| && due[k] == a;
    l :| 0 <= l < |due| && due[l] == b;
    assert l < k ==> ClosesBefore(due[l], due[k]);
  }

  lemma StampedBySettling(s: State, step: Step, i: nat)
    requires Take(s, step).Some? && SettlesAt(step).Some? && i < |s.addons|
    ensures i < |Take(s, step).value.addons|
    ensures Take(s, step).value.addons[i] == SettleAt(s, SettlesAt(step).value, Resets(step)).addons[i]
  {
  }

  lemma ForfeitOfDue(s: State, now: int, reset: bool, k: nat, i: nat)
    requires Kept(s) && i < |s.addons| && k < |Due(s.addons, now, reset)| && Due(s.addons, now, reset)[k] == s.addons[i]
    requires Closes(s.addons[i], now, reset)
    ensures SettleAt(s, now, reset).addons[i].forfeitedCents == Settlement(s.row, s.addons, now, reset).forfeits[k].forfeitedCents
    ensures Settlement(s.row, s.addons, now, reset).forfeits[k].amountCents == Max(0, s.addons[i].amountCents)
  {
    DueHasDistinctIds(s.addons, now, reset);
    ForfeitFound(Settlement(s.row, s.addons, now, reset).forfeits, k);
  }

  // ---- A run, read off the steps it accepted ----

  function AcceptedSteps(baselineCents: int, steps: seq<Step>): seq<Step>
    decreases |steps|
  {
    if steps == [] then []
    else
      var m := |steps| - 1;
      AcceptedSteps(baselineCents, steps[..m]) + if Take(Run(Opened(baselineCents), steps[..m]), steps[m]).Some? then [steps[m]] else []
  }

  /** The last allocation, or the baseline. */
  function AllocatedBy(baselineCents: int, h: seq<Step>): int {
    if h == [] then baselineCents
    else if h[|h| - 1].Allocate? then h[|h| - 1].amountCents
    else AllocatedBy(baselineCents, h[..|h| - 1])
  }

  /** How many orders were placed. */
  function PlacedBy(h: seq<Step>): nat {
    if h == [] then 0 else PlacedBy(h[..|h| - 1]) + if h[|h| - 1].Place? then 1 else 0
  }

  /** The total the `i`th order was placed at. */
  function TotalBy(h: seq<Step>, i: nat): int {
    if h == [] then 0
    else if h[|h| - 1].Place? && PlacedBy(h[..|h| - 1]) == i then h[|h| - 1].totalCents
    else TotalBy(h[..|h| - 1], i)
  }

  /** What the last decision on the `i`th order made of it. */
  function DecidedBy(h: seq<Step>, i: nat): Option<Status> {
    if h == [] then None
    else match h[|h| - 1]
      case Place(_, _, auto) =>
        if PlacedBy(h[..|h| - 1]) == i then Some(if auto then Approved else Pending) else DecidedBy(h[..|h| - 1], i)
      case Approve(order) => if order == i then Some(Approved) else DecidedBy(h[..|h| - 1], i)
      case Reject(order) => if order == i then Some(Rejected) else DecidedBy(h[..|h| - 1], i)
      case Fulfil(order) => if order == i then Some(Fulfilled) else DecidedBy(h[..|h| - 1], i)
      case _ => DecidedBy(h[..|h| - 1], i)
  }

  predicate RefundsOrder(step: Step, i: nat) { step.Refund? && step.order == i }

  function RefundedBy(h: seq<Step>, i: nat): int {
    if h == [] then 0 else RefundedBy(h[..|h| - 1], i) + if RefundsOrder(h[|h| - 1], i) then h[|h| - 1].amountCents else 0
  }

  predicate EverRefunded(h: seq<Step>, i: nat) { exists k :: 0 <= k < |h| && RefundsOrder(h[k], i) }

  /** The last decision, until the refunds reach the total. */
  function StatusBy(h: seq<Step>, i: nat): Option<Status> {
    if EverRefunded(h, i) && RefundedBy(h, i) >= TotalBy(h, i) then Some(Refunded) else DecidedBy(h, i)
  }

  /** What was placed, less what was rejected or fulfilled. */
  function HeldBy(h: seq<Step>): int {
    if h == [] then 0
    else HeldBy(h[..|h| - 1]) + match h[|h| - 1]
      case Place(_, total, _) => total
      case Reject(i) => -TotalBy(h[..|h| - 1], i)
      case Fulfil(i) => -TotalBy(h[..|h| - 1], i)
      case _ => 0
  }

  /** What was fulfilled, less what was refunded after that. */
  function SpentBy(h: seq<Step>): int {
    if h == [] then 0
    else SpentBy(h[..|h| - 1]) + match h[|h| - 1]
      case Fulfil(i) => TotalBy(h[..|h| - 1], i)
      case Refund(i, amount) => if DecidedBy(h[..|h| - 1], i) == Some(Fulfilled) then -amount else 0
      case _ => 0
  }

  ghost predicate OrderReads(o: Order, h: seq<Step>, i: nat) {
    && o.totalCents == TotalBy(h, i) && o.refundCents == RefundedBy(h, i)
    && StatusBy(h, i) == Some(o.status)
    && (o.status == Refunded ==> DecidedBy(h, i).Some?)
  }

  ghost predicate ReadsOff(s: State, baselineCents: int, h: seq<Step>) {
    && s.row.allocatedCents == AllocatedBy(baselineCents, h)
    && s.row.heldCents == HeldBy(h)
    && s.row.spentCents == SpentBy(h)
    && |s.orders| == PlacedBy(h)
    && (forall k :: 0 <= k < |h| && h[k].Refund? ==> h[k].order < |s.orders|)
    && forall i :: 0 <= i < |s.orders| ==> OrderReads(s.orders[i], h, i)
  }

  lemma EverRefundedSince(h: seq<Step>, step: Step, i: nat)
    ensures EverRefunded(h + [step], i) <==> EverRefunded(h, i) || RefundsOrder(step, i)
  {
    var more := h + [step];
    assert more[|h|] == step && forall k :: 0 <= k < |h| ==> more[k] == h[k];
  }

  /** What one more accepted step changes in each reading. */
  lemma OneMoreAccepted(h: seq<Step>, step: Step, i: nat)
    ensures RefundedBy(h + [step], i) == RefundedBy(h, i) + if RefundsOrder(step, i) then step.amountCents else 0
    ensures EverRefunded(h + [step], i) <==> EverRefunded(h, i) || RefundsOrder(step, i)
    ensures PlacedBy(h + [step]) == PlacedBy(h) + if step.Place? then 1 else 0
    ensures TotalBy(h + [step], i) == if step.Place? && PlacedBy(h) == i then step.totalCents else TotalBy(h, i)
    ensures DecidedBy(h + [step], i) ==
              if step.Place? && PlacedBy(h) == i then Some(if step.autoApproved then Approved else Pending)
              else if step == Approve(i) then Some(Approved)
              else if step == Reject(i) then Some(Rejected)
              else if step == Fulfil(i) then Some(Fulfilled)
              else DecidedBy(h, i)
  {
    assert (h + [step])[..|h|] == h;
    EverRefundedSince(h, step, i);
  }

  lemma {:induction false} NothingBeforePlacing(h: seq<Step>, i: nat)
    requires forall k :: 0 <= k < |h| ==> !RefundsOrder(h[k], i)
    ensures RefundedBy(h, i) == 0 && !EverRefunded(h, i)
  {
    if h != [] { NothingBeforePlacing(h[..|h| - 1], i); }
  }

  /** A step that decides, refunds or places nothing of the order leaves its readings alone. */
  lemma OtherOrdersRead(o: Order, h: seq<Step>, step: Step, i: nat)
    requires OrderReads(o, h, i)
    requires step.Place? ==> PlacedBy(h) != i
    requires step.Approve? || step.Reject? || step.Fulfil? || step.Refund? ==> step.order != i
    ensures OrderReads(o, h + [step], i)
  {
    OneMoreAccepted(h, step, i);
  }

  lemma PlacedOrderReads(h: seq<Step>, step: Step)
    requires step.Place? && step.totalCents >= 0 && forall k :: 0 <= k < |h| && h[k].Refund? ==> h[k].order < PlacedBy(h)
    ensures OrderReads(Order(if step.autoApproved then Approved else Pending, step.totalCents, 0, None, 0), h + [step], PlacedBy(h))
  {
    OneMoreAccepted(h, step, PlacedBy(h));
    NothingBeforePlacing(h, PlacedBy(h));
  }

  /** The order a decision or a refund is of reads as that step leaves it. */
  lemma DecidedOrderReads(s: State, h: seq<Step>, step: Step)
    requires Kept(s) && Take(s, step).Some? && (step.Approve? || step.Reject? || step.Fulfil? || step.Refund?)
    requires OrderReads(s.orders[step.order], h, step.order) && step.order < PlacedBy(h)
    ensures OrderReads(Take(s, step).value.orders[step.order], h + [step], step.order)
    ensures DecidedBy(h, step.order) == Some(s.orders[step.order].status)
  {
    OneMoreAccepted(h, step, step.order);
    assert OrderFits(s.orders[step.order]);
  }

  lemma ColumnsReadOn(s: State, h: seq<Step>, step: Step)
    requires Kept(s) && Take(s, step).Some?
    requires s.row.heldCents == HeldBy(h) && s.row.spentCents == SpentBy(h)
    requires forall i :: 0 <= i < |s.orders| ==> OrderReads(s.orders[i], h, i)
    requires |s.orders| == PlacedBy(h)
    ensures Take(s, step).value.row.heldCents == HeldBy(h + [step])
    ensures Take(s, step).value.row.spentCents == SpentBy(h + [step])
  {
    assert (h + [step])[..|h|] == h;
    if step.Approve? || step.Reject? || step.Fulfil? || step.Refund? {
      assert OrderReads(s.orders[step.order], h, step.order);
      DecidedOrderReads(s, h, step);
    }
    if step.Refund? { LedgerInvariantNeverFails(s, step.order, step.amountCents); }
  }

  lemma OrderReadsOn(s: State, h: seq<Step>, step: Step, i: nat)
    requires Kept(s) && Take(s, step).Some? && i < |Take(s, step).value.orders|
    requires |s.orders| == PlacedBy(h) && (i < |s.orders| ==> OrderReads(s.orders[i], h, i))
    requires forall k :: 0 <= k < |h| && h[k].Refund? ==> h[k].order < |s.orders|
    ensures OrderReads(Take(s, step).value.orders[i], h + [step], i)
  {
    if i == |s.orders| {
      PlacedOrderReads(h, step);
    } else if (step.Approve? || step.Reject? || step.Fulfil? || step.Refund?) && step.order == i {
      DecidedOrderReads(s, h, step);
    } else {
      OtherOrdersRead(s.orders[i], h, step, i);
    }
  }

  lemma OrdersReadOn(s: State, h: seq<Step>, step: Step)
    requires Kept(s) && Take(s, step).Some?
    requires |s.orders| == PlacedBy(h) && forall i :: 0 <= i < |s.orders| ==> OrderReads(s.orders[i], h, i)
    requires forall k :: 0 <= k < |h| && h[k].Refund? ==> h[k].order < |s.orders|
    ensures var next := Take(s, step).value;
            |next.orders| == PlacedBy(h + [step]) && forall i :: 0 <= i < |next.orders| ==> OrderReads(next.orders[i], h + [step], i)
  {
    CountReadsOn(s, h, step);
    forall i | 0 <= i < |Take(s, step).value.orders| { OrderReadsOn(s, h, step, i); }
  }

  lemma CountReadsOn(s: State, h: seq<Step>, step: Step)
    requires Take(s, step).Some? && |s.orders| == PlacedBy(h)
    ensures |Take(s, step).value.orders| == PlacedBy(h + [step])
  {
    assert (h + [step])[..|h|] == h;
  }

  lemma StepReadsOff(s: State, baselineCents: int, h: seq<Step>, step: Step)
    requires Kept(s) && ReadsOff(s, baselineCents, h) && Take(s, step).Some?
    ensures ReadsOff(Take(s, step).value, baselineCents, h + [step])
  {
    assert (h + [step])[..|h|] == h;
    ColumnsReadOn(s, h, step);
    OrdersReadOn(s, h, step);
    assert forall k :: 0 <= k < |h + [step]| ==> (h + [step])[k] == if k < |h| then h[k] else step;
  }

  /** Every figure of a run is read off its accepted steps: what is allocated, held and spent, and each order's total,
      refunds and status. */
  lemma {:induction false} RunsReadOff(baselineCents: int, steps: seq<Step>)
    requires baselineCents >= 0
    ensures ReadsOff(Run(Opened(baselineCents), steps), baselineCents, AcceptedSteps(baselineCents, steps))
    decreases |steps|
  {
    if steps != [] {
      var m := |steps| - 1;
      var before := Run(Opened(baselineCents), steps[..m]);
      RunsReadOff(baselineCents, steps[..m]);
      EveryRunKeeps(baselineCents, steps[..m]);
      if Take(before, steps[m]).Some? {
        StepReadsOff(before, baselineCents, AcceptedSteps(baselineCents, steps[..m]), steps[m]);
      } else {
        assert AcceptedSteps(baselineCents, steps[..m]) + [] == AcceptedSteps(baselineCents, steps[..m]);
      }
    }
  }

  /** Only resets drop credit: a run that accepts none has dropped nothing. */
  lemma {:induction false} OnlyResetsClear(baselineCents: int, steps: seq<Step>)
    requires baselineCents >= 0
    requires forall k :: 0 <= k < |steps| ==> !Resets(steps[k])
    ensures Run(Opened(baselineCents), steps).clearedCents == 0
    decreases |steps|
  {
    if steps != [] { OnlyResetsClear(baselineCents, steps[..|steps| - 1]); }
  }
}
