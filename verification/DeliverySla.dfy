/** Where an order stands against its 72-hour delivery promise (lib/delivery-sla.ts).
    Instants are milliseconds; hours are kept in tenths, as the screens show them. */
module DeliverySla {
  import opened Numbers
  import opened Options
  import opened Rounding

  const HOUR_MS := 3_600_000
  const SLA_HOURS := 72
  const DUE_SOON_HOURS := 24

  datatype OrderStatus = Approved | Fulfilled | Partial | PartiallyFulfilled | OtherStatus

  datatype Stage = NotStarted | InProcess | OutForDelivery | Delivered

  datatype Health = OnTrack | DueSoon | Overdue | DeliveredOnTime | DeliveredLate | DeliveredUntimed

  datatype Order = Order(status: OrderStatus, stage: Stage, approvedAt: Option<int>, deliveredAt: Option<int>)

  datatype Assessment = Assessment(
    health: Health, isOpen: bool, acknowledged: bool, stage: Stage, approvedAt: int, promisedAt: int, deliveredAt: Option<int>,
    hoursRemaining: Option<int>, hoursOverdue: Option<int>, deliveryHours: Option<int>)

  /** Tenths of an hour between two instants, halves rounded up. */
  function TenthsBetween(from: int, to: int): int { Rounded((to - from) * 10, HOUR_MS) }

  function PromisedAt(approvedAt: int): int { approvedAt + SLA_HOURS * HOUR_MS }

  predicate IsFulfilled(status: OrderStatus) { status.Fulfilled? || status.Partial? || status.PartiallyFulfilled? }

  function AssessDelivery(order: Order, now: int): Option<Assessment> {
    if order.approvedAt.None? then None
    else if !order.status.Approved? && !IsFulfilled(order.status) then None
    else
      var approvedAt := order.approvedAt.value;
      var promisedAt := PromisedAt(approvedAt);
      if order.stage.Delivered? || IsFulfilled(order.status) then Some(Arrived(order, approvedAt, promisedAt))
      else Some(Awaited(order.stage, approvedAt, promisedAt, now))
  }

  function Arrived(order: Order, approvedAt: int, promisedAt: int): Assessment {
    var acknowledged := IsFulfilled(order.status);
    match order.deliveredAt
    case None => Assessment(DeliveredUntimed, false, acknowledged, Delivered, approvedAt, promisedAt, None, None, None, None)
    case Some(at) =>
      var late := at > promisedAt;
      Assessment(if late then DeliveredLate else DeliveredOnTime, false, acknowledged, Delivered, approvedAt, promisedAt, Some(at),
                 None, if late then Some(TenthsBetween(promisedAt, at)) else None, Some(TenthsBetween(approvedAt, at)))
  }

  function Awaited(stage: Stage, approvedAt: int, promisedAt: int, now: int): Assessment {
    var msRemaining := promisedAt - now;
    if msRemaining < 0 then
      Assessment(Overdue, true, false, stage, approvedAt, promisedAt, None, None, Some(TenthsBetween(promisedAt, now)), None)
    else
      Assessment(if msRemaining <= DUE_SOON_HOURS * HOUR_MS then DueSoon else OnTrack, true, false, stage, approvedAt, promisedAt, None,
                 Some(TenthsBetween(now, promisedAt)), None, None)
  }

  predicate IsOpenHealth(health: Health) { health.OnTrack? || health.DueSoon? || health.Overdue? }

  /** What every assessment made at `now` looks like, whatever order it is of. */
  predicate MadeAt(a: Assessment, now: int) {
    && a.promisedAt == a.approvedAt + 72 * HOUR_MS
    && (a.isOpen <==> IsOpenHealth(a.health))
    && (a.isOpen ==> !a.acknowledged && !a.stage.Delivered? && a.deliveredAt.None? && a.deliveryHours.None?)
    && (!a.isOpen ==> a.stage.Delivered? && (a.health.DeliveredUntimed? <==> a.deliveredAt.None?))
    && (a.health.OnTrack? ==> a.promisedAt - now > 24 * HOUR_MS)
    && (a.health.DueSoon? ==> 0 <= a.promisedAt - now <= 24 * HOUR_MS)
    && (a.health.Overdue? ==> now > a.promisedAt && a.hoursOverdue == Some(TenthsBetween(a.promisedAt, now)))
    && (a.health.DeliveredLate? ==> a.deliveredAt.Some? && a.deliveredAt.value > a.promisedAt)
    && (a.health.DeliveredOnTime? ==> a.deliveredAt.Some? && a.deliveredAt.value <= a.promisedAt)
  }

  /** Delivery work is the approved and fulfilled orders with an approval time, each assessed one way. */
  lemma AssessmentsAreMadeAt(order: Order, now: int)
    ensures AssessDelivery(order, now).Some? <==> order.approvedAt.Some? && !order.status.OtherStatus?
    ensures AssessDelivery(order, now).Some? ==> MadeAt(AssessDelivery(order, now).value, now)
    ensures AssessDelivery(order, now).Some? ==>
              (AssessDelivery(order, now).value.isOpen <==> order.status.Approved? && !order.stage.Delivered?)
  {
  }

  /** A figure in tenths of an hour is within half a tenth of the span it is for. */
  predicate IsSpan(tenths: Option<int>, from: int, to: int) {
    tenths.Some? && -HOUR_MS <= 20 * (to - from) - 2 * (tenths.value * HOUR_MS) < HOUR_MS
  }

  lemma TenthsAreNearest(from: int, to: int)
    ensures IsSpan(Some(TenthsBetween(from, to)), from, to)
  {
    RoundedIsNearest((to - from) * 10, HOUR_MS, TenthsBetween(from, to));
  }

  /** An assessment is of its order's own fields: acknowledged when the order is settled as fulfilled, at the order's
      stage until the goods arrive, on time when they arrived within 72 hours of approval, and each span there exactly
      when it is shown. */
  lemma AssessedByItsOrder(order: Order, now: int)
    requires AssessDelivery(order, now).Some?
    ensures var a := AssessDelivery(order, now).value;
            && order.approvedAt == Some(a.approvedAt)
            && a.promisedAt - a.approvedAt == 72 * HOUR_MS
            && (a.acknowledged <==> order.status == Fulfilled || order.status == Partial || order.status == PartiallyFulfilled)
            && (a.isOpen ==> a.stage == order.stage && a.deliveredAt == None)
            && (!a.isOpen ==> a.stage == Delivered && a.deliveredAt == order.deliveredAt)
    ensures var a := AssessDelivery(order, now).value;
            && (a.health == DeliveredUntimed <==> !a.isOpen && order.deliveredAt == None)
            && (a.health == DeliveredLate <==> !a.isOpen && order.deliveredAt.Some? && order.deliveredAt.value - a.approvedAt > 72 * HOUR_MS)
            && (a.health == DeliveredOnTime <==> !a.isOpen && order.deliveredAt.Some? && order.deliveredAt.value - a.approvedAt <= 72 * HOUR_MS)
            && (a.health == Overdue <==> a.isOpen && now - a.approvedAt > 72 * HOUR_MS)
            && (a.health == DueSoon <==> a.isOpen && 48 * HOUR_MS <= now - a.approvedAt <= 72 * HOUR_MS)
            && (a.health == OnTrack <==> a.isOpen && now - a.approvedAt < 48 * HOUR_MS)
    ensures var a := AssessDelivery(order, now).value;
            && (a.health == OnTrack || a.health == DueSoon ==> IsSpan(a.hoursRemaining, now, a.promisedAt))
            && (a.health != OnTrack && a.health != DueSoon ==> a.hoursRemaining == None)
            && (a.health == Overdue ==> IsSpan(a.hoursOverdue, a.promisedAt, now))
            && (a.health == DeliveredLate ==> IsSpan(a.hoursOverdue, a.promisedAt, order.deliveredAt.value))
            && (a.health != Overdue && a.health != DeliveredLate ==> a.hoursOverdue == None)
            && (!a.isOpen && order.deliveredAt.Some? ==> IsSpan(a.deliveryHours, a.approvedAt, order.deliveredAt.value))
            && (a.isOpen || order.deliveredAt == None ==> a.deliveryHours == None)
  {
    var a := AssessDelivery(order, now).value;
    TenthsAreNearest(now, a.promisedAt);
    TenthsAreNearest(a.promisedAt, now);
    if order.deliveredAt.Some? {
      TenthsAreNearest(a.promisedAt, order.deliveredAt.value);
      TenthsAreNearest(a.approvedAt, order.deliveredAt.value);
    }
  }

  function Urgency(health: Health): int {
    match health
    case OnTrack => 0
    case DueSoon => 1
    case Overdue => 2
    case _ => 3
  }

  /** While the goods stand still an open order only ever gets more urgent: on track, then due soon,
      then overdue, at exactly 48 and 72 hours after approval. A delivered order does not change. */
  lemma HealthOnlyWorsens(order: Order, now: int, later: int)
    requires now <= later && AssessDelivery(order, now).Some?
    ensures AssessDelivery(order, later).Some?
    ensures Urgency(AssessDelivery(order, now).value.health) <= Urgency(AssessDelivery(order, later).value.health)
    ensures AssessDelivery(order, now).value.isOpen == AssessDelivery(order, later).value.isOpen
    ensures !AssessDelivery(order, now).value.isOpen ==> AssessDelivery(order, now) == AssessDelivery(order, later)
    ensures AssessDelivery(order, now).value.isOpen ==>
              (AssessDelivery(order, now).value.health.OnTrack? <==> now - order.approvedAt.value < 48 * HOUR_MS)
    ensures AssessDelivery(order, now).value.isOpen ==>
              (AssessDelivery(order, now).value.health.Overdue? <==> now - order.approvedAt.value > 72 * HOUR_MS)
  {
  }

  // ---- The order of attention ----

  datatype Listed = Listed(id: int, assessment: Assessment)

  function AttentionRank(health: Health): int {
    match health
    case Overdue => 0
    case DueSoon => 1
    case OnTrack => 2
    case DeliveredLate => 3
    case DeliveredOnTime => 4
    case DeliveredUntimed => 5
  }

  /** Negative when `a` comes first, positive when `b` does. */
  function CompareByAttention(a: Listed, b: Listed): int {
    var x, y := a.assessment, b.assessment;
    var rank := AttentionRank(x.health) - AttentionRank(y.health);
    if rank != 0 then rank
    else
      var late := OrZero(y.hoursOverdue) - OrZero(x.hoursOverdue);
      if x.health.Overdue? && late != 0 then late
      else
        var delivered := OrZero(y.deliveredAt) - OrZero(x.deliveredAt);
        if !x.isOpen && delivered != 0 then delivered
        else
          var deadline := x.promisedAt - y.promisedAt;
          if deadline != 0 then deadline else a.id - b.id
  }

  /** Newest approval first, then the higher id. */
  function CompareNewestFirst(a: Listed, b: Listed): int {
    var approved := b.assessment.approvedAt - a.assessment.approvedAt;
    if approved != 0 then approved else b.id - a.id
  }

  /** The fields the order of attention reads first to last. */
  predicate LexLe(p: (int, int, int, int), q: (int, int, int, int)) {
    || p.0 < q.0
    || (p.0 == q.0 && p.1 < q.1)
    || (p.0 == q.0 && p.1 == q.1 && p.2 < q.2)
    || (p.0 == q.0 && p.1 == q.1 && p.2 == q.2 && p.3 <= q.3)
  }

  function AttentionKey(a: Listed): (int, int, int, int) {
    var x := a.assessment;
    (AttentionRank(x.health),
     if x.health.Overdue? then -OrZero(x.hoursOverdue) else if x.isOpen then 0 else -OrZero(x.deliveredAt),
     x.promisedAt, a.id)
  }

  lemma AttentionIsLexicographic(a: Listed, b: Listed, now: int)
    requires MadeAt(a.assessment, now) && MadeAt(b.assessment, now)
    ensures CompareByAttention(a, b) <= 0 <==> LexLe(AttentionKey(a), AttentionKey(b))
  {
  }

  /** On assessments of one moment, attention is a strict total order of distinct orders. */
  lemma AttentionIsAStrictOrder(a: Listed, b: Listed, c: Listed, now: int)
    requires MadeAt(a.assessment, now) && MadeAt(b.assessment, now) && MadeAt(c.assessment, now)
    ensures CompareByAttention(a, b) < 0 <==> CompareByAttention(b, a) > 0
    ensures CompareByAttention(a, b) == 0 ==> a.id == b.id
    ensures CompareByAttention(a, b) <= 0 && CompareByAttention(b, c) <= 0 ==> CompareByAttention(a, c) <= 0
  {
    AttentionIsLexicographic(a, b, now);
    AttentionIsLexicographic(b, c, now);
    AttentionIsLexicographic(a, c, now);
  }

  lemma RoundingKeepsOrder(from: int, later: int, to: int)
    requires from <= later
    ensures TenthsBetween(from, to) >= TenthsBetween(later, to)
  {
  }

  /** Rounding to tenths of an hour never reorders overdue work: it stands by deadline, then id. */
  lemma OverdueStandByDeadline(a: Listed, b: Listed, now: int)
    requires MadeAt(a.assessment, now) && MadeAt(b.assessment, now)
    requires a.assessment.health.Overdue? && b.assessment.health.Overdue?
    ensures CompareByAttention(a, b) < 0 <==>
            a.assessment.promisedAt < b.assessment.promisedAt || (a.assessment.promisedAt == b.assessment.promisedAt && a.id < b.id)
  {
    if a.assessment.promisedAt <= b.assessment.promisedAt {
      RoundingKeepsOrder(a.assessment.promisedAt, b.assessment.promisedAt, now);
    } else {
      RoundingKeepsOrder(b.assessment.promisedAt, a.assessment.promisedAt, now);
    }
  }

  /** Overdue work comes first, then work due soon, then other open work, then late, timely and untimed deliveries;
      within one of these the most overdue first, delivered orders newest first, and otherwise the nearest deadline. */
  lemma AttentionReads(a: Listed, b: Listed, now: int)
    requires MadeAt(a.assessment, now) && MadeAt(b.assessment, now)
    requires CompareByAttention(a, b) <= 0
    ensures var x, y := a.assessment, b.assessment;
            && (y.health == Overdue ==> x.health == Overdue)
            && (y.health == DueSoon ==> x.health == Overdue || x.health == DueSoon)
            && (y.isOpen ==> x.isOpen)
            && (y.health == DeliveredLate ==> x.isOpen || x.health == DeliveredLate)
            && (x.health == DeliveredUntimed ==> y.health == DeliveredUntimed)
    ensures var x, y := a.assessment, b.assessment;
            x.health == y.health ==>
              && (x.isOpen ==> x.promisedAt < y.promisedAt || (x.promisedAt == y.promisedAt && a.id <= b.id))
              && (x.deliveredAt.Some? && y.deliveredAt.Some? ==>
                    || x.deliveredAt.value > y.deliveredAt.value
                    || (x.deliveredAt.value == y.deliveredAt.value && x.promisedAt < y.promisedAt)
                    || (x.deliveredAt.value == y.deliveredAt.value && x.promisedAt == y.promisedAt && a.id <= b.id))
  {
    var x, y := a.assessment, b.assessment;
    if x.health == Overdue && y.health == Overdue {
      OverdueStandByDeadline(a, b, now);
      OverdueStandByDeadline(b, a, now);
      AttentionIsAStrictOrder(a, b, b, now);
    }
  }

  /** The other order of the list: the newest approval first, and of one moment the higher number. */
  lemma NewestReads(a: Listed, b: Listed)
    ensures CompareNewestFirst(a, b) <= 0 <==>
            a.assessment.approvedAt > b.assessment.approvedAt || (a.assessment.approvedAt == b.assessment.approvedAt && a.id >= b.id)
  {
  }
}
