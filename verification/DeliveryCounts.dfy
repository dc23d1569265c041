/** The delivery figures folded from one set of assessments (lib/delivery-sla.ts), and how they agree. */
module DeliveryCounts {
  import opened Calendar
  import opened Counting
  import opened DeliverySla
  import opened Gathering
  import opened Numbers
  import opened Options
  import opened Rounding
  import opened Sums

  /** Counts in the order they are reported; a rate in tenths of a percent, a mean in tenths of an hour. */
  datatype Tallies = Tallies(
    open: int, onTrack: int, dueSoon: int, overdue: int,
    delivered: int, deliveredOnTime: int, deliveredLate: int, deliveredUntimed: int,
    notStarted: int, inProcess: int, outForDelivery: int, awaitingAcknowledgement: int, acknowledged: int)

  datatype Counts = Counts(tallies: Tallies, onTimeRate: Option<int>, averageDeliveryHours: Option<int>)

  // ---- The list views ----

  datatype View =
    | AllOrders | OpenOrders | DeliveredOrders | DeliveredToday
    | WithHealth(health: Health) | AtStage(stage: Stage) | AwaitingAcknowledgement | Acknowledged

  /** What a card narrows the order list to; `today` is a calendar day. */
  predicate Matches(a: Assessment, view: View, today: int) {
    match view
    case AllOrders => true
    case OpenOrders => a.isOpen
    case DeliveredOrders => !a.isOpen
    case DeliveredToday => a.deliveredAt.Some? && DayOf(a.deliveredAt.value) == today
    case WithHealth(health) => a.health == health
    case AtStage(stage) => a.isOpen && a.stage == stage
    case AwaitingAcknowledgement => !a.isOpen && !a.acknowledged
    case Acknowledged => a.acknowledged
  }

  function Viewed(view: View, today: int): Assessment -> bool { (a: Assessment) => Matches(a, view, today) }

  // ---- Counting ----

  datatype StatusKey = NotStartedKey | InProcessKey | OutForDeliveryKey | AwaitingKey | AcknowledgedKey

  /** The one status an assessment is counted under. */
  function StatusCountKey(a: Assessment): StatusKey {
    if !a.isOpen then if a.acknowledged then AcknowledgedKey else AwaitingKey
    else StageKey(a.stage)
  }

  /** No open order is at Delivered. */
  function StageKey(stage: Stage): StatusKey {
    match stage
    case NotStarted => NotStartedKey
    case InProcess => InProcessKey
    case OutForDelivery => OutForDeliveryKey
    case Delivered => OutForDeliveryKey
  }

  function HealthIs(health: Health): Assessment -> bool { (a: Assessment) => a.health == health }

  function Open(): Assessment -> bool { (a: Assessment) => a.isOpen }

  function Settled(): Assessment -> bool { (a: Assessment) => !a.isOpen }

  function StatusIs(key: StatusKey): Assessment -> bool { (a: Assessment) => StatusCountKey(a) == key }

  function Tallied(s: seq<Assessment>): Tallies {
    Tallies(Count(Open(), s), Count(HealthIs(OnTrack), s), Count(HealthIs(DueSoon), s), Count(HealthIs(Overdue), s),
            Count(Settled(), s), Count(HealthIs(DeliveredOnTime), s), Count(HealthIs(DeliveredLate), s), Count(HealthIs(DeliveredUntimed), s),
            Count(StatusIs(NotStartedKey), s), Count(StatusIs(InProcessKey), s), Count(StatusIs(OutForDeliveryKey), s),
            Count(StatusIs(AwaitingKey), s), Count(StatusIs(AcknowledgedKey), s))
  }

  function RateOf(t: Tallies): Option<int> {
    var timed := t.deliveredOnTime + t.deliveredLate;
    if timed <= 0 then None else Some(Rounded(t.deliveredOnTime * 1000, timed))
  }

  function Identity(): int -> int { (n: int) => n }

  function Average(values: seq<int>): Option<int> {
    if values == [] then None else Some(Rounded(Sum(Identity(), values), |values|))
  }

  function DeliveryHours(): Assessment -> Option<int> { (a: Assessment) => a.deliveryHours }

  function CountsOf(s: seq<Assessment>): Counts {
    Counts(Tallied(s), RateOf(Tallied(s)), Average(Gathered(DeliveryHours(), s)))
  }

  function Plus(n: int, yes: bool): int { if yes then n + 1 else n }

  function OneMore(t: Tallies, a: Assessment): Tallies {
    Tallies(Plus(t.open, a.isOpen), Plus(t.onTrack, a.health.OnTrack?), Plus(t.dueSoon, a.health.DueSoon?), Plus(t.overdue, a.health.Overdue?),
            Plus(t.delivered, !a.isOpen), Plus(t.deliveredOnTime, a.health.DeliveredOnTime?), Plus(t.deliveredLate, a.health.DeliveredLate?),
            Plus(t.deliveredUntimed, a.health.DeliveredUntimed?),
            Plus(t.notStarted, StatusCountKey(a) == NotStartedKey), Plus(t.inProcess, StatusCountKey(a) == InProcessKey),
            Plus(t.outForDelivery, StatusCountKey(a) == OutForDeliveryKey),
            Plus(t.awaitingAcknowledgement, StatusCountKey(a) == AwaitingKey), Plus(t.acknowledged, StatusCountKey(a) == AcknowledgedKey))
  }

  lemma TallyOneMore(s: seq<Assessment>, a: Assessment)
    ensures Tallied(s + [a]) == OneMore(Tallied(s), a)
  {
    CountOfOneMore(Open(), s, a);
    CountOfOneMore(Settled(), s, a);
    forall h { CountOfOneMore(HealthIs(h), s, a); }
    forall k { CountOfOneMore(StatusIs(k), s, a); }
  }

  /** One assessment's health, side and status. */
  method Tally(before: Tallies, a: Assessment) returns (t: Tallies)
    ensures t == OneMore(before, a)
  {
    t := before;
    match a.health {
      case OnTrack => t := t.(onTrack := t.onTrack + 1);
      case DueSoon => t := t.(dueSoon := t.dueSoon + 1);
      case Overdue => t := t.(overdue := t.overdue + 1);
      case DeliveredOnTime => t := t.(deliveredOnTime := t.deliveredOnTime + 1);
      case DeliveredLate => t := t.(deliveredLate := t.deliveredLate + 1);
      case DeliveredUntimed => t := t.(deliveredUntimed := t.deliveredUntimed + 1);
    }
    t := if a.isOpen then t.(open := t.open + 1) else t.(delivered := t.delivered + 1);
    match StatusCountKey(a) {
      case NotStartedKey => t := t.(notStarted := t.notStarted + 1);
      case InProcessKey => t := t.(inProcess := t.inProcess + 1);
      case OutForDeliveryKey => t := t.(outForDelivery := t.outForDelivery + 1);
      case AwaitingKey => t := t.(awaitingAcknowledgement := t.awaitingAcknowledgement + 1);
      case AcknowledgedKey => t := t.(acknowledged := t.acknowledged + 1);
    }
  }

  method CountDeliveries(assessments: seq<Assessment>) returns (counts: Counts)
    ensures counts == CountsOf(assessments)
  {
    var t := Tallies(0, 0, 0, 0, 0, 0, 0, 0, 0, 0, 0, 0, 0);
    var durations: seq<int> := [];
    for i := 0 to |assessments|
      invariant t == Tallied(assessments[..i])
      invariant durations == Gathered(DeliveryHours(), assessments[..i])
    {
      var a := assessments[i];
      assert assessments[..i + 1] == assessments[..i] + [a];
      TallyOneMore(assessments[..i], a);
      GatheredOfMore(DeliveryHours(), assessments[..i], [a]);
      t := Tally(t, a);
      if a.deliveryHours.Some? { durations := durations + [a.deliveryHours.value]; }
    }
    assert assessments[..|assessments|] == assessments;
    counts := Counts(t, RateOf(t), Average(durations));
  }

  /** A rate is given when something was timed, between none and all of it; a mean lies between its extremes. */
  lemma RatesAndMeansAreBounded(s: seq<Assessment>, least: int, most: int)
    requires forall a :: a in s && a.deliveryHours.Some? ==> least <= a.deliveryHours.value <= most
    ensures CountsOf(s).onTimeRate.None? <==> !exists a :: a in s && (a.health.DeliveredOnTime? || a.health.DeliveredLate?)
    ensures CountsOf(s).onTimeRate.Some? ==> 0 <= CountsOf(s).onTimeRate.value <= 1000
    ensures CountsOf(s).averageDeliveryHours.None? <==> !exists a :: a in s && a.deliveryHours.Some?
    ensures CountsOf(s).averageDeliveryHours.Some? ==> least <= CountsOf(s).averageDeliveryHours.value <= most
  {
    SumOfNonNegatives(One(HealthIs(DeliveredOnTime)), s);
    SumOfNonNegatives(One(HealthIs(DeliveredLate)), s);
    var t := Tallied(s);
    if RateOf(t).Some? {
      RoundedBetween(t.deliveredOnTime * 1000, t.deliveredOnTime + t.deliveredLate, 0, 1000);
    }
    GatheredMeans(s);
    var values := Gathered(DeliveryHours(), s);
    if values != [] {
      SumBetween(values, least, most);
      RoundedBetween(Sum(Identity(), values), |values|, least, most);
    }
  }

  lemma {:induction false} GatheredMeans(s: seq<Assessment>)
    ensures forall v :: v in Gathered(DeliveryHours(), s) ==> exists a :: a in s && a.deliveryHours == Some(v)
    ensures Gathered(DeliveryHours(), s) == [] <==> forall a :: a in s ==> a.deliveryHours.None?
  {
    if s != [] {
      assert s == [s[0]] + s[1..];
      GatheredMeans(s[1..]);
      assert s[0] in s;
      forall v | v in Gathered(DeliveryHours(), s) ensures exists a :: a in s && a.deliveryHours == Some(v) {
        if s[0].deliveryHours != Some(v) {
          var a :| a in s[1..] && a.deliveryHours == Some(v);
          assert a in s;
        }
      }
    }
  }

  lemma {:induction false} SumBetween(values: seq<int>, least: int, most: int)
    requires forall v :: v in values ==> least <= v <= most
    ensures least * |values| <= Sum(Identity(), values) <= most * |values|
  {
    if values != [] {
      assert values == [values[0]] + values[1..];
      forall v | v in values[1..] ensures least <= v <= most {
        assert v in values;
      }
      SumBetween(values[1..], least, most);
      assert values[0] in values;
      OneTimeMore(least, values);
      OneTimeMore(most, values);
    }
  }

  lemma OneTimeMore(n: int, values: seq<int>)
    requires values != []
    ensures n * |values| == n * |values[1..]| + n
  {
    assert |values| == |values[1..]| + 1;
  }

  // ---- Agreement ----

  /** Assessments of one moment. */
  ghost predicate AllMadeAt(s: seq<Assessment>, now: int) { forall a :: a in s ==> MadeAt(a, now) }

  /** Open and delivered each equal both of their partitions, and together are everything. */
  lemma PartitionsAgree(s: seq<Assessment>, now: int)
    requires AllMadeAt(s, now)
    ensures var t := Tallied(s);
            && t.open == t.onTrack + t.dueSoon + t.overdue
            && t.open == t.notStarted + t.inProcess + t.outForDelivery
            && t.delivered == t.deliveredOnTime + t.deliveredLate + t.deliveredUntimed
            && t.delivered == t.awaitingAcknowledgement + t.acknowledged
            && t.open + t.delivered == |s|
  {
    SplitInThree(Open(), HealthIs(OnTrack), HealthIs(DueSoon), HealthIs(Overdue), s);
    SplitInThree(Open(), StatusIs(NotStartedKey), StatusIs(InProcessKey), StatusIs(OutForDeliveryKey), s);
    SplitInThree(Settled(), HealthIs(DeliveredOnTime), HealthIs(DeliveredLate), HealthIs(DeliveredUntimed), s);
    SplitInTwo(Settled(), StatusIs(AwaitingKey), StatusIs(AcknowledgedKey), s);
    var all := (a: Assessment) => true;
    SplitInTwo(all, Open(), Settled(), s);
    AllCount(One(all), s);
  }

  /** The card that links to a view. */
  function CardFor(t: Tallies, deliveredToday: int, view: View): int {
    match view
    case AllOrders => t.open + t.delivered
    case OpenOrders => t.open
    case DeliveredOrders => t.delivered
    case DeliveredToday => deliveredToday
    case WithHealth(health) => (
      match health
      case OnTrack => t.onTrack
      case DueSoon => t.dueSoon
      case Overdue => t.overdue
      case DeliveredOnTime => t.deliveredOnTime
      case DeliveredLate => t.deliveredLate
      case DeliveredUntimed => t.deliveredUntimed)
    case AtStage(stage) => (
      match stage
      case NotStarted => t.notStarted
      case InProcess => t.inProcess
      case OutForDelivery => t.outForDelivery
      case Delivered => 0)
    case AwaitingAcknowledgement => t.awaitingAcknowledgement
    case Acknowledged => t.acknowledged
  }

  function CountDeliveredOn(s: seq<Assessment>, day: int): int {
    |Filter((a: Assessment) => a.deliveredAt.Some? && DayOf(a.deliveredAt.value) == day, s)|
  }

  /** Every card shows exactly as many orders as the list it links to holds. */
  lemma CardsCountTheirLists(s: seq<Assessment>, now: int, view: View, today: int)
    requires AllMadeAt(s, now)
    ensures CardFor(Tallied(s), CountDeliveredOn(s, today), view) == |Filter(Viewed(view, today), s)|
  {
    FilterIsCounted(Viewed(view, today), s);
    match view
    case AllOrders => SplitInTwo(Viewed(view, today), Open(), Settled(), s);
    case OpenOrders => SameCounts(Viewed(view, today), Open(), s);
    case DeliveredOrders => SameCounts(Viewed(view, today), Settled(), s);
    case DeliveredToday => TodayCardCounts(s, today);
    case WithHealth(health) => SameCounts(Viewed(view, today), HealthIs(health), s);
    case AtStage(stage) => StageCardCounts(s, now, stage, today);
    case AwaitingAcknowledgement => SameCounts(Viewed(view, today), StatusIs(AwaitingKey), s);
    case Acknowledged => SameCounts(Viewed(view, today), StatusIs(AcknowledgedKey), s);
  }

  lemma TodayCardCounts(s: seq<Assessment>, today: int)
    ensures CountDeliveredOn(s, today) == Count(Viewed(DeliveredToday, today), s)
  {
    var on := (a: Assessment) => a.deliveredAt.Some? && DayOf(a.deliveredAt.value) == today;
    FilterIsCounted(on, s);
    SameCounts(Viewed(DeliveredToday, today), on, s);
  }

  lemma StageCardCounts(s: seq<Assessment>, now: int, stage: Stage, today: int)
    requires AllMadeAt(s, now)
    ensures CardFor(Tallied(s), CountDeliveredOn(s, today), AtStage(stage)) == Count(Viewed(AtStage(stage), today), s)
  {
    var listed := Viewed(AtStage(stage), today);
    match stage
    case NotStarted => SameCounts(listed, StatusIs(NotStartedKey), s);
    case InProcess => SameCounts(listed, StatusIs(InProcessKey), s);
    case OutForDelivery => SameCounts(listed, StatusIs(OutForDeliveryKey), s);
    case Delivered => SumOfZeros(One(listed), s);
  }

  // ---- Overdue ages and alerts ----

  predicate Aged(a: Assessment, least: int, below: Option<int>) {
    a.health.Overdue? && OrZero(a.hoursOverdue) >= least * 10 && (below.Some? ==> OrZero(a.hoursOverdue) < below.value * 10)
  }

  function AgedBetween(least: int, below: Option<int>): Assessment -> bool { (a: Assessment) => Aged(a, least, below) }

  /** Overdue orders by age: 0-12, 12-24, 24-48, 48-72 and 72 or more hours. */
  function OverdueAgeBuckets(s: seq<Assessment>): seq<int> {
    [|Filter(AgedBetween(0, Some(12)), s)|, |Filter(AgedBetween(12, Some(24)), s)|, |Filter(AgedBetween(24, Some(48)), s)|,
     |Filter(AgedBetween(48, Some(72)), s)|, |Filter(AgedBetween(72, None), s)|]
  }

  datatype Alerts = Alerts(overdue: int, over24Hours: int, over72Hours: int, dueSoon: int)

  function LateBy(hours: int): Assessment -> bool { (a: Assessment) => OrZero(a.hoursOverdue) >= hours * 10 }

  function DeliveryAlerts(s: seq<Assessment>): Alerts {
    var overdue := Filter(HealthIs(Overdue), s);
    Alerts(|overdue|, |Filter(LateBy(24), overdue)|, |Filter(LateBy(72), overdue)|, |Filter(HealthIs(DueSoon), s)|)
  }

  /** Every overdue order is in exactly one age bucket, and the alerts are the buckets from 24 and from 72 hours up. */
  lemma AgesAndAlertsAgree(s: seq<Assessment>, now: int)
    requires AllMadeAt(s, now)
    ensures var ages, alerts, t := OverdueAgeBuckets(s), DeliveryAlerts(s), Tallied(s);
            && t.overdue == alerts.overdue == ages[0] + ages[1] + ages[2] + ages[3] + ages[4]
            && alerts.over24Hours == ages[2] + ages[3] + ages[4]
            && alerts.over72Hours == ages[4]
            && alerts.dueSoon == t.dueSoon
  {
    var first, second, third, fourth, last :=
      AgedBetween(0, Some(12)), AgedBetween(12, Some(24)), AgedBetween(24, Some(48)), AgedBetween(48, Some(72)), AgedBetween(72, None);
    forall p { FilterIsCounted(p, s); }
    forall p { FilterIsCounted(p, Filter(HealthIs(Overdue), s)); }
    CountInFilter(HealthIs(Overdue), LateBy(24), AgedBetween(24, None), s);
    CountInFilter(HealthIs(Overdue), LateBy(72), last, s);
    SplitInThree(AgedBetween(24, None), third, fourth, last, s);
    OverdueByAge(s, now);
    SplitInThree(HealthIs(Overdue), first, second, AgedBetween(24, None), s);
  }

  /** However it rounds, an overdue order is some tenths of an hour past its deadline, never a negative number. */
  lemma OverdueByAge(s: seq<Assessment>, now: int)
    requires AllMadeAt(s, now)
    ensures forall a :: a in s && a.health.Overdue? ==> OrZero(a.hoursOverdue) >= 0
  {
  }

  /** Open orders by stage, as the pipeline shows them. */
  function PipelineCount(s: seq<Assessment>, stage: Stage): int {
    |Filter((a: Assessment) => a.isOpen && a.stage == stage, s)|
  }

  /** The pipeline is the stage cards. */
  lemma PipelineIsTheStageCards(s: seq<Assessment>, now: int)
    requires AllMadeAt(s, now)
    ensures var t := Tallied(s);
            && PipelineCount(s, NotStarted) == t.notStarted
            && PipelineCount(s, InProcess) == t.inProcess
            && PipelineCount(s, OutForDelivery) == t.outForDelivery
  {
    PipelineCounts(s, now, NotStarted);
    PipelineCounts(s, now, InProcess);
    PipelineCounts(s, now, OutForDelivery);
  }

  lemma PipelineCounts(s: seq<Assessment>, now: int, stage: Stage)
    requires AllMadeAt(s, now) && !stage.Delivered?
    ensures PipelineCount(s, stage) == Count(StatusIs(StageKey(stage)), s)
  {
    var at := (a: Assessment) => a.isOpen && a.stage == stage;
    FilterIsCounted(at, s);
    SameCounts(at, StatusIs(StageKey(stage)), s);
  }

  // ---- The figures, read off the assessments ----

  /** How many assessments pass a test. */
  function HowMany(p: Assessment -> bool, s: seq<Assessment>): int { |Filter(p, s)| }

  /** Each card counts the assessments it is named for. */
  lemma CardsAreOfTheirAssessments(s: seq<Assessment>, now: int)
    requires AllMadeAt(s, now)
    ensures var t := Tallied(s);
            && t.open == HowMany((a: Assessment) => a.isOpen, s)
            && t.overdue == HowMany((a: Assessment) => a.health == Overdue, s)
            && t.dueSoon == HowMany((a: Assessment) => a.health == DueSoon, s)
            && t.deliveredOnTime == HowMany((a: Assessment) => a.health == DeliveredOnTime, s)
            && t.deliveredLate == HowMany((a: Assessment) => a.health == DeliveredLate, s)
    ensures var t := Tallied(s);
            && t.awaitingAcknowledgement == HowMany((a: Assessment) => !a.isOpen && !a.acknowledged, s)
            && t.acknowledged == HowMany((a: Assessment) => a.acknowledged, s)
            && t.notStarted == HowMany((a: Assessment) => a.isOpen && a.stage == NotStarted, s)
            && t.inProcess == HowMany((a: Assessment) => a.isOpen && a.stage == InProcess, s)
            && t.outForDelivery == HowMany((a: Assessment) => a.isOpen && a.stage == OutForDelivery, s)
  {
    Tells((a: Assessment) => a.isOpen, Open(), s);
    Tells((a: Assessment) => a.health == Overdue, HealthIs(Overdue), s);
    Tells((a: Assessment) => a.health == DueSoon, HealthIs(DueSoon), s);
    Tells((a: Assessment) => a.health == DeliveredOnTime, HealthIs(DeliveredOnTime), s);
    Tells((a: Assessment) => a.health == DeliveredLate, HealthIs(DeliveredLate), s);
    Tells((a: Assessment) => !a.isOpen && !a.acknowledged, StatusIs(AwaitingKey), s);
    Tells((a: Assessment) => a.acknowledged, StatusIs(AcknowledgedKey), s);
    Tells((a: Assessment) => a.isOpen && a.stage == NotStarted, StatusIs(NotStartedKey), s);
    Tells((a: Assessment) => a.isOpen && a.stage == InProcess, StatusIs(InProcessKey), s);
    Tells((a: Assessment) => a.isOpen && a.stage == OutForDelivery, StatusIs(OutForDeliveryKey), s);
  }

  lemma Tells(p: Assessment -> bool, q: Assessment -> bool, s: seq<Assessment>)
    requires forall a :: a in s ==> (p(a) <==> q(a))
    ensures HowMany(p, s) == Count(q, s)
  {
    FilterIsCounted(p, s);
    SameCounts(p, q, s);
  }

  function HoursOf(): Assessment -> int { (a: Assessment) => OrZero(a.deliveryHours) }

  function Timed(): Assessment -> bool { (a: Assessment) => a.deliveryHours.Some? }

  lemma {:induction false} HoursGathered(s: seq<Assessment>)
    ensures Sum(Identity(), Gathered(DeliveryHours(), s)) == Sum(HoursOf(), s)
    ensures |Gathered(DeliveryHours(), s)| == Count(Timed(), s)
  {
    if s != [] {
      var rest := Gathered(DeliveryHours(), s[1..]);
      HoursGathered(s[1..]);
      if s[0].deliveryHours.Some? { assert ([s[0].deliveryHours.value] + rest)[1..] == rest; }
    }
  }

  /** The rate is the timely share of the timed deliveries, and the mean that of their hours, each to the nearest tenth. */
  lemma RatesAndMeansAreNearest(s: seq<Assessment>)
    ensures var counts := CountsOf(s);
            var t := counts.tallies;
            counts.onTimeRate.Some? ==>
              var timed := t.deliveredOnTime + t.deliveredLate;
              -timed <= 2 * (1000 * t.deliveredOnTime) - 2 * timed * counts.onTimeRate.value < timed
    ensures var counts, timed := CountsOf(s), Count(Timed(), s);
            counts.averageDeliveryHours.Some? ==>
              -timed <= 2 * Sum(HoursOf(), s) - 2 * timed * counts.averageDeliveryHours.value < timed
  {
    var counts := CountsOf(s);
    var t := counts.tallies;
    HoursGathered(s);
    if counts.onTimeRate.Some? {
      RoundedIsNearest(t.deliveredOnTime * 1000, t.deliveredOnTime + t.deliveredLate, counts.onTimeRate.value);
      NextProduct(2 * (t.deliveredOnTime + t.deliveredLate), counts.onTimeRate.value);
    }
    if counts.averageDeliveryHours.Some? {
      RoundedIsNearest(Sum(HoursOf(), s), Count(Timed(), s), counts.averageDeliveryHours.value);
      NextProduct(2 * Count(Timed(), s), counts.averageDeliveryHours.value);
    }
  }

  lemma NextProduct(m: int, n: int)
    ensures m * (n + 1) == m * n + m
  {
  }

  /** The age buckets are of the overdue, by whole hours past the deadline. */
  lemma AgesAreInHours(s: seq<Assessment>, now: int)
    requires AllMadeAt(s, now)
    ensures var ages := OverdueAgeBuckets(s);
            && |ages| == 5
            && ages[0] == HowMany((a: Assessment) => a.health == Overdue && OrZero(a.hoursOverdue) < 120, s)
            && ages[1] == HowMany((a: Assessment) => a.health == Overdue && 120 <= OrZero(a.hoursOverdue) < 240, s)
            && ages[2] == HowMany((a: Assessment) => a.health == Overdue && 240 <= OrZero(a.hoursOverdue) < 480, s)
            && ages[3] == HowMany((a: Assessment) => a.health == Overdue && 480 <= OrZero(a.hoursOverdue) < 720, s)
            && ages[4] == HowMany((a: Assessment) => a.health == Overdue && 720 <= OrZero(a.hoursOverdue), s)
  {
    OverdueByAge(s, now);
    SameFilter((a: Assessment) => a.health == Overdue && OrZero(a.hoursOverdue) < 120, AgedBetween(0, Some(12)), s);
    SameFilter((a: Assessment) => a.health == Overdue && 120 <= OrZero(a.hoursOverdue) < 240, AgedBetween(12, Some(24)), s);
    SameFilter((a: Assessment) => a.health == Overdue && 240 <= OrZero(a.hoursOverdue) < 480, AgedBetween(24, Some(48)), s);
    SameFilter((a: Assessment) => a.health == Overdue && 480 <= OrZero(a.hoursOverdue) < 720, AgedBetween(48, Some(72)), s);
    SameFilter((a: Assessment) => a.health == Overdue && 720 <= OrZero(a.hoursOverdue), AgedBetween(72, None), s);
  }

  lemma {:induction false} SameFilter(p: Assessment -> bool, q: Assessment -> bool, s: seq<Assessment>)
    requires forall a :: a in s ==> (p(a) <==> q(a))
    ensures Filter(p, s) == Filter(q, s)
  {
    if s != [] {
      assert s == [s[0]] + s[1..];
      SameFilter(p, q, s[1..]);
    }
  }
}
