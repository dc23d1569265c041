/** The delivery dashboard built from one set of rows (lib/delivery-dashboard.ts): every
    figure on it is folded from the same assessments, so no two of them can disagree. */
module DeliveryDashboard {
  import opened Calendar
  import opened Counting
  import opened DeliveryCounts
  import opened DeliveryGroups
  import opened DeliverySla
  import opened Gathering
  import opened InsertionMaps
  import opened Options
  import opened Sorting
  import opened Sums

  /** An order as it is read, with its places already spelled as keys and labels. */
  datatype OrderRow = OrderRow(id: int, city: Place, region: Place, organization: Place, branch: Place, order: Order)

  /** `from` and `to` are calendar days, both included. */
  datatype Filters = Filters(city: Option<string>, from: int, to: int, view: View)

  /** `total` counts the orders of the view, `items` are the first of them. */
  datatype Dashboard = Dashboard(
    kpis: Counts, deliveredToday: int, openOutsideRange: int, alerts: Alerts, overdueAge: seq<int>, pipeline: seq<int>,
    byCity: seq<GroupRow>, byRegion: seq<GroupRow>, byOrganization: seq<GroupRow>, byBranch: seq<GroupRow>,
    total: nat, items: seq<Row>, cities: seq<string>)

  /** The most rows of the order list and of the branch table that are shown. */
  const DELIVERY_ATTENTION_LIMIT: nat := 100
  const DELIVERY_BRANCH_LIMIT: nat := 50

  function First<T>(s: seq<T>, n: nat): seq<T> { if |s| <= n then s else s[..n] }

  function AssessRow(row: OrderRow, now: int): Option<Row> {
    match AssessDelivery(row.order, now)
    case None => None
    case Some(a) => Some(Row(row.id, row.city, row.region, row.organization, row.branch, a))
  }

  function AssessingAt(now: int): OrderRow -> Option<Row> { (row: OrderRow) => AssessRow(row, now) }

  function AssessedRows(rows: seq<OrderRow>, now: int): seq<Row> { Gathered(AssessingAt(now), rows) }

  function InCity(city: Option<string>): Row -> bool { (row: Row) => city.None? || row.city.key == city.value }

  /** Open orders by the day they were approved, delivered ones by the day they were delivered; without a day, never. */
  predicate IsInRange(a: Assessment, from: int, to: int) {
    var at := if a.isOpen then Some(a.approvedAt) else a.deliveredAt;
    at.Some? && from <= DayOf(at.value) <= to
  }

  function InRange(from: int, to: int): Row -> bool { (row: Row) => IsInRange(row.assessment, from, to) }

  function OpenOutside(from: int, to: int): Row -> bool { (row: Row) => row.assessment.isOpen && !IsInRange(row.assessment, from, to) }

  function OpenRow(): Row -> bool { (row: Row) => row.assessment.isOpen }

  function RowViewed(view: View, today: int): Row -> bool { (row: Row) => Matches(row.assessment, view, today) }

  function CityOf(): Row -> Place { (row: Row) => row.city }
  function RegionOf(): Row -> Place { (row: Row) => row.region }
  function OrganizationOf(): Row -> Place { (row: Row) => row.organization }
  function BranchOf(): Row -> Place { (row: Row) => row.branch }

  function ListedRow(row: Row): Listed { Listed(row.id, row.assessment) }

  function Compare(a: Row, b: Row, newest: bool): int {
    if newest then CompareNewestFirst(ListedRow(a), ListedRow(b)) else CompareByAttention(ListedRow(a), ListedRow(b))
  }

  function InOrder(newest: bool): (Row, Row) -> bool { (a: Row, b: Row) => Compare(a, b, newest) <= 0 }

  /** The assessed rows of the city asked for. */
  function CityRows(rows: seq<OrderRow>, filters: Filters, now: int): seq<Row> {
    Filter(InCity(filters.city), AssessedRows(rows, now))
  }

  /** Those of them in the range: the rows every figure is folded from. */
  function RangeRows(rows: seq<OrderRow>, filters: Filters, now: int): seq<Row> {
    Filter(InRange(filters.from, filters.to), CityRows(rows, filters, now))
  }

  /** Those of them in the view, in the order of the list. */
  function ListRows(rows: seq<OrderRow>, filters: Filters, now: int, newest: bool): seq<Row> {
    Sort(Filter(RowViewed(filters.view, DayOf(now)), RangeRows(rows, filters, now)), InOrder(newest))
  }

  /** What the dashboard of some rows is. */
  ghost predicate IsDashboard(d: Dashboard, rows: seq<OrderRow>, filters: Filters, now: int, newest: bool, textLe: (string, string) -> bool) {
    var inRange := RangeRows(rows, filters, now);
    var s := Assessments(inRange);
    && d.kpis == CountsOf(s)
    && d.deliveredToday == CountDeliveredOn(s, DayOf(now))
    && d.openOutsideRange == |Filter(OpenOutside(filters.from, filters.to), CityRows(rows, filters, now))|
    && d.alerts == DeliveryAlerts(s)
    && d.overdueAge == OverdueAgeBuckets(s)
    && d.pipeline == [PipelineCount(s, NotStarted), PipelineCount(s, InProcess), PipelineCount(s, OutForDelivery)]
    && d.byCity == GroupTable(inRange, CityOf(), textLe)
    && d.byRegion == GroupTable(inRange, RegionOf(), textLe)
    && d.byOrganization == GroupTable(inRange, OrganizationOf(), textLe)
    && d.byBranch == First(GroupTable(inRange, BranchOf(), textLe), DELIVERY_BRANCH_LIMIT)
    && d.total == |ListRows(rows, filters, now, newest)|
    && d.items == First(ListRows(rows, filters, now, newest), DELIVERY_ATTENTION_LIMIT)
    && AreCities(d.cities, AssessedRows(rows, now))
  }

  /** One option per city of any row, whatever city is chosen, under the first spelling seen. */
  ghost predicate AreCities(cities: seq<string>, assessed: seq<Row>) {
    && |cities| == |KeysOf(assessed, CityOf())|
    && (forall k :: k in KeysOf(assessed, CityOf()) ==> LabelOf(assessed, CityOf(), k) in cities)
    && (forall c :: c in cities ==> exists k :: k in KeysOf(assessed, CityOf()) && c == LabelOf(assessed, CityOf(), k))
  }

  method AssessAll(rows: seq<OrderRow>, now: int) returns (assessed: seq<Row>)
    ensures assessed == AssessedRows(rows, now)
  {
    assessed := [];
    for i := 0 to |rows|
      invariant assessed == AssessedRows(rows[..i], now)
    {
      assert rows[..i + 1] == rows[..i] + [rows[i]];
      GatheredOfMore(AssessingAt(now), rows[..i], [rows[i]]);
      var assessment := AssessDelivery(rows[i].order, now);
      if assessment.None? { continue; }
      var row := rows[i];
      assessed := assessed + [Row(row.id, row.city, row.region, row.organization, row.branch, assessment.value)];
    }
    assert rows[..|rows|] == rows;
  }

  method CityOptions(assessed: seq<Row>, textLe: (string, string) -> bool) returns (cities: seq<string>)
    requires TotalOrder(textLe)
    ensures AreCities(cities, assessed)
    ensures SortedBy(cities, textLe)
  {
    var labels: InsertionMap<string, string> := Empty();
    for i := 0 to |assessed|
      invariant labels.Valid() && AreLabels(labels.at, assessed[..i])
    {
      var place := assessed[i].city;
      assert assessed[..i + 1] == assessed[..i] + [assessed[i]];
      OneMoreLabel(labels.at, assessed[..i], assessed[i], place);
      if place.key !in labels.at { labels := labels.Set(place.key, place.title); }
    }
    assert assessed[..|assessed|] == assessed;
    LabelsAreCities(labels, assessed);
    cities := Sort(labels.Values(), textLe);
    SortKeepsAll(labels.Values(), textLe);
    SortSorts(labels.Values(), textLe);
  }

  ghost predicate AreLabels(labels: map<string, string>, assessed: seq<Row>) {
    && (forall k :: k in labels <==> k in KeysOf(assessed, CityOf()))
    && (forall k :: k in labels ==> labels[k] == LabelOf(assessed, CityOf(), k))
  }

  lemma OneMoreLabel(labels: map<string, string>, before: seq<Row>, row: Row, place: Place)
    requires AreLabels(labels, before) && place == row.city
    ensures AreLabels(if place.key in labels then labels else labels[place.key := place.title], before + [row])
  {
    var after := before + [row];
    MembersOfOneMore(before, row, CityOf(), place.key);
    forall k | k in KeysOf(after, CityOf())
      ensures LabelOf(after, CityOf(), k) == if k in labels then labels[k] else place.title
    {
      LabelOfOneMore(before, row, CityOf(), k);
    }
  }

  lemma LabelsAreCities(labels: InsertionMap<string, string>, assessed: seq<Row>)
    requires labels.Valid() && AreLabels(labels.at, assessed)
    ensures AreCities(labels.Values(), assessed)
  {
    var keys, values := labels.keys, labels.Values();
    assert labels.at.Keys == KeysOf(assessed, CityOf());
    DistinctHasSize(keys);
    forall k | k in labels.at ensures labels.at[k] in values {
      assert k in keys;
      var i :| 0 <= i < |keys| && keys[i] == k;
      assert values[i] == labels.at[k];
    }
    forall c | c in values ensures exists k :: k in labels.at && c == labels.at[k] {
      var i :| 0 <= i < |values| && values[i] == c;
      assert keys[i] in labels.at;
    }
  }

  lemma {:induction false} DistinctHasSize(keys: seq<string>)
    requires forall i, j :: 0 <= i < j < |keys| ==> keys[i] != keys[j]
    ensures |(set k | k in keys)| == |keys|
  {
    var all := set k | k in keys;
    if keys != [] {
      var rest := set k | k in keys[1..];
      DistinctHasSize(keys[1..]);
      assert keys == [keys[0]] + keys[1..];
      assert all == rest + {keys[0]};
    } else {
      assert all == {};
    }
  }

  /** Assessments of one moment stay so whatever they are narrowed to. */
  lemma RowsAreMadeAt(rows: seq<OrderRow>, filters: Filters, now: int)
    ensures forall row :: row in AssessedRows(rows, now) ==> MadeAt(row.assessment, now)
    ensures forall row :: row in RangeRows(rows, filters, now) ==> MadeAt(row.assessment, now)
    ensures AllMadeAt(Assessments(RangeRows(rows, filters, now)), now)
  {
    GatheredRowsAreMadeAt(rows, now);
    var inRange := RangeRows(rows, filters, now);
    forall a | a in Assessments(inRange) ensures MadeAt(a, now) {
      var i :| 0 <= i < |inRange| && Assessments(inRange)[i] == a;
      assert inRange[i] in inRange;
    }
  }

  lemma {:induction false} GatheredRowsAreMadeAt(rows: seq<OrderRow>, now: int)
    ensures forall row :: row in AssessedRows(rows, now) ==> MadeAt(row.assessment, now)
  {
    if rows != [] {
      GatheredRowsAreMadeAt(rows[1..], now);
      AssessmentsAreMadeAt(rows[0].order, now);
    }
  }

  // ---- The list ----

  function ByKey(newest: bool): (Row, Row) -> bool {
    (a: Row, b: Row) =>
      if newest then CompareNewestFirst(ListedRow(a), ListedRow(b)) <= 0
      else LexLe(AttentionKey(ListedRow(a)), AttentionKey(ListedRow(b)))
  }

  lemma ByKeyIsTotal(newest: bool)
    ensures TotalPreorder(ByKey(newest))
  {
  }

  lemma ListIsSorted(s: seq<Row>, now: int, newest: bool)
    requires forall row :: row in s ==> MadeAt(row.assessment, now)
    ensures SortedBy(Sort(s, InOrder(newest)), InOrder(newest))
  {
    forall a, b | a in s && b in s ensures InOrder(newest)(a, b) == ByKey(newest)(a, b) {
      if !newest { AttentionIsLexicographic(ListedRow(a), ListedRow(b), now); }
    }
    var sorted := Sort(s, InOrder(newest));
    SortAgrees(s, InOrder(newest), ByKey(newest));
    ByKeyIsTotal(newest);
    SortSorts(s, ByKey(newest));
    SortKeepsAll(s, InOrder(newest));
    forall i, j | 0 <= i < j < |sorted| ensures InOrder(newest)(sorted[i], sorted[j]) {
      assert sorted[i] in sorted && sorted[j] in sorted;
    }
  }

  method BuildDeliveryDashboard(rows: seq<OrderRow>, filters: Filters, now: int, newest: bool, textLe: (string, string) -> bool) returns (d: Dashboard)
    requires TotalOrder(textLe)
    ensures IsDashboard(d, rows, filters, now, newest, textLe)
    ensures SortedBy(d.cities, textLe)
  {
    var today := DayOf(now);
    var assessed := AssessAll(rows, now);
    var cities := CityOptions(assessed, textLe);
    var inCity := Filter(InCity(filters.city), assessed);
    var inRange := Filter(InRange(filters.from, filters.to), inCity);
    var openOutsideRange := |Filter(OpenOutside(filters.from, filters.to), inCity)|;
    var assessments := Assessments(inRange);
    var listed := Sort(Filter(RowViewed(filters.view, today), inRange), InOrder(newest));
    var kpis := CountDeliveries(assessments);
    var byCity := GroupDeliveries(inRange, CityOf(), textLe);
    var byRegion := GroupDeliveries(inRange, RegionOf(), textLe);
    var byOrganization := GroupDeliveries(inRange, OrganizationOf(), textLe);
    var byBranch := GroupDeliveries(inRange, BranchOf(), textLe);
    var pipeline := [PipelineCount(assessments, NotStarted), PipelineCount(assessments, InProcess), PipelineCount(assessments, OutForDelivery)];
    d := Dashboard(kpis, CountDeliveredOn(assessments, today), openOutsideRange, DeliveryAlerts(assessments), OverdueAgeBuckets(assessments),
                   pipeline, byCity, byRegion, byOrganization, First(byBranch, DELIVERY_BRANCH_LIMIT),
                   |listed|, First(listed, DELIVERY_ATTENTION_LIMIT), cities);
  }

  // ---- No two figures disagree ----

  lemma {:induction false} ViewedRows(rows: seq<Row>, view: View, today: int)
    ensures |Filter(RowViewed(view, today), rows)| == |Filter(Viewed(view, today), Assessments(rows))|
  {
    if rows != [] {
      assert rows == [rows[0]] + rows[1..];
      ViewedRows(rows[1..], view, today);
      assert Assessments(rows)[1..] == Assessments(rows[1..]);
    }
  }

  /** The list counts exactly as many orders as the card that links to it shows. */
  lemma ListHoldsWhatItsCardShows(d: Dashboard, rows: seq<OrderRow>, filters: Filters, now: int, newest: bool, textLe: (string, string) -> bool)
    requires IsDashboard(d, rows, filters, now, newest, textLe)
    ensures d.total == CardFor(d.kpis.tallies, d.deliveredToday, filters.view)
  {
    var inRange := RangeRows(rows, filters, now);
    RowsAreMadeAt(rows, filters, now);
    CardsCountTheirLists(Assessments(inRange), now, filters.view, DayOf(now));
    ViewedRows(inRange, filters.view, DayOf(now));
    SortKeepsAll(Filter(RowViewed(filters.view, DayOf(now)), inRange), InOrder(newest));
  }

  lemma FirstComesFirst<T(!new)>(s: seq<T>, n: nat, le: (T, T) -> bool)
    requires SortedBy(s, le)
    ensures var shown := First(s, n);
            && s == shown + s[|shown|..] && SortedBy(shown, le)
            && forall l, u :: l in shown && u in s[|shown|..] ==> le(l, u)
  {
    var shown := First(s, n);
    forall l, u | l in shown && u in s[|shown|..] ensures le(l, u) {
      var i :| 0 <= i < |shown| && shown[i] == l;
      var j :| 0 <= j < |s[|shown|..]| && s[|shown|..][j] == u;
      assert s[i] == l && s[|shown| + j] == u;
    }
  }

  /** What the list shows of its view stands before everything it leaves out. */
  lemma ItemsComeFirst(d: Dashboard, rows: seq<OrderRow>, filters: Filters, now: int, newest: bool, textLe: (string, string) -> bool)
    requires IsDashboard(d, rows, filters, now, newest, textLe)
    ensures |d.items| == if d.total <= 100 then d.total else 100
    ensures var unlisted := ListRows(rows, filters, now, newest)[|d.items|..];
            && SortedBy(d.items, InOrder(newest))
            && multiset(d.items + unlisted) == multiset(Filter(RowViewed(filters.view, DayOf(now)), RangeRows(rows, filters, now)))
            && forall l, u :: l in d.items && u in unlisted ==> InOrder(newest)(l, u)
  {
    var viewed := Filter(RowViewed(filters.view, DayOf(now)), RangeRows(rows, filters, now));
    RowsAreMadeAt(rows, filters, now);
    ListIsSorted(viewed, now, newest);
    SortKeepsAll(viewed, InOrder(newest));
    FirstComesFirst(ListRows(rows, filters, now, newest), DELIVERY_ATTENTION_LIMIT, InOrder(newest));
  }

  /** Every order still open in the city is either counted or reported as outside the range. */
  lemma OpenOrdersAreAccountedFor(d: Dashboard, rows: seq<OrderRow>, filters: Filters, now: int, newest: bool, textLe: (string, string) -> bool)
    requires IsDashboard(d, rows, filters, now, newest, textLe)
    ensures d.kpis.tallies.open + d.openOutsideRange == |Filter(OpenRow(), CityRows(rows, filters, now))|
  {
    var inCity := CityRows(rows, filters, now);
    var inside := (row: Row) => row.assessment.isOpen && IsInRange(row.assessment, filters.from, filters.to);
    FilterIsCounted(OpenRow(), inCity);
    FilterIsCounted(OpenOutside(filters.from, filters.to), inCity);
    SplitInTwo(OpenRow(), inside, OpenOutside(filters.from, filters.to), inCity);
    CountInFilter(InRange(filters.from, filters.to), OpenRow(), inside, inCity);
    OpenAssessments(RangeRows(rows, filters, now));
  }

  lemma {:induction false} OpenAssessments(rows: seq<Row>)
    ensures Count(Open(), Assessments(rows)) == Count(OpenRow(), rows)
  {
    if rows != [] {
      assert Assessments(rows)[1..] == Assessments(rows[1..]);
      OpenAssessments(rows[1..]);
    }
  }

  /** The cards, their partitions, the alerts, the age buckets, the pipeline and the city, region and organization
      tables of one dashboard agree. */
  lemma FiguresAgree(d: Dashboard, rows: seq<OrderRow>, filters: Filters, now: int, newest: bool, textLe: (string, string) -> bool)
    requires TotalOrder(textLe) && IsDashboard(d, rows, filters, now, newest, textLe)
    ensures var t := d.kpis.tallies;
            && t.open == t.onTrack + t.dueSoon + t.overdue == t.notStarted + t.inProcess + t.outForDelivery
            && t.delivered == t.deliveredOnTime + t.deliveredLate + t.deliveredUntimed == t.awaitingAcknowledgement + t.acknowledged
            && t.overdue == d.alerts.overdue == d.overdueAge[0] + d.overdueAge[1] + d.overdueAge[2] + d.overdueAge[3] + d.overdueAge[4]
            && d.alerts.over24Hours == d.overdueAge[2] + d.overdueAge[3] + d.overdueAge[4]
            && d.alerts.over72Hours == d.overdueAge[4]
            && d.pipeline == [t.notStarted, t.inProcess, t.outForDelivery]
            && t == Totalled(d.byCity) == Totalled(d.byRegion) == Totalled(d.byOrganization)
  {
    var inRange := RangeRows(rows, filters, now);
    RowsAreMadeAt(rows, filters, now);
    PartitionsAgree(Assessments(inRange), now);
    AgesAndAlertsAgree(Assessments(inRange), now);
    PipelineIsTheStageCards(Assessments(inRange), now);
    TableAddsUp(inRange, CityOf(), textLe);
    TableAddsUp(inRange, RegionOf(), textLe);
    TableAddsUp(inRange, OrganizationOf(), textLe);
  }

  lemma TableAddsUp(rows: seq<Row>, keyOf: Row -> Place, textLe: (string, string) -> bool)
    requires TotalOrder(textLe)
    ensures Totalled(GroupTable(rows, keyOf, textLe)) == Tallied(Assessments(rows))
  {
    GroupTableMeans(rows, keyOf, textLe);
    GroupingsAddUp(GroupTable(rows, keyOf, textLe), rows, keyOf);
  }

  // ---- The branch table and its cut ----

  function Orders(): GroupRow -> int { (g: GroupRow) => g.counts.tallies.open + g.counts.tallies.delivered }

  lemma TotalledOrders(groups: seq<GroupRow>)
    ensures Sum(Orders(), groups) == Totalled(groups).open + Totalled(groups).delivered
  {
    SumsAddUp(Orders(), (g: GroupRow) => g.counts.tallies.open, (g: GroupRow) => g.counts.tallies.delivered, groups);
  }

  /** Every row of a table has orders. */
  lemma NoEmptyGroups(rows: seq<Row>, keyOf: Row -> Place, now: int, g: GroupRow)
    requires forall row :: row in rows ==> MadeAt(row.assessment, now)
    requires g.key in KeysOf(rows, keyOf) && g == GroupRowFor(rows, keyOf, g.key)
    ensures Orders()(g) >= 1
  {
    var members := Members(rows, keyOf, g.key);
    MembersAreThere(rows, keyOf, now, g.key);
    PartitionsAgree(members, now);
  }

  lemma {:induction false} MembersAreThere(rows: seq<Row>, keyOf: Row -> Place, now: int, k: string)
    requires forall row :: row in rows ==> MadeAt(row.assessment, now)
    ensures AllMadeAt(Members(rows, keyOf, k), now)
    ensures k in KeysOf(rows, keyOf) ==> Members(rows, keyOf, k) != []
  {
    if rows != [] {
      assert rows == [rows[0]] + rows[1..];
      MembersAreThere(rows[1..], keyOf, now, k);
    }
  }

  /** A table cut to its first rows adds up to the whole exactly when nothing was cut. */
  lemma CutTableAddsUp(rows: seq<Row>, keyOf: Row -> Place, now: int, textLe: (string, string) -> bool, n: nat)
    requires TotalOrder(textLe)
    requires forall row :: row in rows ==> MadeAt(row.assessment, now)
    ensures Totalled(First(GroupTable(rows, keyOf, textLe), n)) == Tallied(Assessments(rows)) <==> |KeysInOrder(rows, keyOf)| <= n
  {
    var table := GroupTable(rows, keyOf, textLe);
    GroupTableMeans(rows, keyOf, textLe);
    TableAddsUp(rows, keyOf, textLe);
    if n < |table| {
      forall g | g in table ensures Orders()(g) >= 1 { NoEmptyGroups(rows, keyOf, now, g); }
      CutLosesOrders(table, n);
    }
  }

  lemma CutLosesOrders(table: seq<GroupRow>, n: nat)
    requires n < |table| && forall g :: g in table ==> Orders()(g) >= 1
    ensures Totalled(table[..n]) != Totalled(table)
  {
    var shown, cut := table[..n], table[n..];
    assert table == shown + cut;
    SumOfMore(Orders(), shown, cut);
    assert forall g :: g in cut ==> g in table;
    SumOfNonNegatives(Orders(), cut);
    assert cut[0] in cut;
    TotalledOrders(shown);
    TotalledOrders(table);
  }

  /** The branch table adds up to the cards exactly when there are no more than fifty branches. */
  lemma BranchTableAddsUpExactly(d: Dashboard, rows: seq<OrderRow>, filters: Filters, now: int, newest: bool, textLe: (string, string) -> bool)
    requires TotalOrder(textLe) && IsDashboard(d, rows, filters, now, newest, textLe)
    ensures Totalled(d.byBranch) == d.kpis.tallies <==> |KeysInOrder(RangeRows(rows, filters, now), BranchOf())| <= 50
  {
    RowsAreMadeAt(rows, filters, now);
    CutTableAddsUp(RangeRows(rows, filters, now), BranchOf(), now, textLe, DELIVERY_BRANCH_LIMIT);
  }

  /** And it leaves out no branch with more overdue than one it shows. */
  lemma BranchTableShowsTheWorst(d: Dashboard, rows: seq<OrderRow>, filters: Filters, now: int, newest: bool, textLe: (string, string) -> bool)
    requires TotalOrder(textLe) && IsDashboard(d, rows, filters, now, newest, textLe)
    ensures forall g, k :: g in d.byBranch && k in KeysOf(RangeRows(rows, filters, now), BranchOf()) && (forall h :: h in d.byBranch ==> h.key != k) ==>
              GroupRowFor(RangeRows(rows, filters, now), BranchOf(), k).counts.tallies.overdue <= g.counts.tallies.overdue
  {
    WorstAreShown(RangeRows(rows, filters, now), BranchOf(), textLe, DELIVERY_BRANCH_LIMIT);
  }

  lemma WorstAreShown(rows: seq<Row>, keyOf: Row -> Place, textLe: (string, string) -> bool, n: nat)
    requires TotalOrder(textLe)
    ensures var shown := First(GroupTable(rows, keyOf, textLe), n);
            forall g, k :: g in shown && k in KeysOf(rows, keyOf) && (forall h :: h in shown ==> h.key != k) ==>
              GroupRowFor(rows, keyOf, k).counts.tallies.overdue <= g.counts.tallies.overdue
  {
    var table := GroupTable(rows, keyOf, textLe);
    var shown := First(table, n);
    GroupTableMeans(rows, keyOf, textLe);
    FirstComesFirst(table, n, WorstFirst(textLe));
    forall g, k | g in shown && k in KeysOf(rows, keyOf) && (forall h :: h in shown ==> h.key != k)
      ensures GroupRowFor(rows, keyOf, k).counts.tallies.overdue <= g.counts.tallies.overdue
    {
      var u :| u in table && u.key == k;
      assert u in shown + table[|shown|..];
      WorstHasMostOverdue(g, u, textLe);
    }
  }

  lemma WorstHasMostOverdue(g: GroupRow, u: GroupRow, textLe: (string, string) -> bool)
    ensures WorstFirst(textLe)(g, u) ==> u.counts.tallies.overdue <= g.counts.tallies.overdue
  {
  }

  // ---- The rows behind the figures ----

  /** Every row of the dashboard is an order that is delivery work, under its own number and places, as assessed. */
  lemma {:induction false} RowsAreOrders(rows: seq<OrderRow>, now: int, row: Row)
    ensures row in AssessedRows(rows, now) <==>
            exists o :: o in rows && AssessDelivery(o.order, now) == Some(row.assessment) && row.id == o.id && row.city == o.city
                        && row.region == o.region && row.organization == o.organization && row.branch == o.branch
  {
    if rows != [] {
      assert rows == [rows[0]] + rows[1..];
      RowsAreOrders(rows[1..], now, row);
    }
  }

  /** The figures are of the rows of the city asked for whose day is in the range, from its first moment to its last: the
      day of approval while open, the day of delivery after that. */
  lemma RangeIsByDay(rows: seq<OrderRow>, filters: Filters, now: int, row: Row)
    ensures row in RangeRows(rows, filters, now) <==>
              && row in AssessedRows(rows, now)
              && (filters.city == None || filters.city == Some(row.city.key))
              && (row.assessment.isOpen ==>
                    StartOfDay(filters.from) <= row.assessment.approvedAt <= EndOfDay(filters.to))
              && (!row.assessment.isOpen ==>
                    row.assessment.deliveredAt.Some?
                    && StartOfDay(filters.from) <= row.assessment.deliveredAt.value <= EndOfDay(filters.to))
  {
    var a := row.assessment;
    DaysAreOrdered(a.approvedAt, filters.from);
    DaysAreOrdered(a.approvedAt, filters.to);
    if a.deliveredAt.Some? {
      DaysAreOrdered(a.deliveredAt.value, filters.from);
      DaysAreOrdered(a.deliveredAt.value, filters.to);
    }
  }

  /** Each row of the figures is counted in each table under its own place. */
  lemma TablesAreByTheirPlace(d: Dashboard, rows: seq<OrderRow>, filters: Filters, now: int, newest: bool, textLe: (string, string) -> bool, row: Row)
    requires TotalOrder(textLe) && IsDashboard(d, rows, filters, now, newest, textLe) && row in RangeRows(rows, filters, now)
    ensures exists g :: g in d.byCity && g.key == row.city.key
    ensures exists g :: g in d.byRegion && g.key == row.region.key
    ensures exists g :: g in d.byOrganization && g.key == row.organization.key
    ensures |d.byBranch| < 50 ==> exists g :: g in d.byBranch && g.key == row.branch.key
  {
    var inRange := RangeRows(rows, filters, now);
    IsInItsGroup(inRange, CityOf(), textLe, row);
    IsInItsGroup(inRange, RegionOf(), textLe, row);
    IsInItsGroup(inRange, OrganizationOf(), textLe, row);
    IsInItsGroup(inRange, BranchOf(), textLe, row);
  }

  lemma IsInItsGroup(rows: seq<Row>, keyOf: Row -> Place, textLe: (string, string) -> bool, row: Row)
    requires TotalOrder(textLe) && row in rows
    ensures exists g :: g in GroupTable(rows, keyOf, textLe) && g.key == keyOf(row).key
  {
    GroupTableMeans(rows, keyOf, textLe);
    assert keyOf(row).key in KeysOf(rows, keyOf);
  }

  /** Today's deliveries are those of the clock's own day, from its first moment to its last. */
  lemma TodayIsTheClocksDay(d: Dashboard, rows: seq<OrderRow>, filters: Filters, now: int, newest: bool, textLe: (string, string) -> bool)
    requires IsDashboard(d, rows, filters, now, newest, textLe)
    ensures d.deliveredToday == HowMany(DeliveredBetween(StartOfDay(DayOf(now)), EndOfDay(DayOf(now))), Assessments(RangeRows(rows, filters, now)))
  {
    DeliveredOnIsBetween(Assessments(RangeRows(rows, filters, now)), DayOf(now));
  }

  function DeliveredBetween(first: int, last: int): Assessment -> bool {
    (a: Assessment) => a.deliveredAt.Some? && first <= a.deliveredAt.value <= last
  }

  lemma DeliveredOnIsBetween(s: seq<Assessment>, day: int)
    ensures CountDeliveredOn(s, day) == HowMany(DeliveredBetween(StartOfDay(day), EndOfDay(day)), s)
  {
    forall a: Assessment | a.deliveredAt.Some? {
      DaysAreOrdered(a.deliveredAt.value, day);
    }
    SameFilter(DeliveredBetween(StartOfDay(day), EndOfDay(day)), (a: Assessment) => a.deliveredAt.Some? && DayOf(a.deliveredAt.value) == day, s);
  }

  /** Every city with delivery work is offered, whatever city or range is chosen. */
  lemma EveryCityIsOffered(d: Dashboard, rows: seq<OrderRow>, filters: Filters, now: int, newest: bool, textLe: (string, string) -> bool, row: Row)
    requires IsDashboard(d, rows, filters, now, newest, textLe) && row in AssessedRows(rows, now)
    ensures LabelOf(AssessedRows(rows, now), CityOf(), row.city.key) in d.cities
  {
    assert row.city.key in KeysOf(AssessedRows(rows, now), CityOf());
  }
}
