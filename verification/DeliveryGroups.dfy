/** One row of figures per city, region, organization or branch (lib/delivery-sla.ts). */
module DeliveryGroups {
  import opened Counting
  import opened DeliveryCounts
  import opened DeliverySla
  import opened Gathering
  import opened Grouping
  import opened InsertionMaps
  import opened Options
  import opened Sorting
  import opened Sums

  /** A grouping key and the label it is shown under. */
  datatype Place = Place(key: string, title: string)

  datatype Row = Row(id: int, city: Place, region: Place, organization: Place, branch: Place, assessment: Assessment)

  datatype Group = Group(title: string, assessments: seq<Assessment>)

  datatype GroupRow = GroupRow(key: string, title: string, counts: Counts)

  function AssessmentOf(): Row -> Assessment { (row: Row) => row.assessment }

  function Assessments(rows: seq<Row>): seq<Assessment> { Mapped(AssessmentOf(), rows) }

  function Member(keyOf: Row -> Place, k: string): Row -> Option<Assessment> {
    (row: Row) => if keyOf(row).key == k then Some(row.assessment) else None
  }

  function Members(rows: seq<Row>, keyOf: Row -> Place, k: string): seq<Assessment> { Gathered(Member(keyOf, k), rows) }

  function KeysOf(rows: seq<Row>, keyOf: Row -> Place): set<string> { set row | row in rows :: keyOf(row).key }

  /** The label of the first row with the key. */
  function LabelOf(rows: seq<Row>, keyOf: Row -> Place, k: string): string {
    if rows == [] then ""
    else if keyOf(rows[0]).key == k then keyOf(rows[0]).title
    else LabelOf(rows[1..], keyOf, k)
  }

  ghost predicate AreGroups(groups: map<string, Group>, rows: seq<Row>, keyOf: Row -> Place) {
    && (forall k :: k in groups <==> k in KeysOf(rows, keyOf))
    && (forall k :: k in groups ==> groups[k] == Group(LabelOf(rows, keyOf, k), Members(rows, keyOf, k)))
  }

  lemma {:induction false} LabelOfOneMore(rows: seq<Row>, row: Row, keyOf: Row -> Place, k: string)
    ensures LabelOf(rows + [row], keyOf, k) ==
            if k !in KeysOf(rows, keyOf) && keyOf(row).key == k then keyOf(row).title else LabelOf(rows, keyOf, k)
  {
    if rows != [] {
      assert rows == [rows[0]] + rows[1..];
      assert (rows + [row])[1..] == rows[1..] + [row];
      LabelOfOneMore(rows[1..], row, keyOf, k);
    }
  }

  lemma MembersOfOneMore(rows: seq<Row>, row: Row, keyOf: Row -> Place, k: string)
    ensures Members(rows + [row], keyOf, k) == Members(rows, keyOf, k) + if keyOf(row).key == k then [row.assessment] else []
    ensures KeysOf(rows + [row], keyOf) == KeysOf(rows, keyOf) + {keyOf(row).key}
  {
    GatheredOfMore(Member(keyOf, k), rows, [row]);
    assert forall r :: r in rows + [row] <==> r in rows || r == row;
  }

  lemma {:induction false} NoMembers(rows: seq<Row>, keyOf: Row -> Place, k: string)
    requires k !in KeysOf(rows, keyOf)
    ensures Members(rows, keyOf, k) == []
  {
    if rows != [] {
      assert rows == [rows[0]] + rows[1..];
      NoMembers(rows[1..], keyOf, k);
    }
  }

  lemma GroupsOfOneMore(groups: map<string, Group>, rows: seq<Row>, row: Row, keyOf: Row -> Place)
    requires AreGroups(groups, rows, keyOf)
    ensures var place := keyOf(row);
            var group := if place.key in groups then groups[place.key] else Group(place.title, []);
            AreGroups(groups[place.key := Group(group.title, group.assessments + [row.assessment])], rows + [row], keyOf)
  {
    if keyOf(row).key !in groups { NoMembers(rows, keyOf, keyOf(row).key); }
    forall k { LabelOfOneMore(rows, row, keyOf, k); }
    forall k { MembersOfOneMore(rows, row, keyOf, k); }
  }

  function KeyIn(keyOf: Row -> Place): Row -> string { (row: Row) => keyOf(row).key }

  /** Each key once, in the order the rows first have it. */
  function KeysInOrder(rows: seq<Row>, keyOf: Row -> Place): seq<string> { Once(Mapped(KeyIn(keyOf), rows)) }

  lemma KeysInOrderOfOneMore(rows: seq<Row>, i: nat, keyOf: Row -> Place)
    requires i < |rows|
    ensures var k := keyOf(rows[i]).key;
            && KeysInOrder(rows[..i + 1], keyOf) == KeysInOrder(rows[..i], keyOf) + (if k in KeysOf(rows[..i], keyOf) then [] else [k])
  {
    var keys := Mapped(KeyIn(keyOf), rows[..i]);
    MappedOfOneMore(KeyIn(keyOf), rows, i);
    OnceOfOneMore(keys, keyOf(rows[i]).key);
    KeysAreOfRows(rows[..i], keyOf);
  }

  lemma KeysAreOfRows(rows: seq<Row>, keyOf: Row -> Place)
    ensures forall k :: k in KeysInOrder(rows, keyOf) <==> k in KeysOf(rows, keyOf)
  {
    var keys := Mapped(KeyIn(keyOf), rows);
    forall k | k in KeysOf(rows, keyOf) ensures k in keys {
      var i :| 0 <= i < |rows| && keyOf(rows[i]).key == k;
      assert keys[i] == k;
    }
  }

  method Gather(rows: seq<Row>, keyOf: Row -> Place) returns (groups: InsertionMap<string, Group>)
    ensures groups.Valid() && AreGroups(groups.at, rows, keyOf)
    ensures groups.keys == KeysInOrder(rows, keyOf)
  {
    groups := Empty();
    for i := 0 to |rows|
      invariant groups.Valid() && AreGroups(groups.at, rows[..i], keyOf)
      invariant groups.keys == KeysInOrder(rows[..i], keyOf)
    {
      var place := keyOf(rows[i]);
      KeysInOrderOfOneMore(rows, i, keyOf);
      assert rows[..i + 1] == rows[..i] + [rows[i]];
      GroupsOfOneMore(groups.at, rows[..i], rows[i], keyOf);
      var group := if place.key in groups.at then groups.at[place.key] else Group(place.title, []);
      groups := groups.Set(place.key, Group(group.title, group.assessments + [rows[i].assessment]));
    }
    assert rows[..|rows|] == rows;
  }

  /** Most overdue first, then most open, then by label. */
  function WorstFirst(textLe: (string, string) -> bool): (GroupRow, GroupRow) -> bool {
    (a: GroupRow, b: GroupRow) =>
      if a.counts.tallies.overdue != b.counts.tallies.overdue then a.counts.tallies.overdue > b.counts.tallies.overdue
      else if a.counts.tallies.open != b.counts.tallies.open then a.counts.tallies.open > b.counts.tallies.open
      else textLe(a.title, b.title)
  }

  function GroupRowFor(rows: seq<Row>, keyOf: Row -> Place, k: string): GroupRow {
    GroupRow(k, LabelOf(rows, keyOf, k), CountsOf(Members(rows, keyOf, k)))
  }

  /** One row per key, with the first label it was seen under and the figures of exactly its rows. */
  ghost predicate AreGroupRows(groups: seq<GroupRow>, rows: seq<Row>, keyOf: Row -> Place) {
    && (forall i, j :: 0 <= i < j < |groups| ==> groups[i].key != groups[j].key)
    && (forall g :: g in groups ==> g.key in KeysOf(rows, keyOf))
    && (forall g :: g in groups ==> g == GroupRowFor(rows, keyOf, g.key))
    && (forall k :: k in KeysOf(rows, keyOf) ==> exists g :: g in groups && g.key == k)
  }

  method CountGroup(key: string, group: Group) returns (row: GroupRow)
    ensures row == GroupRow(key, group.title, CountsOf(group.assessments))
  {
    var counts := CountDeliveries(group.assessments);
    row := GroupRow(key, group.title, counts);
  }

  function RowIn(rows: seq<Row>, keyOf: Row -> Place): string -> GroupRow { (k: string) => GroupRowFor(rows, keyOf, k) }

  method CountGroups(groups: InsertionMap<string, Group>, ghost rows: seq<Row>, ghost keyOf: Row -> Place) returns (counted: seq<GroupRow>)
    requires groups.Valid() && AreGroups(groups.at, rows, keyOf)
    ensures counted == Mapped(RowIn(rows, keyOf), groups.keys)
  {
    counted := [];
    for i := 0 to |groups.keys|
      invariant counted == Mapped(RowIn(rows, keyOf), groups.keys[..i])
    {
      var key := groups.keys[i];
      assert key in groups.at;
      var row := CountGroup(key, groups.at[key]);
      MappedOfOneMore(RowIn(rows, keyOf), groups.keys, i);
      counted := counted + [row];
    }
    assert groups.keys[..|groups.keys|] == groups.keys;
  }

  /** The groups in the order they are first met, then worst first. */
  function GroupTable(rows: seq<Row>, keyOf: Row -> Place, textLe: (string, string) -> bool): seq<GroupRow> {
    Sort(Mapped(RowIn(rows, keyOf), KeysInOrder(rows, keyOf)), WorstFirst(textLe))
  }

  method GroupDeliveries(rows: seq<Row>, keyOf: Row -> Place, textLe: (string, string) -> bool) returns (sorted: seq<GroupRow>)
    requires TotalOrder(textLe)
    ensures sorted == GroupTable(rows, keyOf, textLe)
    ensures AreGroupRows(sorted, rows, keyOf)
    ensures SortedBy(sorted, WorstFirst(textLe))
  {
    var groups := Gather(rows, keyOf);
    var counted := CountGroups(groups, rows, keyOf);
    sorted := Sort(counted, WorstFirst(textLe));
    GroupTableMeans(rows, keyOf, textLe);
  }

  /** The table has one row per key with the figures of exactly its rows, worst first. */
  lemma GroupTableMeans(rows: seq<Row>, keyOf: Row -> Place, textLe: (string, string) -> bool)
    requires TotalOrder(textLe)
    ensures AreGroupRows(GroupTable(rows, keyOf, textLe), rows, keyOf)
    ensures SortedBy(GroupTable(rows, keyOf, textLe), WorstFirst(textLe))
    ensures |GroupTable(rows, keyOf, textLe)| == |KeysInOrder(rows, keyOf)|
  {
    var counted := Mapped(RowIn(rows, keyOf), KeysInOrder(rows, keyOf));
    CountedRows(rows, keyOf, counted);
    GroupRowsStaySorted(counted, rows, keyOf, textLe);
    SortKeepsAll(counted, WorstFirst(textLe));
  }

  lemma CountedRows(rows: seq<Row>, keyOf: Row -> Place, counted: seq<GroupRow>)
    requires counted == Mapped(RowIn(rows, keyOf), KeysInOrder(rows, keyOf))
    ensures AreGroupRows(counted, rows, keyOf)
  {
    var keys := KeysInOrder(rows, keyOf);
    KeysAreOfRows(rows, keyOf);
    forall g | g in counted ensures g.key in KeysOf(rows, keyOf) && g == GroupRowFor(rows, keyOf, g.key) {
      var j :| 0 <= j < |counted| && counted[j] == g;
      assert keys[j] in keys;
    }
    forall k | k in KeysOf(rows, keyOf) ensures exists g :: g in counted && g.key == k {
      var j :| 0 <= j < |keys| && keys[j] == k;
      assert counted[j] in counted;
    }
  }

  lemma WorstFirstIsTotal(textLe: (string, string) -> bool)
    requires TotalOrder(textLe)
    ensures TotalPreorder(WorstFirst(textLe))
  {
    forall a, b ensures WorstFirst(textLe)(a, b) || WorstFirst(textLe)(b, a) {
      assert textLe(a.title, b.title) || textLe(b.title, a.title);
    }
    forall a, b, c | WorstFirst(textLe)(a, b) && WorstFirst(textLe)(b, c) ensures WorstFirst(textLe)(a, c) {
      assert textLe(a.title, b.title) && textLe(b.title, c.title) ==> textLe(a.title, c.title);
    }
  }

  lemma GroupRowsStaySorted(counted: seq<GroupRow>, rows: seq<Row>, keyOf: Row -> Place, textLe: (string, string) -> bool)
    requires TotalOrder(textLe) && AreGroupRows(counted, rows, keyOf)
    ensures AreGroupRows(Sort(counted, WorstFirst(textLe)), rows, keyOf)
    ensures SortedBy(Sort(counted, WorstFirst(textLe)), WorstFirst(textLe))
  {
    var sorted := Sort(counted, WorstFirst(textLe));
    WorstFirstIsTotal(textLe);
    SortSorts(counted, WorstFirst(textLe));
    SortKeepsAll(counted, WorstFirst(textLe));
    DistinctStaysDistinct(counted, sorted);
    forall i, j | 0 <= i < j < |sorted| ensures sorted[i].key != sorted[j].key {
      assert sorted[i] in sorted && sorted[j] in sorted && sorted[i] != sorted[j];
    }
  }

  // ---- Every grouping adds up to the cards ----

  function CountIn(p: Assessment -> bool, rows: seq<Row>, keyOf: Row -> Place): string -> int {
    (k: string) => Count(p, Members(rows, keyOf, k))
  }

  function GroupOf(keyOf: Row -> Place): Row -> Option<string> { (row: Row) => Some(keyOf(row).key) }

  function OneOf(p: Assessment -> bool): Row -> int { (row: Row) => if p(row.assessment) then 1 else 0 }

  lemma {:induction false} CountOfMembers(p: Assessment -> bool, rows: seq<Row>, keyOf: Row -> Place, k: string)
    ensures CountIn(p, rows, keyOf)(k) == GroupTotal(OneOf(p), GroupOf(keyOf), rows)(k)
  {
    if rows != [] {
      var mine := Filter(InGroup(GroupOf(keyOf), k), rows[1..]);
      CountOfMembers(p, rows[1..], keyOf, k);
      assert ([rows[0]] + mine)[1..] == mine;
      assert ([rows[0].assessment] + Members(rows[1..], keyOf, k))[1..] == Members(rows[1..], keyOf, k);
    }
  }

  lemma {:induction false} CountOfAll(p: Assessment -> bool, rows: seq<Row>, keyOf: Row -> Place)
    ensures Count(p, Assessments(rows)) == Sum(OneOf(p), rows) && Filter(Grouped(GroupOf(keyOf)), rows) == rows
  {
    if rows != [] {
      CountOfAll(p, rows[1..], keyOf);
      assert Assessments(rows)[1..] == Assessments(rows[1..]);
    }
  }

  function KeyOfGroup(): GroupRow -> string { (g: GroupRow) => g.key }

  lemma FigureAddsUp(f: GroupRow -> int, p: Assessment -> bool, groups: seq<GroupRow>, rows: seq<Row>, keyOf: Row -> Place)
    requires AreGroupRows(groups, rows, keyOf)
    requires forall g :: g in groups ==> f(g) == Count(p, Members(rows, keyOf, g.key))
    ensures Sum(f, groups) == Count(p, Assessments(rows))
  {
    var ks := Mapped(KeyOfGroup(), groups);
    forall row | row in rows ensures keyOf(row).key in ks {
      assert keyOf(row).key in KeysOf(rows, keyOf);
      var g :| g in groups && g.key == keyOf(row).key;
      var j :| 0 <= j < |groups| && groups[j] == g;
      assert ks[j] == keyOf(row).key;
    }
    forall j | 0 <= j < |groups| ensures f(groups[j]) == CountIn(p, rows, keyOf)(ks[j]) {
      assert groups[j] in groups;
    }
    SumsMatch(f, CountIn(p, rows, keyOf), groups, ks);
    GroupsAddUp(OneOf(p), GroupOf(keyOf), rows, ks);
    CountOfAll(p, rows, keyOf);
    forall k { CountOfMembers(p, rows, keyOf, k); }
    SumsAgree(CountIn(p, rows, keyOf), GroupTotal(OneOf(p), GroupOf(keyOf), rows), ks);
  }

  /** The figures of all groups together. */
  function Totalled(groups: seq<GroupRow>): Tallies {
    Tallies(Sum((g: GroupRow) => g.counts.tallies.open, groups), Sum((g: GroupRow) => g.counts.tallies.onTrack, groups),
            Sum((g: GroupRow) => g.counts.tallies.dueSoon, groups), Sum((g: GroupRow) => g.counts.tallies.overdue, groups),
            Sum((g: GroupRow) => g.counts.tallies.delivered, groups), Sum((g: GroupRow) => g.counts.tallies.deliveredOnTime, groups),
            Sum((g: GroupRow) => g.counts.tallies.deliveredLate, groups), Sum((g: GroupRow) => g.counts.tallies.deliveredUntimed, groups),
            Sum((g: GroupRow) => g.counts.tallies.notStarted, groups), Sum((g: GroupRow) => g.counts.tallies.inProcess, groups),
            Sum((g: GroupRow) => g.counts.tallies.outForDelivery, groups), Sum((g: GroupRow) => g.counts.tallies.awaitingAcknowledgement, groups),
            Sum((g: GroupRow) => g.counts.tallies.acknowledged, groups))
  }

  /** Whatever the rows are grouped by, every count of the groups adds up to the count of the whole. */
  lemma GroupingsAddUp(groups: seq<GroupRow>, rows: seq<Row>, keyOf: Row -> Place)
    requires AreGroupRows(groups, rows, keyOf)
    ensures Totalled(groups) == Tallied(Assessments(rows))
  {
    FigureAddsUp((g: GroupRow) => g.counts.tallies.open, Open(), groups, rows, keyOf);
    FigureAddsUp((g: GroupRow) => g.counts.tallies.onTrack, HealthIs(OnTrack), groups, rows, keyOf);
    FigureAddsUp((g: GroupRow) => g.counts.tallies.dueSoon, HealthIs(DueSoon), groups, rows, keyOf);
    FigureAddsUp((g: GroupRow) => g.counts.tallies.overdue, HealthIs(Overdue), groups, rows, keyOf);
    FigureAddsUp((g: GroupRow) => g.counts.tallies.delivered, Settled(), groups, rows, keyOf);
    FigureAddsUp((g: GroupRow) => g.counts.tallies.deliveredOnTime, HealthIs(DeliveredOnTime), groups, rows, keyOf);
    FigureAddsUp((g: GroupRow) => g.counts.tallies.deliveredLate, HealthIs(DeliveredLate), groups, rows, keyOf);
    FigureAddsUp((g: GroupRow) => g.counts.tallies.deliveredUntimed, HealthIs(DeliveredUntimed), groups, rows, keyOf);
    FigureAddsUp((g: GroupRow) => g.counts.tallies.notStarted, StatusIs(NotStartedKey), groups, rows, keyOf);
    FigureAddsUp((g: GroupRow) => g.counts.tallies.inProcess, StatusIs(InProcessKey), groups, rows, keyOf);
    FigureAddsUp((g: GroupRow) => g.counts.tallies.outForDelivery, StatusIs(OutForDeliveryKey), groups, rows, keyOf);
    FigureAddsUp((g: GroupRow) => g.counts.tallies.awaitingAcknowledgement, StatusIs(AwaitingKey), groups, rows, keyOf);
    FigureAddsUp((g: GroupRow) => g.counts.tallies.acknowledged, StatusIs(AcknowledgedKey), groups, rows, keyOf);
  }

  // ---- The table, read off its rows ----

  /** A group is shown under the label of the first row with its key. */
  lemma {:induction false} LabelIsTheFirstRows(rows: seq<Row>, keyOf: Row -> Place, k: string, i: nat)
    requires i < |rows| && keyOf(rows[i]).key == k && forall j :: 0 <= j < i ==> keyOf(rows[j]).key != k
    ensures LabelOf(rows, keyOf, k) == keyOf(rows[i]).title
  {
    if i > 0 { LabelIsTheFirstRows(rows[1..], keyOf, k, i - 1); }
  }

  /** Most overdue first, of those most open first, and of those by label. */
  lemma TablesStandWorstFirst(rows: seq<Row>, keyOf: Row -> Place, textLe: (string, string) -> bool, i: nat, j: nat)
    requires TotalOrder(textLe) && i < j < |GroupTable(rows, keyOf, textLe)|
    ensures var l, r := GroupTable(rows, keyOf, textLe)[i], GroupTable(rows, keyOf, textLe)[j];
            var x, y := l.counts.tallies, r.counts.tallies;
            && x.overdue >= y.overdue
            && (x.overdue == y.overdue ==> x.open >= y.open)
            && (x.overdue == y.overdue && x.open == y.open ==> textLe(l.title, r.title))
  {
    GroupTableMeans(rows, keyOf, textLe);
    var table := GroupTable(rows, keyOf, textLe);
    assert WorstFirst(textLe)(table[i], table[j]);
  }
}
