/** The watchlist: every requester scored against their branch, its peers and their own
    previous month, ranked, and cut to the rows asked for (lib/budget-burn-risk.ts). */
module Watchlist {
  import opened Calendar
  import opened CreatorSummaries
  import opened Gathering
  import opened InsertionMaps
  import opened KeyedRows
  import opened Numbers
  import opened Options
  import opened PeerMedian
  import opened Sorting
  import opened Sums

  const MOM_SPIKE_PCT := 15.0
  const MOM_MIN_BASELINE_CENTS := 500_000

  /** Why a requester may be worth a look, and how much each reason weighs. */
  datatype Reason = HighShare | MomSpike | AbovePeers | LateSurge | HighHeld | RejectedOrders

  const FLAG_SCORE := 4

  function Points(reason: Reason): int {
    match reason
    case HighShare => 3
    case MomSpike | AbovePeers | LateSurge => 2
    case HighHeld | RejectedOrders => 1
  }

  datatype Growth = Growth(pct: Option<real>, flagged: bool)

  datatype Row = Row(
    key: Key, score: int, reasons: seq<Reason>, spendCents: int, pendingCents: int, consumedCents: int,
    sharePct: real, months: seq<MonthConsumption>, growth: Growth,
    utilizationPct: Option<real>, peerMedianPct: Option<real>, vsPeerPct: Option<real>, recentSharePct: Option<real>,
    orderCount: int, pendingOrderCount: int, rejectedOrderCount: int)

  function Clamped(m: MonthConsumption): MonthConsumption {
    MonthConsumption(m.month, Max(0, m.spendCents), Max(0, m.pendingCents), Max(0, m.consumedCents))
  }

  function MonthOverMonth(months: seq<MonthConsumption>): Growth {
    var current := if months == [] then 0 else Max(0, months[|months| - 1].consumedCents);
    var previous := if |months| < 2 then 0 else Max(0, months[|months| - 2].consumedCents);
    if previous == 0 then Growth(None, false)
    else
      var pct := (current - previous) as real / previous as real * 100.0;
      Growth(Some(pct), previous >= MOM_MIN_BASELINE_CENTS && pct >= MOM_SPIKE_PCT)
  }

  /** In whole cents: the highlight is the newest month at 115% or more of a previous month of 5,000 rupees or more. */
  lemma HighlightInCents(months: seq<MonthConsumption>)
    ensures MonthOverMonth(months).flagged <==>
              |months| >= 2 && var current, previous := months[|months| - 1].consumedCents, months[|months| - 2].consumedCents;
              previous >= 500_000 && 100 * current >= 115 * previous
  {
    if |months| >= 2 {
      var current, previous := Max(0, months[|months| - 1].consumedCents), Max(0, months[|months| - 2].consumedCents);
      if previous > 0 { QuotientAtLeast((current - previous) as real, previous as real); }
    }
  }

  lemma QuotientAtLeast(growth: real, base: real)
    requires base > 0.0
    ensures growth / base * 100.0 >= MOM_SPIKE_PCT <==> 100.0 * growth >= 15.0 * base
  {
    PercentAtLeast(growth, base, MOM_SPIKE_PCT);
  }

  /** A percentage against a threshold, without the division. */
  lemma PercentAtLeast(part: real, whole: real, pct: real)
    requires whole > 0.0
    ensures part / whole * 100.0 >= pct <==> 100.0 * part >= pct * whole
  {
    var q := part / whole;
    assert q * whole == part;
    if q * 100.0 >= pct {
      assert (q * 100.0) * whole >= pct * whole;
    } else {
      assert (q * 100.0) * whole < pct * whole;
    }
  }

  function Share(part: int, whole: int): real { if whole == 0 then 0.0 else part as real / whole as real * 100.0 }

  function AgainstPeers(own: Option<real>, peers: Option<real>): Option<real> {
    if own.None? || peers.None? || peers.value <= 0.0 then None
    else Some((own.value - peers.value) / peers.value * 100.0)
  }

  /** The share of the month's consumption in its last days, once enough of the month is over. */
  function RecentShare(row: Creator, elapsedDays: int): Option<real> {
    if elapsedDays >= 14 && Consumed(row) > 0 then Some(Share(Max(0, row.data.recentConsumedCents), Consumed(row))) else None
  }

  // ---- The reasons and their score ----

  /** When each reason is given, in whole cents and without a division. */
  predicate Raises(reason: Reason, row: Creator, branch: BranchMonth, peers: seq<BranchMonth>, months: seq<MonthConsumption>, elapsedDays: int) {
    match reason
    case HighShare =>
      branch.activeRequesterCount >= 2 && branch.consumedCents >= 2_000_000 && 5 * Consumed(row) >= 2 * branch.consumedCents
    case MomSpike =>
      |months| >= 2 && months[|months| - 2].consumedCents >= 500_000
      && 100 * months[|months| - 1].consumedCents >= 115 * months[|months| - 2].consumedCents
    case AbovePeers =>
      Utilization(branch).Some? && Median(peers).Some? && Median(peers).value > 0.0
      && 2.0 * Utilization(branch).value >= 3.0 * Median(peers).value
    case LateSurge =>
      elapsedDays >= 14 && Consumed(row) >= 500_000 && 2 * row.data.recentConsumedCents >= Consumed(row)
    case HighHeld =>
      row.data.pendingCents > 0
      && if branch.totalBudgetCents > 0 then 5 * row.data.pendingCents >= branch.totalBudgetCents else row.data.pendingCents >= 2_500_000
    case RejectedOrders => row.data.rejectedOrderCount >= 3
  }

  function If(raised: bool, reason: Reason): seq<Reason> { if raised then [reason] else [] }

  /** The reasons given, in the order they are asked for. */
  function Reasons(row: Creator, branch: BranchMonth, peers: seq<BranchMonth>, months: seq<MonthConsumption>, elapsedDays: int): seq<Reason> {
    If(Raises(HighShare, row, branch, peers, months, elapsedDays), HighShare)
    + If(Raises(MomSpike, row, branch, peers, months, elapsedDays), MomSpike)
    + If(Raises(AbovePeers, row, branch, peers, months, elapsedDays), AbovePeers)
    + If(Raises(LateSurge, row, branch, peers, months, elapsedDays), LateSurge)
    + If(Raises(HighHeld, row, branch, peers, months, elapsedDays), HighHeld)
    + If(Raises(RejectedOrders, row, branch, peers, months, elapsedDays), RejectedOrders)
  }

  /** A requester's row, its reasons stated in whole cents. */
  function RowFor(row: Creator, branch: BranchMonth, peers: seq<BranchMonth>, given: seq<MonthConsumption>, elapsedDays: int): Row {
    var months := Mapped(Clamped, given);
    var own, median := Utilization(branch), Median(peers);
    var reasons := Reasons(row, branch, peers, months, elapsedDays);
    Row(row.key, Sum(Points, reasons), reasons, Max(0, row.data.spendCents), Max(0, row.data.pendingCents), Consumed(row),
        Share(Consumed(row), branch.consumedCents), months, MonthOverMonth(months),
        own, median, AgainstPeers(own, median), RecentShare(row, elapsedDays),
        row.data.orderCount, row.data.pendingOrderCount, row.data.rejectedOrderCount)
  }

  lemma HighShareInCents(row: Creator, branch: BranchMonth)
    ensures branch.consumedCents >= 2_000_000 ==>
              (Share(Consumed(row), branch.consumedCents) >= 40.0 <==> 5 * Consumed(row) >= 2 * branch.consumedCents)
  {
    if branch.consumedCents > 0 { PercentAtLeast(Consumed(row) as real, branch.consumedCents as real, 40.0); }
  }

  lemma AbovePeersWithoutDividing(own: Option<real>, median: Option<real>)
    ensures AgainstPeers(own, median).Some? && AgainstPeers(own, median).value >= 50.0 <==>
            own.Some? && median.Some? && median.value > 0.0 && 2.0 * own.value >= 3.0 * median.value
  {
    if own.Some? && median.Some? && median.value > 0.0 { PercentAtLeast(own.value - median.value, median.value, 50.0); }
  }

  lemma LateSurgeInCents(row: Creator, elapsedDays: int)
    ensures RecentShare(row, elapsedDays).Some? && Consumed(row) >= 500_000 && RecentShare(row, elapsedDays).value >= 50.0 <==>
            elapsedDays >= 14 && Consumed(row) >= 500_000 && 2 * row.data.recentConsumedCents >= Consumed(row)
  {
    if Consumed(row) > 0 { PercentAtLeast(Max(0, row.data.recentConsumedCents) as real, Consumed(row) as real, 50.0); }
  }

  function HighHeldFloor(branch: BranchMonth): real {
    if branch.totalBudgetCents > 0 then branch.totalBudgetCents as real * 20.0 / 100.0 else 2_500_000.0
  }

  /** The reasons as the percentages are read, one after the other; they are those of the cents. */
  method GiveReasons(row: Creator, branch: BranchMonth, peers: seq<BranchMonth>, months: seq<MonthConsumption>, elapsedDays: int)
    returns (reasons: seq<Reason>)
    ensures reasons == Reasons(row, branch, peers, months, elapsedDays)
  {
    var vsPeer := AgainstPeers(Utilization(branch), Median(peers));
    var recentShare := RecentShare(row, elapsedDays);
    var share := branch.activeRequesterCount >= 2 && branch.consumedCents >= 2_000_000 && Share(Consumed(row), branch.consumedCents) >= 40.0;
    var spike := MonthOverMonth(months).flagged;
    var above := vsPeer.Some? && vsPeer.value >= 50.0;
    var surge := recentShare.Some? && Consumed(row) >= 500_000 && recentShare.value >= 50.0;
    var held := row.data.pendingCents > 0 && row.data.pendingCents as real >= HighHeldFloor(branch);
    var rejected := row.data.rejectedOrderCount >= 3;
    HighShareInCents(row, branch);
    HighlightInCents(months);
    AbovePeersWithoutDividing(Utilization(branch), Median(peers));
    LateSurgeInCents(row, elapsedDays);
    reasons := PushReasons(share, spike, above, surge, held, rejected);
  }

  method PushReasons(share: bool, spike: bool, above: bool, surge: bool, held: bool, rejected: bool) returns (reasons: seq<Reason>)
    ensures reasons == If(share, HighShare) + If(spike, MomSpike) + If(above, AbovePeers) + If(surge, LateSurge)
                       + If(held, HighHeld) + If(rejected, RejectedOrders)
  {
    reasons := [];
    ghost var before := reasons;
    if share { reasons := reasons + [HighShare]; }
    assert reasons == If(share, HighShare);
    before := reasons;
    if spike { reasons := reasons + [MomSpike]; }
    assert reasons == before + If(spike, MomSpike);
    before := reasons;
    if above { reasons := reasons + [AbovePeers]; }
    assert reasons == before + If(above, AbovePeers);
    before := reasons;
    if surge { reasons := reasons + [LateSurge]; }
    assert reasons == before + If(surge, LateSurge);
    before := reasons;
    if held { reasons := reasons + [HighHeld]; }
    assert reasons == before + If(held, HighHeld);
    before := reasons;
    if rejected { reasons := reasons + [RejectedOrders]; }
    assert reasons == before + If(rejected, RejectedOrders);
  }

  /** One requester at one branch, scored against the branch, its peers and their own previous month. */
  method ScoreRequester(row: Creator, branch: BranchMonth, peers: seq<BranchMonth>, given: seq<MonthConsumption>, elapsedDays: int)
    returns (scored: Row)
    ensures scored == RowFor(row, branch, peers, given, elapsedDays)
  {
    var months := Mapped(Clamped, given);
    var own, median := Utilization(branch), Median(peers);
    var reasons := GiveReasons(row, branch, peers, months, elapsedDays);
    scored := Row(row.key, Sum(Points, reasons), reasons, Max(0, row.data.spendCents), Max(0, row.data.pendingCents), Consumed(row),
                  Share(Consumed(row), branch.consumedCents), months, MonthOverMonth(months),
                  own, median, AgainstPeers(own, median), RecentShare(row, elapsedDays),
                  row.data.orderCount, row.data.pendingOrderCount, row.data.rejectedOrderCount);
  }

  /** The retired rule would have listed a requester with three reasons, with two of which one is the high share,
      or with two of which neither is a one-point reason, and nobody else. */
  lemma ScoreFlaggedExactly(row: Creator, branch: BranchMonth, peers: seq<BranchMonth>, given: seq<MonthConsumption>, elapsedDays: int)
    ensures var scored := RowFor(row, branch, peers, given, elapsedDays);
            scored.score >= FLAG_SCORE <==>
              || |scored.reasons| >= 3
              || (|scored.reasons| == 2
                  && (HighShare in scored.reasons || (HighHeld !in scored.reasons && RejectedOrders !in scored.reasons)))
    ensures var scored := RowFor(row, branch, peers, given, elapsedDays);
            ScoreFlagged()(scored) == if scored.score >= 4 then 1 else 0
  {
    var months := Mapped(Clamped, given);
    ScoreOfSix(Raises(HighShare, row, branch, peers, months, elapsedDays), Raises(MomSpike, row, branch, peers, months, elapsedDays),
               Raises(AbovePeers, row, branch, peers, months, elapsedDays), Raises(LateSurge, row, branch, peers, months, elapsedDays),
               Raises(HighHeld, row, branch, peers, months, elapsedDays), Raises(RejectedOrders, row, branch, peers, months, elapsedDays));
  }

  lemma ScoreOfSix(share: bool, spike: bool, above: bool, surge: bool, held: bool, rejected: bool)
    ensures var given := If(share, HighShare) + If(spike, MomSpike) + If(above, AbovePeers) + If(surge, LateSurge)
                         + If(held, HighHeld) + If(rejected, RejectedOrders);
            Sum(Points, given) >= FLAG_SCORE <==>
              || |given| >= 3
              || (|given| == 2 && (HighShare in given || (HighHeld !in given && RejectedOrders !in given)))
  {
    var s1 := If(share, HighShare);
    var s2 := s1 + If(spike, MomSpike);
    var s3 := s2 + If(above, AbovePeers);
    var s4 := s3 + If(surge, LateSurge);
    var s5 := s4 + If(held, HighHeld);
    OneMoreReason([], share, HighShare);
    assert [] + s1 == s1;
    OneMoreReason(s1, spike, MomSpike);
    OneMoreReason(s2, above, AbovePeers);
    OneMoreReason(s3, surge, LateSurge);
    OneMoreReason(s4, held, HighHeld);
    OneMoreReason(s5, rejected, RejectedOrders);
  }

  lemma OneMoreReason(given: seq<Reason>, raised: bool, reason: Reason)
    ensures var more := given + If(raised, reason);
            && Sum(Points, more) == Sum(Points, given) + (if raised then Points(reason) else 0)
            && |more| == |given| + (if raised then 1 else 0)
            && forall r :: r in more <==> r in given || (raised && r == reason)
  {
    if raised { SumOfOneMore(Points, given, reason); } else { assert given + [] == given; }
  }

  /** Of its peers a row needs nothing but their median. */
  lemma OnlyTheMedianCounts(row: Creator, branch: BranchMonth, peers: seq<BranchMonth>, others: seq<BranchMonth>,
                            given: seq<MonthConsumption>, elapsedDays: int)
    requires Median(peers) == Median(others)
    ensures RowFor(row, branch, peers, given, elapsedDays) == RowFor(row, branch, others, given, elapsedDays)
  {
    var months := Mapped(Clamped, given);
    forall reason ensures Raises(reason, row, branch, peers, months, elapsedDays) == Raises(reason, row, branch, others, months, elapsedDays) {}
  }

  function OtherThan(branchId: int): BranchMonth -> Option<BranchMonth> {
    (b: BranchMonth) => if b.branchId != branchId then Some(b) else None
  }

  /** Every other branch in scope. */
  function Peers(all: seq<BranchMonth>, branchId: int): seq<BranchMonth> { Gathered(OtherThan(branchId), all) }

  /** A requester's branch; on its own when the month's summary does not have it. */
  function BranchFor(row: Creator, branches: map<int, BranchMonth>): BranchMonth {
    if row.key.branchId in branches then branches[row.key.branchId]
    else BranchMonth(row.key.branchId, Consumed(row), 0, if Consumed(row) > 0 then 1 else 0, 0, 0)
  }

  function MonthsFor(k: Key, patternMonths: seq<Month>, monthsByKey: map<Key, seq<MonthConsumption>>): seq<MonthConsumption> {
    if k in monthsByKey then monthsByKey[k] else BlankPattern(patternMonths)
  }

  function Scoring(branches: map<int, BranchMonth>, all: seq<BranchMonth>, patternMonths: seq<Month>,
                   monthsByKey: map<Key, seq<MonthConsumption>>, elapsedDays: int): Creator -> Row
  {
    (row: Creator) =>
      RowFor(row, BranchFor(row, branches), Peers(all, row.key.branchId), MonthsFor(row.key, patternMonths, monthsByKey), elapsedDays)
  }

  // ---- The ranking ----

  function Steepness(row: Row): real {
    if !row.growth.flagged then 0.0 else match row.growth.pct case Some(pct) => pct case None => 0.0
  }

  /** Highlighted first and steepest first, then by consumption, then by key. */
  predicate Ahead(l: Row, r: Row, keyLe: (Key, Key) -> bool) {
    if l.growth.flagged != r.growth.flagged then l.growth.flagged
    else if Steepness(l) != Steepness(r) then Steepness(l) > Steepness(r)
    else if l.consumedCents != r.consumedCents then l.consumedCents > r.consumedCents
    else keyLe(l.key, r.key)
  }

  function Ranking(keyLe: (Key, Key) -> bool): (Row, Row) -> bool { (l: Row, r: Row) => Ahead(l, r, keyLe) }

  /** The ranking orders any two rows, and leaves rows of different keys in no doubt. */
  lemma RankingDecides(keyLe: (Key, Key) -> bool)
    requires TotalOrder(keyLe)
    ensures TotalPreorder(Ranking(keyLe))
    ensures forall l, r :: Ranking(keyLe)(l, r) && Ranking(keyLe)(r, l) ==> l.key == r.key
  {
  }

  function Top(rows: seq<Row>, limit: int): seq<Row> {
    if limit <= 0 then [] else if limit >= |rows| then rows else rows[..limit]
  }

  function Highlighted(): Row -> int { (r: Row) => if r.growth.flagged then 1 else 0 }

  function ScoreFlagged(): Row -> int { (r: Row) => if r.score >= FLAG_SCORE then 1 else 0 }

  function Scored(requesters: seq<Creator>, branches: InsertionMap<int, BranchMonth>, patternMonths: seq<Month>,
                  monthsByKey: map<Key, seq<MonthConsumption>>, elapsedDays: int): seq<Row>
    requires branches.Valid()
  {
    Mapped(Scoring(branches.at, branches.Values(), patternMonths, monthsByKey, elapsedDays), requesters)
  }

  /** Each branch is kept under its own id. */
  ghost predicate KeptById(branches: InsertionMap<int, BranchMonth>) {
    branches.Valid() && forall b :: b in branches.at ==> branches.at[b].branchId == b
  }

  method PeersByBranch(all: seq<BranchMonth>) returns (peers: map<int, seq<BranchMonth>>)
    ensures forall b :: b in peers ==> peers[b] == Peers(all, b)
  {
    peers := map[];
    for i := 0 to |all|
      invariant forall b :: b in peers ==> peers[b] == Peers(all, b)
    {
      peers := peers[all[i].branchId := Peers(all, all[i].branchId)];
    }
  }

  method ScoreAll(requesters: seq<Creator>, branches: InsertionMap<int, BranchMonth>, patternMonths: seq<Month>,
                  monthsByKey: map<Key, seq<MonthConsumption>>, elapsedDays: int)
    returns (scored: seq<Row>)
    requires KeptById(branches)
    ensures scored == Scored(requesters, branches, patternMonths, monthsByKey, elapsedDays)
  {
    var all := branches.Values();
    var peersByBranch := PeersByBranch(all);
    scored := [];
    for i := 0 to |requesters|
      invariant scored == Scored(requesters[..i], branches, patternMonths, monthsByKey, elapsedDays)
    {
      var row := requesters[i];
      var id := row.key.branchId;
      var branch := if id in branches.at then branches.at[id]
                    else BranchMonth(id, Consumed(row), 0, if Consumed(row) > 0 then 1 else 0, 0, 0);
      var peers := if id in peersByBranch then peersByBranch[id] else Peers(all, id);
      MappedOfOneMore(Scoring(branches.at, all, patternMonths, monthsByKey, elapsedDays), requesters, i);
      var next := ScoreRequester(row, branch, peers, MonthsFor(row.key, patternMonths, monthsByKey), elapsedDays);
      scored := scored + [next];
    }
    assert requesters[..|requesters|] == requesters;
  }

  method BuildWatchlist(requesters: seq<Creator>, branches: InsertionMap<int, BranchMonth>, patternMonths: seq<Month>,
                        monthsByKey: map<Key, seq<MonthConsumption>>, elapsedDays: int, limit: int, keyLe: (Key, Key) -> bool)
    returns (rows: seq<Row>, highlightedCount: int, scoreFlaggedCount: int, requesterCount: nat)
    requires KeptById(branches)
    ensures var scored := Scored(requesters, branches, patternMonths, monthsByKey, elapsedDays);
            && rows == Top(Sort(scored, Ranking(keyLe)), limit)
            && highlightedCount == Sum(Highlighted(), scored)
            && scoreFlaggedCount == Sum(ScoreFlagged(), scored)
    ensures requesterCount == |requesters|
  {
    var scored := ScoreAll(requesters, branches, patternMonths, monthsByKey, elapsedDays);
    var ranked := Sort(scored, Ranking(keyLe));
    SortKeepsAll(scored, Ranking(keyLe));
    SumOfPermutation(Highlighted(), scored, ranked);
    SumOfPermutation(ScoreFlagged(), scored, ranked);
    rows := Top(ranked, limit);
    highlightedCount, scoreFlaggedCount := CountFlags(ranked);
    requesterCount := |ranked|;
  }

  method CountFlags(rows: seq<Row>) returns (highlighted: int, scoreFlagged: int)
    ensures highlighted == Sum(Highlighted(), rows) && scoreFlagged == Sum(ScoreFlagged(), rows)
  {
    highlighted, scoreFlagged := 0, 0;
    for i := 0 to |rows|
      invariant highlighted == Sum(Highlighted(), rows[..i]) && scoreFlagged == Sum(ScoreFlagged(), rows[..i])
    {
      assert rows[..i + 1] == rows[..i] + [rows[i]];
      SumOfOneMore(Highlighted(), rows[..i], rows[i]);
      SumOfOneMore(ScoreFlagged(), rows[..i], rows[i]);
      if rows[i].growth.flagged { highlighted := highlighted + 1; }
      if rows[i].score >= FLAG_SCORE { scoreFlagged := scoreFlagged + 1; }
    }
    assert rows[..|rows|] == rows;
  }

  /** A branch's peers are exactly the other branches: never itself. */
  lemma {:induction false} PeersAreTheOthers(all: seq<BranchMonth>, branchId: int, b: BranchMonth)
    ensures b in Peers(all, branchId) <==> b in all && b.branchId != branchId
  {
    if all != [] {
      assert all == [all[0]] + all[1..];
      PeersAreTheOthers(all[1..], branchId, b);
    }
  }

  /** The highlighted rows are exactly the first `highlightedCount` of the ranking. */
  lemma HighlightsLead(scored: seq<Row>, keyLe: (Key, Key) -> bool, i: nat)
    requires TotalOrder(keyLe) && i < |scored|
    ensures |Sort(scored, Ranking(keyLe))| == |scored|
    ensures Sort(scored, Ranking(keyLe))[i].growth.flagged <==> i < Sum(Highlighted(), scored)
  {
    var ranked := Sort(scored, Ranking(keyLe));
    RankingDecides(keyLe);
    SortSorts(scored, Ranking(keyLe));
    SortKeepsAll(scored, Ranking(keyLe));
    SumOfPermutation(Highlighted(), scored, ranked);
    forall j, k | 0 <= j < k < |ranked| && ranked[k].growth.flagged ensures ranked[j].growth.flagged {
      assert Ranking(keyLe)(ranked[j], ranked[k]);
    }
    LeadingRun(ranked, i);
  }

  lemma LeadingRun(ranked: seq<Row>, i: nat)
    requires i < |ranked|
    requires forall j, k :: 0 <= j < k < |ranked| && ranked[k].growth.flagged ==> ranked[j].growth.flagged
    ensures ranked[i].growth.flagged <==> i < Sum(Highlighted(), ranked)
  {
    if ranked[i].growth.flagged {
      RunCounts(Highlighted(), ranked, 0, i + 1);
    } else {
      assert ranked == ranked[..i] + ranked[i..];
      SumOfMore(Highlighted(), ranked[..i], ranked[i..]);
      SumOfZeros(Highlighted(), ranked[i..]);
      AtMostOneEach(ranked[..i]);
    }
  }

  lemma {:induction false} AtMostOneEach(rows: seq<Row>)
    ensures Sum(Highlighted(), rows) <= |rows|
  {
    if rows != [] { AtMostOneEach(rows[1..]); }
  }

  /** The list holds the rows nothing unlisted is ahead of, each scored requester at most once. */
  lemma ListedAreAhead(scored: seq<Row>, keyLe: (Key, Key) -> bool, limit: int)
    requires TotalOrder(keyLe)
    ensures var ranked := Sort(scored, Ranking(keyLe));
            var top := Top(ranked, limit);
            && |top| == (if limit <= 0 then 0 else if limit <= |scored| then limit else |scored|)
            && multiset(top) + multiset(ranked[|top|..]) == multiset(scored)
            && forall l, u :: l in top && u in ranked[|top|..] ==> Ranking(keyLe)(l, u)
  {
    var ranked := Sort(scored, Ranking(keyLe));
    RankingDecides(keyLe);
    SortSorts(scored, Ranking(keyLe));
    SortKeepsAll(scored, Ranking(keyLe));
    var top := Top(ranked, limit);
    assert ranked == top + ranked[|top|..];
  }

  lemma ValuesForgetOrder(a: InsertionMap<int, BranchMonth>, b: InsertionMap<int, BranchMonth>)
    requires KeptById(a) && KeptById(b) && a.at == b.at
    ensures multiset(a.Values()) == multiset(b.Values())
  {
    ValuesAreDistinct(a);
    ValuesAreDistinct(b);
    forall v ensures v in a.Values() <==> v in b.Values() {
      ValueIn(a, v);
      ValueIn(b, v);
    }
    DistinctIsASet(a.Values(), b.Values());
  }

  lemma ValuesAreDistinct(a: InsertionMap<int, BranchMonth>)
    requires KeptById(a)
    ensures forall i, j :: 0 <= i < j < |a.Values()| ==> a.Values()[i] != a.Values()[j]
  {
    forall i | 0 <= i < |a.keys| ensures a.Values()[i].branchId == a.keys[i] {
      assert a.keys[i] in a.at;
    }
  }

  lemma ValueIn(a: InsertionMap<int, BranchMonth>, v: BranchMonth)
    requires KeptById(a)
    ensures v in a.Values() <==> v.branchId in a.at && a.at[v.branchId] == v
  {
    var values := a.Values();
    if v in values {
      var i :| 0 <= i < |values| && values[i] == v;
      assert a.keys[i] in a.at && a.at[a.keys[i]] == v;
      assert v.branchId == a.keys[i];
    }
    if v.branchId in a.at && a.at[v.branchId] == v {
      assert v.branchId in a.keys;
      var i :| 0 <= i < |a.keys| && a.keys[i] == v.branchId;
      assert values[i] == v;
    }
  }

  /** With one row per requester the ranking depends on no order: neither that of the requesters nor that of the branches. */
  lemma WatchlistForgetsOrder(a: seq<Creator>, b: seq<Creator>, branches: InsertionMap<int, BranchMonth>, reordered: InsertionMap<int, BranchMonth>,
                              patternMonths: seq<Month>, monthsByKey: map<Key, seq<MonthConsumption>>, elapsedDays: int,
                              keyLe: (Key, Key) -> bool)
    requires TotalOrder(keyLe) && OnePerKey(a) && multiset(a) == multiset(b)
    requires KeptById(branches) && KeptById(reordered) && branches.at == reordered.at
    ensures Sort(Scored(a, branches, patternMonths, monthsByKey, elapsedDays), Ranking(keyLe)) ==
            Sort(Scored(b, reordered, patternMonths, monthsByKey, elapsedDays), Ranking(keyLe))
  {
    var f := Scoring(branches.at, branches.Values(), patternMonths, monthsByKey, elapsedDays);
    var g := Scoring(branches.at, reordered.Values(), patternMonths, monthsByKey, elapsedDays);
    ValuesForgetOrder(branches, reordered);
    forall row: Creator ensures f(row) == g(row) {
      GatheredOfPermutation(OtherThan(row.key.branchId), branches.Values(), reordered.Values());
      MedianForgetsOrder(Peers(branches.Values(), row.key.branchId), Peers(reordered.Values(), row.key.branchId));
      OnlyTheMedianCounts(row, BranchFor(row, branches.at), Peers(branches.Values(), row.key.branchId),
                          Peers(reordered.Values(), row.key.branchId), MonthsFor(row.key, patternMonths, monthsByKey), elapsedDays);
    }
    assert Mapped(f, b) == Mapped(g, b);
    MappedOfPermutation(f, a, b);
    RankingDecides(keyLe);
    RowsOfDistinctKeys(f, a);
    SortIgnoresArrivalOrder(Mapped(f, a), Mapped(f, b), Ranking(keyLe));
  }

  lemma RowsOfDistinctKeys(f: Creator -> Row, a: seq<Creator>)
    requires OnePerKey(a) && forall row :: f(row).key == row.key
    ensures forall x, y :: x in Mapped(f, a) && y in Mapped(f, a) && x.key == y.key ==> x == y
  {
    forall x, y | x in Mapped(f, a) && y in Mapped(f, a) && x.key == y.key ensures x == y {
      var i :| 0 <= i < |a| && Mapped(f, a)[i] == x;
      var j :| 0 <= j < |a| && Mapped(f, a)[j] == y;
    }
  }

  // ---- The order, read off the rows ----

  /** Highlighted rows first, the steepest growth first; of one growth, and of the others, whoever consumed more first;
      and of one figure the lower key first. */
  predicate StandsBefore(l: Row, r: Row, keyLe: (Key, Key) -> bool) {
    && (r.growth.flagged ==> l.growth.flagged)
    && (r.growth.flagged && l.growth.pct.Some? && r.growth.pct.Some? ==>
          && l.growth.pct.value >= r.growth.pct.value
          && (l.growth.pct.value == r.growth.pct.value ==> SpentMore(l, r, keyLe)))
    && (!l.growth.flagged ==> SpentMore(l, r, keyLe))
  }

  predicate SpentMore(l: Row, r: Row, keyLe: (Key, Key) -> bool) {
    l.consumedCents >= r.consumedCents && (l.consumedCents == r.consumedCents ==> keyLe(l.key, r.key))
  }

  /** Any earlier row of the ranking stands before any later one, listed or not. */
  lemma RankedRowsStandInOrder(scored: seq<Row>, keyLe: (Key, Key) -> bool, limit: int, i: nat, j: nat)
    requires TotalOrder(keyLe) && i < j < |Sort(scored, Ranking(keyLe))|
    requires forall r :: r in scored && r.growth.flagged ==> r.growth.pct.Some?
    ensures StandsBefore(Sort(scored, Ranking(keyLe))[i], Sort(scored, Ranking(keyLe))[j], keyLe)
    ensures |Top(Sort(scored, Ranking(keyLe)), limit)| <= |scored|
    ensures forall k :: 0 <= k < |Top(Sort(scored, Ranking(keyLe)), limit)| ==>
              Top(Sort(scored, Ranking(keyLe)), limit)[k] == Sort(scored, Ranking(keyLe))[k]
  {
    var ranked := Sort(scored, Ranking(keyLe));
    RankingDecides(keyLe);
    SortSorts(scored, Ranking(keyLe));
    SortKeepsAll(scored, Ranking(keyLe));
    assert Ranking(keyLe)(ranked[i], ranked[j]);
    assert ranked[i] in scored && ranked[j] in scored;
  }

  // ---- The figures of a row ----

  predicate IsPercentage(pct: real, part: real, whole: real) { pct * whole == 100.0 * part }

  lemma PercentageIs(part: real, whole: real)
    requires whole != 0.0
    ensures IsPercentage(part / whole * 100.0, part, whole)
  {
    assert part / whole * whole == part;
    assert (part / whole * 100.0) * whole == 100.0 * (part / whole * whole);
  }

  /** Every figure on a row is the requester's own, nothing below zero. */
  lemma FiguresAreTheRequesters(row: Creator, branch: BranchMonth, peers: seq<BranchMonth>, given: seq<MonthConsumption>, elapsedDays: int)
    ensures var r := RowFor(row, branch, peers, given, elapsedDays);
            && r.key == row.key
            && r.spendCents == (if row.data.spendCents > 0 then row.data.spendCents else 0)
            && r.pendingCents == (if row.data.pendingCents > 0 then row.data.pendingCents else 0)
            && r.consumedCents == r.spendCents + r.pendingCents
            && r.orderCount == row.data.orderCount
            && r.pendingOrderCount == row.data.pendingOrderCount
            && r.rejectedOrderCount == row.data.rejectedOrderCount
            && |r.months| == |given|
            && (forall k :: 0 <= k < |given| && given[k].spendCents >= 0 && given[k].pendingCents >= 0 && given[k].consumedCents >= 0 ==>
                  r.months[k] == given[k])
            && (forall k :: 0 <= k < |given| ==>
                  r.months[k].month == given[k].month
                  && r.months[k].spendCents >= 0 && r.months[k].pendingCents >= 0 && r.months[k].consumedCents >= 0)
  {
  }

  /** Growth is that of the last month over the one before it, and there is none over nothing. */
  lemma GrowthIsOfTheLastMonth(months: seq<MonthConsumption>)
    requires forall m :: m in months ==> m.consumedCents >= 0
    ensures var growth, n := MonthOverMonth(months), |months|;
            && (growth.pct.Some? <==> n >= 2 && months[n - 2].consumedCents > 0)
            && (growth.pct.Some? ==>
                  IsPercentage(growth.pct.value, (months[n - 1].consumedCents - months[n - 2].consumedCents) as real, months[n - 2].consumedCents as real))
            && (growth.flagged ==> growth.pct.Some?)
  {
    var n := |months|;
    if n >= 2 {
      assert months[n - 1] in months && months[n - 2] in months;
      if months[n - 2].consumedCents > 0 {
        PercentageIs((months[n - 1].consumedCents - months[n - 2].consumedCents) as real, months[n - 2].consumedCents as real);
      }
    }
  }

  /** The percentages on a row are of what they are named for. */
  lemma PercentagesAreOfTheirWhole(row: Creator, branch: BranchMonth, peers: seq<BranchMonth>, given: seq<MonthConsumption>, elapsedDays: int)
    ensures var r := RowFor(row, branch, peers, given, elapsedDays);
            && (branch.consumedCents != 0 ==> IsPercentage(r.sharePct, r.consumedCents as real, branch.consumedCents as real))
            && (branch.consumedCents == 0 ==> r.sharePct == 0.0)
            && (r.utilizationPct.Some? <==> branch.totalBudgetCents > 0)
            && (r.utilizationPct.Some? ==> IsPercentage(r.utilizationPct.value, branch.consumedCents as real, branch.totalBudgetCents as real))
            && r.peerMedianPct == Median(peers)
            && (r.vsPeerPct.Some? <==> r.utilizationPct.Some? && r.peerMedianPct.Some? && r.peerMedianPct.value > 0.0)
            && (r.vsPeerPct.Some? ==>
                  IsPercentage(r.vsPeerPct.value, r.utilizationPct.value - r.peerMedianPct.value, r.peerMedianPct.value))
            && (r.recentSharePct.Some? <==> elapsedDays >= 14 && r.consumedCents > 0)
            && (r.recentSharePct.Some? && row.data.recentConsumedCents >= 0 ==>
                  IsPercentage(r.recentSharePct.value, row.data.recentConsumedCents as real, r.consumedCents as real))
            && r.growth == MonthOverMonth(r.months)
  {
    var r := RowFor(row, branch, peers, given, elapsedDays);
    if branch.consumedCents != 0 { PercentageIs(Consumed(row) as real, branch.consumedCents as real); }
    if branch.totalBudgetCents > 0 { PercentageIs(branch.consumedCents as real, branch.totalBudgetCents as real); }
    if r.vsPeerPct.Some? { PercentageIs(r.utilizationPct.value - r.peerMedianPct.value, r.peerMedianPct.value); }
    if r.recentSharePct.Some? { PercentageIs(Max(0, row.data.recentConsumedCents) as real, Consumed(row) as real); }
  }

  /** Each reason agrees with the figures shown beside it. */
  lemma ReasonsAgreeWithTheFigures(row: Creator, branch: BranchMonth, peers: seq<BranchMonth>, given: seq<MonthConsumption>, elapsedDays: int)
    ensures var r := RowFor(row, branch, peers, given, elapsedDays);
            && (HighShare in r.reasons <==> branch.activeRequesterCount >= 2 && branch.consumedCents >= 2_000_000 && r.sharePct >= 40.0)
            && (MomSpike in r.reasons <==> r.growth.flagged)
            && (AbovePeers in r.reasons <==> r.vsPeerPct.Some? && r.vsPeerPct.value >= 50.0)
            && (LateSurge in r.reasons <==> r.consumedCents >= 500_000 && r.recentSharePct.Some? && r.recentSharePct.value >= 50.0)
            && (RejectedOrders in r.reasons <==> r.rejectedOrderCount >= 3)
    ensures var r := RowFor(row, branch, peers, given, elapsedDays);
            HighHeld in r.reasons <==>
              r.pendingCents > 0 && (if branch.totalBudgetCents > 0 then 100 * r.pendingCents >= 20 * branch.totalBudgetCents else r.pendingCents >= 2_500_000)
  {
    var months := Mapped(Clamped, given);
    ReasonsRaised(row, branch, peers, months, elapsedDays);
    HighShareInCents(row, branch);
    HighlightInCents(months);
    AbovePeersWithoutDividing(Utilization(branch), Median(peers));
    LateSurgeInCents(row, elapsedDays);
  }

  lemma ReasonsRaised(row: Creator, branch: BranchMonth, peers: seq<BranchMonth>, months: seq<MonthConsumption>, elapsedDays: int)
    ensures var given := Reasons(row, branch, peers, months, elapsedDays);
            && (HighShare in given <==> Raises(HighShare, row, branch, peers, months, elapsedDays))
            && (MomSpike in given <==> Raises(MomSpike, row, branch, peers, months, elapsedDays))
            && (AbovePeers in given <==> Raises(AbovePeers, row, branch, peers, months, elapsedDays))
            && (LateSurge in given <==> Raises(LateSurge, row, branch, peers, months, elapsedDays))
            && (HighHeld in given <==> Raises(HighHeld, row, branch, peers, months, elapsedDays))
            && (RejectedOrders in given <==> Raises(RejectedOrders, row, branch, peers, months, elapsedDays))
  {
    GivenWhenRaised(Raises(HighShare, row, branch, peers, months, elapsedDays), Raises(MomSpike, row, branch, peers, months, elapsedDays),
                    Raises(AbovePeers, row, branch, peers, months, elapsedDays), Raises(LateSurge, row, branch, peers, months, elapsedDays),
                    Raises(HighHeld, row, branch, peers, months, elapsedDays), Raises(RejectedOrders, row, branch, peers, months, elapsedDays));
  }

  lemma GivenWhenRaised(share: bool, spike: bool, above: bool, surge: bool, held: bool, rejected: bool)
    ensures var given := If(share, HighShare) + If(spike, MomSpike) + If(above, AbovePeers) + If(surge, LateSurge)
                         + If(held, HighHeld) + If(rejected, RejectedOrders);
            forall r :: r in given <==>
              match r
              case HighShare => share
              case MomSpike => spike
              case AbovePeers => above
              case LateSurge => surge
              case HighHeld => held
              case RejectedOrders => rejected
  {
    var s1 := If(share, HighShare);
    var s2 := s1 + If(spike, MomSpike);
    var s3 := s2 + If(above, AbovePeers);
    var s4 := s3 + If(surge, LateSurge);
    var s5 := s4 + If(held, HighHeld);
    var s6 := s5 + If(rejected, RejectedOrders);
    InEither(s1, If(spike, MomSpike));
    InEither(s2, If(above, AbovePeers));
    InEither(s3, If(surge, LateSurge));
    InEither(s4, If(held, HighHeld));
    InEither(s5, If(rejected, RejectedOrders));
  }

  lemma InEither(a: seq<Reason>, b: seq<Reason>)
    ensures forall r :: r in a + b <==> r in a || r in b
  {
  }

  /** Each requester is scored against their own branch when the month has it, the other branches, and their own months. */
  lemma ScoredAgainstTheirOwn(requesters: seq<Creator>, branches: InsertionMap<int, BranchMonth>, patternMonths: seq<Month>,
                              monthsByKey: map<Key, seq<MonthConsumption>>, elapsedDays: int, i: nat)
    requires branches.Valid() && i < |requesters|
    requires requesters[i].key.branchId in branches.at && requesters[i].key in monthsByKey
    ensures |Scored(requesters, branches, patternMonths, monthsByKey, elapsedDays)| == |requesters|
    ensures Scored(requesters, branches, patternMonths, monthsByKey, elapsedDays)[i] ==
            RowFor(requesters[i], branches.at[requesters[i].key.branchId], Peers(branches.Values(), requesters[i].key.branchId),
                   monthsByKey[requesters[i].key], elapsedDays)
  {
  }

  /** A requester the month's summary has no branch for is the whole of it, with no budget; one without months has none. */
  lemma ScoredAlone(requesters: seq<Creator>, branches: InsertionMap<int, BranchMonth>, patternMonths: seq<Month>,
                    monthsByKey: map<Key, seq<MonthConsumption>>, elapsedDays: int, i: nat)
    requires branches.Valid() && i < |requesters|
    ensures var r := Scored(requesters, branches, patternMonths, monthsByKey, elapsedDays)[i];
            && (requesters[i].key.branchId !in branches.at ==>
                  r.utilizationPct.None? && r.sharePct == if r.consumedCents > 0 then 100.0 else 0.0)
            && (requesters[i].key !in monthsByKey ==>
                  |r.months| == |patternMonths|
                  && forall k :: 0 <= k < |patternMonths| ==> r.months[k] == MonthConsumption(patternMonths[k], 0, 0, 0))
  {
    WholeOfItself(Consumed(requesters[i]));
    BlankCells(patternMonths);
  }

  lemma WholeOfItself(cents: int)
    requires cents >= 0
    ensures Share(cents, cents) == if cents == 0 then 0.0 else 100.0
  {
    if cents > 0 {
      var c := cents as real;
      assert c / c * c == 1.0 * c;
      SameFactor(c / c, 1.0, c);
    }
  }
}
