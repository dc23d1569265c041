/** The windows a month's watchlist compares (lib/budget-burn-risk.ts): the selected
    month so far, the months before it cut on the same day, and the last days of it. */
module MonthWindows {
  import opened Numbers
  import opened Calendar

  const PATTERN_MONTHS: nat := 3
  const MAX_MONTHS_BACK := 24
  const LATE_SURGE_DAYS := 7

  datatype Bucket = Bucket(month: Month, start: int, end: int, complete: bool)

  datatype Current = Current(start: int, end: int, complete: bool, elapsedDays: nat, daysInMonth: nat)

  datatype Span = Span(start: int, end: int)

  datatype Windows =
    | Windows(month: Month, current: Current, pattern: seq<Bucket>, recent: Span)
    | InTheFuture
    | TooFarBack

  /** The month `delta` away, carrying across years. */
  function ShiftMonth(m: Month, delta: int): (r: Month)
    requires m.Valid() && m.Index() + delta >= 0
    ensures r.Valid() && r.Index() == m.Index() + delta
  {
    var index := m.year * 12 + (m.month - 1) + delta;
    Month(index / 12, index % 12 + 1)
  }

  function MonthsBetween(earlier: Month, later: Month): int {
    (later.year - earlier.year) * 12 + (later.month - earlier.month)
  }

  /** Counting months undoes shifting by them, across any years, both ways. */
  lemma MonthsBetweenUndoesShift(m: Month, delta: int, later: Month)
    requires m.Valid() && later.Valid() && m.Index() + delta >= 0
    ensures MonthsBetween(m, ShiftMonth(m, delta)) == delta
    ensures ShiftMonth(m, MonthsBetween(m, later)) == later
  {
  }

  /** A month the pattern's other months can be counted back from. */
  predicate Selectable(m: Month) { m.Valid() && m.Index() >= PATTERN_MONTHS - 1 }

  /** A clock whose own key, and those of the months it lets one look back on, have four digits. */
  predicate Modern(now: int) { HasDate(now) && 1003 <= MonthOf(now).year <= 9999 }

  /** The instants from `start` to `end` are exactly those of the month's first `days` days. */
  ghost predicate CoversDays(start: int, end: int, month: Month, days: nat) {
    forall t :: HasDate(t) ==> (start <= t <= end <==> MonthOf(t) == month && DayOfMonth(t) <= days)
  }

  /** The instants from `start` to `end` are exactly those of the month up to the clock. */
  ghost predicate CoversUntil(start: int, end: int, month: Month, now: int) {
    forall t :: HasDate(t) ==> (start <= t <= end <==> MonthOf(t) == month && t <= now)
  }

  /** An older month covers its days up to the selected month's elapsed day, or all of them once that month is over. */
  ghost predicate OlderBucket(b: Bucket, month: Month, current: Current)
    requires month.Valid()
  {
    var days := if current.complete then DaysInMonth(month) else Min(current.elapsedDays, DaysInMonth(month));
    && b.month == month
    && CoversDays(b.start, b.end, month, days)
    && b.end - b.start + 1 == days * DAY_MS
    && (b.complete <==> days == DaysInMonth(month))
  }

  ghost predicate CurrentWindow(c: Current, month: Month, now: int)
    requires month.Valid() && HasDate(now)
  {
    && c.daysInMonth == DaysInMonth(month)
    && CoversUntil(c.start, c.end, month, now)
    && c.start <= c.end
    && (c.complete <==> MonthsBetween(month, MonthOf(now)) > 0)
    && c.elapsedDays == (if c.complete then DaysInMonth(month) else DayOfMonth(now))
  }

  /** What the windows of a month are. */
  ghost predicate Comparable(w: Windows, month: Month, now: int)
    requires Selectable(month) && HasDate(now)
  {
    && w.Windows? && w.month == month
    && CurrentWindow(w.current, month, now)
    && |w.pattern| == PATTERN_MONTHS
    && w.pattern[PATTERN_MONTHS - 1] == Bucket(month, w.current.start, w.current.end, w.current.complete)
    && (forall i :: 0 <= i < PATTERN_MONTHS - 1 ==> OlderBucket(w.pattern[i], ShiftMonth(month, i - (PATTERN_MONTHS - 1)), w.current))
    && w.recent.end == w.current.end
    && w.recent.start == Max(w.current.start, w.current.end - LATE_SURGE_DAYS * DAY_MS)
  }

  lemma FirstDaysAreCovered(month: Month, days: nat)
    requires month.Valid() && days <= DaysInMonth(month)
    ensures CoversDays(StartOfDay(FirstDay(month)), EndOfDay(FirstDay(month) + days - 1), month, days)
  {
    var first := FirstDay(month);
    forall t | HasDate(t)
      ensures StartOfDay(first) <= t <= EndOfDay(first + days - 1) <==> MonthOf(t) == month && DayOfMonth(t) <= days
    {
      InstantOfMonth(t, month);
      DaysAreOrdered(t, first);
      DaysAreOrdered(t, first + days - 1);
    }
  }

  lemma CutOnTheSameDay(older: Month, lastDay: nat, current: Current)
    requires older.Valid()
    requires lastDay == if current.complete then DaysInMonth(older) else Min(current.elapsedDays, DaysInMonth(older))
    ensures OlderBucket(Bucket(older, StartOfDay(FirstDay(older)), EndOfDay(FirstDay(older) + lastDay - 1),
                               current.complete || lastDay == DaysInMonth(older)), older, current)
  {
    FirstDaysAreCovered(older, lastDay);
  }

  /** The pattern's older months, oldest first. */
  method OlderBuckets(month: Month, current: Current) returns (pattern: seq<Bucket>)
    requires Selectable(month)
    ensures |pattern| == PATTERN_MONTHS - 1
    ensures forall i :: 0 <= i < |pattern| ==> OlderBucket(pattern[i], ShiftMonth(month, i - (PATTERN_MONTHS - 1)), current)
  {
    pattern := [];
    var back := PATTERN_MONTHS - 1;
    while back >= 1
      invariant 0 <= back <= PATTERN_MONTHS - 1
      invariant |pattern| == PATTERN_MONTHS - 1 - back
      invariant forall i :: 0 <= i < |pattern| ==> OlderBucket(pattern[i], ShiftMonth(month, i - (PATTERN_MONTHS - 1)), current)
    {
      var older := ShiftMonth(month, -back);
      var olderDays := DaysInMonth(older);
      var lastDay := if current.complete then olderDays else Min(current.elapsedDays, olderDays);
      var bucket := Bucket(older, StartOfDay(FirstDay(older)), EndOfDay(FirstDay(older) + lastDay - 1),
                           current.complete || lastDay == olderDays);
      CutOnTheSameDay(older, lastDay, current);
      assert |pattern| - (PATTERN_MONTHS - 1) == -back;
      pattern := pattern + [bucket];
      back := back - 1;
    }
  }

  method PlanMonthWindows(month: Month, now: int) returns (w: Windows)
    requires month.Valid() && month.year <= 9999 && Modern(now)
    ensures w.InTheFuture? <==> MonthsBetween(month, MonthOf(now)) < 0
    ensures w.TooFarBack? <==> MonthsBetween(month, MonthOf(now)) > MAX_MONTHS_BACK
    ensures w.Windows? ==> Selectable(month) && Comparable(w, month, now)
  {
    var days := DaysInMonth(month);
    var monthStart := StartOfDay(FirstDay(month));
    var monthEnd := EndOfDay(FirstDay(month) + days - 1);
    ClockAgainstMonth(month, now);
    if monthStart > now { return InTheFuture; }
    if MonthsBetween(month, MonthOf(now)) > MAX_MONTHS_BACK { return TooFarBack; }
    var complete := now > monthEnd;
    var elapsedDays := if complete then days else DayOfMonth(now);
    var currentEnd := if complete then monthEnd else now;
    var current := Current(monthStart, currentEnd, complete, elapsedDays, days);
    var pattern := OlderBuckets(month, current);
    pattern := pattern + [Bucket(month, monthStart, currentEnd, complete)];
    w := Windows(month, current, pattern, Span(Max(monthStart, currentEnd - LATE_SURGE_DAYS * DAY_MS), currentEnd));
  }

  /** Where the clock stands against the selected month, and what the current window then covers. */
  lemma ClockAgainstMonth(month: Month, now: int)
    requires month.Valid() && HasDate(now)
    ensures StartOfDay(FirstDay(month)) > now <==> MonthsBetween(month, MonthOf(now)) < 0
    ensures now > EndOfDay(FirstDay(month) + DaysInMonth(month) - 1) <==> MonthsBetween(month, MonthOf(now)) > 0
    ensures MonthsBetween(month, MonthOf(now)) >= 0 ==>
              var monthEnd := EndOfDay(FirstDay(month) + DaysInMonth(month) - 1);
              CoversUntil(StartOfDay(FirstDay(month)), if now > monthEnd then monthEnd else now, month, now)
  {
    InstantOfMonth(now, month);
    DaysAreOrdered(now, FirstDay(month));
    DaysAreOrdered(now, FirstDay(month) + DaysInMonth(month) - 1);
    FirstDaysAreCovered(month, DaysInMonth(month));
  }

  /** The pattern is consecutive months, oldest first, and every instant of a bucket is in its month. */
  lemma PatternMonths(w: Windows, month: Month, now: int, i: nat)
    requires Selectable(month) && HasDate(now) && Comparable(w, month, now) && i < PATTERN_MONTHS
    ensures MonthsBetween(w.pattern[i].month, month) == PATTERN_MONTHS - 1 - i
    ensures forall t :: HasDate(t) && In(t, w.pattern[i]) ==> MonthOf(t) == w.pattern[i].month
  {
    if i < PATTERN_MONTHS - 1 {
      assert OlderBucket(w.pattern[i], ShiftMonth(month, i - (PATTERN_MONTHS - 1)), w.current);
    }
  }

  predicate In(t: int, b: Bucket) { b.start <= t <= b.end }

  /** Every instant of a bucket is before every instant of a later one; and the recent days lie in the current window. */
  lemma BucketsAreConsecutive(w: Windows, month: Month, now: int, i: nat, j: nat)
    requires Selectable(month) && HasDate(now) && Comparable(w, month, now) && i < j < PATTERN_MONTHS
    ensures forall s, t :: HasDate(s) && HasDate(t) && In(s, w.pattern[i]) && In(t, w.pattern[j]) ==> s < t
    ensures MonthsBetween(w.pattern[i].month, w.pattern[j].month) == j - i
    ensures w.current.start <= w.recent.start <= w.recent.end == w.current.end
  {
    PatternMonths(w, month, now, i);
    PatternMonths(w, month, now, j);
    forall s, t | HasDate(s) && HasDate(t) && In(s, w.pattern[i]) && In(t, w.pattern[j]) ensures s < t {
      EarlierMonthsComeFirst(s, t);
    }
  }

  lemma EarlierMonthsComeFirst(s: int, t: int)
    requires HasDate(s) && HasDate(t) && MonthOf(s).Index() < MonthOf(t).Index()
    ensures s < t
  {
    MonthsAscend(MonthOf(s), MonthOf(t));
    DaysAreOrdered(s, DayOf(s));
    DaysAreOrdered(t, DayOf(s));
  }

  /** The figures of the windows: three months, none more than two years back, and up to the last seven days. */
  lemma WindowsInFigures(w: Windows, month: Month, now: int)
    requires Selectable(month) && HasDate(now) && Comparable(w, month, now)
    ensures |w.pattern| == 3
    ensures MAX_MONTHS_BACK == 24
    ensures w.recent.end - w.recent.start ==
            if w.current.end - w.current.start > 7 * 24 * 3_600_000 then 7 * 24 * 3_600_000 else w.current.end - w.current.start
  {
  }
}
