/** The Gregorian calendar in Asia/Karachi, a fixed five hours ahead of UTC.
    Instants are milliseconds since the Unix epoch. */
module Calendar {

  const DAY_MS := 86_400_000
  const OFFSET_MS := 18_000_000

  /** 1970-01-01, counted in days from 0000-01-01. */
  const EPOCH_DAY := 719_528

  datatype Month = Month(year: nat, month: nat) {
    predicate Valid() { 1 <= month <= 12 }

    /** Months since January of year 0. */
    function Index(): int { year * 12 + month - 1 }

    function Next(): Month { if month == 12 then Month(year + 1, 1) else Month(year, month + 1) }
  }

  predicate IsLeap(year: nat) { year % 4 == 0 && (year % 100 != 0 || year % 400 == 0) }

  function DaysInMonth(m: Month): (d: nat)
    requires m.Valid()
    ensures 28 <= d <= 31
  {
    if m.month == 2 then if IsLeap(m.year) then 29 else 28
    else if m.month == 4 || m.month == 6 || m.month == 9 || m.month == 11 then 30
    else 31
  }

  function YearStart(year: nat): nat {
    if year == 0 then 0 else YearStart(year - 1) + if IsLeap(year - 1) then 366 else 365
  }

  /** The days of a year's first `n` months, from the table of a common year. */
  function DaysThrough(year: nat, n: nat): nat
    requires n <= 12
  {
    [0, 31, 59, 90, 120, 151, 181, 212, 243, 273, 304, 334, 365][n] + if n >= 2 && IsLeap(year) then 1 else 0
  }

  /** The first day of a month, in days from 0000-01-01. */
  function FirstDay(m: Month): nat
    requires m.Valid()
  {
    YearStart(m.year) + DaysThrough(m.year, m.month - 1)
  }

  /** Each month begins the day after the one before it ends. */
  lemma NextMonthFollows(m: Month)
    requires m.Valid()
    ensures m.Next().Valid() && FirstDay(m.Next()) == FirstDay(m) + DaysInMonth(m)
  {
    assert YearStart(m.year + 1) == YearStart(m.year) + if IsLeap(m.year) then 366 else 365;
  }

  lemma {:induction false} MonthsAscend(m: Month, n: Month)
    requires m.Valid() && n.Valid() && m.Index() < n.Index()
    ensures FirstDay(m) + DaysInMonth(m) <= FirstDay(n)
    decreases n.Index() - m.Index()
  {
    NextMonthFollows(m);
    if m.Next() != n { MonthsAscend(m.Next(), n); }
  }

  /** The days before a year, counted by the leap-year rule. */
  function DaysBeforeYear(year: nat): int {
    365 * year + (year + 3) / 4 + (year + 399) / 400 - (year + 99) / 100
  }

  lemma FourYearSteps(year: nat)
    ensures (year + 4) / 4 == (year + 3) / 4 + if year % 4 == 0 then 1 else 0
  {
  }

  lemma CenturySteps(year: nat)
    ensures (year + 100) / 100 == (year + 99) / 100 + if year % 100 == 0 then 1 else 0
  {
  }

  lemma FourCenturySteps(year: nat)
    ensures (year + 400) / 400 == (year + 399) / 400 + if year % 400 == 0 then 1 else 0
  {
  }

  lemma DividesDown(year: nat)
    ensures year % 100 == 0 ==> year % 4 == 0
    ensures year % 400 == 0 ==> year % 100 == 0
  {
    if year % 100 == 0 {
      assert year == 4 * (25 * (year / 100));
    }
    if year % 400 == 0 {
      assert year == 100 * (4 * (year / 400));
    }
  }

  /** Each year lengthens the count by its own length. */
  lemma OneYearMore(year: nat)
    ensures DaysBeforeYear(year + 1) == DaysBeforeYear(year) + if IsLeap(year) then 366 else 365
  {
    FourYearSteps(year);
    CenturySteps(year);
    FourCenturySteps(year);
    DividesDown(year);
  }

  /** The years' lengths add up to the leap-year rule's count, and the epoch is the first day of 1970. */
  lemma {:induction false} YearsAddUp(year: nat)
    ensures YearStart(year) == DaysBeforeYear(year)
    ensures year == 1970 ==> YearStart(year) == EPOCH_DAY
  {
    if year > 0 {
      YearsAddUp(year - 1);
      OneYearMore(year - 1);
    }
  }

  // ---- Instants and days ----

  /** The calendar day an instant falls on, in days from 0000-01-01. */
  function DayOf(instant: int): int { (instant + OFFSET_MS) / DAY_MS + EPOCH_DAY }

  function StartOfDay(day: int): int { (day - EPOCH_DAY) * DAY_MS - OFFSET_MS }

  function EndOfDay(day: int): int { StartOfDay(day) + DAY_MS - 1 }

  lemma DaysAreOrdered(instant: int, day: int)
    ensures instant <= EndOfDay(day) <==> DayOf(instant) <= day
    ensures StartOfDay(day) <= instant <==> day <= DayOf(instant)
  {
  }

  predicate HoldsDay(m: Month, day: int) { m.Valid() && FirstDay(m) <= day < FirstDay(m) + DaysInMonth(m) }

  /** The month a day is in: that of the day before, unless the day begins the next. */
  function MonthOfDay(day: nat): (m: Month)
    ensures m.Valid()
  {
    if day < 31 then Month(day / 31, 1)
    else
      var before := MonthOfDay(day - 1);
      if day < FirstDay(before) + DaysInMonth(before) then before else before.Next()
  }

  lemma InFirstMonth(day: nat, year: nat)
    requires day < 31 && year == 0
    ensures HoldsDay(Month(year, 1), day)
  {
  }

  lemma {:induction false} MonthHoldsDay(day: nat)
    ensures HoldsDay(MonthOfDay(day), day)
  {
    if day < 31 {
      InFirstMonth(day, day / 31);
    } else {
      MonthHoldsDay(day - 1);
      NextMonthFollows(MonthOfDay(day - 1));
    }
  }

  /** The instants the calendar reaches: from year 0 on. */
  predicate HasDate(instant: int) { DayOf(instant) >= 0 }

  function MonthOf(instant: int): (m: Month)
    requires HasDate(instant)
    ensures HoldsDay(m, DayOf(instant))
  {
    MonthHoldsDay(DayOf(instant));
    MonthOfDay(DayOf(instant))
  }

  /** The day of its month an instant is on. */
  function DayOfMonth(instant: int): (d: nat)
    requires HasDate(instant)
    ensures 1 <= d <= DaysInMonth(MonthOf(instant))
  {
    DayOf(instant) - FirstDay(MonthOf(instant)) + 1
  }

  /** A day is in one month; other months stand before or after it as their days do. */
  lemma DayInMonth(n: Month, m: Month, day: int)
    requires HoldsDay(n, day) && m.Valid()
    ensures n == m <==> HoldsDay(m, day)
    ensures n.Index() < m.Index() <==> day < FirstDay(m)
    ensures n.Index() > m.Index() <==> day >= FirstDay(m) + DaysInMonth(m)
  {
    if n.Index() < m.Index() {
      MonthsAscend(n, m);
    } else if m.Index() < n.Index() {
      MonthsAscend(m, n);
    } else {
      SameIndex(n, m);
    }
  }

  lemma SameIndex(n: Month, m: Month)
    requires n.Valid() && m.Valid() && n.Index() == m.Index()
    ensures n == m
  {
  }

  /** An instant's month is the one whose days hold it; months stand as their days do. */
  lemma InstantOfMonth(t: int, m: Month)
    requires HasDate(t) && m.Valid()
    ensures MonthOf(t) == m <==> HoldsDay(m, DayOf(t))
    ensures MonthOf(t).Index() < m.Index() <==> DayOf(t) < FirstDay(m)
    ensures MonthOf(t).Index() > m.Index() <==> DayOf(t) >= FirstDay(m) + DaysInMonth(m)
  {
    DayInMonth(MonthOf(t), m, DayOf(t));
  }

  /** A day in Karachi begins at seven in the evening UTC; the epoch is on 1970-01-01. */
  lemma DaysBeginAtSevenInTheEvening(day: int)
    ensures DayOf(0) == 719_528
    ensures StartOfDay(day) == (day - 719_528) * 24 * 3_600_000 - 5 * 3_600_000
    ensures DayOf(StartOfDay(day)) == day && DayOf(StartOfDay(day) - 1) == day - 1
  {
  }
}
