/**
 * Calendar ingestion, the body of `GET` in app/api/contributions/route.ts after
 * the calendar has been fetched: keep the last 52 weeks, map each day onto
 * grid[day][week] with a running total, find the date range, enumerate the
 * month labels, and apply the manual override table.
 */
module Ingestion {
  import opened GridBuffer
  import opened Wrappers

  type MonthNumber = m: int | 1 <= m <= 12 witness 1
  type DayOfMonth = d: int | 1 <= d <= 31 witness 1

  /** A calendar day; the ISO date string "2025-03-10" is Date(2025, 3, 10), and two
      date strings are equal exactly when their dates are. */
  datatype Date = Date(year: int, month: MonthNumber, day: DayOfMonth)

  /** Strictly earlier in the calendar. */
  predicate Before(a: Date, b: Date)
  {
    a.year < b.year || (a.year == b.year && (a.month < b.month || (a.month == b.month && a.day < b.day)))
  }

  predicate NotAfter(a: Date, b: Date)
  {
    !Before(b, a)
  }

  /** One entry of `contributionDays`; a missing count reads as 0. */
  datatype ContributionDay = ContributionDay(date: Date, contributionCount: Option<int>)

  /** One week of the calendar; a missing `contributionDays` list reads as empty. */
  datatype Week = Week(contributionDays: Option<seq<ContributionDay>>)

  /** A manual correction: the count a date should have had. */
  datatype Override = Override(date: Date, count: int)

  /** Per login, its override entries in the table's order. */
  type OverrideTable = map<string, seq<Override>>

  /** `MANUAL_OVERRIDES`. */
  const ManualOverrides: OverrideTable :=
    map["ogvaibhavshukla" := [Override(Date(2025, 3, 10), 1), Override(Date(2025, 4, 12), 2),
                              Override(Date(2025, 5, 12), 7)]]

  /** Only the one login of the table has corrections: three dates, each with a positive
      count, no date twice. */
  lemma ManualOverridesEntries(login: string)
    ensures login != "ogvaibhavshukla" ==> UserOverrides(ManualOverrides, login) == []
    ensures var entries := UserOverrides(ManualOverrides, "ogvaibhavshukla");
      && |entries| == 3
      && (forall k :: 0 <= k < |entries| ==> entries[k].count > 0)
      && (forall k, j :: 0 <= k < j < |entries| ==> entries[k].date != entries[j].date)
  {
  }

  datatype IngestError = MissingLogin | UnexpectedResponse

  /** The response body: grid, date range, month labels, the sum the overrides added,
      and the final total. */
  datatype CalendarData = CalendarData(grid: Grid, startDate: Option<Date>, endDate: Option<Date>,
                                       monthLabels: seq<string>, overridesApplied: int, finalTotal: int)

  function Days(w: Week): seq<ContributionDay>
  {
    if w.contributionDays.Some? then w.contributionDays.value else []
  }

  function CountOf(day: ContributionDay): int
  {
    if day.contributionCount.Some? then day.contributionCount.value else 0
  }

  // ---------------------------------------------------------------------------
  // Keeping the last 52 weeks and mapping them onto the grid

  /** `weeks.slice(-52)`: the last Cols weeks, in order; the oldest kept week comes first. */
  function LastWeeks(weeks: seq<Week>): (kept: seq<Week>)
    ensures |kept| == if |weeks| < Cols then |weeks| else Cols
    ensures forall i :: 0 <= i < |kept| ==> kept[i] == weeks[|weeks| - |kept| + i]
  {
    if |weeks| > Cols then weeks[|weeks| - Cols..] else weeks
  }

  /** The value mapping leaves in grid[d][w]: the count of day d of week w, or 0 where
      there is no such day. */
  function MappedCell(kept: seq<Week>, d: int, w: int): int
    requires 0 <= d && 0 <= w
  {
    if w < |kept| && d < |Days(kept[w])| then CountOf(Days(kept[w])[d]) else 0
  }

  /** The grid after mapping. With fewer than Cols weeks the trailing columns stay 0. */
  function MappedGrid(kept: seq<Week>): (g: Grid)
    ensures Shaped(g)
    ensures forall d, w :: 0 <= d < Rows && |kept| <= w < Cols ==> g[d][w] == 0
  {
    seq(Rows, d requires 0 <= d < Rows => seq(Cols, w requires 0 <= w < Cols => MappedCell(kept, d, w)))
  }

  /** The mapping loop: writes each day's count into grid[dayIndex][weekIndex] when
      both indices are in range, adding it to the running total. */
  method MapWeeks(exactWeeks: seq<Week>) returns (grid: Grid, totalContributions: int)
    ensures grid == MappedGrid(exactWeeks)
    ensures totalContributions == GridSum(grid)
  {
    grid := Empty();
    totalContributions := 0;
    EmptySum();
    var weekIndex := 0;
    while weekIndex < |exactWeeks|
      invariant 0 <= weekIndex <= |exactWeeks| && Shaped(grid)
      invariant forall d, w :: 0 <= d < Rows && 0 <= w < Cols ==>
        grid[d][w] == if w < weekIndex then MappedCell(exactWeeks, d, w) else 0
      invariant totalContributions == GridSum(grid)
    {
      var contributionDays := Days(exactWeeks[weekIndex]);
      var dayIndex := 0;
      while dayIndex < |contributionDays|
        invariant 0 <= dayIndex <= |contributionDays| && Shaped(grid)
        invariant forall d, w :: 0 <= d < Rows && 0 <= w < Cols ==>
          grid[d][w] == if w < weekIndex || (w == weekIndex && d < dayIndex) then MappedCell(exactWeeks, d, w) else 0
        invariant totalContributions == GridSum(grid)
      {
        if dayIndex < 7 && weekIndex < 52 {
          var count := CountOf(contributionDays[dayIndex]);
          SetSum(grid, dayIndex, weekIndex, count);
          grid := Set(grid, dayIndex, weekIndex, count);
          totalContributions := totalContributions + count;
        }
        dayIndex := dayIndex + 1;
      }
      weekIndex := weekIndex + 1;
    }
    CellwiseEqual(grid, MappedGrid(exactWeeks));
  }

  /** Fifty-two synthetic weeks with a single non-zero day give a grid with exactly that
      one non-zero cell, and a total equal to its count. */
  lemma SingleContribution(kept: seq<Week>, w0: int, d0: int, n: int)
    requires 0 <= w0 < |kept| && w0 < Cols && 0 <= d0 < |Days(kept[w0])| && d0 < Rows
    requires CountOf(Days(kept[w0])[d0]) == n
    requires forall w, d :: 0 <= w < |kept| && 0 <= d < |Days(kept[w])| && (w != w0 || d != d0) ==>
               CountOf(Days(kept[w])[d]) == 0
    ensures MappedGrid(kept) == Set(Empty(), d0, w0, n)
    ensures GridSum(MappedGrid(kept)) == n
  {
    CellwiseEqual(MappedGrid(kept), Set(Empty(), d0, w0, n));
    SetSum(Empty(), d0, w0, n);
    EmptySum();
  }

  // ---------------------------------------------------------------------------
  // The date range

  /** Some kept day falls on `date`. */
  predicate HasDay(kept: seq<Week>, date: Date)
  {
    exists w, i :: 0 <= w < |kept| && 0 <= i < |Days(kept[w])| && Days(kept[w])[i].date == date
  }

  predicate NoDays(kept: seq<Week>)
  {
    forall w :: 0 <= w < |kept| ==> Days(kept[w]) == []
  }

  /** `date` is the earliest date of all kept days. */
  predicate Earliest(kept: seq<Week>, date: Date)
  {
    HasDay(kept, date)
    && forall w, i :: 0 <= w < |kept| && 0 <= i < |Days(kept[w])| ==> NotAfter(date, Days(kept[w])[i].date)
  }

  /** `date` is the latest date of all kept days. */
  predicate Latest(kept: seq<Week>, date: Date)
  {
    HasDay(kept, date)
    && forall w, i :: 0 <= w < |kept| && 0 <= i < |Days(kept[w])| ==> NotAfter(Days(kept[w])[i].date, date)
  }

  /** The dates of some days, in order. */
  function DatesOf(days: seq<ContributionDay>): (dates: seq<Date>)
    ensures |dates| == |days|
  {
    seq(|days|, i requires 0 <= i < |days| => days[i].date)
  }

  /** The dates of all kept days, week after week, in the order the scan visits them. */
  function AllDates(kept: seq<Week>): seq<Date>
    decreases |kept|
  {
    if kept == [] then [] else AllDates(kept[..|kept| - 1]) + DatesOf(Days(kept[|kept| - 1]))
  }

  /** The smaller of a running minimum and a new date (`!startDate || date < startDate`). */
  function Lower(low: Option<Date>, date: Date): Option<Date>
  {
    if low.None? || Before(date, low.value) then Some(date) else low
  }

  /** The larger of a running maximum and a new date (`!endDate || date > endDate`). */
  function Higher(high: Option<Date>, date: Date): Option<Date>
  {
    if high.None? || Before(high.value, date) then Some(date) else high
  }

  /** The running minimum after scanning `dates`. */
  function MinOf(dates: seq<Date>): Option<Date>
    decreases |dates|
  {
    if dates == [] then None else Lower(MinOf(dates[..|dates| - 1]), dates[|dates| - 1])
  }

  /** The running maximum after scanning `dates`. */
  function MaxOf(dates: seq<Date>): Option<Date>
    decreases |dates|
  {
    if dates == [] then None else Higher(MaxOf(dates[..|dates| - 1]), dates[|dates| - 1])
  }

  /** The running minimum is absent only for no dates, and is otherwise one of the dates
      and not after any of them. */
  lemma {:induction false} MinOfIsLeast(dates: seq<Date>)
    ensures MinOf(dates).None? <==> dates == []
    ensures MinOf(dates).Some? ==>
      (MinOf(dates).value in dates && forall i :: 0 <= i < |dates| ==> NotAfter(MinOf(dates).value, dates[i]))
    decreases |dates|
  {
    if dates != [] {
      var front := dates[..|dates| - 1];
      MinOfIsLeast(front);
      assert dates == front + [dates[|dates| - 1]];
    }
  }

  /** The running maximum is absent only for no dates, and is otherwise one of the dates
      and not before any of them. */
  lemma {:induction false} MaxOfIsGreatest(dates: seq<Date>)
    ensures MaxOf(dates).None? <==> dates == []
    ensures MaxOf(dates).Some? ==>
      (MaxOf(dates).value in dates && forall i :: 0 <= i < |dates| ==> NotAfter(dates[i], MaxOf(dates).value))
    decreases |dates|
  {
    if dates != [] {
      var front := dates[..|dates| - 1];
      MaxOfIsGreatest(front);
      assert dates == front + [dates[|dates| - 1]];
    }
  }

  /** The flattened dates are exactly the dates of the kept days. */
  lemma {:induction false} AllDatesMembers(kept: seq<Week>)
    ensures AllDates(kept) == [] <==> NoDays(kept)
    ensures forall x :: x in AllDates(kept) <==> HasDay(kept, x)
    decreases |kept|
  {
    if kept != [] {
      var front := kept[..|kept| - 1];
      var last := |kept| - 1;
      AllDatesMembers(front);
      forall x
        ensures x in AllDates(kept) <==> HasDay(kept, x)
      {
        if x in DatesOf(Days(kept[last])) {
          var i :| 0 <= i < |Days(kept[last])| && DatesOf(Days(kept[last]))[i] == x;
          assert Days(kept[last])[i].date == x;
        }
        if x in AllDates(front) {
          var w, i :| 0 <= w < |front| && 0 <= i < |Days(front[w])| && Days(front[w])[i].date == x;
          assert Days(kept[w])[i].date == x;
        }
        if HasDay(kept, x) {
          var w, i :| 0 <= w < |kept| && 0 <= i < |Days(kept[w])| && Days(kept[w])[i].date == x;
          if w < last {
            assert Days(front[w])[i].date == x;
          } else {
            assert DatesOf(Days(kept[last]))[i] == x;
          }
        }
      }
      assert NoDays(kept) <==> NoDays(front) && Days(kept[last]) == [] by {
        if NoDays(front) && Days(kept[last]) == [] {
          forall w | 0 <= w < |kept| ensures Days(kept[w]) == [] {
            if w < last { assert kept[w] == front[w]; }
          }
        }
      }
    }
  }

  /** The minimum of the flattened dates is the earliest kept day. */
  lemma RangeOfDays(kept: seq<Week>)
    ensures MinOf(AllDates(kept)).None? <==> NoDays(kept)
    ensures MaxOf(AllDates(kept)).None? <==> NoDays(kept)
    ensures MinOf(AllDates(kept)).Some? ==> Earliest(kept, MinOf(AllDates(kept)).value)
    ensures MaxOf(AllDates(kept)).Some? ==> Latest(kept, MaxOf(AllDates(kept)).value)
  {
    var dates := AllDates(kept);
    AllDatesMembers(kept);
    MinOfIsLeast(dates);
    MaxOfIsGreatest(dates);
    forall w, i | 0 <= w < |kept| && 0 <= i < |Days(kept[w])|
      ensures Days(kept[w])[i].date in dates
    {
      assert HasDay(kept, Days(kept[w])[i].date);
    }
  }

  /** The scan that tracks the smallest and the largest date; both stay absent
      exactly when there are no days at all. */
  method DateRange(exactWeeks: seq<Week>) returns (startDate: Option<Date>, endDate: Option<Date>)
    ensures startDate == MinOf(AllDates(exactWeeks)) && endDate == MaxOf(AllDates(exactWeeks))
    ensures startDate.None? <==> NoDays(exactWeeks)
    ensures endDate.None? <==> NoDays(exactWeeks)
    ensures startDate.Some? ==> Earliest(exactWeeks, startDate.value)
    ensures endDate.Some? ==> Latest(exactWeeks, endDate.value)
  {
    startDate, endDate := None, None;
    var weekIndex := 0;
    while weekIndex < |exactWeeks|
      invariant 0 <= weekIndex <= |exactWeeks|
      invariant startDate == MinOf(AllDates(exactWeeks[..weekIndex]))
      invariant endDate == MaxOf(AllDates(exactWeeks[..weekIndex]))
    {
      var contributionDays := Days(exactWeeks[weekIndex]);
      ghost var before := AllDates(exactWeeks[..weekIndex]);
      assert before + DatesOf(contributionDays)[..0] == before;
      var dayIndex := 0;
      while dayIndex < |contributionDays|
        invariant 0 <= dayIndex <= |contributionDays|
        invariant startDate == MinOf(before + DatesOf(contributionDays)[..dayIndex])
        invariant endDate == MaxOf(before + DatesOf(contributionDays)[..dayIndex])
      {
        var date := contributionDays[dayIndex].date;
        ghost var seen := before + DatesOf(contributionDays)[..dayIndex];
        assert before + DatesOf(contributionDays)[..dayIndex + 1] == seen + [date];
        assert (seen + [date])[..|seen|] == seen;
        if startDate.None? || Before(date, startDate.value) {
          startDate := Some(date);
        }
        if endDate.None? || Before(endDate.value, date) {
          endDate := Some(date);
        }
        dayIndex := dayIndex + 1;
      }
      assert DatesOf(contributionDays)[..dayIndex] == DatesOf(contributionDays);
      assert exactWeeks[..weekIndex + 1][..weekIndex] == exactWeeks[..weekIndex];
      weekIndex := weekIndex + 1;
    }
    assert exactWeeks[..weekIndex] == exactWeeks;
    RangeOfDays(exactWeeks);
  }

  // ---------------------------------------------------------------------------
  // Month labels

  datatype YearMonth = YearMonth(year: int, month: MonthNumber)

  /** Months counted from year 0, so that consecutive months differ by one. */
  function MonthIndex(ym: YearMonth): int
  {
    ym.year * 12 + (ym.month - 1)
  }

  function MonthOfDate(d: Date): YearMonth
  {
    YearMonth(d.year, d.month)
  }

  /** `setMonth(getMonth() + 1)` on the first of a month. */
  function NextMonth(ym: YearMonth): (next: YearMonth)
    ensures MonthIndex(next) == MonthIndex(ym) + 1
  {
    if ym.month == 12 then YearMonth(ym.year + 1, 1) else YearMonth(ym.year, ym.month + 1)
  }

  const MonthAbbreviations: seq<string> :=
    ["Jan", "Feb", "Mar", "Apr", "May", "Jun", "Jul", "Aug", "Sep", "Oct", "Nov", "Dec"]

  /** The short English month name `toLocaleDateString` gives. */
  function MonthName(m: MonthNumber): string
  {
    MonthAbbreviations[m - 1]
  }

  /** n consecutive months starting at ym. */
  function MonthsFrom(ym: YearMonth, n: nat): (months: seq<YearMonth>)
    ensures |months| == n
    decreases n
  {
    if n == 0 then [] else [ym] + MonthsFrom(NextMonth(ym), n - 1)
  }

  /** The i-th of n consecutive months is i months after the first. */
  lemma {:induction false} MonthsFromIndex(ym: YearMonth, n: nat, i: nat)
    requires i < n
    ensures MonthIndex(MonthsFrom(ym, n)[i]) == MonthIndex(ym) + i
    decreases n
  {
    if i > 0 {
      MonthsFromIndex(NextMonth(ym), n - 1, i - 1);
    }
  }

  /** How many months the labels cover: the start date's month through the end date's. */
  function SpanLength(startDate: Date, endDate: Date): nat
  {
    var n := MonthIndex(MonthOfDate(endDate)) - MonthIndex(MonthOfDate(startDate)) + 1;
    if n < 0 then 0 else n
  }

  function Names(months: seq<YearMonth>): (names: seq<string>)
    ensures |names| == |months|
  {
    seq(|months|, i requires 0 <= i < |months| => MonthName(months[i].month))
  }

  /** The labels the loop produces, before the cap. */
  function MonthLabelsFor(startDate: Option<Date>, endDate: Option<Date>): seq<string>
  {
    if startDate.Some? && endDate.Some? then
      Names(MonthsFrom(MonthOfDate(startDate.value), SpanLength(startDate.value, endDate.value)))
    else []
  }

  lemma FirstOfMonthNotAfter(ym: YearMonth, endDate: Date)
    ensures NotAfter(Date(ym.year, ym.month, 1), endDate) <==> MonthIndex(ym) <= MonthIndex(MonthOfDate(endDate))
  {
  }

  /** The month-label loop: from the first day of the start month, one label per month
      while that first day is not after the end date. */
  method MonthLabels(startDate: Option<Date>, endDate: Option<Date>) returns (monthLabels: seq<string>)
    ensures monthLabels == MonthLabelsFor(startDate, endDate)
  {
    monthLabels := [];
    if startDate.Some? && endDate.Some? {
      var first := MonthOfDate(startDate.value);
      var current := first;
      ghost var last := MonthOfDate(endDate.value);
      ghost var all := MonthsFrom(first, SpanLength(startDate.value, endDate.value));
      ghost var names := Names(all);
      FirstOfMonthNotAfter(current, endDate.value);
      while NotAfter(Date(current.year, current.month, 1), endDate.value)
        invariant MonthIndex(current) == MonthIndex(first) + |monthLabels|
        invariant |monthLabels| <= |all|
        invariant monthLabels == names[..|monthLabels|]
        invariant NotAfter(Date(current.year, current.month, 1), endDate.value) <==> MonthIndex(current) <= MonthIndex(last)
        decreases MonthIndex(last) - MonthIndex(current)
      {
        var k := |monthLabels|;
        MonthsFromIndex(first, |all|, k);
        MonthIndexInjective(all[k], current);
        assert names[..k + 1] == monthLabels + [MonthName(current.month)];
        monthLabels := monthLabels + [MonthName(current.month)];
        current := NextMonth(current);
        FirstOfMonthNotAfter(current, endDate.value);
      }
      assert monthLabels == names;
    }
  }

  /** At most twelve labels, `monthLabels.slice(0, 12)`. */
  function Capped(labels: seq<string>): (capped: seq<string>)
    ensures |capped| <= 12 && |capped| <= |labels| && capped == labels[..|capped|]
    ensures |labels| <= 12 ==> capped == labels
  {
    if |labels| <= 12 then labels else labels[..12]
  }

  /** The labels run one per month, advancing one month at a time from the start date's
      month to the end date's month. */
  lemma MonthLabelsCoverRange(startDate: Date, endDate: Date)
    requires NotAfter(startDate, endDate)
    ensures var months := MonthsFrom(MonthOfDate(startDate), SpanLength(startDate, endDate));
      && |months| >= 1
      && months[0] == MonthOfDate(startDate)
      && months[|months| - 1] == MonthOfDate(endDate)
      && forall i :: 0 <= i < |months| - 1 ==> months[i + 1] == NextMonth(months[i])
  {
    var months := MonthsFrom(MonthOfDate(startDate), SpanLength(startDate, endDate));
    var n := |months|;
    MonthsFromIndex(MonthOfDate(startDate), n, n - 1);
    forall i | 0 <= i < n - 1
      ensures months[i + 1] == NextMonth(months[i])
    {
      MonthsFromIndex(MonthOfDate(startDate), n, i);
      MonthsFromIndex(MonthOfDate(startDate), n, i + 1);
      MonthIndexInjective(months[i + 1], NextMonth(months[i]));
    }
    MonthIndexInjective(months[n - 1], MonthOfDate(endDate));
  }

  lemma MonthIndexInjective(a: YearMonth, b: YearMonth)
    requires MonthIndex(a) == MonthIndex(b)
    ensures a == b
  {
  }

  /** Fewer than twelve months apart means a different month of the year. */
  lemma CloseMonthsDiffer(a: YearMonth, b: YearMonth)
    requires 0 < MonthIndex(b) - MonthIndex(a) < 12
    ensures a.month != b.month
  {
  }

  /** Different months have different names. */
  lemma MonthNamesDistinct(a: MonthNumber, b: MonthNumber)
    requires a != b
    ensures MonthName(a) != MonthName(b)
  {
    var x, y := MonthName(a), MonthName(b);
    assert x[0] != y[0] || x[1] != y[1] || x[2] != y[2];
  }

  /** After the cap, no month name appears twice: twelve consecutive months are
      twelve different months of the year. */
  lemma CappedLabelsDistinct(startDate: Option<Date>, endDate: Option<Date>)
    ensures var capped := Capped(MonthLabelsFor(startDate, endDate));
      forall i, j :: 0 <= i < j < |capped| ==> capped[i] != capped[j]
  {
    if startDate.Some? && endDate.Some? {
      var first := MonthOfDate(startDate.value);
      var months := MonthsFrom(first, SpanLength(startDate.value, endDate.value));
      var labels := Names(months);
      var capped := Capped(labels);
      forall i, j | 0 <= i < j < |capped|
        ensures capped[i] != capped[j]
      {
        MonthsFromIndex(first, |months|, i);
        MonthsFromIndex(first, |months|, j);
        CloseMonthsDiffer(months[i], months[j]);
        MonthNamesDistinct(months[i].month, months[j].month);
        assert capped[i] == labels[i] && capped[j] == labels[j];
      }
    }
  }

  // ---------------------------------------------------------------------------
  // Manual overrides

  /** `findIndex(day => day.date === date)` over the days of one week: the first
      matching position, or -1. */
  function FindDay(days: seq<ContributionDay>, date: Date): (k: int)
    ensures -1 <= k < |days|
    ensures k >= 0 ==> days[k].date == date && forall j :: 0 <= j < k ==> days[j].date != date
    ensures k == -1 ==> forall j :: 0 <= j < |days| ==> days[j].date != date
    decreases |days|
  {
    if days == [] then -1
    else if days[0].date == date then 0
    else var k := FindDay(days[1..], date); if k == -1 then -1 else k + 1
  }

  /** `findIndex(week => week.contributionDays?.some(day => day.date === date))`. */
  function FindWeek(weeks: seq<Week>, date: Date): (k: int)
    ensures -1 <= k < |weeks|
    ensures k >= 0 ==> FindDay(Days(weeks[k]), date) >= 0 && forall j :: 0 <= j < k ==> FindDay(Days(weeks[j]), date) == -1
    ensures k == -1 ==> forall j :: 0 <= j < |weeks| ==> FindDay(Days(weeks[j]), date) == -1
    decreases |weeks|
  {
    if weeks == [] then -1
    else if FindDay(Days(weeks[0]), date) >= 0 then 0
    else var k := FindWeek(weeks[1..], date); if k == -1 then -1 else k + 1
  }

  /** The cell an override date lands on, (dayIndex, weekIndex), when the date is among
      the kept days and both indices are in range. */
  function Target(kept: seq<Week>, date: Date): (t: Option<(int, int)>)
    ensures t.Some? ==>
      (0 <= t.value.0 < Rows && 0 <= t.value.1 < Cols && t.value.1 < |kept| && t.value.0 < |Days(kept[t.value.1])|
       && Days(kept[t.value.1])[t.value.0].date == date)
    ensures !HasDay(kept, date) ==> t.None?
    ensures HasDay(kept, date) && |kept| <= Cols && (forall w :: 0 <= w < |kept| ==> |Days(kept[w])| <= Rows)
      ==> t.Some?
  {
    var weekIndex := FindWeek(kept, date);
    if weekIndex >= 0 then
      var dayIndex := FindDay(Days(kept[weekIndex]), date);
      if 0 <= dayIndex < 7 && weekIndex < 52 then Some((dayIndex, weekIndex)) else None
    else None
  }

  /** Whether the override lands on a cell that still holds 0. */
  predicate Applies(kept: seq<Week>, g: Grid, o: Override)
    requires Shaped(g)
  {
    var t := Target(kept, o.date);
    t.Some? && g[t.value.0][t.value.1] == 0
  }

  /** One override: write its count into its target cell when that cell holds 0;
      otherwise leave the grid alone. */
  function ApplyOverride(kept: seq<Week>, g: Grid, o: Override): (h: Grid)
    requires Shaped(g)
    ensures Shaped(h)
    ensures Applies(kept, g, o) ==> var t := Target(kept, o.date).value;
      h[t.0][t.1] == o.count
      && forall d, w :: 0 <= d < Rows && 0 <= w < Cols && (d, w) != t ==> h[d][w] == g[d][w]
    ensures !Applies(kept, g, o) ==> h == g
  {
    if Applies(kept, g, o) then
      var t := Target(kept, o.date).value;
      Set(g, t.0, t.1, o.count)
    else g
  }

  /** The override table applied entry by entry, in order. */
  function ApplyOverrides(kept: seq<Week>, g: Grid, entries: seq<Override>): (h: Grid)
    requires Shaped(g)
    ensures Shaped(h)
    // a non-zero cell is never overwritten
    ensures forall d, w :: 0 <= d < Rows && 0 <= w < Cols && g[d][w] != 0 ==> h[d][w] == g[d][w]
    // a cell no entry targets is never touched
    ensures forall d, w :: 0 <= d < Rows && 0 <= w < Cols && !Targeted(kept, entries, d, w) ==> h[d][w] == g[d][w]
    decreases |entries|
  {
    if entries == [] then g
    else ApplyOverrides(kept, ApplyOverride(kept, g, entries[0]), entries[1..])
  }

  /** Some entry lands on (d, w). */
  predicate Targeted(kept: seq<Week>, entries: seq<Override>, d: int, w: int)
  {
    exists k :: 0 <= k < |entries| && Target(kept, entries[k].date) == Some((d, w))
  }

  /** The sum of the counts of the entries that applied (`overrideCount`). */
  function OverridesGain(kept: seq<Week>, g: Grid, entries: seq<Override>): int
    requires Shaped(g)
    decreases |entries|
  {
    if entries == [] then 0
    else
      (if Applies(kept, g, entries[0]) then entries[0].count else 0)
      + OverridesGain(kept, ApplyOverride(kept, g, entries[0]), entries[1..])
  }

  /** The overrides raise the grid sum by exactly what they report as applied, so the
      running total stays the grid sum. */
  lemma {:induction false} OverridesKeepSum(kept: seq<Week>, g: Grid, entries: seq<Override>)
    requires Shaped(g)
    ensures GridSum(ApplyOverrides(kept, g, entries)) == GridSum(g) + OverridesGain(kept, g, entries)
    decreases |entries|
  {
    if entries != [] {
      var o := entries[0];
      if Applies(kept, g, o) {
        var t := Target(kept, o.date).value;
        SetSum(g, t.0, t.1, o.count);
      }
      OverridesKeepSum(kept, ApplyOverride(kept, g, o), entries[1..]);
    }
  }

  /** Every entry's target already holds a non-zero value (or the entry would write 0). */
  predicate Settled(kept: seq<Week>, h: Grid, entries: seq<Override>)
    requires Shaped(h)
  {
    forall k :: 0 <= k < |entries| ==>
      var t := Target(kept, entries[k].date);
      t.Some? ==> h[t.value.0][t.value.1] != 0 || entries[k].count == 0
  }

  lemma {:induction false} SettledIsFixed(kept: seq<Week>, h: Grid, entries: seq<Override>)
    requires Shaped(h) && Settled(kept, h, entries)
    ensures ApplyOverrides(kept, h, entries) == h
    decreases |entries|
  {
    if entries != [] {
      var o := entries[0];
      if Applies(kept, h, o) {
        var t := Target(kept, o.date).value;
        assert o.count == 0;
        CellwiseEqual(ApplyOverride(kept, h, o), h);
      }
      assert Settled(kept, h, entries[1..]) by {
        forall k | 0 <= k < |entries[1..]|
          ensures var t := Target(kept, entries[1..][k].date);
            t.Some? ==> h[t.value.0][t.value.1] != 0 || entries[1..][k].count == 0
        {
          assert entries[1..][k] == entries[k + 1];
        }
      }
      SettledIsFixed(kept, h, entries[1..]);
    }
  }

  lemma {:induction false} AppliedIsSettled(kept: seq<Week>, g: Grid, entries: seq<Override>)
    requires Shaped(g)
    ensures Settled(kept, ApplyOverrides(kept, g, entries), entries)
    decreases |entries|
  {
    if entries != [] {
      var o := entries[0];
      var g1 := ApplyOverride(kept, g, o);
      var h := ApplyOverrides(kept, g1, entries[1..]);
      AppliedIsSettled(kept, g1, entries[1..]);
      forall k | 0 <= k < |entries|
        ensures var t := Target(kept, entries[k].date);
          t.Some? ==> h[t.value.0][t.value.1] != 0 || entries[k].count == 0
      {
        if k > 0 {
          assert entries[k] == entries[1..][k - 1];
        }
      }
    }
  }

  /** Applying the override table twice gives the same grid as applying it once. */
  lemma OverridesIdempotent(kept: seq<Week>, g: Grid, entries: seq<Override>)
    requires Shaped(g)
    ensures ApplyOverrides(kept, ApplyOverrides(kept, g, entries), entries) == ApplyOverrides(kept, g, entries)
  {
    AppliedIsSettled(kept, g, entries);
    SettledIsFixed(kept, ApplyOverrides(kept, g, entries), entries);
  }

  /** The override loop of the source, over the login's entries in order. */
  method ApplyManualOverrides(exactWeeks: seq<Week>, grid: Grid, totalContributions: int, userOverrides: seq<Override>)
    returns (newGrid: Grid, newTotal: int, overrideCount: int)
    requires Shaped(grid)
    ensures newGrid == ApplyOverrides(exactWeeks, grid, userOverrides)
    ensures overrideCount == OverridesGain(exactWeeks, grid, userOverrides)
    ensures newTotal == totalContributions + overrideCount
  {
    newGrid, newTotal, overrideCount := grid, totalContributions, 0;
    var i := 0;
    while i < |userOverrides|
      invariant 0 <= i <= |userOverrides| && Shaped(newGrid)
      invariant ApplyOverrides(exactWeeks, newGrid, userOverrides[i..]) == ApplyOverrides(exactWeeks, grid, userOverrides)
      invariant overrideCount + OverridesGain(exactWeeks, newGrid, userOverrides[i..])
             == OverridesGain(exactWeeks, grid, userOverrides)
      invariant newTotal == totalContributions + overrideCount
    {
      var entry := userOverrides[i];
      ghost var rest := userOverrides[i..];
      ghost var next := ApplyOverride(exactWeeks, newGrid, entry);
      ghost var gain := if Applies(exactWeeks, newGrid, entry) then entry.count else 0;
      ghost var count0 := overrideCount;
      assert rest[0] == entry && rest[1..] == userOverrides[i + 1..];
      assert ApplyOverrides(exactWeeks, newGrid, rest) == ApplyOverrides(exactWeeks, next, userOverrides[i + 1..]);
      assert OverridesGain(exactWeeks, newGrid, rest) == gain + OverridesGain(exactWeeks, next, userOverrides[i + 1..]);
      var weekIndex := FindWeek(exactWeeks, entry.date);
      if weekIndex >= 0 {
        var dayIndex := FindDay(Days(exactWeeks[weekIndex]), entry.date);
        if dayIndex >= 0 && dayIndex < 7 && weekIndex < 52 {
          var currentCount := newGrid[dayIndex][weekIndex];
          if currentCount == 0 {
            newGrid := Set(newGrid, dayIndex, weekIndex, entry.count);
            newTotal := newTotal + entry.count;
            overrideCount := overrideCount + entry.count;
          }
        }
      }
      assert newGrid == next && overrideCount == count0 + gain;
      i := i + 1;
    }
  }

  /** `MANUAL_OVERRIDES[login] || {}`. */
  function UserOverrides(table: OverrideTable, login: string): seq<Override>
  {
    if login in table then table[login] else []
  }

  // ---------------------------------------------------------------------------
  // The whole pass

  /** Ingest the calendar for `login`. `weeks` is None when the response's `weeks` is not
      an array. A missing or empty login and a non-array `weeks` are errors. */
  method Ingest(login: Option<string>, weeks: Option<seq<Week>>, table: OverrideTable)
    returns (result: Result<CalendarData, IngestError>)
    ensures login.None? || login.value == "" ==> result == Failure(MissingLogin)
    ensures login.Some? && login.value != "" && weeks.None? ==> result == Failure(UnexpectedResponse)
    ensures result.Success? <==> login.Some? && login.value != "" && weeks.Some?
    ensures result.Success? ==>
      var kept := LastWeeks(weeks.value);
      var entries := UserOverrides(table, login.value);
      var cal := result.value;
      && cal.grid == ApplyOverrides(kept, MappedGrid(kept), entries)
      && cal.overridesApplied == OverridesGain(kept, MappedGrid(kept), entries)
      && cal.finalTotal == GridSum(cal.grid)
      && (cal.startDate.None? <==> NoDays(kept)) && (cal.endDate.None? <==> NoDays(kept))
      && (cal.startDate.Some? ==> Earliest(kept, cal.startDate.value))
      && (cal.endDate.Some? ==> Latest(kept, cal.endDate.value))
      && cal.monthLabels == Capped(MonthLabelsFor(cal.startDate, cal.endDate))
      && (login.value !in table ==> cal.grid == MappedGrid(kept) && cal.overridesApplied == 0)
    ensures login.Some? && login.value != "" && weeks == Some([]) ==>
      result == Success(CalendarData(Empty(), None, None, [], 0, 0))
  {
    if login.None? || login.value == "" {
      return Failure(MissingLogin);
    }
    if weeks.None? {
      return Failure(UnexpectedResponse);
    }
    var exactWeeks := LastWeeks(weeks.value);
    var grid, totalContributions := MapWeeks(exactWeeks);
    var startDate, endDate := DateRange(exactWeeks);
    var monthLabels := MonthLabels(startDate, endDate);
    var userOverrides := UserOverrides(table, login.value);
    OverridesKeepSum(exactWeeks, grid, userOverrides);
    var overrideCount;
    grid, totalContributions, overrideCount := ApplyManualOverrides(exactWeeks, grid, totalContributions, userOverrides);
    if weeks.value == [] {
      CellwiseEqual(MappedGrid([]), Empty());
      EmptySum();
      assert ApplyOverrides([], Empty(), userOverrides) == Empty() by {
        NothingToTarget(Empty(), userOverrides);
      }
      NothingGained(Empty(), userOverrides);
    }
    return Success(CalendarData(grid, startDate, endDate, Capped(monthLabels), overrideCount, totalContributions));
  }

  /** With no kept weeks no override finds a target. */
  lemma {:induction false} NothingToTarget(g: Grid, entries: seq<Override>)
    requires Shaped(g)
    ensures ApplyOverrides([], g, entries) == g
    decreases |entries|
  {
    if entries != [] {
      NothingToTarget(g, entries[1..]);
    }
  }

  lemma {:induction false} NothingGained(g: Grid, entries: seq<Override>)
    requires Shaped(g)
    ensures OverridesGain([], g, entries) == 0
    decreases |entries|
  {
    if entries != [] {
      NothingGained(g, entries[1..]);
    }
  }
}
