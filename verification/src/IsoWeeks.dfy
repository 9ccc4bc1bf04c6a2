/**
 ISO weeks as three services see them: booking prints a week key, staff parses it back to a
 Monday and lists the schedule rows of that week, analytics computes week and month ranges.
 */
module IsoWeeks {
  import opened Wrappers
  import opened Instants
  import opened Decimal
  import opened Calendar
  import opened SlotEngine

  datatype YearWeek = YearWeek(year: int, week: int)

  /** The week rule: the year that holds the week's Thursday, counted by Thursdays. */
  function IsoWeek(n: int): YearWeek {
    var thursday := Monday(n) + 3;
    var y := YearOf(thursday);
    YearWeek(y, (thursday - YearStart(y)) / 7 + 1)
  }

  /** The Monday of the week that holds 4 January. */
  function WeekOne(y: int): int {
    Monday(YearStart(y) + 3)
  }

  function WeeksIn(y: int): int {
    (WeekOne(y + 1) - WeekOne(y)) / 7
  }

  /** The key booking puts into its schedule request. */
  function WeekKey(n: int): string {
    var w := IsoWeek(n);
    PrintInt(w.year) + "-W" + Pad(PrintInt(w.week), 2)
  }

  /** isoWeekToDate: the sign binds tighter than the remainder, which truncates. */
  function IsoWeekToDate(week: string): Result<int> {
    if |week| < 6 || week[4] != '-' || week[5] != 'W' then Failure
    else match (Atoi(week[..4]), Atoi(week[6..]))
      case (Success(year), Success(weekNum)) =>
        var jan4 := GoDate(year, 1, 4);
        var monday1 := jan4 + GoRem(-(Weekday(jan4) - 1 + 7), 7);
        Success(monday1 + (weekNum - 1) * 7)
      case _ => Failure
  }

  // ---- arithmetic of sevens, for a year that starts on day s ----

  lemma MondayFacts(n: int)
    ensures Monday(n) % 7 == 0 && Monday(n) <= n < Monday(n) + 7
  {
  }

  /** The first Thursday of the year is the Thursday of week 1. */
  lemma FirstThursday(s: int)
    ensures Monday(s + 3) % 7 == 0
    ensures s <= Monday(s + 3) + 3 < s + 7
  {
    MondayFacts(s + 3);
  }

  lemma MultiplesOfSeven(a: int, b: int)
    requires a % 7 == 0 && b % 7 == 0
    ensures (a - b) % 7 == 0 && a - b == 7 * ((a - b) / 7)
  {
  }

  lemma WeeksBetween(s: int, t: int)
    requires t == s + 365 || t == s + 366
    ensures var weeks := (Monday(t + 3) - Monday(s + 3)) / 7;
            && Monday(t + 3) == Monday(s + 3) + 7 * weeks
            && weeks == if s % 7 == 3 || (t == s + 366 && s % 7 == 2) then 53 else 52
  {
    FirstThursday(s);
    FirstThursday(t);
    MultiplesOfSeven(Monday(t + 3), Monday(s + 3));
    var r := s % 7;
    assert (s + 3) % 7 == if r <= 3 then r + 3 else r - 4;
    assert (s + 368) % 7 == if r <= 2 then r + 4 else r - 3;
    assert (s + 369) % 7 == if r <= 1 then r + 5 else r - 2;
  }

  /** Counting Thursdays from the first one of the year is counting weeks from week 1. */
  lemma ThursdaysCountWeeks(s: int, monday: int)
    requires monday % 7 == 0 && s <= monday + 3
    ensures monday == Monday(s + 3) + 7 * ((monday + 3 - s) / 7)
  {
    FirstThursday(s);
    MultiplesOfSeven(monday, Monday(s + 3));
    var k := (monday - Monday(s + 3)) / 7;
    assert monday + 3 - s == 7 * k + (Monday(s + 3) + 3 - s);
  }

  // ---- weeks tile the calendar ----

  /** A year has 52 or 53 weeks; 53 exactly when it has 53 Thursdays. */
  lemma FiftyTwoOrFiftyThree(y: int)
    ensures WeekOne(y + 1) == WeekOne(y) + 7 * WeeksIn(y)
    ensures WeeksIn(y) == if YearStart(y) % 7 == 3 || (Leap(y) && YearStart(y) % 7 == 2) then 53 else 52
  {
    YearLength(y);
    WeeksBetween(YearStart(y), YearStart(y + 1));
  }

  /** The Monday of a day is week - 1 weeks after the Monday of week 1 of its ISO year. */
  lemma WeekStart(n: int)
    ensures var w := IsoWeek(n);
            WeekOne(w.year) + (w.week - 1) * 7 == Monday(n) && 1 <= w.week <= WeeksIn(w.year)
  {
    var y := YearOf(Monday(n) + 3);
    YearLength(y);
    MondayFacts(n);
    var k := (Monday(n) + 3 - YearStart(y)) / 7;
    assert IsoWeek(n) == YearWeek(y, k + 1);
    WeekIndex(Monday(n), YearStart(y), YearStart(y + 1));
  }

  lemma WeekIndex(monday: int, s: int, t: int)
    requires monday % 7 == 0 && s <= monday + 3 < t
    requires t == s + 365 || t == s + 366
    ensures Monday(s + 3) + (monday + 3 - s) / 7 * 7 == monday
    ensures 0 <= (monday + 3 - s) / 7 < (Monday(t + 3) - Monday(s + 3)) / 7
  {
    ThursdaysCountWeeks(s, monday);
    FirstThursday(t);
    WeeksBetween(s, t);
    WeekBounds(monday, Monday(s + 3), Monday(t + 3), (monday + 3 - s) / 7, (Monday(t + 3) - Monday(s + 3)) / 7);
  }

  lemma WeekBounds(m: int, first: int, next: int, k: int, weeks: int)
    requires m == first + 7 * k && next == first + 7 * weeks && m < next && k >= 0
    ensures 0 <= k < weeks
  {
  }

  lemma SameWeek(n: int, first: int, k: int)
    requires first % 7 == 0
    ensures Monday(n) == first + k * 7 <==> first + k * 7 <= n < first + (k + 1) * 7
  {
    MondayFacts(n);
    if first + k * 7 <= n < first + (k + 1) * 7 {
      MultiplesOfSeven(Monday(n), first);
    }
  }

  /** Weeks tile the calendar: a day belongs to week w of year y exactly when it lies in the seven
      days that start w - 1 weeks after the Monday of the week of 4 January. */
  lemma WeeksTile(n: int, y: int, w: int)
    requires 1 <= w <= WeeksIn(y)
    ensures IsoWeek(n) == YearWeek(y, w) <==> WeekOne(y) + (w - 1) * 7 <= n < WeekOne(y) + w * 7
  {
    WeekStart(n);
    FirstThursday(YearStart(y));
    SameWeek(n, WeekOne(y), w - 1);
    if Monday(n) == WeekOne(y) + (w - 1) * 7 {
      WeekInsideYear(n, y, w);
    }
  }

  lemma WeekInsideYear(n: int, y: int, w: int)
    requires 1 <= w <= WeeksIn(y) && Monday(n) == WeekOne(y) + (w - 1) * 7
    ensures IsoWeek(n) == YearWeek(y, w)
  {
    MondayFacts(n);
    FiftyTwoOrFiftyThree(y);
    FirstThursday(YearStart(y));
    FirstThursday(YearStart(y + 1));
    YearOfExact(Monday(n) + 3, y);
    ThursdaysCountWeeks(YearStart(y), Monday(n));
  }

  /** The years join without a gap: the Monday after the last week of a year is in week 1 of the
      next year, the Sunday before it in the last week. */
  lemma YearsJoin(y: int)
    ensures WeekOne(y + 1) == WeekOne(y) + WeeksIn(y) * 7
    ensures IsoWeek(WeekOne(y + 1)) == YearWeek(y + 1, 1)
    ensures IsoWeek(WeekOne(y + 1) - 1) == YearWeek(y, WeeksIn(y))
  {
    WeeksFillYear(y);
    WeeksFillYear(y + 1);
    FirstWeekStarts(y + 1);
    LastWeekEnds(y, WeeksIn(y), WeekOne(y + 1) - 1);
  }

  lemma WeeksFillYear(y: int)
    ensures WeekOne(y + 1) == WeekOne(y) + WeeksIn(y) * 7 && WeeksIn(y) >= 1
  {
    FiftyTwoOrFiftyThree(y);
  }

  lemma FirstWeekStarts(y: int)
    requires WeeksIn(y) >= 1
    ensures IsoWeek(WeekOne(y)) == YearWeek(y, 1)
  {
    WeeksTile(WeekOne(y), y, 1);
  }

  lemma LastWeekEnds(y: int, w: int, n: int)
    requires w == WeeksIn(y) && w >= 1 && n == WeekOne(y) + w * 7 - 1
    ensures IsoWeek(n) == YearWeek(y, w)
  {
    WeeksTile(n, y, w);
  }

  // ---- the key survives the trip ----

  lemma BackToMonday(n: int)
    ensures n + GoRem(-(Weekday(n) - 1 + 7), 7) == Monday(n)
  {
    var x := Weekday(n) + 6;
    assert x % 7 == n % 7 by {
      var r := n % 7;
      assert (n + 1) % 7 == if r < 6 then r + 1 else 0;
    }
  }

  lemma GoMondayOfJanuary(year: int)
    ensures var jan4 := GoDate(year, 1, 4);
            jan4 + GoRem(-(Weekday(jan4) - 1 + 7), 7) == WeekOne(year)
  {
    FourthOfJanuary(year);
    BackToMonday(GoDate(year, 1, 4));
  }

  lemma FourthOfJanuary(year: int)
    ensures GoDate(year, 1, 4) == YearStart(year) + 3 && WeekOne(year) == Monday(GoDate(year, 1, 4))
  {
  }

  lemma TwoDigits(w: int)
    requires 1 <= w <= 53
    ensures |Pad(PrintInt(w), 2)| == 2 && Atoi(Pad(PrintInt(w), 2)) == Success(w)
  {
    var p := Pad(PrintNat(w), 2);
    PrintedLength(w);
    ValueOfPrinted(w);
    ValueOfPadded(PrintNat(w), 2);
    assert IsDigit(p[0]);
  }

  /** The key has a four-character year. Negative years are outside the format of requested dates; the
      arithmetic covers them all the same. */
  predicate FourCharacterYear(y: int) {
    1000 <= y <= 9999 || -999 <= y <= -100
  }

  lemma YearWidth(y: int)
    ensures |PrintInt(y)| == 4 <==> FourCharacterYear(y)
    ensures forall i :: 0 < i < |PrintInt(y)| ==> IsDigit(PrintInt(y)[i])
  {
    PrintedLength(if y < 0 then -y else y);
  }

  /** A year of any other width is turned away: the separators are not where they are looked for. */
  lemma OtherWidthsFail(y: int, ww: string)
    requires |PrintInt(y)| != 4 && |ww| == 2 && AllDigits(ww)
    ensures IsoWeekToDate(PrintInt(y) + "-W" + ww) == Failure
  {
    var p := PrintInt(y);
    var key := p + "-W" + ww;
    YearWidth(y);
    assert |p| >= 1;
    if |p| == 1 {
      assert |key| == 5;
    } else if |p| == 2 {
      assert key[4] == ww[0];
    } else if |p| == 3 {
      assert key[4] == 'W';
    } else {
      assert key[4] == p[4];
    }
  }

  lemma FourCharacterKeyParses(year: int, week: int)
    requires |PrintInt(year)| == 4 && 1 <= week <= 53
    ensures IsoWeekToDate(PrintInt(year) + "-W" + Pad(PrintInt(week), 2)) == Success(WeekOne(year) + (week - 1) * 7)
  {
    var p, ww := PrintInt(year), Pad(PrintInt(week), 2);
    var key := p + "-W" + ww;
    TwoDigits(week);
    YearWidth(year);
    assert key[..4] == p && key[6..] == ww;
    AtoiInvertsPrint(year);
    GoMondayOfJanuary(year);
  }

  /** The key booking prints for a day is parsed to the Monday of that day's week exactly when the
      ISO year takes four characters; otherwise staff rejects it. */
  lemma WeekKeyRoundTrip(n: int)
    ensures IsoWeekToDate(WeekKey(n)) ==
            if FourCharacterYear(IsoWeek(n).year) then Success(Monday(n)) else Failure
  {
    var w := IsoWeek(n);
    WeekStart(n);
    FiftyTwoOrFiftyThree(w.year);
    YearWidth(w.year);
    if |PrintInt(w.year)| == 4 {
      FourCharacterKeyParses(w.year, w.week);
    } else {
      TwoDigits(w.week);
      OtherWidthsFail(w.year, Pad(PrintInt(w.week), 2));
    }
  }

  lemma {:induction false} PrintedWeek()
    ensures PrintInt(2024) == "2024" && Pad(PrintInt(1), 2) == "01"
  {
    assert PrintNat(2) == "2";
    assert PrintNat(20) == PrintNat(2) + "0";
    assert PrintNat(202) == PrintNat(20) + "2";
    assert PrintNat(2024) == PrintNat(202) + "4";
    assert PrintNat(1) == "1" && Pad("01", 2) == "01";
  }

  lemma {:induction false} FirstDayOf2024()
    ensures YearStart(2024) == 738_885 && WeekOne(2024) == 738_885 && WeeksIn(2024) >= 1
  {
    YearStartClosedForm(2024);
    YearStartClosedForm(2025);
  }

  lemma {:induction false} FirstWeekOf2024()
    ensures IsoWeek(738_885) == YearWeek(2024, 1) && Monday(738_885) == 738_885
  {
    FirstDayOf2024();
    WeeksTile(738_885, 2024, 1);
  }

  /** Keys that are too short or lack the separator are rejected before any number is read. */
  lemma MalformedWeekFails(week: string)
    requires |week| < 6 || week[4] != '-' || week[5] != 'W'
    ensures IsoWeekToDate(week) == Failure
  {
  }

  lemma KeyText(n: int, y: int, w: int)
    requires IsoWeek(n) == YearWeek(y, w) && PrintInt(y) == "2024" && Pad(PrintInt(w), 2) == "01"
    ensures WeekKey(n) == "2024-W01"
  {
  }

  /** 1 January 2024, day 738,885, was the Monday of the week 2024-W01. */
  lemma {:induction false} SampleWeek()
    ensures WeekKey(738_885) == "2024-W01"
  {
    FirstWeekOf2024();
    PrintedWeek();
    KeyText(738_885, 2024, 1);
  }

  lemma {:induction false} SampleWeekParses(n: int)
    requires IsoWeek(n).year == 2024 && Monday(n) == n && WeekKey(n) == "2024-W01"
    ensures IsoWeekToDate("2024-W01") == Success(n)
  {
    WeekKeyRoundTrip(n);
  }

  /** A day of the year 999 for which the schedule request fails. */
  lemma Year999IsRejected()
    ensures IsoWeek(WeekOne(999)).year == 999 && IsoWeekToDate(WeekKey(WeekOne(999))) == Failure
  {
    FiftyTwoOrFiftyThree(999);
    WeeksTile(WeekOne(999), 999, 1);
    WeekKeyRoundTrip(WeekOne(999));
  }

  // ---- the schedule window ----

  // Minutes after midnight, keyed by barber and day; the table allows one row per barber and day.
  datatype Shift = Shift(startMinute: int, endMinute: int)

  type Schedule = map<(string, int), Shift>

  function DayOf(row: Shift, date: int): WorkDay {
    WorkDay(date, row.startMinute, row.endMinute)
  }

  /** days lists the barber's rows with from <= date < to, each with its own start and end, by date. */
  ghost predicate ListsShifts(days: seq<WorkDay>, schedule: Schedule, barberId: string, from: int, to: int) {
    && (forall i :: 0 <= i < |days| ==>
          && from <= days[i].date < to && (barberId, days[i].date) in schedule
          && days[i].startMinute == schedule[(barberId, days[i].date)].startMinute
          && days[i].endMinute == schedule[(barberId, days[i].date)].endMinute)
    && (forall d :: from <= d < to && (barberId, d) in schedule ==> exists i :: 0 <= i < |days| && days[i].date == d)
    && (forall i, j :: 0 <= i < j < |days| ==> days[i].date < days[j].date)
  }

  lemma ListsOneMore(days: seq<WorkDay>, schedule: Schedule, barberId: string, from: int, d: int)
    requires from <= d && ListsShifts(days, schedule, barberId, from, d)
    ensures (barberId, d) in schedule ==>
              ListsShifts(days + [DayOf(schedule[(barberId, d)], d)], schedule, barberId, from, d + 1)
    ensures (barberId, d) !in schedule ==> ListsShifts(days, schedule, barberId, from, d + 1)
  {
    if (barberId, d) in schedule {
      var longer := days + [DayOf(schedule[(barberId, d)], d)];
      forall e | from <= e < d + 1 && (barberId, e) in schedule
        ensures exists i :: 0 <= i < |longer| && longer[i].date == e
      {
        if e < d {
          var i :| 0 <= i < |days| && days[i].date == e;
          assert longer[i].date == e;
        } else {
          assert longer[|days|].date == e;
        }
      }
    }
  }

  /** The rows of one barber from weekStart to weekEnd, exclusive, by date. Dates are Unix days. */
  method RowsBetween(schedule: Schedule, barberId: string, weekStart: int, weekEnd: int) returns (days: seq<WorkDay>)
    ensures ListsShifts(days, schedule, barberId, weekStart, weekEnd)
  {
    days := [];
    var d := weekStart;
    while d < weekEnd
      invariant weekStart <= d && (d <= weekEnd || days == [])
      invariant ListsShifts(days, schedule, barberId, weekStart, d)
    {
      ListsOneMore(days, schedule, barberId, weekStart, d);
      if (barberId, d) in schedule {
        days := days + [DayOf(schedule[(barberId, d)], d)];
      }
      d := d + 1;
    }
  }

  /** A day is found in the list exactly when it lies in the range and has a row. */
  lemma ShiftIsFound(days: seq<WorkDay>, schedule: Schedule, barberId: string, from: int, to: int, d: int)
    requires ListsShifts(days, schedule, barberId, from, to)
    ensures FirstDay(days, d) == if from <= d < to && (barberId, d) in schedule
                                 then Some(DayOf(schedule[(barberId, d)], d)) else None
  {
    FirstDayIsFirst(days, d);
  }

  method GetSchedule(schedule: Schedule, barberId: string, week: string) returns (days: Result<seq<WorkDay>>)
    ensures days.Failure? <==> IsoWeekToDate(week).Failure?
    ensures days.Success? ==>
              var start := IsoWeekToDate(week).value - UNIX_DAY;
              && (forall d :: FirstDay(days.value, d) ==
                              if start <= d < start + 7 && (barberId, d) in schedule
                              then Some(DayOf(schedule[(barberId, d)], d)) else None)
              && ListsShifts(days.value, schedule, barberId, start, start + 7)
  {
    var start := IsoWeekToDate(week);
    if start.Failure? {
      return Failure;
    }
    var weekStart := start.value - UNIX_DAY;
    var weekEnd := weekStart + 7;
    var rows := RowsBetween(schedule, barberId, weekStart, weekEnd);
    days := Success(rows);
    forall d {
      ShiftIsFound(rows, schedule, barberId, weekStart, weekEnd, d);
    }
  }

  /** Asked with the key of a day, staff answers with a list in which that day's row, if there is
      one, is found; with a year that is not four characters wide the request fails. */
  method ScheduleForDay(schedule: Schedule, barberId: string, date: int) returns (days: Result<seq<WorkDay>>)
    ensures days.Success? <==> FourCharacterYear(IsoWeek(date + UNIX_DAY).year)
    ensures days.Success? ==>
              if (barberId, date) in schedule
              then IsFirstOfDate(days.value, date, Some(WorkDay(date, schedule[(barberId, date)].startMinute,
                                                                schedule[(barberId, date)].endMinute)))
              else IsFirstOfDate(days.value, date, None)
  {
    WeekKeyRoundTrip(date + UNIX_DAY);
    MondayFacts(date + UNIX_DAY);
    days := GetSchedule(schedule, barberId, WeekKey(date + UNIX_DAY));
    if days.Success? {
      FirstDayIsFirst(days.value, date);
    }
  }

  // ---- analytics periods ----

  datatype Period = Day | Week | Month | All | Custom(from: int, to: int)

  /** The dates of a period around `now`, both inclusive; None means no limit. */
  function ResolvePeriod(p: Period, now: int): Option<(int, int)> {
    match p
    case Day => Some((now, now))
    case Week =>
      var weekday := if Weekday(now) == 0 then 7 else Weekday(now);
      var monday := now - (weekday - 1);
      Some((monday, monday + 6))
    case Month =>
      var first := GoDate(YearOf(now), MonthOf(now), 1);
      Some((first, GoDate(YearOf(now), MonthOf(now) + 1, 0)))
    case All => None
    case Custom(from, to) => Some((from, to))
  }

  /** A day is that day, no limit is no limit, and a custom period is taken as it is given. */
  lemma PeriodsAsGiven(now: int, from: int, to: int)
    ensures ResolvePeriod(Day, now) == Some((now, now))
    ensures ResolvePeriod(All, now) == None
    ensures ResolvePeriod(Custom(from, to), now) == Some((from, to))
  {
  }

  /** The analytics week is the ISO week that booking and staff mean. */
  lemma PeriodWeekIsIsoWeek(now: int)
    ensures var w := IsoWeek(now);
            ResolvePeriod(Week, now) == Some((WeekOne(w.year) + (w.week - 1) * 7, WeekOne(w.year) + w.week * 7 - 1))
    ensures FourCharacterYear(IsoWeek(now).year) ==>
              IsoWeekToDate(WeekKey(now)) == Success(ResolvePeriod(Week, now).value.0)
  {
    WeekStart(now);
    WeekKeyRoundTrip(now);
    BackToWeekStart(now);
  }

  lemma BackToWeekStart(n: int)
    ensures n - ((if Weekday(n) == 0 then 7 else Weekday(n)) - 1) == Monday(n)
  {
    var r := n % 7;
    assert (n + 1) % 7 == if r < 6 then r + 1 else 0;
  }

  function MonthStart(y: int, m: int): int
    requires 1 <= m <= 12
  {
    YearStart(y) + DaysBeforeMonth(y, m)
  }

  lemma GoDateInYear(y: int, m: int, d: int)
    requires 1 <= m <= 12
    ensures GoDate(y, m, d) == MonthStart(y, m) + d - 1
  {
  }

  /** Month 13 is January of the next year. */
  lemma GoDateAfterDecember(y: int, d: int)
    ensures GoDate(y, 13, d) == MonthStart(y + 1, 1) + d - 1
    ensures MonthStart(y + 1, 1) == MonthStart(y, 12) + DaysInMonth(y, 12)
  {
    MonthsFillYear(y);
    YearLength(y);
  }

  /** Day d of the month after (y, m), December included. */
  lemma NextMonth(y: int, m: int, d: int)
    requires 1 <= m <= 12
    ensures GoDate(y, m + 1, d) == MonthStart(y, m) + DaysInMonth(y, m) + d - 1
  {
    MonthsFillYear(y);
    if m == 12 {
      GoDateAfterDecember(y, d);
    } else {
      GoDateInYear(y, m + 1, d);
    }
  }

  lemma {:induction false} MonthRange(now: int)
    ensures var start := MonthStart(YearOf(now), MonthOf(now));
            ResolvePeriod(Month, now) == Some((start, start + DaysInMonth(YearOf(now), MonthOf(now)) - 1))
  {
    var y, m := YearOf(now), MonthOf(now);
    MonthPeriod(now, y, m);
    MonthBounds(y, m);
  }

  lemma MonthPeriod(now: int, y: int, m: int)
    requires y == YearOf(now) && m == MonthOf(now)
    ensures ResolvePeriod(Month, now) == Some((GoDate(y, m, 1), GoDate(y, m + 1, 0)))
  {
  }

  lemma MonthBounds(y: int, m: int)
    requires 1 <= m <= 12
    ensures GoDate(y, m, 1) == MonthStart(y, m)
    ensures GoDate(y, m + 1, 0) == MonthStart(y, m) + DaysInMonth(y, m) - 1
  {
    GoDateInYear(y, m, 1);
    NextMonth(y, m, 0);
  }

  /** The month that starts right after (y, m). */
  lemma MonthAfter(y: int, m: int) returns (y': int, m': int)
    requires 1 <= m <= 12
    ensures 1 <= m' <= 12 && MonthStart(y', m') == MonthStart(y, m) + DaysInMonth(y, m)
  {
    if m == 12 {
      GoDateAfterDecember(y, 1);
      y', m' := y + 1, 1;
    } else {
      y', m' := y, m + 1;
    }
  }

  lemma TodayInMonth(now: int)
    ensures var start := MonthStart(YearOf(now), MonthOf(now));
            start <= now < start + DaysInMonth(YearOf(now), MonthOf(now))
  {
    assert DaysBeforeMonth(YearOf(now), MonthOf(now) + 1)
        == DaysBeforeMonth(YearOf(now), MonthOf(now)) + DaysInMonth(YearOf(now), MonthOf(now));
  }

  /** The month range contains today, is as long as the month, and the next month's range starts
      right after it. */
  lemma PeriodMonth(now: int) returns (first: int, next: int)
    ensures ResolvePeriod(Month, now) == Some((first, next - 1))
    ensures first <= now < next && next - first == DaysInMonth(YearOf(now), MonthOf(now))
    ensures ResolvePeriod(Month, next).value.0 == next
  {
    MonthRange(now);
    TodayInMonth(now);
    first := MonthStart(YearOf(now), MonthOf(now));
    var y', m' := MonthAfter(YearOf(now), MonthOf(now));
    next := MonthStart(y', m');
    FirstOfMonth(y', m');
  }

  /** The first day of a month belongs to that month. */
  lemma FirstOfMonth(y: int, m: int)
    requires 1 <= m <= 12
    ensures ResolvePeriod(Month, MonthStart(y, m)).value.0 == MonthStart(y, m)
  {
    var first := MonthStart(y, m);
    MonthsFillYear(y);
    YearLength(y);
    MonthStartsInside(y, m);
    YearOfExact(first, y);
    MonthUnique(first, y, m);
    GoDateInYear(y, m, 1);
  }

  lemma {:induction false} MonthStartsInside(y: int, m: int)
    requires 1 <= m <= 12
    ensures 0 <= DaysBeforeMonth(y, m) && DaysBeforeMonth(y, m) + DaysInMonth(y, m) <= DaysBeforeMonth(y, 13)
    decreases 12 - m
  {
    if m < 12 {
      MonthStartsInside(y, m + 1);
    }
    MonthsBeforeNotNegative(y, m);
  }

  lemma {:induction false} MonthsBeforeNotNegative(y: int, m: int)
    requires 1 <= m <= 13
    ensures DaysBeforeMonth(y, m) >= 0
  {
    if m == 1 {
    } else {
      MonthsBeforeNotNegative(y, m - 1);
    }
  }

  lemma {:induction false} MonthsIncrease(y: int, m: int, k: int)
    requires 1 <= m < k <= 13
    ensures DaysBeforeMonth(y, m + 1) <= DaysBeforeMonth(y, k)
    decreases k
  {
    if m + 1 == k {
    } else {
      MonthsIncrease(y, m, k - 1);
    }
  }

  lemma MonthUnique(n: int, y: int, m: int)
    requires YearOf(n) == y && 1 <= m <= 12
    requires DaysBeforeMonth(y, m) <= n - YearStart(y) < DaysBeforeMonth(y, m + 1)
    ensures MonthOf(n) == m
  {
    var k := MonthOf(n);
    if k < m {
      MonthsIncrease(y, k, m);
    } else if m < k {
      MonthsIncrease(y, m, k);
    }
  }
}
