/**
 The analytics day table: a merge of booking groups and schedule rows, and its totals.
 */
module DailyBreakdown {
  import opened BookingStore
  import opened AnalyticsReplica
  import opened Sorting

  const SECONDS_PER_DAY: int := 86_400

  // A live schedule row of the barber and period as the newest-version view returns it.
  datatype Shift = Shift(date: int, startMinute: int, endMinute: int)

  // One row of the GROUP BY date query.
  datatype DayGroup = DayGroup(date: int, clients: int, revenue: int)

  datatype DayStat = DayStat(date: int, clients: int, revenue: int, hours: real)

  datatype BookingStats = BookingStats(clientsServed: int, totalRevenue: int)

  function VisitDate(r: Row): int {
    r.startTime / SECONDS_PER_DAY
  }

  function ClientsIn(r: Row): int {
    if r.status == Completed then 1 else 0
  }

  function RevenueIn(r: Row): int {
    if r.status == Completed then r.price else 0
  }

  function ShiftDate(s: Shift): int {
    s.date
  }

  function Minutes(s: Shift): int {
    s.endMinute - s.startMinute
  }

  // ---- sums over rows and over dates ----

  function Total<T>(rows: seq<T>, f: T -> int): int {
    if rows == [] then 0 else Total(rows[..|rows| - 1], f) + f(rows[|rows| - 1])
  }

  /** The part of the total that falls on date d. */
  function OnDate<T>(rows: seq<T>, date: T -> int, f: T -> int, d: int): int {
    if rows == [] then 0
    else
      var r := rows[|rows| - 1];
      OnDate(rows[..|rows| - 1], date, f, d) + if date(r) == d then f(r) else 0
  }

  function SumOver(dates: seq<int>, g: int -> int): int {
    if dates == [] then 0 else SumOver(dates[..|dates| - 1], g) + g(dates[|dates| - 1])
  }

  ghost predicate Distinct(dates: seq<int>) {
    forall i, j :: 0 <= i < j < |dates| ==> dates[i] != dates[j]
  }

  /** Raising one value raises the sum once. */
  lemma {:induction false} SumChangesAt(dates: seq<int>, g: int -> int, h: int -> int, x: int, v: int)
    requires Distinct(dates) && forall d :: h(d) == g(d) + if d == x then v else 0
    ensures SumOver(dates, h) == SumOver(dates, g) + if x in dates then v else 0
  {
    if dates == [] {
    } else {
      var rest, last := dates[..|dates| - 1], dates[|dates| - 1];
      SumChangesAt(rest, g, h, x, v);
      assert dates == rest + [last];
      assert last !in rest;
    }
  }

  /** Grouping by date loses and repeats nothing: the parts on distinct dates that cover all rows add
      up to the total. */
  lemma {:induction false} DatesPartitionTotal<T>(rows: seq<T>, date: T -> int, f: T -> int, dates: seq<int>)
    requires Distinct(dates) && forall i :: 0 <= i < |rows| ==> date(rows[i]) in dates
    ensures SumOver(dates, d => OnDate(rows, date, f, d)) == Total(rows, f)
  {
    if rows == [] {
      SumOfZeros(dates, d => OnDate(rows, date, f, d));
    } else {
      var rest, last := rows[..|rows| - 1], rows[|rows| - 1];
      DatesPartitionTotal(rest, date, f, dates);
      SumChangesAt(dates, d => OnDate(rest, date, f, d), d => OnDate(rows, date, f, d), date(last), f(last));
    }
  }

  lemma {:induction false} SumOfZeros(dates: seq<int>, g: int -> int)
    requires forall d :: g(d) == 0
    ensures SumOver(dates, g) == 0
  {
    if dates == [] {
    } else {
      SumOfZeros(dates[..|dates| - 1], g);
    }
  }

  // ---- schedule rows of one date overwrite each other ----

  predicate HasDate(shifts: seq<Shift>, d: int) {
    exists i :: 0 <= i < |shifts| && shifts[i].date == d
  }

  /** The minutes of the last row of that date. */
  function LastMinutes(shifts: seq<Shift>, d: int): int {
    if shifts == [] then 0
    else if shifts[|shifts| - 1].date == d then Minutes(shifts[|shifts| - 1])
    else LastMinutes(shifts[..|shifts| - 1], d)
  }

  /** The minutes of rows that a later row of the same date overwrites. */
  function Overwritten(shifts: seq<Shift>): int {
    if shifts == [] then 0
    else
      var rest, last := shifts[..|shifts| - 1], shifts[|shifts| - 1];
      Overwritten(rest) + LastMinutes(rest, last.date)
  }

  /** What the day table keeps and what it overwrites make up all schedule minutes. */
  lemma {:induction false} KeptAndOverwritten(shifts: seq<Shift>, dates: seq<int>)
    requires Distinct(dates) && forall i :: 0 <= i < |shifts| ==> shifts[i].date in dates
    ensures SumOver(dates, d => LastMinutes(shifts, d)) + Overwritten(shifts) == Total(shifts, Minutes)
  {
    if shifts == [] {
      SumOfZeros(dates, d => LastMinutes(shifts, d));
    } else {
      var rest, last := shifts[..|shifts| - 1], shifts[|shifts| - 1];
      KeptAndOverwritten(rest, dates);
      SumChangesAt(dates, d => LastMinutes(rest, d), d => LastMinutes(shifts, d), last.date,
                   Minutes(last) - LastMinutes(rest, last.date));
    }
  }

  /** With at most one row for each date nothing is overwritten. */
  lemma {:induction false} OneRowPerDate(shifts: seq<Shift>)
    requires DistinctDates(shifts)
    ensures Overwritten(shifts) == 0
  {
    if shifts == [] {
    } else {
      var rest := shifts[..|shifts| - 1];
      OneRowPerDate(rest);
      NoRowNoMinutes(rest, shifts[|shifts| - 1].date);
    }
  }

  predicate DistinctDates(shifts: seq<Shift>) {
    forall i, j :: 0 <= i < j < |shifts| ==> shifts[i].date != shifts[j].date
  }

  predicate PositiveShifts(shifts: seq<Shift>) {
    forall i :: 0 <= i < |shifts| ==> Minutes(shifts[i]) > 0
  }

  lemma {:induction false} RowHasMinutes(shifts: seq<Shift>, d: int)
    requires PositiveShifts(shifts)
    ensures LastMinutes(shifts, d) >= 0
    ensures LastMinutes(shifts, d) > 0 <==> HasDate(shifts, d)
  {
    if shifts == [] {
    } else {
      var rest := shifts[..|shifts| - 1];
      RowHasMinutes(rest, d);
      if HasDate(rest, d) {
        var i :| 0 <= i < |rest| && rest[i].date == d;
        assert shifts[i].date == d;
      }
      if HasDate(shifts, d) && shifts[|shifts| - 1].date != d {
        var i :| 0 <= i < |shifts| && shifts[i].date == d;
        assert rest[i].date == d;
      }
    }
  }

  /** Shifts that last some time overwrite minutes exactly when two of them share a date. */
  lemma {:induction false} OverwritesExactly(shifts: seq<Shift>)
    requires PositiveShifts(shifts)
    ensures Overwritten(shifts) >= 0
    ensures Overwritten(shifts) == 0 <==> DistinctDates(shifts)
  {
    if shifts == [] {
    } else {
      var rest, last := shifts[..|shifts| - 1], shifts[|shifts| - 1];
      OverwritesExactly(rest);
      RowHasMinutes(rest, last.date);
      if HasDate(rest, last.date) {
        var i :| 0 <= i < |rest| && rest[i].date == last.date;
        assert shifts[i].date == shifts[|shifts| - 1].date;
      }
      if !DistinctDates(rest) {
        var i, j :| 0 <= i < j < |rest| && rest[i].date == rest[j].date;
        assert shifts[i].date == shifts[j].date;
      }
      if DistinctDates(rest) && !HasDate(rest, last.date) {
        forall i, j | 0 <= i < j < |shifts|
          ensures shifts[i].date != shifts[j].date
        {
          assert rest[i].date == shifts[i].date;
          assert j < |rest| ==> rest[j].date == shifts[j].date;
        }
      }
    }
  }

  lemma {:induction false} NoRowNoMinutes(shifts: seq<Shift>, d: int)
    requires forall i :: 0 <= i < |shifts| ==> shifts[i].date != d
    ensures LastMinutes(shifts, d) == 0
  {
    if shifts == [] {
    } else {
      NoRowNoMinutes(shifts[..|shifts| - 1], d);
    }
  }

  // ---- the queries and the merge ----

  predicate HasVisit(rows: seq<Row>, d: int) {
    exists i :: 0 <= i < |rows| && VisitDate(rows[i]) == d
  }

  /** groups is the answer of the GROUP BY date ORDER BY date query over rows. */
  ghost predicate IsGrouped(groups: seq<DayGroup>, rows: seq<Row>) {
    && (forall i, j :: 0 <= i < j < |groups| ==> groups[i].date < groups[j].date)
    && (forall i :: 0 <= i < |groups| ==>
          HasVisit(rows, groups[i].date)
          && groups[i].clients == OnDate(rows, VisitDate, ClientsIn, groups[i].date)
          && groups[i].revenue == OnDate(rows, VisitDate, RevenueIn, groups[i].date))
    && (forall k :: 0 <= k < |rows| ==> exists i :: 0 <= i < |groups| && groups[i].date == VisitDate(rows[k]))
  }

  function DayOf(rows: seq<Row>, shifts: seq<Shift>, d: int): DayStat {
    DayStat(d, OnDate(rows, VisitDate, ClientsIn, d), OnDate(rows, VisitDate, RevenueIn, d),
            LastMinutes(shifts, d) as real / 60.0)
  }

  /** The day table: one entry for each date of either source, strictly by date. */
  ghost predicate IsDayTable(days: seq<DayStat>, rows: seq<Row>, shifts: seq<Shift>) {
    && Sorted(days, DateKey)
    && (forall i :: 0 <= i < |days| ==>
          days[i] == DayOf(rows, shifts, days[i].date) && (HasVisit(rows, days[i].date) || HasDate(shifts, days[i].date)))
    && (forall d :: HasVisit(rows, d) || HasDate(shifts, d) ==> exists i :: 0 <= i < |days| && days[i].date == d)
  }

  lemma {:induction false} NoVisitNothing(rows: seq<Row>, d: int, f: Row -> int)
    requires !HasVisit(rows, d)
    ensures OnDate(rows, VisitDate, f, d) == 0
  {
    if rows == [] {
    } else {
      var rest := rows[..|rows| - 1];
      assert forall i :: 0 <= i < |rest| ==> rest[i] == rows[i];
      assert VisitDate(rows[|rows| - 1]) != d;
      NoVisitNothing(rest, d, f);
    }
  }

  /** Merges the two query answers through a map of days, then sorts by date. */
  method GetDailyBreakdown(ghost rows: seq<Row>, groups: seq<DayGroup>, shifts: seq<Shift>) returns (days: seq<DayStat>)
    requires IsGrouped(groups, rows)
    ensures IsDayTable(days, rows, shifts)
  {
    var dayMap := CollectGroups(rows, groups);
    dayMap := MergeShifts(rows, dayMap, shifts);
    days := SortedDays(dayMap);
    forall d | HasVisit(rows, d) || HasDate(shifts, d)
      ensures exists i :: 0 <= i < |days| && days[i].date == d
    {
      assert dayMap[d] in days;
    }
  }

  /** First loop: one day for each booking group. */
  method CollectGroups(ghost rows: seq<Row>, groups: seq<DayGroup>) returns (dayMap: map<int, DayStat>)
    requires IsGrouped(groups, rows)
    ensures IsMerged(dayMap, rows, [])
  {
    dayMap := map[];
    for n := 0 to |groups|
      invariant forall d :: d in dayMap <==> exists i :: 0 <= i < n && groups[i].date == d
      invariant forall d :: d in dayMap ==> HasVisit(rows, d) && dayMap[d] == DayOf(rows, [], d)
    {
      dayMap := dayMap[groups[n].date := DayStat(groups[n].date, groups[n].clients, groups[n].revenue, 0.0)];
    }
  }

  /** Second loop: the hours of the schedule rows. */
  method MergeShifts(ghost rows: seq<Row>, dayMap: map<int, DayStat>, shifts: seq<Shift>) returns (merged: map<int, DayStat>)
    requires IsMerged(dayMap, rows, [])
    ensures IsMerged(merged, rows, shifts)
  {
    merged := dayMap;
    for n := 0 to |shifts|
      invariant IsMerged(merged, rows, shifts[..n])
    {
      assert shifts[..n + 1] == shifts[..n] + [shifts[n]];
      merged := MergeShift(rows, merged, shifts[..n], shifts[n]);
    }
    assert shifts[..|shifts|] == shifts;
  }

  ghost predicate IsMerged(dayMap: map<int, DayStat>, rows: seq<Row>, shifts: seq<Shift>) {
    && (forall d :: d in dayMap <==> HasVisit(rows, d) || HasDate(shifts, d))
    && (forall d :: d in dayMap ==> dayMap[d] == DayOf(rows, shifts, d))
  }

  /** One schedule row: makes the day if bookings did not, then sets its hours. */
  method MergeShift(ghost rows: seq<Row>, dayMap: map<int, DayStat>, ghost before: seq<Shift>, s: Shift)
    returns (merged: map<int, DayStat>)
    requires IsMerged(dayMap, rows, before)
    ensures IsMerged(merged, rows, before + [s])
  {
    var d := s.date;
    merged := dayMap;
    if d !in merged {
      NoVisitNothing(rows, d, ClientsIn);
      NoVisitNothing(rows, d, RevenueIn);
      merged := merged[d := DayStat(d, 0, 0, 0.0)];
    }
    merged := merged[d := merged[d].(hours := Minutes(s) as real / 60.0)];
    forall e {
      HasDateAppend(before, s, e);
    }
    assert (before + [s])[..|before|] == before;
  }

  lemma HasDateAppend(shifts: seq<Shift>, s: Shift, e: int)
    ensures HasDate(shifts + [s], e) <==> HasDate(shifts, e) || e == s.date
  {
    var longer := shifts + [s];
    assert longer[|shifts|] == s;
    if HasDate(shifts, e) {
      var i :| 0 <= i < |shifts| && shifts[i].date == e;
      assert longer[i].date == e;
    }
  }

  method AnyOf<T(==)>(dates: set<T>) returns (d: T)
    requires dates != {}
    ensures d in dates
  {
    d :| d in dates;
  }

  function DateKey(s: DayStat): int {
    s.date
  }

  /** The values of the map, by date. */
  method SortedDays(dayMap: map<int, DayStat>) returns (days: seq<DayStat>)
    requires forall d :: d in dayMap ==> dayMap[d].date == d
    ensures Sorted(days, DateKey)
    ensures forall x :: x in days <==> x.date in dayMap && dayMap[x.date] == x
  {
    days := [];
    var todo := dayMap.Keys;
    while todo != {}
      invariant todo <= dayMap.Keys && Sorted(days, DateKey)
      invariant forall x :: x in days <==> x.date in dayMap && x.date !in todo && dayMap[x.date] == x
    {
      var d := AnyOf(todo);
      todo := todo - {d};
      days := Insert(days, DateKey, dayMap[d]);
    }
  }

  // ---- conservation ----

  function DatesOf(days: seq<DayStat>): seq<int> {
    seq(|days|, i requires 0 <= i < |days| => days[i].date)
  }

  function SumClients(days: seq<DayStat>): int {
    if days == [] then 0 else SumClients(days[..|days| - 1]) + days[|days| - 1].clients
  }

  function SumRevenue(days: seq<DayStat>): int {
    if days == [] then 0 else SumRevenue(days[..|days| - 1]) + days[|days| - 1].revenue
  }

  function SumHours(days: seq<DayStat>): real {
    if days == [] then 0.0 else SumHours(days[..|days| - 1]) + days[|days| - 1].hours
  }

  /** The aggregate query over the same rows. */
  function GetBookingStats(rows: seq<Row>): BookingStats {
    BookingStats(Total(rows, ClientsIn), Total(rows, RevenueIn))
  }

  function GetScheduleMinutes(shifts: seq<Shift>): int {
    Total(shifts, Minutes)
  }

  lemma {:induction false} SumsAreByDate(days: seq<DayStat>, rows: seq<Row>, shifts: seq<Shift>)
    requires forall i :: 0 <= i < |days| ==> days[i] == DayOf(rows, shifts, days[i].date)
    ensures SumClients(days) == SumOver(DatesOf(days), d => OnDate(rows, VisitDate, ClientsIn, d))
    ensures SumRevenue(days) == SumOver(DatesOf(days), d => OnDate(rows, VisitDate, RevenueIn, d))
    ensures SumHours(days) * 60.0 == SumOver(DatesOf(days), d => LastMinutes(shifts, d)) as real
  {
    if days == [] {
    } else {
      var rest := days[..|days| - 1];
      SumsAreByDate(rest, rows, shifts);
      assert DatesOf(days)[..|days| - 1] == DatesOf(rest);
    }
  }

  /** Over one period the day table adds up: clients and revenue to the aggregate query, hours to the
      schedule minutes less those of rows overwritten by a later row of the same date. */
  lemma BreakdownConserves(days: seq<DayStat>, rows: seq<Row>, shifts: seq<Shift>)
    requires IsDayTable(days, rows, shifts)
    ensures SumClients(days) == GetBookingStats(rows).clientsServed
    ensures SumRevenue(days) == GetBookingStats(rows).totalRevenue
    ensures SumHours(days) * 60.0 == (GetScheduleMinutes(shifts) - Overwritten(shifts)) as real
  {
    var dates := DatesOf(days);
    forall i | 0 <= i < |rows|
      ensures VisitDate(rows[i]) in dates
    {
      assert HasVisit(rows, VisitDate(rows[i]));
      var k :| 0 <= k < |days| && days[k].date == VisitDate(rows[i]);
      assert dates[k] == VisitDate(rows[i]);
    }
    forall i | 0 <= i < |shifts|
      ensures ShiftDate(shifts[i]) in dates
    {
      assert HasDate(shifts, shifts[i].date);
      var k :| 0 <= k < |days| && days[k].date == shifts[i].date;
      assert dates[k] == shifts[i].date;
    }
    SumsAreByDate(days, rows, shifts);
    DatesPartitionTotal(rows, VisitDate, ClientsIn, dates);
    DatesPartitionTotal(rows, VisitDate, RevenueIn, dates);
    KeptAndOverwritten(shifts, dates);
  }

  /** Hours fall short by the overwritten minutes. For shifts that last some time they match the schedule
      exactly when no two live rows share a date; rows of different dates always match. */
  lemma HoursMatchExactly(days: seq<DayStat>, rows: seq<Row>, shifts: seq<Shift>)
    requires IsDayTable(days, rows, shifts)
    ensures PositiveShifts(shifts) ==>
              (SumHours(days) * 60.0 == GetScheduleMinutes(shifts) as real <==> DistinctDates(shifts))
    ensures DistinctDates(shifts) ==> SumHours(days) * 60.0 == GetScheduleMinutes(shifts) as real
    ensures SumHours(days) * 60.0 == GetScheduleMinutes(shifts) as real <==> Overwritten(shifts) == 0
  {
    BreakdownConserves(days, rows, shifts);
    if DistinctDates(shifts) {
      OneRowPerDate(shifts);
    }
    if PositiveShifts(shifts) {
      OverwritesExactly(shifts);
    }
  }

  /** Two live rows for one date: whatever the bookings, the table shows the second, the total counts both. */
  lemma TwoRowsOfOneDate(days: seq<DayStat>, rows: seq<Row>)
    requires IsDayTable(days, rows, [Shift(1, 540, 600), Shift(1, 600, 720)])
    ensures SumHours(days) * 60.0 == 120.0
    ensures GetScheduleMinutes([Shift(1, 540, 600), Shift(1, 600, 720)]) == 180
  {
    var shifts := [Shift(1, 540, 600), Shift(1, 600, 720)];
    assert shifts[..1] == [shifts[0]] && shifts[..1][..0] == [];
    assert Total(shifts[..1], Minutes) == 60;
    BreakdownConserves(days, rows, shifts);
  }

  // ---- what is summed, in terms of columns ----

  /** The visit starts on this date, in UTC. */
  predicate StartsOn(r: Row, d: int) {
    d * 86_400 <= r.startTime < (d + 1) * 86_400
  }

  lemma VisitDateIsPlain(r: Row, d: int)
    ensures VisitDate(r) == d <==> StartsOn(r, d)
  {
  }

  /** Without rows all sums are zero; one more row counts, with its price, only if it is completed. */
  lemma StatsCountCompleted(rows: seq<Row>, r: Row)
    ensures GetBookingStats([]) == BookingStats(0, 0)
    ensures r.status == Completed ==>
              && GetBookingStats(rows + [r]).clientsServed == GetBookingStats(rows).clientsServed + 1
              && GetBookingStats(rows + [r]).totalRevenue == GetBookingStats(rows).totalRevenue + r.price
    ensures r.status != Completed ==> GetBookingStats(rows + [r]) == GetBookingStats(rows)
  {
    assert (rows + [r])[..|rows|] == rows;
  }

  /** One more row changes the clients and revenue of a day exactly when it is completed and starts on
      that day; the hours stay. */
  lemma OneMoreVisit(days: seq<DayStat>, more: seq<DayStat>, rows: seq<Row>, r: Row, shifts: seq<Shift>, i: nat, j: nat)
    requires IsDayTable(days, rows, shifts) && IsDayTable(more, rows + [r], shifts)
    requires i < |days| && j < |more| && days[i].date == more[j].date
    ensures var counts := r.status == Completed && StartsOn(r, days[i].date);
            more[j] == if counts then days[i].(clients := days[i].clients + 1, revenue := days[i].revenue + r.price)
                       else days[i]
  {
    assert (rows + [r])[..|rows|] == rows;
    VisitDateIsPlain(r, days[i].date);
  }

  /** A day that a first visit adds to the table holds just that visit and the hours of the date. */
  lemma FirstVisitOfDay(more: seq<DayStat>, rows: seq<Row>, r: Row, shifts: seq<Shift>, j: nat)
    requires IsDayTable(more, rows + [r], shifts) && j < |more| && StartsOn(r, more[j].date)
    requires forall k :: 0 <= k < |rows| ==> !StartsOn(rows[k], more[j].date)
    ensures more[j].clients == (if r.status == Completed then 1 else 0)
    ensures more[j].revenue == if r.status == Completed then r.price else 0
  {
    assert (rows + [r])[..|rows|] == rows;
    VisitDateIsPlain(r, more[j].date);
    forall k | 0 <= k < |rows|
      ensures VisitDate(rows[k]) != more[j].date
    {
      VisitDateIsPlain(rows[k], more[j].date);
    }
    NoVisitNothing(rows, more[j].date, ClientsIn);
    NoVisitNothing(rows, more[j].date, RevenueIn);
  }

  /** The dates of the table are those on which a visit starts or a shift is planned. */
  lemma TableHasItsDates(days: seq<DayStat>, rows: seq<Row>, shifts: seq<Shift>, d: int)
    requires IsDayTable(days, rows, shifts)
    ensures (exists i :: 0 <= i < |days| && days[i].date == d) <==>
            (exists k :: 0 <= k < |rows| && StartsOn(rows[k], d)) || (exists k :: 0 <= k < |shifts| && shifts[k].date == d)
  {
    if k :| 0 <= k < |rows| && StartsOn(rows[k], d) {
      VisitDateIsPlain(rows[k], d);
      assert HasVisit(rows, d);
    }
    if k :| 0 <= k < |shifts| && shifts[k].date == d {
      assert HasDate(shifts, d);
    }
    if HasVisit(rows, d) {
      var k :| 0 <= k < |rows| && VisitDate(rows[k]) == d;
      VisitDateIsPlain(rows[k], d);
    }
  }

  /** One more shift: its date shows from its start to its end, the other dates stay, and the total grows
      by its length. */
  lemma OneMoreShift(rows: seq<Row>, shifts: seq<Shift>, s: Shift, more: seq<DayStat>, j: nat)
    requires IsDayTable(more, rows, shifts + [s]) && j < |more|
    ensures more[j].date == s.date ==> more[j].hours * 60.0 == (s.endMinute - s.startMinute) as real
    ensures more[j].date != s.date ==> more[j] == DayOf(rows, shifts, more[j].date)
    ensures GetScheduleMinutes(shifts + [s]) == GetScheduleMinutes(shifts) + (s.endMinute - s.startMinute)
    ensures GetScheduleMinutes([]) == 0
  {
    assert (shifts + [s])[..|shifts|] == shifts;
  }
}
