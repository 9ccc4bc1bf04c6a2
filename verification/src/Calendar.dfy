/**
 The proleptic Gregorian calendar. Day 0 is Monday, 1 January of year 1.
 */
module Calendar {
  import opened Instants

  // The day number of 1 January 1970.
  const UNIX_DAY: int := 719_162

  predicate Leap(y: int) {
    y % 4 == 0 && (y % 100 != 0 || y % 400 == 0)
  }

  function YearDays(y: int): int {
    if Leap(y) then 366 else 365
  }

  /** The day number of 1 January of year y, by adding up years. */
  function YearStart(y: int): int
    decreases if y < 1 then 1 - y else y - 1
  {
    if y == 1 then 0
    else if y > 1 then YearStart(y - 1) + YearDays(y - 1)
    else YearStart(y + 1) - YearDays(y)
  }

  function DaysInMonth(y: int, m: int): int
    requires 1 <= m <= 12
  {
    if m == 2 then (if Leap(y) then 29 else 28)
    else if m == 4 || m == 6 || m == 9 || m == 11 then 30
    else 31
  }

  function DaysBeforeMonth(y: int, m: int): int
    requires 1 <= m <= 13
  {
    if m == 1 then 0 else DaysBeforeMonth(y, m - 1) + DaysInMonth(y, m - 1)
  }

  /** The day number of a date whose month and day may lie outside their usual ranges. */
  function GoDate(y: int, m: int, d: int): int {
    var y' := y + (m - 1) / 12;
    YearStart(y') + DaysBeforeMonth(y', (m - 1) % 12 + 1) + d - 1
  }

  /** Sunday is 0. */
  function Weekday(n: int): int {
    (n + 1) % 7
  }

  function Monday(n: int): int {
    n - n % 7
  }

  lemma YearLength(y: int)
    ensures YearStart(y + 1) == YearStart(y) + YearDays(y)
  {
  }

  lemma QuotientStep(y: int, k: int)
    requires k > 1
    ensures y / k - (y - 1) / k == if y % k == 0 then 1 else 0
  {
    if y % k == 0 {
      QuotientUnique(y - 1, k, y / k - 1, k - 1);
    } else {
      QuotientUnique(y - 1, k, y / k, y % k - 1);
    }
  }

  /** One more leap day for each fourth year, except three of every four centuries. */
  lemma LeapDaysStep(y: int)
    ensures (y / 4 - y / 100 + y / 400) - ((y - 1) / 4 - (y - 1) / 100 + (y - 1) / 400) == if Leap(y) then 1 else 0
  {
    QuotientStep(y, 4);
    QuotientStep(y, 100);
    QuotientStep(y, 400);
    if y % 400 == 0 {
      QuotientUnique(y, 100, 4 * (y / 400), 0);
    }
    if y % 100 == 0 {
      QuotientUnique(y, 4, 25 * (y / 100), 0);
    }
  }

  /** The closed form for the start of a year, on both sides of year 1. */
  lemma {:induction false} YearStartClosedForm(y: int)
    ensures YearStart(y) == 365 * (y - 1) + (y - 1) / 4 - (y - 1) / 100 + (y - 1) / 400
    decreases if y < 1 then 1 - y else y - 1
  {
    if y > 1 {
      YearStartClosedForm(y - 1);
      LeapDaysStep(y - 1);
    } else if y < 1 {
      YearStartClosedForm(y + 1);
      LeapDaysStep(y);
    }
  }

  /** The year whose days include n, searching from year y. */
  function YearFrom(n: int, y: int): (r: int)
    ensures YearStart(r) <= n < YearStart(r + 1)
    decreases if n < YearStart(y) then 1 else 0, if n < YearStart(y) then YearStart(y) - n else n - YearStart(y)
  {
    YearLength(y);
    YearLength(y - 1);
    if n < YearStart(y) then YearFrom(n, y - 1)
    else if n < YearStart(y + 1) then y
    else YearFrom(n, y + 1)
  }

  function YearOf(n: int): (y: int)
    ensures YearStart(y) <= n < YearStart(y + 1)
  {
    YearFrom(n, 1)
  }

  lemma {:induction false} YearsIncrease(y: int, z: int)
    requires y < z
    ensures YearStart(y) + 365 <= YearStart(z)
    decreases z - y
  {
    YearLength(z - 1);
    if y == z - 1 {
    } else {
      YearsIncrease(y, z - 1);
    }
  }

  /** YearOf finds the one year whose days include n. */
  lemma YearOfExact(n: int, y: int)
    ensures YearOf(n) == y <==> YearStart(y) <= n < YearStart(y + 1)
  {
    var z := YearOf(n);
    if z < y {
      if z + 1 < y {
        YearsIncrease(z + 1, y);
      }
    } else if y < z {
      if y + 1 < z {
        YearsIncrease(y + 1, z);
      }
    }
  }

  /** Months alternate between 31 and 30 days, start over in August, and February is short. */
  lemma MonthLengths(y: int, m: int)
    requires 1 <= m <= 12
    ensures m != 2 ==> DaysInMonth(y, m) == 30 + (m + m / 8) % 2
    ensures DaysInMonth(y, 2) == if y % 400 == 0 || (y % 4 == 0 && y % 100 != 0) then 29 else 28
  {
  }

  /** 1 January 1970, the origin of Unix time, was a Thursday. */
  lemma EpochIsThursday()
    ensures YearStart(1970) == UNIX_DAY && Weekday(UNIX_DAY) == 4 && Monday(UNIX_DAY) == UNIX_DAY - 3
  {
    YearStartClosedForm(1970);
  }

  lemma MonthsFillYear(y: int)
    ensures DaysBeforeMonth(y, 13) == YearDays(y)
    ensures forall m :: 1 <= m <= 12 ==> DaysBeforeMonth(y, m) + DaysInMonth(y, m) == DaysBeforeMonth(y, m + 1)
  {
    var feb := DaysInMonth(y, 2);
    assert DaysBeforeMonth(y, 2) == 31;
    assert DaysBeforeMonth(y, 3) == 31 + feb;
    assert DaysBeforeMonth(y, 5) == 92 + feb;
    assert DaysBeforeMonth(y, 7) == 153 + feb;
    assert DaysBeforeMonth(y, 9) == 215 + feb;
    assert DaysBeforeMonth(y, 11) == 276 + feb;
  }

  /** The month of the day with ordinal o in year y, searching from month m. */
  function MonthFrom(y: int, o: int, m: int): (r: int)
    requires 1 <= m <= 12 && DaysBeforeMonth(y, m) <= o < DaysBeforeMonth(y, 13)
    ensures m <= r <= 12 && DaysBeforeMonth(y, r) <= o < DaysBeforeMonth(y, r + 1)
    decreases 12 - m
  {
    if o < DaysBeforeMonth(y, m + 1) then m
    else if m < 12 then MonthFrom(y, o, m + 1)
    else assert false; m
  }

  function MonthOf(n: int): (m: int)
    ensures 1 <= m <= 12
    ensures DaysBeforeMonth(YearOf(n), m) <= n - YearStart(YearOf(n)) < DaysBeforeMonth(YearOf(n), m + 1)
  {
    YearLength(YearOf(n));
    MonthsFillYear(YearOf(n));
    MonthFrom(YearOf(n), n - YearStart(YearOf(n)), 1)
  }
}
