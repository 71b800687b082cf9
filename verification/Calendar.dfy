/**
 The civil calendar the membership rules compute with: the proleptic Gregorian years -9999 to
 9999. A day is its number from 1 January of year -9999, so comparing dates is comparing
 numbers and the next day is one more; a month is its number from the same January.
 */
module Calendar {
  import opened Base

  const FIRST_YEAR: int := -9999
  const LAST_YEAR: int := 9999
  /** How many years and months the calendar has. */
  const YEARS: nat := 19999
  const MONTHS: nat := 12 * YEARS
  /** 31 December 9999, jiff's `Date::MAX`. */
  const MAX_DAY: nat := YearStart(YEARS) - 1

  type Day = d: nat | d <= MAX_DAY

  predicate LeapYear(year: int) {
    year % 4 == 0 && (year % 100 != 0 || year % 400 == 0)
  }

  function YearOf(month: nat): int {
    FIRST_YEAR + month / 12
  }

  /** The month of a year; `m` counts from 1, as a written date does. */
  function MonthIn(year: int, m: nat): nat
    requires FIRST_YEAR <= year && 1 <= m <= 12
  {
    (year - FIRST_YEAR) * 12 + m - 1
  }

  function DaysIn(month: nat): (n: nat)
    ensures 28 <= n <= 31
  {
    var m := month % 12;
    if m == 1 then (if LeapYear(YearOf(month)) then 29 else 28)
    else if m == 3 || m == 5 || m == 8 || m == 10 then 30
    else 31
  }

  /** The first day of a month: the days of all the months before it. */
  function First(month: nat): nat {
    if month == 0 then 0 else First(month - 1) + DaysIn(month - 1)
  }

  /** Days before 1 January of the year `y` years after the first, in closed form. */
  function YearStart(y: nat): nat {
    365 * y + y / 4 - y / 100 + y / 400
  }

  lemma YearStartNext(y: nat)
    ensures YearStart(y + 1) == YearStart(y) + (if LeapYear(FIRST_YEAR + y) then 366 else 365)
  {
    LeapLike(y);
    NextQuarter(y);
    NextCentury(y);
  }

  lemma LeapLike(y: nat)
    ensures LeapYear(FIRST_YEAR + y) <==> (y + 1) % 4 == 0 && ((y + 1) % 100 != 0 || (y + 1) % 400 == 0)
  {
    assert FIRST_YEAR + y == y + 1 - 25 * 400;
    assert (FIRST_YEAR + y) % 4 == (y + 1) % 4;
    assert (FIRST_YEAR + y) % 100 == (y + 1) % 100;
    assert (FIRST_YEAR + y) % 400 == (y + 1) % 400;
  }

  lemma NextQuarter(y: nat)
    ensures (y + 1) / 4 == y / 4 + (if (y + 1) % 4 == 0 then 1 else 0)
    ensures (y + 1) % 100 == 0 ==> (y + 1) % 4 == 0
  {
  }

  lemma NextCentury(y: nat)
    ensures (y + 1) / 100 == y / 100 + (if (y + 1) % 100 == 0 then 1 else 0)
    ensures (y + 1) / 400 == y / 400 + (if (y + 1) % 400 == 0 then 1 else 0)
    ensures (y + 1) % 400 == 0 ==> (y + 1) % 100 == 0
  {
  }

  lemma YearZero()
    ensures YearStart(0) == 0
  {
  }

  /** Days of a common year before its month `m` (from 0), up to the whole year. */
  function DaysBefore(m: nat): nat
    requires m <= 12
  {
    [0, 31, 59, 90, 120, 151, 181, 212, 243, 273, 304, 334, 365][m]
  }

  /** The length of a year's month, as the closed form steps over it. */
  lemma MonthStep(y: nat, m: nat)
    requires m < 12
    ensures DaysIn(12 * y + m)
         == DaysBefore(m + 1) - DaysBefore(m) + (if m == 1 && LeapYear(FIRST_YEAR + y) then 1 else 0)
  {
    hide LeapYear;
    assert (12 * y + m) % 12 == m && YearOf(12 * y + m) == FIRST_YEAR + y;
  }

  /** Adding up the months of the years gives the Gregorian closed form. */
  lemma {:induction false} FirstClosedForm(y: nat, m: nat)
    requires m <= 12
    ensures First(12 * y + m)
         == YearStart(y) + DaysBefore(m) + (if m >= 2 && LeapYear(FIRST_YEAR + y) then 1 else 0)
    decreases y, m
  {
    hide LeapYear, YearStart, DaysIn;
    if m > 0 {
      FirstClosedForm(y, m - 1);
      MonthStep(y, m - 1);
      assert 12 * y + m - 1 == 12 * y + (m - 1);
    } else if y > 0 {
      FirstClosedForm(y - 1, 12);
      YearStartNext(y - 1);
      assert 12 * (y - 1) + 12 == 12 * y;
    } else {
      YearZero();
    }
  }

  lemma {:induction false} FirstMonotone(a: nat, b: nat)
    requires a <= b
    ensures First(a) + 28 * (b - a) <= First(b)
    decreases b
  {
    if a < b {
      FirstMonotone(a, b - 1);
    }
  }

  function MonthBelow(day: nat, m: nat): nat {
    if m == 0 || First(m) <= day then m else MonthBelow(day, m - 1)
  }

  /** The month a day falls in, searched for from above: no month has fewer than 28 days. */
  function MonthOf(day: nat): nat {
    MonthBelow(day, day / 28 + 1)
  }

  lemma {:induction false} MonthBelowSpec(day: nat, m: nat)
    requires day < First(m + 1)
    ensures First(MonthBelow(day, m)) <= day < First(MonthBelow(day, m) + 1)
  {
    if m == 0 {
    } else if First(m) > day {
      MonthBelowSpec(day, m - 1);
    }
  }

  lemma MonthOfSpec(day: nat)
    ensures First(MonthOf(day)) <= day < First(MonthOf(day) + 1)
  {
    FirstMonotone(0, day / 28 + 2);
    MonthBelowSpec(day, day / 28 + 1);
  }

  lemma MonthUnique(day: nat, m: nat)
    requires First(m) <= day < First(m + 1)
    ensures MonthOf(day) == m
  {
    MonthOfSpec(day);
    var k := MonthOf(day);
    if k < m { FirstMonotone(k + 1, m); }
    if m < k { FirstMonotone(m + 1, k); }
  }

  lemma MonthMonotone(a: nat, b: nat)
    requires a <= b
    ensures MonthOf(a) <= MonthOf(b)
  {
    MonthOfSpec(a);
    MonthOfSpec(b);
    if MonthOf(b) < MonthOf(a) { FirstMonotone(MonthOf(b) + 1, MonthOf(a)); }
  }

  lemma DayBeforeYear(day: nat, y: nat)
    ensures day < YearStart(y) <==> MonthOf(day) < 12 * y
  {
    MonthOfSpec(day);
    FirstClosedForm(y, 0);
    if MonthOf(day) < 12 * y {
      FirstMonotone(MonthOf(day) + 1, 12 * y);
    } else {
      FirstMonotone(12 * y, MonthOf(day));
    }
  }

  /** The days are exactly those of the calendar's months. */
  lemma DayInRange(day: nat)
    ensures day <= MAX_DAY <==> MonthOf(day) < MONTHS
  {
    DayBeforeYear(day, YEARS);
  }

  /** The day `offset` days into a month, or the month's last day when it is shorter. */
  function DayIn(month: nat, offset: nat): (d: nat) {
    First(month) + Min(offset, DaysIn(month) - 1)
  }

  lemma DayInMonth(month: nat, offset: nat)
    ensures MonthOf(DayIn(month, offset)) == month
    ensures DayIn(month, offset) <= MAX_DAY <==> month < MONTHS
    ensures offset == 0 ==> DayIn(month, offset) == First(month)
    ensures offset < DaysIn(month) ==> DayIn(month, offset) == First(month) + offset
  {
    MonthUnique(DayIn(month, offset), month);
    DayInRange(DayIn(month, offset));
  }

  /**
   jiff's `Date::checked_add` of calendar months: the same day of the target month, cut to that
   month's last day, and `None` past the end of the calendar.
   */
  function CheckedAddMonths(day: Day, months: nat): Option<Day> {
    var m := MonthOf(day);
    MonthOfSpec(day);
    DayInMonth(m + months, day - First(m));
    if m + months >= MONTHS then None else Some(DayIn(m + months, day - First(m)))
  }

  lemma AddedMonth(day: Day, months: nat)
    ensures CheckedAddMonths(day, months).None? <==> MonthOf(day) + months >= MONTHS
    ensures CheckedAddMonths(day, months).Some? ==>
              MonthOf(CheckedAddMonths(day, months).value) == MonthOf(day) + months
  {
    MonthOfSpec(day);
    DayInMonth(MonthOf(day) + months, day - First(MonthOf(day)));
  }

  /** `to` lies in the month `months` after that of `from`, on the same day of the month or else on its last. */
  ghost predicate MonthsLater(from: nat, months: nat, to: nat) {
    var m := MonthOf(from);
    var offset := from - First(m);
    to == if offset < DaysIn(m + months) then First(m + months) + offset else First(m + months + 1) - 1
  }

  /** Where month addition lands, and when it leaves the calendar. */
  lemma CheckedAddLands(day: Day, months: nat)
    ensures CheckedAddMonths(day, months).None? <==> MonthOf(day) + months >= MONTHS
    ensures CheckedAddMonths(day, months).Some? ==>
              && MonthsLater(day, months, CheckedAddMonths(day, months).value)
              && MonthOf(CheckedAddMonths(day, months).value) == MonthOf(day) + months
  {
    AddedMonth(day, months);
    MonthOfSpec(day);
  }

  /** Truncating month addition is monotone in the date and in the number of months. */
  lemma CheckedAddMonotone(a: Day, b: Day, i: nat, j: nat)
    requires a <= b && i <= j
    ensures CheckedAddMonths(a, i).None? ==> CheckedAddMonths(b, j).None?
    ensures CheckedAddMonths(b, j).Some? ==>
              CheckedAddMonths(a, i).value <= CheckedAddMonths(b, j).value
  {
    MonthMonotone(a, b);
    MonthOfSpec(a);
    MonthOfSpec(b);
    var x, y := MonthOf(a) + i, MonthOf(b) + j;
    if x < y < MONTHS {
      FirstMonotone(x + 1, y);
    }
  }

  /** Adding at least one month never stands still. */
  lemma CheckedAddAdvances(day: Day, months: nat)
    requires months > 0
    ensures CheckedAddMonths(day, months).Some? ==> day < CheckedAddMonths(day, months).value
  {
    MonthOfSpec(day);
    FirstMonotone(MonthOf(day) + 1, MonthOf(day) + months);
  }
}
