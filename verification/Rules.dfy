/** The flow's date arithmetic: handover windows and an administrator's end date. */
module Rules {
  import opened Base
  import opened Calendar
  import opened Periods

  const HANDOVER_MONTHS: nat := 6
  const ADMIN_END_MIN_MONTHS: nat := 1
  const ADMIN_END_MAX_MONTHS: nat := 24
  const ADMIN_END_DEFAULT_LEAD_MONTHS: nat := 3

  /** Month addition that saturates at the end of the calendar. */
  function AddMonths(day: Day, months: nat): Day {
    match CheckedAddMonths(day, months)
    case Some(d) => d
    case None => MAX_DAY
  }

  /** `to` is `months` after `from`, or the calendar's last day when that is past its end. */
  ghost predicate MonthsOn(from: Day, months: nat, to: Day) {
    if MonthOf(from) + months < MONTHS then MonthsLater(from, months, to) else to == MAX_DAY
  }

  lemma AddMonthsSpec(day: Day, months: nat)
    ensures MonthsOn(day, months, AddMonths(day, months))
  {
    CheckedAddLands(day, months);
  }

  lemma AddMonthsMonotone(a: Day, b: Day, i: nat, j: nat)
    requires a <= b && i <= j
    ensures AddMonths(a, i) <= AddMonths(b, j)
  {
    CheckedAddMonotone(a, b, i, j);
  }

  function HandoverBoundary(adminEnd: Day): Day {
    AddMonths(adminEnd, HANDOVER_MONTHS)
  }

  /** The window [adminEnd, boundary), `None` where no later day is left to end on. */
  function HandoverPeriod(adminEnd: Day): Option<Period> {
    NewPeriod(adminEnd, HandoverBoundary(adminEnd))
  }

  /**
   The window is missing only for the calendar's last day. It opens on the role's end and closes
   in the sixth month after, on the same day of the month or else on the month's last.
   */
  lemma HandoverPeriodSpec(adminEnd: Day)
    ensures HandoverPeriod(adminEnd).None? <==> adminEnd == MAX_DAY
    ensures HandoverPeriod(adminEnd).Some? ==>
              HandoverPeriod(adminEnd).value.starts == adminEnd
              && MonthsOn(adminEnd, 6, HandoverPeriod(adminEnd).value.ends)
  {
    CheckedAddAdvances(adminEnd, HANDOVER_MONTHS);
    CheckedAddLands(adminEnd, HANDOVER_MONTHS);
  }

  /** A role that ends later has a window that closes no earlier. */
  lemma HandoverWindowsKeepOrder(a: Day, b: Day)
    requires a <= b && HandoverPeriod(b).Some?
    ensures HandoverPeriod(a).Some? && HandoverPeriod(a).value.ends <= HandoverPeriod(b).value.ends
  {
    HandoverPeriodSpec(a);
    AddMonthsMonotone(a, b, HANDOVER_MONTHS, HANDOVER_MONTHS);
  }

  /** `Date::new(year, 10, 1)`: `None` for a year past the calendar. */
  function FirstOctober(year: int): Option<Day>
    requires year >= FIRST_YEAR
  {
    DayInMonth(MonthIn(year, 10), 0);
    if year > LAST_YEAR then None else Some(DayIn(MonthIn(year, 10), 0))
  }

  function OrLast(d: Option<Day>): Day {
    if d.Some? then d.value else MAX_DAY
  }

  /** The end date offered at signup. */
  function DefaultAdminEnd(today: Day): Day {
    var earliest := AddMonths(today, ADMIN_END_DEFAULT_LEAD_MONTHS);
    var year := YearOf(MonthOf(earliest));
    var thisYear := OrLast(FirstOctober(year));
    if thisYear >= earliest then thisYear else OrLast(FirstOctober(year + 1))
  }

  datatype AdminEndError = TooSoon | TooLate

  function ValidateAdminEnd(today: Day, end: Day): Result<(), AdminEndError> {
    if end < AddMonths(today, ADMIN_END_MIN_MONTHS) then Err(TooSoon)
    else if end > AddMonths(today, ADMIN_END_MAX_MONTHS) then Err(TooLate)
    else Ok(())
  }

  ghost predicate IsFirstOfOctober(d: Day) {
    MonthOf(d) % 12 == 9 && d == DayIn(MonthOf(d), 0)
  }

  lemma FirstOctoberSpec(year: int)
    requires year >= FIRST_YEAR
    ensures FirstOctober(year).Some? <==> MonthIn(year, 10) < MONTHS
    ensures FirstOctober(year).Some? ==>
              IsFirstOfOctober(FirstOctober(year).value)
              && MonthOf(FirstOctober(year).value) == MonthIn(year, 10)
  {
    DayInMonth(MonthIn(year, 10), 0);
  }

  lemma OctoberDay(d: Day)
    requires IsFirstOfOctober(d)
    ensures d == DayIn(MonthOf(d), 0) && MonthOf(d) % 12 == 9
  {
  }

  /** Days of different months are ordered as the months are; a month starts with its first day. */
  lemma OrderedByMonth(a: Day, b: Day)
    ensures MonthOf(a) < MonthOf(b) ==> a < b
    ensures MonthOf(a) == MonthOf(b) && a == DayIn(MonthOf(a), 0) ==> a <= b
  {
    MonthOfSpec(b);
    DayInMonth(MonthOf(a), 0);
    if MonthOf(a) < MonthOf(b) && b <= a { MonthMonotone(b, a); }
  }

  /** `d` is a 1 October no more than a year past `e`, or the last day with no October left. */
  ghost predicate NearOctober(e: Day, d: Day) {
    || (IsFirstOfOctober(d)
        && (|| MonthOf(d) <= MonthOf(e) + 9
            || (12 <= MonthOf(d) <= MonthOf(e) + 12 && DayIn(MonthOf(d) - 12, 0) < e)))
    || (d == MAX_DAY && MonthOf(e) >= MONTHS - 3 && DayIn(MONTHS - 3, 0) < e)
  }

  lemma DefaultAdminEndMonth(today: Day)
    ensures AddMonths(today, ADMIN_END_DEFAULT_LEAD_MONTHS) <= DefaultAdminEnd(today)
    ensures NearOctober(AddMonths(today, ADMIN_END_DEFAULT_LEAD_MONTHS), DefaultAdminEnd(today))
  {
    hide AddMonths, NearOctober, FirstOctober, OrLast, MonthOf, IsFirstOfOctober;
    NextOctober(AddMonths(today, ADMIN_END_DEFAULT_LEAD_MONTHS));
  }

  lemma NextOctober(e: Day)
    ensures var year := YearOf(MonthOf(e));
            var oct := OrLast(FirstOctober(year));
            var d := if oct >= e then oct else OrLast(FirstOctober(year + 1));
            e <= d && NearOctober(e, d)
  {
    hide First, DaysIn, DayIn, MonthOf, FirstOctober, IsFirstOfOctober;
    var year := YearOf(MonthOf(e));
    DayInRange(e);
    FirstOctoberSpec(year);
    FirstOctoberSpec(year + 1);
    var oct := FirstOctober(year).value;
    if oct < e {
      OrderedByMonth(e, oct);
      assert oct == DayIn(MonthIn(year, 10), 0) by { OctoberDay(oct); }
      if year < LAST_YEAR { OrderedByMonth(e, FirstOctober(year + 1).value); }
    }
  }

  /**
   The offered end date is the first 1 October at or after the day three months from today; it
   is the calendar's last day when there is none left.
   */
  lemma DefaultAdminEndIsFirstOctober(today: Day)
    ensures var e := AddMonths(today, ADMIN_END_DEFAULT_LEAD_MONTHS);
            var d := DefaultAdminEnd(today);
            && MonthsOn(today, 3, e) && e <= d
            && (IsFirstOfOctober(d) || d == MAX_DAY)
            && (forall o: Day :: IsFirstOfOctober(o) && e <= o ==> IsFirstOfOctober(d) && d <= o)
  {
    var e := AddMonths(today, ADMIN_END_DEFAULT_LEAD_MONTHS);
    var d := DefaultAdminEnd(today);
    AddMonthsSpec(today, 3);
    DefaultAdminEndMonth(today);
    forall o: Day | IsFirstOfOctober(o) && e <= o
      ensures IsFirstOfOctober(d) && d <= o
    {
      OctoberAfter(e, d, o);
    }
  }

  lemma OctoberAfter(e: Day, d: Day, o: Day)
    requires NearOctober(e, d) && IsFirstOfOctober(o) && e <= o
    ensures IsFirstOfOctober(d) && d <= o
  {
    hide First, DaysIn, MonthOf;
    var me, md, mo := MonthOf(e), MonthOf(d), MonthOf(o);
    MonthMonotone(e, o);
    DayInRange(o);
    if !IsFirstOfOctober(d) {
      assert false;
    } else if mo < md {
      OctobersApart(mo, md);
      assert false;
    } else {
      OrderedByMonth(d, o);
    }
  }

  lemma OctobersApart(a: nat, b: nat)
    requires a % 12 == 9 && b % 12 == 9 && a < b
    ensures a + 12 <= b
  {
  }

  /** A chosen end date passes exactly from one month to 24 months from today, both days included. */
  lemma ValidateAdminEndSpec(today: Day, end: Day, soonest: Day, latest: Day)
    requires MonthsOn(today, 1, soonest) && MonthsOn(today, 24, latest)
    ensures ValidateAdminEnd(today, end).Ok? <==> soonest <= end <= latest
    ensures ValidateAdminEnd(today, end) == Err(TooSoon) <==> end < soonest
  {
    hide MonthsLater, AddMonths;
    AddMonthsSpec(today, 1);
    AddMonthsSpec(today, 24);
    OneDayOn(today, 1, soonest, AddMonths(today, 1));
    OneDayOn(today, 24, latest, AddMonths(today, 24));
    AddMonthsMonotone(today, today, 1, 24);
  }

  lemma OneDayOn(from: Day, months: nat, a: Day, b: Day)
    requires MonthsOn(from, months, a) && MonthsOn(from, months, b)
    ensures a == b
  {
  }

  /** The offered date always passes the check a chosen date must pass. */
  lemma DefaultPassesValidation(today: Day)
    ensures ValidateAdminEnd(today, DefaultAdminEnd(today)) == Ok(())
  {
    var d := DefaultAdminEnd(today);
    DefaultAdminEndMonth(today);
    AddMonthsMonotone(today, today, ADMIN_END_MIN_MONTHS, ADMIN_END_DEFAULT_LEAD_MONTHS);
    AddedMonth(today, ADMIN_END_DEFAULT_LEAD_MONTHS);
    AddedMonth(today, ADMIN_END_MAX_MONTHS);
    var late := CheckedAddMonths(today, ADMIN_END_MAX_MONTHS);
    if late.Some? {
      DayInRange(d);
      OrderedByMonth(d, late.value);
    }
  }
}
