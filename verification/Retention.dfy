/** How long a former member's fields are kept. */
module Retention {
  import opened Base
  import opened Calendar

  datatype RetentionMonths = NoMonths | Three | Six | Twelve | TwentyFour {
    function Months(): nat {
      match this
      case NoMonths => 0
      case Three => 3
      case Six => 6
      case Twelve => 12
      case TwentyFour => 24
    }
  }

  /** The first day the fields are no longer kept; `None` for a period of none. */
  function RetainedUntil(endedOn: Day, months: RetentionMonths): Option<Day> {
    if months.NoMonths? then None else CheckedAddMonths(endedOn, months.Months())
  }

  /** `until` is the day `months` after `from`, and `None` where the calendar has no such day. */
  ghost predicate KeptFor(from: Day, months: nat, until: Option<Day>) {
    if MonthOf(from) + months < MONTHS then until.Some? && MonthsLater(from, months, until.value) else until.None?
  }

  /** The five settings. */
  lemma RetainedUntilSpec(endedOn: Day)
    ensures RetainedUntil(endedOn, NoMonths).None?
    ensures KeptFor(endedOn, 3, RetainedUntil(endedOn, Three))
    ensures KeptFor(endedOn, 6, RetainedUntil(endedOn, Six))
    ensures KeptFor(endedOn, 12, RetainedUntil(endedOn, Twelve))
    ensures KeptFor(endedOn, 24, RetainedUntil(endedOn, TwentyFour))
  {
    CheckedAddLands(endedOn, 3);
    CheckedAddLands(endedOn, 6);
    CheckedAddLands(endedOn, 12);
    CheckedAddLands(endedOn, 24);
  }

  /** The date the fields go while it is still ahead, `None` to clear them now. */
  function KeepUntil(endedOn: Day, months: RetentionMonths, today: Day): Option<Day> {
    var until := RetainedUntil(endedOn, months);
    if until.Some? && today < until.value then until else None
  }
}
