/** Half-open day ranges [starts, ends) with a mandatory end. */
module Periods {
  import opened Base
  import opened Calendar

  datatype RawPeriod = RawPeriod(starts: Day, ends: Day) {
    predicate Contains(day: Day) { starts <= day < ends }

    predicate HasEndedBy(day: Day) { ends <= day }
  }

  type Period = p: RawPeriod | p.starts < p.ends witness RawPeriod(0, 1)

  function NewPeriod(starts: Day, ends: Day): Option<Period> {
    if starts < ends then Some(RawPeriod(starts, ends)) else None
  }
}
