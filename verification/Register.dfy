/**
 The school register's municipalities and schools, and what each op of a plan does to them.
 A plan runs in one transaction: when an op fails, nothing of it stays.
 */
module Register {
  import opened Base
  import opened SlugHistory

  type Id = nat
  /** Days and instants are kept apart: numbers run by day, slugs by instant. */
  type Date = int

  datatype Moment = Moment(now: Instant, today: Date)

  datatype Municipality = Municipality(name: string, slug: string, created: Instant)

  datatype NumberRow = NumberRow(municipality: Id, number: string, starts: Date, ends: Option<Date>)

  /** A former slug. `scope` is what it was unique within: a school's municipality at the time. */
  datatype SlugRow = SlugRow(owner: Id, scope: Id, interval: Interval)

  datatype School = School(municipality: Id, name: string, slug: Option<string>, verified: Option<Instant>,
                           created: Instant, closed: bool)
  {
    /** Since when it can have had a slug. */
    function SlugStart(): Instant { if verified.Some? then verified.value else created }
  }

  datatype Register = Register(municipalities: map<Id, Municipality>, numbers: seq<NumberRow>, slugs: seq<SlugRow>,
                               schools: map<Id, School>, schoolSlugs: seq<SlugRow>)

  const EMPTY := Register(map[], [], [], map[], [])

  /** The namespace municipality slugs share. */
  const COUNTRY: Id := 0

  datatype Error = UnknownRow | Database

  datatype SlugChange = SlugChange(former: Option<string>, current: string)

  datatype Op =
    | CreateMunicipality(id: Id, number: string, name: string, slug: string)
    | Renumber(id: Id, from: string, to: string, validFrom: Date, newName: Option<string>, oldSlug: string, newSlug: string)
    | RenameMunicipality(id: Id, name: string, oldSlug: string, newSlug: string)
    | CreateSchool(id: Id, municipality: Id, name: string, firstSlug: Option<string>)
    | RenameSchool(id: Id, newName: Option<string>, change: Option<SlugChange>)
    | MoveSchool(id: Id, fromMunicipality: Id, toMunicipality: Id, change: Option<SlugChange>)
    | CloseSchool(id: Id)

  // Rows

  function Owned(rows: seq<SlugRow>, owner: Id): seq<Interval> {
    if rows == [] then []
    else Owned(rows[..|rows| - 1], owner) + if rows[|rows| - 1].owner == owner then [rows[|rows| - 1].interval] else []
  }

  function NumbersOf(rows: seq<NumberRow>, m: Id): seq<NumberRow> {
    if rows == [] then []
    else NumbersOf(rows[..|rows| - 1], m) + if rows[|rows| - 1].municipality == m then [rows[|rows| - 1]] else []
  }

  predicate SlugKeyTaken(rows: seq<SlugRow>, scope: Id, slug: string, starts: Instant) {
    exists i :: 0 <= i < |rows| && rows[i].scope == scope && rows[i].interval.slug == slug && rows[i].interval.starts == starts
  }

  predicate NumberKeyTaken(rows: seq<NumberRow>, number: string, starts: Date) {
    exists i :: 0 <= i < |rows| && rows[i].number == number && rows[i].starts == starts
  }

  predicate NumberOpen(rows: seq<NumberRow>, number: string) {
    exists i :: 0 <= i < |rows| && rows[i].number == number && rows[i].ends.None?
  }

  /** The slug moved into history, unless its interval would be empty. */
  function WithHistory(rows: seq<SlugRow>, owner: Id, scope: Id, start: Instant, slug: string, now: Instant)
    : Result<seq<SlugRow>, Error>
  {
    var next := NextStart(Owned(rows, owner), start);
    if next >= now then Ok(rows)
    else if SlugKeyTaken(rows, scope, slug, next) then Err(Database)
    else Ok(rows + [SlugRow(owner, scope, Interval(slug, next, now))])
  }

  predicate MunicipalitySlugTaken(r: Register, id: Id, slug: string) {
    exists m :: m in r.municipalities && m != id && r.municipalities[m].slug == slug
  }

  predicate SchoolSlugTaken(r: Register, id: Id, municipality: Id, slug: Option<string>) {
    slug.Some? && exists s :: s in r.schools && s != id && r.schools[s].municipality == municipality && r.schools[s].slug == slug
  }

  // Municipalities

  /** The day a number closes: the change's date, but no sooner than the day after it opened. */
  function ClosingDay(validFrom: Date, starts: Date): Date { Max(validFrom, starts + 1) }

  function OpenRow(rows: seq<NumberRow>, m: Id, number: string): Option<nat> {
    if rows == [] then None
    else
      var last := rows[|rows| - 1];
      if last.municipality == m && last.number == number && last.ends.None? then Some(|rows| - 1)
      else OpenRow(rows[..|rows| - 1], m, number)
  }

  function Renumbered(rows: seq<NumberRow>, m: Id, from: string, to: string, validFrom: Date): Result<seq<NumberRow>, Error>
  {
    match OpenRow(rows, m, from)
    case None => Err(UnknownRow)
    case Some(i) =>
      OpenRowIsOpen(rows, m, from);
      var day := ClosingDay(validFrom, rows[i].starts);
      var closed := rows[i := rows[i].(ends := Some(day))];
      if NumberKeyTaken(closed, to, day) || NumberOpen(closed, to) then Err(Database)
      else Ok(closed + [NumberRow(m, to, day, None)])
  }

  function MunicipalityUpdated(r: Register, id: Id, name: Option<string>, slug: string): Result<Register, Error> {
    if id !in r.municipalities then Err(UnknownRow)
    else if MunicipalitySlugTaken(r, id, slug) then Err(Database)
    else
      var m := r.municipalities[id];
      Ok(r.(municipalities := r.municipalities[id := m.(slug := slug, name := if name.Some? then name.value else m.name)]))
  }

  function MunicipalityHistory(r: Register, id: Id, oldSlug: string, now: Instant): Result<Register, Error> {
    if id !in r.municipalities then Ok(r)
    else
      match WithHistory(r.slugs, id, COUNTRY, r.municipalities[id].created, oldSlug, now)
      case Err(e) => Err(e)
      case Ok(slugs) => Ok(r.(slugs := slugs))
  }

  function SchoolHistory(r: Register, id: Id, municipality: Option<Id>, slug: string, now: Instant): Result<Register, Error> {
    if id !in r.schools then Ok(r)
    else
      var s := r.schools[id];
      match WithHistory(r.schoolSlugs, id, if municipality.Some? then municipality.value else s.municipality, s.SlugStart(), slug, now)
      case Err(e) => Err(e)
      case Ok(rows) => Ok(r.(schoolSlugs := rows))
  }

  function SchoolUpdated(r: Register, id: Id, row: School): Result<Register, Error> {
    if id !in r.schools then Err(UnknownRow)
    else if row.municipality !in r.municipalities || SchoolSlugTaken(r, id, row.municipality, row.slug) then Err(Database)
    else Ok(r.(schools := r.schools[id := row]))
  }

  /** The former slug of a change, when there was one, moved into history. */
  function ChangeHistory(r: Register, id: Id, municipality: Option<Id>, change: Option<SlugChange>, now: Instant): Result<Register, Error> {
    if change.Some? && change.value.former.Some? then SchoolHistory(r, id, municipality, change.value.former.value, now) else Ok(r)
  }

  function NewSlug(s: School, change: Option<SlugChange>): Option<string> {
    if change.Some? then Some(change.value.current) else s.slug
  }

  /** One op, statement by statement. */
  function ApplyOp(r: Register, op: Op, at: Moment): Result<Register, Error> {
    match op
    case CreateMunicipality(id, number, name, slug) =>
      if id in r.municipalities || MunicipalitySlugTaken(r, id, slug) then Err(Database)
      else if NumberKeyTaken(r.numbers, number, at.today) || NumberOpen(r.numbers, number) then Err(Database)
      else Ok(r.(municipalities := r.municipalities[id := Municipality(name, slug, at.now)],
                 numbers := r.numbers + [NumberRow(id, number, at.today, None)]))
    case Renumber(id, from, to, validFrom, name, oldSlug, newSlug) =>
      (match MunicipalityHistory(r, id, oldSlug, at.now)
       case Err(e) => Err(e)
       case Ok(r1) =>
         match MunicipalityUpdated(r1, id, name, newSlug)
         case Err(e) => Err(e)
         case Ok(r2) =>
           match Renumbered(r2.numbers, id, from, to, validFrom)
           case Err(e) => Err(e)
           case Ok(numbers) => Ok(r2.(numbers := numbers)))
    case RenameMunicipality(id, name, oldSlug, newSlug) =>
      (match if oldSlug != newSlug then MunicipalityHistory(r, id, oldSlug, at.now) else Ok(r)
       case Err(e) => Err(e)
       case Ok(r1) => MunicipalityUpdated(r1, id, Some(name), newSlug))
    case CreateSchool(id, municipality, name, slug) =>
      if id in r.schools || municipality !in r.municipalities || SchoolSlugTaken(r, id, municipality, slug) then Err(Database)
      else Ok(r.(schools := r.schools[id := School(municipality, name, slug, None, at.now, false)]))
    case RenameSchool(id, name, change) =>
      (match ChangeHistory(r, id, None, change, at.now)
       case Err(e) => Err(e)
       case Ok(r1) =>
         if id !in r1.schools then Err(UnknownRow)
         else
           var s := r1.schools[id];
           SchoolUpdated(r1, id, s.(name := if name.Some? then name.value else s.name, slug := NewSlug(s, change))))
    case MoveSchool(id, from, to, change) =>
      (match ChangeHistory(r, id, Some(from), change, at.now)
       case Err(e) => Err(e)
       case Ok(r1) =>
         if id !in r1.schools then Err(UnknownRow)
         else SchoolUpdated(r1, id, r1.schools[id].(municipality := to, slug := NewSlug(r1.schools[id], change))))
    case CloseSchool(id) =>
      if id !in r.schools then Err(UnknownRow)
      else
        match if r.schools[id].slug.Some? then SchoolHistory(r, id, None, r.schools[id].slug.value, at.now) else Ok(r)
        case Err(e) => Err(e)
        case Ok(r1) => SchoolUpdated(r1, id, r1.schools[id].(closed := true, slug := None))
  }

  /** The ops in order, up to the first that fails. */
  function ApplyAll(r: Register, ops: seq<Op>, at: Moment): Result<Register, Error>
    decreases |ops|
  {
    if ops == [] then Ok(r)
    else
      match ApplyAll(r, ops[..|ops| - 1], at)
      case Err(e) => Err(e)
      case Ok(before) => ApplyOp(before, ops[|ops| - 1], at)
  }

  datatype Plan = Plan(ops: seq<Op>, at: Moment)

  function Committed(r: Register, p: Plan): Register {
    match ApplyAll(r, p.ops, p.at)
    case Ok(after) => after
    case Err(_) => r
  }

  function Run(r: Register, plans: seq<Plan>): Register {
    if plans == [] then r else Committed(Run(r, plans[..|plans| - 1]), plans[|plans| - 1])
  }

  lemma {:induction false} OpenRowIsOpen(rows: seq<NumberRow>, m: Id, number: string)
    ensures var i := OpenRow(rows, m, number);
            i.Some? ==> && i.value < |rows| && rows[i.value].municipality == m
                        && rows[i.value].number == number && rows[i.value].ends.None?
    ensures OpenRow(rows, m, number).None? ==>
              forall i :: 0 <= i < |rows| ==> !(rows[i].municipality == m && rows[i].number == number && rows[i].ends.None?)
  {
    if rows != [] {
      OpenRowIsOpen(rows[..|rows| - 1], m, number);
    }
  }
}
