/** The register's tables, changed in place by a plan's statements and rolled back when one fails. */
module RegisterStore {
  import opened Base
  import opened SlugHistory
  import opened Register

  class Tables {
    var municipalities: map<Id, Municipality>
    var numbers: seq<NumberRow>
    var slugs: seq<SlugRow>
    var schools: map<Id, School>
    var schoolSlugs: seq<SlugRow>

    constructor ()
      ensures View() == EMPTY
    {
      municipalities, numbers, slugs, schools, schoolSlugs := map[], [], [], map[], [];
    }

    function View(): Register
      reads this
    {
      Register(municipalities, numbers, slugs, schools, schoolSlugs)
    }

    /** The latest end of an owner's former slugs, or else `start`. */
    method NextStartOf(rows: seq<SlugRow>, owner: Id, start: Instant) returns (next: Instant)
      ensures next == NextStart(Owned(rows, owner), start)
    {
      var latest: Option<Instant> := None;
      for i := 0 to |rows|
        invariant latest == LatestEnd(Owned(rows[..i], owner))
      {
        assert rows[..i + 1][..i] == rows[..i];
        var own := Owned(rows[..i], owner);
        if rows[i].owner == owner {
          assert (own + [rows[i].interval])[..|own|] == own;
          latest := Some(if latest.None? then rows[i].interval.ends else Max(latest.value, rows[i].interval.ends));
        } else {
          assert own + [] == own;
        }
      }
      assert rows[..|rows|] == rows;
      next := if latest.Some? then latest.value else start;
    }

    method InsertSlugRow(rows: seq<SlugRow>, owner: Id, scope: Id, start: Instant, slug: string, now: Instant)
      returns (r: Result<seq<SlugRow>, Error>)
      ensures r == WithHistory(rows, owner, scope, start, slug, now)
    {
      var next := NextStartOf(rows, owner, start);
      if next >= now { return Ok(rows); }
      if SlugKeyTaken(rows, scope, slug, next) { return Err(Database); }
      return Ok(rows + [SlugRow(owner, scope, Interval(slug, next, now))]);
    }

    method MunicipalitySlugHistory(id: Id, oldSlug: string, now: Instant) returns (r: Result<(), Error>)
      modifies `slugs
      ensures Did(MunicipalityHistory(old(View()), id, oldSlug, now), View(), r)
    {
      if id !in municipalities { return Ok(()); }
      var rows := InsertSlugRow(slugs, id, COUNTRY, municipalities[id].created, oldSlug, now);
      if rows.Err? { return Err(rows.error); }
      slugs := rows.value;
      return Ok(());
    }

    method UpdateMunicipality(id: Id, name: Option<string>, slug: string) returns (r: Result<(), Error>)
      modifies `municipalities
      ensures Did(MunicipalityUpdated(old(View()), id, name, slug), View(), r)
    {
      if id !in municipalities { return Err(UnknownRow); }
      if MunicipalitySlugTaken(View(), id, slug) { return Err(Database); }
      var m := municipalities[id];
      municipalities := municipalities[id := m.(slug := slug, name := if name.Some? then name.value else m.name)];
      return Ok(());
    }

    /** Finds the municipality's open row for `from`, closes it, and opens `to` on the same day. */
    method RenumberRows(id: Id, from: string, to: string, validFrom: Date) returns (r: Result<(), Error>)
      modifies `numbers
      ensures match Renumbered(old(numbers), id, from, to, validFrom)
              case Ok(rows) => r == Ok(()) && numbers == rows
              case Err(e) => r == Err(e)
    {
      var i := |numbers|;
      assert numbers[..i] == numbers;
      while i > 0 && !(numbers[i - 1].municipality == id && numbers[i - 1].number == from && numbers[i - 1].ends.None?)
        invariant 0 <= i <= |numbers|
        invariant OpenRow(numbers[..i], id, from) == OpenRow(numbers, id, from)
        invariant numbers == old(numbers)
      {
        assert numbers[..i][..i - 1] == numbers[..i - 1];
        i := i - 1;
      }
      if i == 0 { return Err(UnknownRow); }
      var day := ClosingDay(validFrom, numbers[i - 1].starts);
      numbers := numbers[i - 1 := numbers[i - 1].(ends := Some(day))];
      if NumberKeyTaken(numbers, to, day) || NumberOpen(numbers, to) { return Err(Database); }
      numbers := numbers + [NumberRow(id, to, day, None)];
      return Ok(());
    }

    method SchoolSlugHistory(id: Id, municipality: Option<Id>, slug: string, now: Instant) returns (r: Result<(), Error>)
      modifies `schoolSlugs
      ensures Did(SchoolHistory(old(View()), id, municipality, slug, now), View(), r)
    {
      if id !in schools { return Ok(()); }
      var s := schools[id];
      var scope := if municipality.Some? then municipality.value else s.municipality;
      var rows := InsertSlugRow(schoolSlugs, id, scope, s.SlugStart(), slug, now);
      if rows.Err? { return Err(rows.error); }
      schoolSlugs := rows.value;
      return Ok(());
    }

    method SlugChangeHistory(id: Id, municipality: Option<Id>, change: Option<SlugChange>, now: Instant) returns (r: Result<(), Error>)
      modifies `schoolSlugs
      ensures Did(ChangeHistory(old(View()), id, municipality, change, now), View(), r)
    {
      r := Ok(());
      if change.Some? && change.value.former.Some? {
        r := SchoolSlugHistory(id, municipality, change.value.former.value, now);
      }
    }

    method UpdateSchool(id: Id, row: School) returns (r: Result<(), Error>)
      modifies `schools
      ensures Did(SchoolUpdated(old(View()), id, row), View(), r)
    {
      if id !in schools { return Err(UnknownRow); }
      if row.municipality !in municipalities || SchoolSlugTaken(View(), id, row.municipality, row.slug) { return Err(Database); }
      schools := schools[id := row];
      return Ok(());
    }

    method ApplyMunicipality(op: Op, at: Moment) returns (r: Result<(), Error>)
      requires op.CreateMunicipality? || op.Renumber? || op.RenameMunicipality?
      modifies this
      ensures Did(ApplyOp(old(View()), op, at), View(), r)
    {
      hide MunicipalityHistory, MunicipalityUpdated, Renumbered;
      match op
      case CreateMunicipality(id, number, name, slug) =>
        if id in municipalities || MunicipalitySlugTaken(View(), id, slug) { return Err(Database); }
        if NumberKeyTaken(numbers, number, at.today) || NumberOpen(numbers, number) { return Err(Database); }
        municipalities := municipalities[id := Municipality(name, slug, at.now)];
        numbers := numbers + [NumberRow(id, number, at.today, None)];
        return Ok(());
      case Renumber(id, from, to, validFrom, name, oldSlug, newSlug) =>
        r := MunicipalitySlugHistory(id, oldSlug, at.now);
        if r.Err? { return; }
        r := UpdateMunicipality(id, name, newSlug);
        if r.Err? { return; }
        r := RenumberRows(id, from, to, validFrom);
      case RenameMunicipality(id, name, oldSlug, newSlug) =>
        if oldSlug != newSlug {
          r := MunicipalitySlugHistory(id, oldSlug, at.now);
          if r.Err? { return; }
        }
        r := UpdateMunicipality(id, Some(name), newSlug);
    }

    method ApplySchool(op: Op, at: Moment) returns (r: Result<(), Error>)
      requires op.CreateSchool? || op.RenameSchool? || op.MoveSchool? || op.CloseSchool?
      modifies `schools, `schoolSlugs
      ensures Did(ApplyOp(old(View()), op, at), View(), r)
    {
      hide SchoolHistory, SchoolUpdated, ChangeHistory;
      match op
      case CreateSchool(id, municipality, name, slug) =>
        if id in schools || municipality !in municipalities || SchoolSlugTaken(View(), id, municipality, slug) { return Err(Database); }
        schools := schools[id := School(municipality, name, slug, None, at.now, false)];
        return Ok(());
      case RenameSchool(id, name, change) =>
        r := SlugChangeHistory(id, None, change, at.now);
        if r.Err? { return; }
        if id !in schools { return Err(UnknownRow); }
        var s := schools[id];
        r := UpdateSchool(id, s.(name := if name.Some? then name.value else s.name, slug := NewSlug(s, change)));
      case MoveSchool(id, from, to, change) =>
        r := SlugChangeHistory(id, Some(from), change, at.now);
        if r.Err? { return; }
        if id !in schools { return Err(UnknownRow); }
        r := UpdateSchool(id, schools[id].(municipality := to, slug := NewSlug(schools[id], change)));
      case CloseSchool(id) =>
        if id !in schools { return Err(UnknownRow); }
        if schools[id].slug.Some? {
          r := SchoolSlugHistory(id, None, schools[id].slug.value, at.now);
          if r.Err? { return; }
        }
        r := UpdateSchool(id, schools[id].(closed := true, slug := None));
    }

    /** Every op in order; the first that fails undoes them all. */
    method ApplyPlan(p: Plan) returns (r: Result<(), Error>)
      modifies this
      ensures View() == Committed(old(View()), p)
      ensures r.Ok? <==> ApplyAll(old(View()), p.ops, p.at).Ok?
    {
      hide ApplyOp;
      ghost var before := View();
      var saved := View();
      for i := 0 to |p.ops|
        invariant ApplyAll(before, p.ops[..i], p.at) == Ok(View())
      {
        assert p.ops[..i + 1][..i] == p.ops[..i];
        var op := p.ops[i];
        if op.CreateMunicipality? || op.Renumber? || op.RenameMunicipality? {
          r := ApplyMunicipality(op, p.at);
        } else {
          r := ApplySchool(op, p.at);
        }
        if r.Err? {
          municipalities, numbers, slugs := saved.municipalities, saved.numbers, saved.slugs;
          schools, schoolSlugs := saved.schools, saved.schoolSlugs;
          FailureStands(before, p.ops, i + 1, p.at);
          return;
        }
      }
      assert p.ops[..|p.ops|] == p.ops;
      return Ok(());
    }
  }

  lemma {:induction false} FailureStands(r: Register, ops: seq<Op>, n: nat, at: Moment)
    requires n <= |ops| && ApplyAll(r, ops[..n], at).Err?
    ensures ApplyAll(r, ops, at).Err?
    decreases |ops|
  {
    if n < |ops| {
      var before := ops[..|ops| - 1];
      assert before[..n] == ops[..n];
      FailureStands(r, before, n, at);
    } else {
      assert ops[..n] == ops;
    }
  }

  /** A statement that succeeds leaves the tables as specified; after one that fails the transaction is undone. */
  ghost predicate Did(outcome: Result<Register, Error>, after: Register, r: Result<(), Error>) {
    match outcome
    case Ok(o) => r == Ok(()) && after == o
    case Err(e) => r == Err(e)
  }
}
