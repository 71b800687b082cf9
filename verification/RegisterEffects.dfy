/** What each op of a plan needs and leaves, read off the rows. */
module RegisterEffects {
  import opened Base
  import opened SlugHistory
  import opened Register
  import opened RegisterRuns

  /** No other municipality has the slug, and no other school of the municipality has it. */
  predicate FreeInCountry(r: Register, id: Id, slug: string) {
    forall m :: m in r.municipalities && m != id ==> r.municipalities[m].slug != slug
  }

  predicate FreeInMunicipality(r: Register, id: Id, municipality: Id, slug: Option<string>) {
    slug.Some? ==> forall s :: s in r.schools && s != id && r.schools[s].municipality == municipality ==> r.schools[s].slug != slug
  }

  /** The number is nobody's open one, and no row of it starts that day. */
  predicate FreeNumber(rows: seq<NumberRow>, number: string, day: Date) {
    forall n :: n in rows && n.number == number ==> n.ends.Some? && n.starts != day
  }

  /** Recording the former slug clashes with no row of the same scope, slug and start; recording nothing never does. */
  predicate Recordable(rows: seq<SlugRow>, owner: Id, scope: Id, start: Instant, slug: string, now: Instant) {
    var from := NextStart(Owned(rows, owner), start);
    from < now ==>
      forall h :: h in rows && h.scope == scope && h.interval.slug == slug ==> h.interval.starts != from
  }

  lemma RecordableExactly(rows: seq<SlugRow>, owner: Id, scope: Id, start: Instant, slug: string, now: Instant)
    ensures WithHistory(rows, owner, scope, start, slug, now).Ok? <==> Recordable(rows, owner, scope, start, slug, now)
    ensures WithHistory(rows, owner, scope, start, slug, now).Ok? ==>
              var from := NextStart(Owned(rows, owner), start);
              WithHistory(rows, owner, scope, start, slug, now).value
                == if from < now then rows + [SlugRow(owner, scope, Interval(slug, from, now))] else rows
  {
    hide NextStart, Owned;
    forall i | 0 <= i < |rows| ensures rows[i] in rows {}
  }

  lemma NumberIsFree(rows: seq<NumberRow>, number: string, day: Date)
    ensures FreeNumber(rows, number, day) <==> !NumberKeyTaken(rows, number, day) && !NumberOpen(rows, number)
  {
    forall i | 0 <= i < |rows| ensures rows[i] in rows {}
  }

  // Municipalities

  lemma CreatingMunicipalityExactly(r: Register, op: Op, at: Moment)
    requires op.CreateMunicipality?
    ensures ApplyOp(r, op, at).Ok? <==>
              op.id !in r.municipalities && FreeInCountry(r, op.id, op.slug) && FreeNumber(r.numbers, op.number, at.today)
    ensures ApplyOp(r, op, at).Ok? ==>
              ApplyOp(r, op, at).value
                == r.(municipalities := r.municipalities[op.id := Municipality(op.name, op.slug, at.now)],
                      numbers := r.numbers + [NumberRow(op.id, op.number, at.today, None)])
  {
    NumberIsFree(r.numbers, op.number, at.today);
  }

  /** A rename writes the name and the slug; the former slug is recorded when it changes. */
  lemma RenamingMunicipalityExactly(r: Register, op: Op, at: Moment)
    requires op.RenameMunicipality?
    ensures ApplyOp(r, op, at).Ok? <==>
              && op.id in r.municipalities && FreeInCountry(r, op.id, op.newSlug)
              && (op.oldSlug != op.newSlug ==>
                    Recordable(r.slugs, op.id, COUNTRY, r.municipalities[op.id].created, op.oldSlug, at.now))
    ensures ApplyOp(r, op, at).Ok? ==>
              var after := ApplyOp(r, op, at).value;
              && after.municipalities
                   == r.municipalities[op.id := Municipality(op.name, op.newSlug, r.municipalities[op.id].created)]
              && after.numbers == r.numbers && after.schools == r.schools && after.schoolSlugs == r.schoolSlugs
              && (op.oldSlug == op.newSlug ==> after.slugs == r.slugs)
  {
    hide WithHistory, Recordable;
    if op.id in r.municipalities {
      RecordableExactly(r.slugs, op.id, COUNTRY, r.municipalities[op.id].created, op.oldSlug, at.now);
    }
  }

  /**
   A renumber closes the municipality's open row of the old number on the change's date, or the day
   after it opened if that is later, and opens the new number that day; it writes the slug, the
   name if it has one, and the former slug.
   */
  lemma RenumberingDoes(r: Register, op: Op, at: Moment) returns (i: nat)
    requires op.Renumber? && ApplyOp(r, op, at).Ok?
    ensures op.id in r.municipalities && FreeInCountry(r, op.id, op.newSlug)
    ensures i < |r.numbers| && r.numbers[i].municipality == op.id && r.numbers[i].number == op.from && r.numbers[i].ends == None
    ensures var after := ApplyOp(r, op, at).value;
            var day := if op.validFrom > r.numbers[i].starts then op.validFrom else r.numbers[i].starts + 1;
            && after.numbers == r.numbers[i := r.numbers[i].(ends := Some(day))] + [NumberRow(op.id, op.to, day, None)]
            && after.municipalities
                 == r.municipalities[op.id := Municipality(if op.newName.Some? then op.newName.value else r.municipalities[op.id].name,
                                                           op.newSlug, r.municipalities[op.id].created)]
            && after.schools == r.schools && after.schoolSlugs == r.schoolSlugs
    ensures FreeNumber(r.numbers[i := r.numbers[i].(ends := ApplyOp(r, op, at).value.numbers[i].ends)], op.to,
                       ApplyOp(r, op, at).value.numbers[|r.numbers|].starts)
  {
    hide WithHistory;
    OpenRowIsOpen(r.numbers, op.id, op.from);
    i := OpenRow(r.numbers, op.id, op.from).value;
    var day := ClosingDay(op.validFrom, r.numbers[i].starts);
    NumberIsFree(r.numbers[i := r.numbers[i].(ends := Some(day))], op.to, day);
  }

  /** It fails when the municipality has no open row of that number. */
  lemma RenumberingNeedsTheNumber(r: Register, op: Op, at: Moment)
    requires op.Renumber?
    requires forall n :: n in r.numbers && n.municipality == op.id && n.number == op.from ==> n.ends.Some?
    ensures ApplyOp(r, op, at).Err?
  {
    hide WithHistory;
    OpenRowIsOpen(r.numbers, op.id, op.from);
    forall i | 0 <= i < |r.numbers| ensures r.numbers[i] in r.numbers {}
  }

  // Schools

  /** The school's former slug, when the change has one, is recordable. */
  predicate ChangeRecordable(r: Register, s: Id, scope: Id, change: Option<SlugChange>, now: Instant)
    requires s in r.schools
  {
    change.Some? && change.value.former.Some? ==>
      Recordable(r.schoolSlugs, s, scope, r.schools[s].SlugStart(), change.value.former.value, now)
  }

  lemma ChangeRecordableExactly(r: Register, s: Id, municipality: Option<Id>, change: Option<SlugChange>, now: Instant)
    requires s in r.schools
    ensures var scope := if municipality.Some? then municipality.value else r.schools[s].municipality;
            ChangeHistory(r, s, municipality, change, now).Ok? <==> ChangeRecordable(r, s, scope, change, now)
    ensures ChangeHistory(r, s, municipality, change, now).Ok? ==>
              var after := ChangeHistory(r, s, municipality, change, now).value;
              after == r.(schoolSlugs := after.schoolSlugs)
  {
    hide WithHistory, Recordable;
    if change.Some? && change.value.former.Some? {
      RecordableExactly(r.schoolSlugs, s, if municipality.Some? then municipality.value else r.schools[s].municipality,
                        r.schools[s].SlugStart(), change.value.former.value, now);
    }
  }

  lemma CreatingSchoolExactly(r: Register, op: Op, at: Moment)
    requires op.CreateSchool?
    ensures ApplyOp(r, op, at).Ok? <==>
              op.id !in r.schools && op.municipality in r.municipalities && FreeInMunicipality(r, op.id, op.municipality, op.firstSlug)
    ensures ApplyOp(r, op, at).Ok? ==>
              ApplyOp(r, op, at).value
                == r.(schools := r.schools[op.id := School(op.municipality, op.name, op.firstSlug, None, at.now, false)])
  {
  }

  /** A renamed school has the new name, if one is given, and the new slug, if there is a change; all else is as it was. */
  lemma RenamingSchoolExactly(r: Register, op: Op, at: Moment)
    requires op.RenameSchool?
    ensures ApplyOp(r, op, at).Ok? <==>
              && op.id in r.schools && r.schools[op.id].municipality in r.municipalities
              && FreeInMunicipality(r, op.id, r.schools[op.id].municipality,
                                    if op.change.Some? then Some(op.change.value.current) else r.schools[op.id].slug)
              && ChangeRecordable(r, op.id, r.schools[op.id].municipality, op.change, at.now)
    ensures ApplyOp(r, op, at).Ok? ==>
              var after, s := ApplyOp(r, op, at).value, r.schools[op.id];
              && after == r.(schools := after.schools, schoolSlugs := after.schoolSlugs)
              && after.schools
                   == r.schools[op.id := School(s.municipality, if op.newName.Some? then op.newName.value else s.name,
                                                if op.change.Some? then Some(op.change.value.current) else s.slug,
                                                s.verified, s.created, s.closed)]
  {
    hide ChangeHistory, ChangeRecordable;
    if op.id in r.schools { ChangeRecordableExactly(r, op.id, None, op.change, at.now); }
    else { UnknownSchool(r, op.id, None, op.change, at.now); }
  }

  /** A moved school is in the municipality it moves to, with its own name and the new slug, if there is a change. */
  lemma MovingSchoolExactly(r: Register, op: Op, at: Moment)
    requires op.MoveSchool?
    ensures ApplyOp(r, op, at).Ok? <==>
              && op.id in r.schools && op.toMunicipality in r.municipalities
              && FreeInMunicipality(r, op.id, op.toMunicipality,
                                    if op.change.Some? then Some(op.change.value.current) else r.schools[op.id].slug)
              && ChangeRecordable(r, op.id, op.fromMunicipality, op.change, at.now)
    ensures ApplyOp(r, op, at).Ok? ==>
              var after, s := ApplyOp(r, op, at).value, r.schools[op.id];
              && after == r.(schools := after.schools, schoolSlugs := after.schoolSlugs)
              && after.schools
                   == r.schools[op.id := School(op.toMunicipality, s.name,
                                                if op.change.Some? then Some(op.change.value.current) else s.slug,
                                                s.verified, s.created, s.closed)]
  {
    hide ChangeHistory, ChangeRecordable;
    if op.id in r.schools { ChangeRecordableExactly(r, op.id, Some(op.fromMunicipality), op.change, at.now); }
    else { UnknownSchool(r, op.id, Some(op.fromMunicipality), op.change, at.now); }
  }

  lemma UnknownSchool(r: Register, s: Id, municipality: Option<Id>, change: Option<SlugChange>, now: Instant)
    requires s !in r.schools
    ensures ChangeHistory(r, s, municipality, change, now) == Ok(r)
  {
  }

  /** A closed school gives its slug up to the history and has none. */
  lemma ClosingSchoolExactly(r: Register, op: Op, at: Moment)
    requires op.CloseSchool?
    ensures ApplyOp(r, op, at).Ok? <==>
              && op.id in r.schools && r.schools[op.id].municipality in r.municipalities
              && (r.schools[op.id].slug.Some? ==>
                    Recordable(r.schoolSlugs, op.id, r.schools[op.id].municipality, r.schools[op.id].SlugStart(),
                               r.schools[op.id].slug.value, at.now))
    ensures ApplyOp(r, op, at).Ok? ==>
              var after, s := ApplyOp(r, op, at).value, r.schools[op.id];
              && after == r.(schools := after.schools, schoolSlugs := after.schoolSlugs)
              && after.schools == r.schools[op.id := School(s.municipality, s.name, None, s.verified, s.created, true)]
              && (s.slug.None? ==> after.schoolSlugs == r.schoolSlugs)
  {
    hide WithHistory, Recordable;
    if op.id in r.schools && r.schools[op.id].slug.Some? {
      RecordableExactly(r.schoolSlugs, op.id, r.schools[op.id].municipality, r.schools[op.id].SlugStart(),
                        r.schools[op.id].slug.value, at.now);
    }
  }

  // Recording

  /** A recorded slug is one new row: its owner's, in the scope it had, from the latest end or else the start, until now. */
  lemma RecordedRow(r: Register, op: Op, at: Moment)
    requires (op.RenameSchool? || op.MoveSchool?) && op.change.Some? && op.change.value.former.Some? && ApplyOp(r, op, at).Ok?
    ensures op.id in r.schools
    ensures var s := r.schools[op.id];
            var from := NextStart(Owned(r.schoolSlugs, op.id), s.SlugStart());
            var scope := if op.MoveSchool? then op.fromMunicipality else s.municipality;
            ApplyOp(r, op, at).value.schoolSlugs
              == if from < at.now then r.schoolSlugs + [SlugRow(op.id, scope, Interval(op.change.value.former.value, from, at.now))]
                 else r.schoolSlugs
  {
    hide WithHistory;
    if op.id in r.schools {
      RecordableExactly(r.schoolSlugs, op.id, if op.MoveSchool? then op.fromMunicipality else r.schools[op.id].municipality,
                        r.schools[op.id].SlugStart(), op.change.value.former.value, at.now);
    }
  }

  /** Every op leaves every row of every other municipality and school as it was. */
  lemma OthersAreUntouched(r: Register, op: Op, at: Moment, x: Id)
    requires ApplyOp(r, op, at).Ok? && x != op.id
    ensures var after := ApplyOp(r, op, at).value;
            && (x in after.municipalities <==> x in r.municipalities)
            && (x in r.municipalities ==> after.municipalities[x] == r.municipalities[x])
            && (x in after.schools <==> x in r.schools)
            && (x in r.schools ==> after.schools[x] == r.schools[x])
            && Owned(after.slugs, x) == Owned(r.slugs, x) && Owned(after.schoolSlugs, x) == Owned(r.schoolSlugs, x)
  {
    hide WithHistory, NextStart;
    match op
    case Renumber(id, _, _, _, _, oldSlug, _) =>
      if id in r.municipalities { HistoryOf(r.slugs, id, COUNTRY, r.municipalities[id].created, oldSlug, at.now, x); }
    case RenameMunicipality(id, _, oldSlug, newSlug) =>
      if id in r.municipalities && oldSlug != newSlug {
        HistoryOf(r.slugs, id, COUNTRY, r.municipalities[id].created, oldSlug, at.now, x);
      }
    case RenameSchool(id, _, change) =>
      if id in r.schools && change.Some? && change.value.former.Some? {
        SchoolHistoryOf(r, id, None, change.value.former.value, at.now, x);
      }
    case MoveSchool(id, from, _, change) =>
      if id in r.schools && change.Some? && change.value.former.Some? {
        SchoolHistoryOf(r, id, Some(from), change.value.former.value, at.now, x);
      }
    case CloseSchool(id) =>
      if id in r.schools && r.schools[id].slug.Some? { SchoolHistoryOf(r, id, None, r.schools[id].slug.value, at.now, x); }
    case _ =>
  }

  /** A plan is its ops in order: a first part, then the rest from there; and nothing of it when one fails. */
  lemma {:induction false} PlanInOrder(r: Register, a: seq<Op>, b: seq<Op>, at: Moment)
    ensures ApplyAll(r, a, at).Err? ==> ApplyAll(r, a + b, at).Err? && Committed(r, Plan(a + b, at)) == r
    ensures ApplyAll(r, a, at).Ok? ==> ApplyAll(r, a + b, at) == ApplyAll(ApplyAll(r, a, at).value, b, at)
    decreases |b|
  {
    hide ApplyOp;
    if b == [] {
      assert a + b == a;
    } else {
      var n := |b| - 1;
      assert (a + b)[..|a + b| - 1] == a + b[..n];
      PlanInOrder(r, a, b[..n], at);
    }
  }

  lemma OneOp(r: Register, op: Op, at: Moment)
    ensures ApplyAll(r, [op], at) == ApplyOp(r, op, at)
  {
    hide ApplyOp;
    assert [op][..0] == [];
    assert ApplyAll(r, [], at) == Ok(r);
  }
}
