/** What every register reached by applying plans keeps, whatever the clock does between them. */
module RegisterRuns {
  import opened Base
  import opened SlugHistory
  import opened Register

  /** Non-empty intervals, each starting where the one before it ends, and only the last open. */
  predicate NumbersChained(rows: seq<NumberRow>) {
    && rows != [] && rows[|rows| - 1].ends.None?
    && (forall i :: 0 <= i < |rows| - 1 ==>
          rows[i].ends.Some? && rows[i].starts < rows[i].ends.value && rows[i].ends.value == rows[i + 1].starts)
  }

  predicate MunicipalitySound(r: Register, m: Id)
    requires m in r.municipalities
  {
    NumbersChained(NumbersOf(r.numbers, m)) && Chained(Owned(r.slugs, m), r.municipalities[m].created)
  }

  predicate SchoolSound(r: Register, s: Id)
    requires s in r.schools
  {
    Chained(Owned(r.schoolSlugs, s), r.schools[s].SlugStart())
  }

  predicate OpenNumbersDiffer(rows: seq<NumberRow>) {
    forall i, j :: 0 <= i < j < |rows| && rows[i].ends.None? && rows[j].ends.None? ==> rows[i].number != rows[j].number
  }

  /** Rows belong to municipalities and schools that exist. */
  predicate RowsOwned(r: Register) {
    && (forall n :: n in r.numbers ==> n.municipality in r.municipalities)
    && (forall h :: h in r.slugs ==> h.owner in r.municipalities)
    && (forall h :: h in r.schoolSlugs ==> h.owner in r.schools)
  }

  predicate SlugsDiffer(r: Register) {
    && (forall a, b :: a in r.municipalities && b in r.municipalities && a != b ==>
          r.municipalities[a].slug != r.municipalities[b].slug)
    && (forall a, b :: (a in r.schools && b in r.schools && a != b && r.schools[a].slug.Some?
                        && r.schools[a].municipality == r.schools[b].municipality) ==>
          r.schools[a].slug != r.schools[b].slug)
  }

  predicate Sound(r: Register) {
    && (forall m :: m in r.municipalities ==> MunicipalitySound(r, m))
    && (forall s :: s in r.schools ==> SchoolSound(r, s))
    && OpenNumbersDiffer(r.numbers) && RowsOwned(r) && SlugsDiffer(r)
  }

  // Slug history rows

  lemma OwnedAppend(rows: seq<SlugRow>, row: SlugRow, o: Id)
    ensures Owned(rows + [row], o) == Owned(rows, o) + if row.owner == o then [row.interval] else []
  {
    assert (rows + [row])[..|rows|] == rows;
  }

  lemma {:induction false} NobodysRows(rows: seq<SlugRow>, o: Id)
    requires forall h :: h in rows ==> h.owner != o
    ensures Owned(rows, o) == []
  {
    if rows != [] {
      NobodysRows(rows[..|rows| - 1], o);
    }
  }

  /** One owner's history is pushed to; the others' is left alone. */
  lemma HistoryOf(rows: seq<SlugRow>, owner: Id, scope: Id, start: Instant, slug: string, now: Instant, o: Id)
    requires WithHistory(rows, owner, scope, start, slug, now).Ok?
    ensures var after := WithHistory(rows, owner, scope, start, slug, now).value;
            && Owned(after, o) == (if o == owner then Push(Owned(rows, o), start, slug, now) else Owned(rows, o))
            && (forall h :: h in after ==> h in rows || h.owner == owner)
  {
    var next := NextStart(Owned(rows, owner), start);
    if next < now {
      OwnedAppend(rows, SlugRow(owner, scope, Interval(slug, next, now)), o);
    }
  }

  lemma SchoolHistoryOf(r: Register, id: Id, municipality: Option<Id>, slug: string, now: Instant, s: Id)
    requires SchoolHistory(r, id, municipality, slug, now).Ok?
    ensures var after := SchoolHistory(r, id, municipality, slug, now).value;
            && after.schools == r.schools
            && Owned(after.schoolSlugs, s) == if id == s && s in r.schools
                                              then Push(Owned(r.schoolSlugs, s), r.schools[s].SlugStart(), slug, now)
                                              else Owned(r.schoolSlugs, s)
  {
    if id in r.schools {
      var scope := if municipality.Some? then municipality.value else r.schools[id].municipality;
      HistoryOf(r.schoolSlugs, id, scope, r.schools[id].SlugStart(), slug, now, s);
    }
  }

  // Number rows

  lemma NumbersAppend(rows: seq<NumberRow>, row: NumberRow, m: Id)
    ensures NumbersOf(rows + [row], m) == NumbersOf(rows, m) + if row.municipality == m then [row] else []
  {
    assert (rows + [row])[..|rows|] == rows;
  }

  lemma {:induction false} NobodysNumbers(rows: seq<NumberRow>, m: Id)
    requires forall n :: n in rows ==> n.municipality != m
    ensures NumbersOf(rows, m) == []
  {
    if rows != [] {
      NobodysNumbers(rows[..|rows| - 1], m);
    }
  }

  lemma {:induction false} RowIsListed(rows: seq<NumberRow>, m: Id, i: nat) returns (k: nat)
    requires i < |rows| && rows[i].municipality == m
    ensures k < |NumbersOf(rows, m)| && NumbersOf(rows, m)[k] == rows[i]
  {
    if i == |rows| - 1 {
      k := |NumbersOf(rows, m)| - 1;
    } else {
      k := RowIsListed(rows[..|rows| - 1], m, i);
    }
  }

  lemma {:induction false} OthersNumbers(rows: seq<NumberRow>, i: nat, x: NumberRow, m: Id)
    requires i < |rows| && rows[i].municipality == x.municipality != m
    ensures NumbersOf(rows[i := x], m) == NumbersOf(rows, m)
  {
    var init := rows[..|rows| - 1];
    if i == |rows| - 1 {
      assert rows[i := x][..|rows| - 1] == init;
    } else {
      assert rows[i := x][..|rows| - 1] == init[i := x];
      OthersNumbers(init, i, x, m);
    }
  }

  /** Changing a municipality's open row changes the last of its rows. */
  lemma {:induction false} OpenRowIsLast(rows: seq<NumberRow>, m: Id, i: nat, x: NumberRow)
    requires i < |rows| && rows[i].municipality == x.municipality == m && rows[i].ends.None?
    requires forall k :: 0 <= k < |NumbersOf(rows, m)| - 1 ==> NumbersOf(rows, m)[k].ends.Some?
    ensures var own := NumbersOf(rows, m);
            own != [] && own[|own| - 1] == rows[i] && NumbersOf(rows[i := x], m) == own[..|own| - 1] + [x]
  {
    var init := rows[..|rows| - 1];
    var own := NumbersOf(rows, m);
    if i == |rows| - 1 {
      assert rows[i := x][..|rows| - 1] == init;
    } else {
      var k := RowIsListed(init, m, i);
      assert own[k] == rows[i];
      assert rows[|rows| - 1].municipality != m;
      assert own == NumbersOf(init, m);
      assert rows[i := x][..|rows| - 1] == init[i := x];
      OpenRowIsLast(init, m, i, x);
    }
  }

  /** The open row closed at `day`, and the next opened on it. */
  lemma CloseAndOpen(own: seq<NumberRow>, day: Date, to: string, m: Id)
    requires NumbersChained(own) && own[|own| - 1].starts < day
    ensures NumbersChained(own[..|own| - 1] + [own[|own| - 1].(ends := Some(day))] + [NumberRow(m, to, day, None)])
  {
    var init := own[..|own| - 1];
    var last := own[|own| - 1].(ends := Some(day));
    var after := init + [last] + [NumberRow(m, to, day, None)];
    assert forall i :: 0 <= i < |init| ==> after[i] == own[i];
    assert after[|init|] == last && after[|init| + 1] == NumberRow(m, to, day, None);
    assert forall j :: 0 < j <= |init| ==> after[j].starts == own[j].starts;
  }

  /** Renumbering closes the open number and opens the next on the same day; other municipalities keep theirs. */
  lemma RenumberKeepsChain(rows: seq<NumberRow>, m: Id, from: string, to: string, validFrom: Date, o: Id)
    requires Renumbered(rows, m, from, to, validFrom).Ok?
    requires NumbersChained(NumbersOf(rows, m))
    ensures var after := Renumbered(rows, m, from, to, validFrom).value;
            && (o == m ==> NumbersChained(NumbersOf(after, m)))
            && (o != m ==> NumbersOf(after, o) == NumbersOf(rows, o))
            && (forall n :: n in after ==> n in rows || n.municipality == m)
  {
    hide NumbersOf, NumberKeyTaken, NumberOpen, OpenRow;
    OpenRowIsOpen(rows, m, from);
    var i := OpenRow(rows, m, from).value;
    var day := ClosingDay(validFrom, rows[i].starts);
    var x := rows[i].(ends := Some(day));
    var closed := rows[i := x];
    NumbersAppend(closed, NumberRow(m, to, day, None), o);
    if o == m {
      OpenRowIsLast(rows, m, i, x);
      CloseAndOpen(NumbersOf(rows, m), day, to, m);
    } else {
      OthersNumbers(rows, i, x, o);
      assert NumbersOf(rows, o) + [] == NumbersOf(rows, o);
    }
  }

  lemma RenumberKeepsNumbersApart(rows: seq<NumberRow>, m: Id, from: string, to: string, validFrom: Date)
    requires Renumbered(rows, m, from, to, validFrom).Ok? && OpenNumbersDiffer(rows)
    ensures OpenNumbersDiffer(Renumbered(rows, m, from, to, validFrom).value)
  {
    OpenRowIsOpen(rows, m, from);
  }

  // Ops

  lemma MunicipalityHistorySound(r: Register, id: Id, oldSlug: string, now: Instant)
    requires Sound(r) && MunicipalityHistory(r, id, oldSlug, now).Ok?
    ensures Sound(MunicipalityHistory(r, id, oldSlug, now).value)
  {
    hide Chained, NumbersChained;
    var after := MunicipalityHistory(r, id, oldSlug, now).value;
    if id in r.municipalities {
      var start := r.municipalities[id].created;
      forall m | m in r.municipalities ensures MunicipalitySound(after, m) {
        assert MunicipalitySound(r, m);
        HistoryOf(r.slugs, id, COUNTRY, start, oldSlug, now, m);
        if m == id { PushKeepsChain(Owned(r.slugs, m), start, oldSlug, now); }
      }
      forall s | s in r.schools ensures SchoolSound(after, s) { assert SchoolSound(r, s); }
      HistoryOf(r.slugs, id, COUNTRY, start, oldSlug, now, id);
    }
  }

  lemma SchoolHistoryKeeps(r: Register, id: Id, municipality: Option<Id>, slug: string, now: Instant, s: Id)
    requires Sound(r) && SchoolHistory(r, id, municipality, slug, now).Ok? && s in r.schools
    ensures SchoolSound(SchoolHistory(r, id, municipality, slug, now).value.(schools := r.schools), s)
  {
    hide Chained, NumbersChained, SlugsDiffer, OpenNumbersDiffer, RowsOwned, MunicipalitySound;
    assert SchoolSound(r, s);
    SchoolHistoryOf(r, id, municipality, slug, now, s);
    if s == id { PushKeepsChain(Owned(r.schoolSlugs, s), r.schools[s].SlugStart(), slug, now); }
  }

  lemma SchoolHistoryRows(r: Register, id: Id, municipality: Option<Id>, slug: string, now: Instant)
    requires RowsOwned(r) && SchoolHistory(r, id, municipality, slug, now).Ok?
    ensures var after := SchoolHistory(r, id, municipality, slug, now).value;
            RowsOwned(after) && after == r.(schoolSlugs := after.schoolSlugs)
  {
    if id in r.schools {
      var scope := if municipality.Some? then municipality.value else r.schools[id].municipality;
      HistoryOf(r.schoolSlugs, id, scope, r.schools[id].SlugStart(), slug, now, id);
    }
  }

  lemma SchoolHistorySound(r: Register, id: Id, municipality: Option<Id>, slug: string, now: Instant)
    requires Sound(r) && SchoolHistory(r, id, municipality, slug, now).Ok?
    ensures Sound(SchoolHistory(r, id, municipality, slug, now).value)
  {
    hide Chained, NumbersChained, SchoolHistory;
    var after := SchoolHistory(r, id, municipality, slug, now).value;
    SchoolHistoryRows(r, id, municipality, slug, now);
    forall s | s in r.schools ensures SchoolSound(after, s) {
      SchoolHistoryKeeps(r, id, municipality, slug, now, s);
    }
    forall m | m in r.municipalities ensures MunicipalitySound(after, m) { assert MunicipalitySound(r, m); }
  }

  lemma MunicipalityUpdatedSound(r: Register, id: Id, name: Option<string>, slug: string)
    requires Sound(r) && MunicipalityUpdated(r, id, name, slug).Ok?
    ensures Sound(MunicipalityUpdated(r, id, name, slug).value)
  {
    hide Chained, NumbersChained;
    var after := MunicipalityUpdated(r, id, name, slug).value;
    forall m | m in r.municipalities ensures MunicipalitySound(after, m) { assert MunicipalitySound(r, m); }
    forall s | s in r.schools ensures SchoolSound(after, s) { assert SchoolSound(r, s); }
  }

  lemma SchoolUpdatedSound(r: Register, id: Id, row: School)
    requires Sound(r) && SchoolUpdated(r, id, row).Ok? && row.SlugStart() == r.schools[id].SlugStart()
    ensures Sound(SchoolUpdated(r, id, row).value)
  {
    hide Chained, NumbersChained;
    var after := SchoolUpdated(r, id, row).value;
    forall m | m in r.municipalities ensures MunicipalitySound(after, m) { assert MunicipalitySound(r, m); }
    forall s | s in r.schools ensures SchoolSound(after, s) { assert SchoolSound(r, s); }
  }

  lemma RenumberedSound(r: Register, id: Id, from: string, to: string, validFrom: Date)
    requires Sound(r) && id in r.municipalities && Renumbered(r.numbers, id, from, to, validFrom).Ok?
    ensures Sound(r.(numbers := Renumbered(r.numbers, id, from, to, validFrom).value))
  {
    hide Chained, NumbersChained, Renumbered;
    var after := r.(numbers := Renumbered(r.numbers, id, from, to, validFrom).value);
    assert MunicipalitySound(r, id);
    forall m | m in r.municipalities ensures MunicipalitySound(after, m) {
      assert MunicipalitySound(r, m);
      RenumberKeepsChain(r.numbers, id, from, to, validFrom, m);
    }
    forall s | s in r.schools ensures SchoolSound(after, s) { assert SchoolSound(r, s); }
    RenumberKeepsNumbersApart(r.numbers, id, from, to, validFrom);
    RenumberKeepsChain(r.numbers, id, from, to, validFrom, id);
  }

  lemma CreatedIsSound(r: Register, op: Op, at: Moment, m: Id)
    requires Sound(r) && op.CreateMunicipality? && ApplyOp(r, op, at).Ok? && m in ApplyOp(r, op, at).value.municipalities
    ensures MunicipalitySound(ApplyOp(r, op, at).value, m)
  {
    hide Chained, NumbersChained, SlugsDiffer, OpenNumbersDiffer, SchoolSound, MunicipalitySlugTaken, NumberKeyTaken, NumberOpen;
    var row := NumberRow(op.id, op.number, at.today, None);
    NumbersAppend(r.numbers, row, m);
    if m == op.id {
      NobodysRows(r.slugs, m);
      NobodysNumbers(r.numbers, m);
      FirstRows(row, at.now);
      assert [] + [row] == [row];
    } else {
      assert MunicipalitySound(r, m);
      assert NumbersOf(r.numbers, m) + [] == NumbersOf(r.numbers, m);
    }
  }

  lemma FirstRows(row: NumberRow, start: Instant)
    requires row.ends.None?
    ensures NumbersChained([row]) && Chained([], start)
  {
  }

  lemma CreateMunicipalitySound(r: Register, op: Op, at: Moment)
    requires Sound(r) && op.CreateMunicipality? && ApplyOp(r, op, at).Ok?
    ensures Sound(ApplyOp(r, op, at).value)
  {
    hide Chained, NumbersChained, MunicipalitySound;
    var after := ApplyOp(r, op, at).value;
    forall m | m in after.municipalities ensures MunicipalitySound(after, m) {
      CreatedIsSound(r, op, at, m);
    }
    forall s | s in r.schools ensures SchoolSound(after, s) { assert SchoolSound(r, s); }
  }

  lemma CreatedKeepsSlugsApart(r: Register, op: Op, at: Moment)
    requires SlugsDiffer(r) && op.CreateSchool? && ApplyOp(r, op, at).Ok?
    ensures SlugsDiffer(ApplyOp(r, op, at).value)
  {
  }

  lemma CreateSchoolSound(r: Register, op: Op, at: Moment)
    requires Sound(r) && op.CreateSchool? && ApplyOp(r, op, at).Ok?
    ensures Sound(ApplyOp(r, op, at).value)
  {
    hide NumbersChained, OpenNumbersDiffer, Chained, SchoolSound;
    var after := ApplyOp(r, op, at).value;
    CreatedKeepsSlugsApart(r, op, at);
    hide SlugsDiffer, SchoolSlugTaken;
    forall s | s in after.schools ensures SchoolSound(after, s) {
      CreatedSchoolIsSound(r, op, at, s);
    }
    forall m | m in r.municipalities ensures MunicipalitySound(after, m) { assert MunicipalitySound(r, m); }
  }

  lemma CreatedSchoolIsSound(r: Register, op: Op, at: Moment, s: Id)
    requires Sound(r) && op.CreateSchool? && ApplyOp(r, op, at).Ok? && s in ApplyOp(r, op, at).value.schools
    ensures SchoolSound(ApplyOp(r, op, at).value, s)
  {
    hide NumbersChained, OpenNumbersDiffer, MunicipalitySound, SlugsDiffer, SchoolSlugTaken;
    if s == op.id {
      NobodysRows(r.schoolSlugs, s);
    } else {
      assert SchoolSound(r, s);
    }
  }

  lemma ChangeHistorySound(r: Register, id: Id, municipality: Option<Id>, change: Option<SlugChange>, now: Instant)
    requires Sound(r) && ChangeHistory(r, id, municipality, change, now).Ok?
    ensures Sound(ChangeHistory(r, id, municipality, change, now).value)
  {
    if change.Some? && change.value.former.Some? {
      SchoolHistorySound(r, id, municipality, change.value.former.value, now);
    }
  }

  lemma OpKeepsSound(r: Register, op: Op, at: Moment)
    requires Sound(r) && ApplyOp(r, op, at).Ok?
    ensures Sound(ApplyOp(r, op, at).value)
  {
    hide Sound, MunicipalityHistory, SchoolHistory, MunicipalityUpdated, SchoolUpdated, Renumbered, ChangeHistory;
    match op
    case CreateMunicipality(_, _, _, _) => CreateMunicipalitySound(r, op, at);
    case CreateSchool(_, _, _, _) => CreateSchoolSound(r, op, at);
    case Renumber(id, from, to, validFrom, name, oldSlug, newSlug) =>
      MunicipalityHistorySound(r, id, oldSlug, at.now);
      var r1 := MunicipalityHistory(r, id, oldSlug, at.now).value;
      MunicipalityUpdatedSound(r1, id, name, newSlug);
      UpdatedExists(r1, id, name, newSlug);
      RenumberedSound(MunicipalityUpdated(r1, id, name, newSlug).value, id, from, to, validFrom);
    case RenameMunicipality(id, name, oldSlug, newSlug) =>
      if oldSlug != newSlug { MunicipalityHistorySound(r, id, oldSlug, at.now); }
      var r1 := if oldSlug != newSlug then MunicipalityHistory(r, id, oldSlug, at.now).value else r;
      MunicipalityUpdatedSound(r1, id, Some(name), newSlug);
    case RenameSchool(id, name, change) =>
      ChangeHistorySound(r, id, None, change, at.now);
      var r1 := ChangeHistory(r, id, None, change, at.now).value;
      var s := r1.schools[id];
      SchoolUpdatedSound(r1, id, s.(name := if name.Some? then name.value else s.name, slug := NewSlug(s, change)));
    case MoveSchool(id, from, to, change) =>
      ChangeHistorySound(r, id, Some(from), change, at.now);
      var r1 := ChangeHistory(r, id, Some(from), change, at.now).value;
      SchoolUpdatedSound(r1, id, r1.schools[id].(municipality := to, slug := NewSlug(r1.schools[id], change)));
    case CloseSchool(id) =>
      if r.schools[id].slug.Some? { SchoolHistorySound(r, id, None, r.schools[id].slug.value, at.now); }
      var r1 := if r.schools[id].slug.Some? then SchoolHistory(r, id, None, r.schools[id].slug.value, at.now).value else r;
      HistoryKeepsSchools(r, id, None, if r.schools[id].slug.Some? then r.schools[id].slug.value else "", at.now);
      SchoolUpdatedSound(r1, id, r1.schools[id].(closed := true, slug := None));
  }

  lemma HistoryKeepsSchools(r: Register, id: Id, municipality: Option<Id>, slug: string, now: Instant)
    ensures SchoolHistory(r, id, municipality, slug, now).Ok? ==>
              SchoolHistory(r, id, municipality, slug, now).value.schools == r.schools
  {
  }

  lemma UpdatedExists(r: Register, id: Id, name: Option<string>, slug: string)
    requires MunicipalityUpdated(r, id, name, slug).Ok?
    ensures id in MunicipalityUpdated(r, id, name, slug).value.municipalities
  {
  }

  lemma {:induction false} AllKeepSound(r: Register, ops: seq<Op>, at: Moment)
    requires Sound(r) && ApplyAll(r, ops, at).Ok?
    ensures Sound(ApplyAll(r, ops, at).value)
    decreases |ops|
  {
    hide Sound, ApplyOp;
    if ops != [] {
      AllKeepSound(r, ops[..|ops| - 1], at);
      OpKeepsSound(ApplyAll(r, ops[..|ops| - 1], at).value, ops[|ops| - 1], at);
    }
  }

  lemma {:induction false} RunKeepsSound(r: Register, plans: seq<Plan>)
    requires Sound(r)
    ensures Sound(Run(r, plans))
  {
    hide Sound, ApplyAll;
    if plans != [] {
      var before := Run(r, plans[..|plans| - 1]);
      var last := plans[|plans| - 1];
      RunKeepsSound(r, plans[..|plans| - 1]);
      if ApplyAll(before, last.ops, last.at).Ok? { AllKeepSound(before, last.ops, last.at); }
    }
  }

  /**
   In every register reached by applying plans, whatever the clock showed at each: a municipality
   has exactly one open number and its numbers are chained; former slugs of a municipality and of
   a school are non-empty intervals, chained and so disjoint; no two municipalities share an open
   number.
   */
  lemma ReachableIsSound(plans: seq<Plan>)
    ensures var r := Run(EMPTY, plans);
            && (forall m :: m in r.municipalities ==>
                  && NumbersChained(NumbersOf(r.numbers, m))
                  && Chained(Owned(r.slugs, m), r.municipalities[m].created))
            && (forall s :: s in r.schools ==> Chained(Owned(r.schoolSlugs, s), r.schools[s].SlugStart()))
            && OpenNumbersDiffer(r.numbers)
  {
    RunKeepsSound(EMPTY, plans);
    var r := Run(EMPTY, plans);
    assert forall m :: m in r.municipalities ==> MunicipalitySound(r, m);
    assert forall s :: s in r.schools ==> SchoolSound(r, s);
  }

  // Slug histories as timelines

  datatype Owner = AMunicipality(id: Id) | ASchool(id: Id)

  predicate Exists(r: Register, o: Owner) {
    match o
    case AMunicipality(id) => id in r.municipalities
    case ASchool(id) => id in r.schools
  }

  function SlugOf(r: Register, o: Owner): Option<string>
    requires Exists(r, o)
  {
    match o
    case AMunicipality(id) => Some(r.municipalities[id].slug)
    case ASchool(id) => r.schools[id].slug
  }

  /** Where the owner's history starts. */
  function StartOf(r: Register, o: Owner): Instant
    requires Exists(r, o)
  {
    match o
    case AMunicipality(id) => r.municipalities[id].created
    case ASchool(id) => r.schools[id].SlugStart()
  }

  function FormerOf(r: Register, o: Owner): seq<Interval> {
    match o
    case AMunicipality(id) => Owned(r.slugs, id)
    case ASchool(id) => Owned(r.schoolSlugs, id)
  }

  /** The op names the slug its subject has, as the planner's ops do. */
  predicate NamesCurrent(r: Register, op: Op) {
    match op
    case Renumber(id, _, _, _, _, oldSlug, _) => id in r.municipalities ==> oldSlug == r.municipalities[id].slug
    case RenameMunicipality(id, _, oldSlug, _) => id in r.municipalities ==> oldSlug == r.municipalities[id].slug
    case RenameSchool(id, _, change) => id in r.schools && change.Some? ==> change.value.former == r.schools[id].slug
    case MoveSchool(id, _, _, change) => id in r.schools && change.Some? ==> change.value.former == r.schools[id].slug
    case _ => true
  }

  predicate AllNameCurrent(r: Register, ops: seq<Op>, at: Moment)
    decreases |ops|
  {
    ops == [] ||
    var before := ops[..|ops| - 1];
    && AllNameCurrent(r, before, at)
    && (ApplyAll(r, before, at).Ok? ==> NamesCurrent(ApplyAll(r, before, at).value, ops[|ops| - 1]))
  }

  predicate PlansNameCurrent(r: Register, plans: seq<Plan>) {
    plans == [] ||
    var before := plans[..|plans| - 1];
    && PlansNameCurrent(r, before)
    && AllNameCurrent(Run(r, before), plans[|plans| - 1].ops, plans[|plans| - 1].at)
  }

  /** The change of an owner's slug an op makes; closing a school that has one leaves it with none. */
  function OpChanges(r: Register, op: Op, o: Owner, now: Instant): seq<Change> {
    match op
    case Renumber(id, _, _, _, _, _, newSlug) => if o == AMunicipality(id) then [Change(now, Some(newSlug))] else []
    case RenameMunicipality(id, _, oldSlug, newSlug) =>
      if o == AMunicipality(id) && oldSlug != newSlug then [Change(now, Some(newSlug))] else []
    case RenameSchool(id, _, change) => if o == ASchool(id) then Changed(change, now) else []
    case MoveSchool(id, _, _, change) => if o == ASchool(id) then Changed(change, now) else []
    case CloseSchool(id) =>
      if o == ASchool(id) && id in r.schools && r.schools[id].slug.Some? then [Change(now, None)] else []
    case _ => []
  }

  function Changed(change: Option<SlugChange>, now: Instant): seq<Change> {
    if change.Some? then [Change(now, Some(change.value.current))] else []
  }

  function AllChanges(r: Register, ops: seq<Op>, o: Owner, at: Moment): seq<Change>
    decreases |ops|
  {
    if ops == [] then []
    else
      var before := ops[..|ops| - 1];
      AllChanges(r, before, o, at)
      + match ApplyAll(r, before, at)
        case Ok(now) => OpChanges(now, ops[|ops| - 1], o, at.now)
        case Err(_) => []
  }

  /** The changes the committed plans made, in order. */
  function RunChanges(r: Register, plans: seq<Plan>, o: Owner): seq<Change> {
    if plans == [] then []
    else
      var before := plans[..|plans| - 1];
      var last := plans[|plans| - 1];
      RunChanges(r, before, o)
      + if ApplyAll(Run(r, before), last.ops, last.at).Ok? then AllChanges(Run(r, before), last.ops, o, last.at) else []
  }

  /** The owner's history and slug are what the changes leave, and no change gives up what is not there. */
  predicate Follows(r: Register, o: Owner, first: Option<string>, start: Instant, changes: seq<Change>) {
    && Exists(r, o) && StartOf(r, o) == start
    && FormerOf(r, o) == Recorded(first, start, changes)
    && SlugOf(r, o) == Current(first, changes)
    && Genuine(first, changes)
  }

  lemma GenuineAppend(first: Option<string>, changes: seq<Change>, c: Change)
    requires Genuine(first, changes) && (Current(first, changes).None? ==> c.slug.Some?)
    ensures Genuine(first, changes + [c]) && Current(first, changes + [c]) == c.slug
  {
    assert (changes + [c])[..|changes|] == changes;
  }

  lemma MunicipalityHistoryOf(r: Register, id: Id, oldSlug: string, now: Instant, m: Id)
    requires MunicipalityHistory(r, id, oldSlug, now).Ok?
    ensures var after := MunicipalityHistory(r, id, oldSlug, now).value;
            && after.municipalities == r.municipalities
            && Owned(after.slugs, m) == if id == m && m in r.municipalities
                                        then Push(Owned(r.slugs, m), r.municipalities[m].created, oldSlug, now)
                                        else Owned(r.slugs, m)
  {
    if id in r.municipalities {
      HistoryOf(r.slugs, id, COUNTRY, r.municipalities[id].created, oldSlug, now, m);
    }
  }

  /** Ops about schools leave municipalities alone, and creating one leaves the others alone. */
  lemma OthersKeepMunicipality(r: Register, op: Op, at: Moment, m: Id)
    requires ApplyOp(r, op, at).Ok? && !op.Renumber? && !op.RenameMunicipality? && m in r.municipalities
    ensures var after := ApplyOp(r, op, at).value;
            after.slugs == r.slugs && m in after.municipalities && after.municipalities[m] == r.municipalities[m]
  {
  }

  lemma OthersKeepSchool(r: Register, op: Op, at: Moment, s: Id)
    requires ApplyOp(r, op, at).Ok? && !op.RenameSchool? && !op.MoveSchool? && !op.CloseSchool? && s in r.schools
    ensures var after := ApplyOp(r, op, at).value;
            after.schoolSlugs == r.schoolSlugs && s in after.schools && after.schools[s] == r.schools[s]
  {
  }

  lemma MunicipalityOpFollows(r: Register, op: Op, at: Moment, m: Id, first: Option<string>, start: Instant, changes: seq<Change>)
    requires Follows(r, AMunicipality(m), first, start, changes) && NamesCurrent(r, op) && ApplyOp(r, op, at).Ok?
    ensures Follows(ApplyOp(r, op, at).value, AMunicipality(m), first, start,
                    changes + OpChanges(r, op, AMunicipality(m), at.now))
  {
    hide Owned, Recorded, Push, MunicipalityHistory, Renumbered, SchoolHistory, SchoolUpdated, ChangeHistory, Genuine, Current;
    assert changes + [] == changes;
    match op
    case Renumber(id, _, _, _, _, oldSlug, newSlug) =>
      MunicipalityHistoryOf(r, id, oldSlug, at.now, m);
      RecordedAppend(first, start, changes, Change(at.now, Some(newSlug)));
      GenuineAppend(first, changes, Change(at.now, Some(newSlug)));
    case RenameMunicipality(id, _, oldSlug, newSlug) =>
      if oldSlug != newSlug {
        MunicipalityHistoryOf(r, id, oldSlug, at.now, m);
        RecordedAppend(first, start, changes, Change(at.now, Some(newSlug)));
        GenuineAppend(first, changes, Change(at.now, Some(newSlug)));
      }
    case _ => OthersKeepMunicipality(r, op, at, m);
  }

  /** What a school op leaves of a school: its former slug pushed, when there was one, and its new slug. */
  lemma SchoolOpLeaves(r: Register, op: Op, at: Moment, s: Id)
    requires ApplyOp(r, op, at).Ok? && s in r.schools && NamesCurrent(r, op)
    requires op.RenameSchool? || op.MoveSchool? || op.CloseSchool?
    ensures var after := ApplyOp(r, op, at).value;
            var made := OpChanges(r, op, ASchool(s), at.now);
            && s in after.schools && after.schools[s].SlugStart() == r.schools[s].SlugStart() && |made| <= 1
            && after.schools[s].slug == (if made == [] then r.schools[s].slug else made[0].slug)
            && Owned(after.schoolSlugs, s)
               == (if made == [] || r.schools[s].slug.None? then Owned(r.schoolSlugs, s)
                   else Push(Owned(r.schoolSlugs, s), r.schools[s].SlugStart(), r.schools[s].slug.value, at.now))
            && (made != [] ==> made[0].at == at.now && (r.schools[s].slug.None? ==> made[0].slug.Some?))
  {
    hide Owned, Push, SchoolHistory;
    match op
    case RenameSchool(id, _, change) =>
      if change.Some? && change.value.former.Some? { SchoolHistoryOf(r, id, None, change.value.former.value, at.now, s); }
    case MoveSchool(id, from, _, change) =>
      if change.Some? && change.value.former.Some? { SchoolHistoryOf(r, id, Some(from), change.value.former.value, at.now, s); }
    case CloseSchool(id) =>
      if r.schools[id].slug.Some? { SchoolHistoryOf(r, id, None, r.schools[id].slug.value, at.now, s); }
  }

  lemma SchoolOpFollows(r: Register, op: Op, at: Moment, s: Id, first: Option<string>, start: Instant, changes: seq<Change>)
    requires Follows(r, ASchool(s), first, start, changes) && NamesCurrent(r, op) && ApplyOp(r, op, at).Ok?
    ensures Follows(ApplyOp(r, op, at).value, ASchool(s), first, start, changes + OpChanges(r, op, ASchool(s), at.now))
  {
    hide Owned, Recorded, Push, ApplyOp, NamesCurrent, Genuine, Current;
    assert changes + [] == changes;
    if op.RenameSchool? || op.MoveSchool? || op.CloseSchool? {
      hide OpChanges;
      SchoolOpLeaves(r, op, at, s);
      var made := OpChanges(r, op, ASchool(s), at.now);
      if made != [] {
        assert made == [made[0]];
        RecordedAppend(first, start, changes, made[0]);
        GenuineAppend(first, changes, made[0]);
      } else {
        assert changes + made == changes;
      }
    } else {
      OthersKeepSchool(r, op, at, s);
    }
  }

  lemma OpFollows(r: Register, op: Op, at: Moment, o: Owner, first: Option<string>, start: Instant, changes: seq<Change>)
    requires Follows(r, o, first, start, changes) && NamesCurrent(r, op) && ApplyOp(r, op, at).Ok?
    ensures Follows(ApplyOp(r, op, at).value, o, first, start, changes + OpChanges(r, op, o, at.now))
  {
    hide Follows, NamesCurrent, ApplyOp, OpChanges;
    match o
    case AMunicipality(m) => MunicipalityOpFollows(r, op, at, m, first, start, changes);
    case ASchool(s) => SchoolOpFollows(r, op, at, s, first, start, changes);
  }

  lemma {:induction false} AllFollow(r: Register, ops: seq<Op>, at: Moment, o: Owner,
                                     first: Option<string>, start: Instant, changes: seq<Change>)
    requires Follows(r, o, first, start, changes) && AllNameCurrent(r, ops, at) && ApplyAll(r, ops, at).Ok?
    ensures Follows(ApplyAll(r, ops, at).value, o, first, start, changes + AllChanges(r, ops, o, at))
    decreases |ops|
  {
    hide Follows, NamesCurrent, ApplyOp, OpChanges;
    if ops == [] {
      assert changes + [] == changes;
    } else {
      var before, last := ops[..|ops| - 1], ops[|ops| - 1];
      AllFollow(r, before, at, o, first, start, changes);
      var made := AllChanges(r, before, o, at);
      var now := ApplyAll(r, before, at).value;
      OpFollows(now, last, at, o, first, start, changes + made);
      assert changes + made + OpChanges(now, last, o, at.now) == changes + (made + OpChanges(now, last, o, at.now));
    }
  }

  lemma {:induction false} RunFollows(r: Register, plans: seq<Plan>, o: Owner, first: Option<string>, start: Instant)
    requires Follows(r, o, first, start, []) && PlansNameCurrent(r, plans)
    ensures Follows(Run(r, plans), o, first, start, RunChanges(r, plans, o))
  {
    hide Follows, AllNameCurrent, ApplyAll, AllChanges;
    if plans != [] {
      var before, last := plans[..|plans| - 1], plans[|plans| - 1];
      RunFollows(r, before, o, first, start);
      var changes := RunChanges(r, before, o);
      if ApplyAll(Run(r, before), last.ops, last.at).Ok? {
        AllFollow(Run(r, before), last.ops, last.at, o, first, start, changes);
      } else {
        assert changes + [] == changes;
      }
    }
  }

  predicate PlansRise(start: Instant, plans: seq<Plan>) {
    && (forall i :: 0 <= i < |plans| ==> start <= plans[i].at.now)
    && (forall i, j :: 0 <= i < j < |plans| ==> plans[i].at.now <= plans[j].at.now)
  }

  lemma {:induction false} ChangesAt(r: Register, ops: seq<Op>, o: Owner, at: Moment)
    ensures forall c :: c in AllChanges(r, ops, o, at) ==> c.at == at.now
    decreases |ops|
  {
    hide ApplyAll;
    if ops != [] {
      ChangesAt(r, ops[..|ops| - 1], o, at);
    }
  }

  lemma {:induction false} ChangesRise(r: Register, plans: seq<Plan>, o: Owner, start: Instant)
    requires PlansRise(start, plans)
    ensures ClockRises(start, RunChanges(r, plans, o))
    ensures plans != [] ==> forall i :: 0 <= i < |RunChanges(r, plans, o)| ==> RunChanges(r, plans, o)[i].at <= plans[|plans| - 1].at.now
  {
    hide ApplyAll, AllChanges;
    if plans != [] {
      var before, last := plans[..|plans| - 1], plans[|plans| - 1];
      ChangesRise(r, before, o, start);
      ChangesAt(Run(r, before), last.ops, o, last.at);
      var late := AllChanges(Run(r, before), last.ops, o, last.at);
      assert forall i :: 0 <= i < |late| ==> late[i] in late;
      if before != [] {
        assert before[|before| - 1].at.now <= last.at.now;
      }
    }
  }

  /** Before any plan of the run: an owner with no history yet, as one just created has none. */
  predicate Unrecorded(r: Register, o: Owner) { Exists(r, o) && FormerOf(r, o) == [] }

  /** The run's changes of the owner's slug rise, and leave its slug and history as recorded. */
  lemma RunRecords(r: Register, plans: seq<Plan>, o: Owner)
    requires Unrecorded(r, o) && PlansNameCurrent(r, plans) && PlansRise(StartOf(r, o), plans)
    ensures Follows(Run(r, plans), o, SlugOf(r, o), StartOf(r, o), RunChanges(r, plans, o))
    ensures ClockRises(StartOf(r, o), RunChanges(r, plans, o))
  {
    hide Run, RunChanges, PlansNameCurrent, PlansRise, ClockRises;
    RunFollows(r, plans, o, SlugOf(r, o), StartOf(r, o));
    ChangesRise(r, plans, o, StartOf(r, o));
  }

  /**
   With ops that name the current slug and a clock that does not step back, the history of a
   municipality or school never names another slug than the one live at an instant: every slug
   live before the last one was given up is in an interval that names it, and a slug live in no
   interval is the current one.
   */
  lemma HistoryNamesTheLiveSlug(r: Register, plans: seq<Plan>, o: Owner, t: Instant)
    requires Unrecorded(r, o) && PlansNameCurrent(r, plans) && PlansRise(StartOf(r, o), plans)
    requires StartOf(r, o) <= t && LiveAt(SlugOf(r, o), RunChanges(r, plans, o), t).Some?
    ensures var live := LiveAt(SlugOf(r, o), RunChanges(r, plans, o), t);
            var after := Run(r, plans);
            var rows := FormerOf(after, o);
            && Exists(after, o)
            && (forall i :: 0 <= i < |rows| && rows[i].Contains(t) ==> Some(rows[i].slug) == live)
            && (!Covers(rows, t) ==> live == SlugOf(after, o))
  {
    hide Run, RunChanges, Recorded, LiveAt, PlansNameCurrent, PlansRise, ClockRises, Covers, Genuine;
    RunRecords(r, plans, o);
    var changes := RunChanges(r, plans, o);
    assert FormerOf(Run(r, plans), o) == Recorded(SlugOf(r, o), StartOf(r, o), changes);
    HistoryIsTheTimeline(SlugOf(r, o), StartOf(r, o), changes, t);
  }

  lemma {:induction false} MunicipalitiesKeepASlug(r: Register, plans: seq<Plan>, m: Id)
    ensures NeverGivenUp(RunChanges(r, plans, AMunicipality(m)))
  {
    hide ApplyAll;
    if plans != [] {
      var last := plans[|plans| - 1];
      MunicipalitiesKeepASlug(r, plans[..|plans| - 1], m);
      OpsKeepASlug(Run(r, plans[..|plans| - 1]), last.ops, m, last.at);
    }
  }

  lemma {:induction false} OpsKeepASlug(r: Register, ops: seq<Op>, m: Id, at: Moment)
    ensures NeverGivenUp(AllChanges(r, ops, AMunicipality(m), at))
    decreases |ops|
  {
    hide ApplyAll;
    if ops != [] {
      OpsKeepASlug(r, ops[..|ops| - 1], m, at);
    }
  }

  lemma {:induction false} LiveIfNeverGivenUp(first: Option<string>, changes: seq<Change>, t: Instant)
    requires first.Some? && NeverGivenUp(changes)
    ensures LiveAt(first, changes, t).Some?
  {
    if changes != [] {
      LiveIfNeverGivenUp(first, changes[..|changes| - 1], t);
    }
  }

  /**
   A municipality always has a slug, so its whole history is true, and with its current slug
   says of every instant since its creation which slug was live.
   */
  lemma MunicipalityHistoryIsTrue(r: Register, plans: seq<Plan>, m: Id, t: Instant)
    requires Unrecorded(r, AMunicipality(m)) && PlansNameCurrent(r, plans)
    requires PlansRise(r.municipalities[m].created, plans) && r.municipalities[m].created <= t
    ensures var o := AMunicipality(m);
            var live := LiveAt(SlugOf(r, o), RunChanges(r, plans, o), t);
            var after := Run(r, plans);
            var rows := FormerOf(after, o);
            && live.Some? && m in after.municipalities
            && (forall i :: 0 <= i < |rows| && rows[i].Contains(t) ==> rows[i].slug == live.value)
            && (!Covers(rows, t) ==> live.value == after.municipalities[m].slug)
  {
    hide Run, RunChanges, LiveAt, PlansNameCurrent, PlansRise, Covers, NeverGivenUp, FormerOf;
    var o := AMunicipality(m);
    MunicipalitiesKeepASlug(r, plans, m);
    LiveIfNeverGivenUp(SlugOf(r, o), RunChanges(r, plans, o), t);
    HistoryNamesTheLiveSlug(r, plans, o, t);
  }

  /** Each interval of the owner's history names the slug that was live throughout it. */
  ghost predicate HistoryTrue(r: Register, o: Owner, first: Option<string>, changes: seq<Change>) {
    var rows := FormerOf(r, o);
    forall i, t :: 0 <= i < |rows| && rows[i].Contains(t) ==> LiveAt(first, changes, t) == Some(rows[i].slug)
  }

  /**
   A school's whole history is true if and only if every slug it has replaced or given up was
   got at once: at its creation or verification, or the moment the one before was given up. A
   closure gives its slug up, so a slug got after one is recorded from the closure on.
   */
  lemma SchoolHistoryIsTrueExactly(r: Register, plans: seq<Plan>, s: Id)
    requires Unrecorded(r, ASchool(s)) && PlansNameCurrent(r, plans) && PlansRise(r.schools[s].SlugStart(), plans)
    ensures var o := ASchool(s);
            var changes := RunChanges(r, plans, o);
            HistoryTrue(Run(r, plans), o, r.schools[s].slug, changes)
            <==> FormerGotAtOnce(r.schools[s].slug, r.schools[s].SlugStart(), changes)
  {
    hide Run, RunChanges, PlansNameCurrent, PlansRise, ClockRises, Recorded, FormerGotAtOnce, Genuine;
    var o := ASchool(s);
    RunRecords(r, plans, o);
    AllTrueExactly(r.schools[s].slug, r.schools[s].SlugStart(), RunChanges(r, plans, o));
  }

  predicate Closes(ops: seq<Op>, s: Id) { exists i :: 0 <= i < |ops| && ops[i] == CloseSchool(s) }

  lemma {:induction false} OpenOpsKeepASlug(r: Register, ops: seq<Op>, s: Id, at: Moment)
    requires !Closes(ops, s)
    ensures NeverGivenUp(AllChanges(r, ops, ASchool(s), at))
    decreases |ops|
  {
    hide ApplyAll;
    if ops != [] {
      OpenOpsKeepASlug(r, ops[..|ops| - 1], s, at);
    }
  }

  lemma {:induction false} OpenRunKeepsASlug(r: Register, plans: seq<Plan>, s: Id)
    requires forall i :: 0 <= i < |plans| ==> !Closes(plans[i].ops, s)
    ensures NeverGivenUp(RunChanges(r, plans, ASchool(s)))
  {
    hide ApplyAll, Closes;
    if plans != [] {
      var last := plans[|plans| - 1];
      OpenRunKeepsASlug(r, plans[..|plans| - 1], s);
      OpenOpsKeepASlug(Run(r, plans[..|plans| - 1]), last.ops, s, last.at);
    }
  }

  /**
   Of a school that is never closed: if and only if it had a slug at its creation or
   verification, or got its first one then, or has not changed it since.
   */
  lemma OpenSchoolHistoryIsTrueExactly(r: Register, plans: seq<Plan>, s: Id)
    requires Unrecorded(r, ASchool(s)) && PlansNameCurrent(r, plans) && PlansRise(r.schools[s].SlugStart(), plans)
    requires forall i :: 0 <= i < |plans| ==> !Closes(plans[i].ops, s)
    ensures var o := ASchool(s);
            var changes := RunChanges(r, plans, o);
            HistoryTrue(Run(r, plans), o, r.schools[s].slug, changes)
            <==> r.schools[s].slug.Some? || |changes| <= 1 || changes[0].at == r.schools[s].SlugStart()
  {
    hide Run, RunChanges, PlansNameCurrent, PlansRise, ClockRises, Recorded, Genuine, NeverGivenUp, Closes;
    var o := ASchool(s);
    RunRecords(r, plans, o);
    OpenRunKeepsASlug(r, plans, s);
    AllTrueUnlessGivenUp(r.schools[s].slug, r.schools[s].SlugStart(), RunChanges(r, plans, o));
  }

  /**
   A school's history does not say when it first got a slug: one without, that gets `x` at
   `got` and changes it at `lost`, is recorded as having had `x` since its creation or
   verification. The record is right exactly when it got its slug then.
   */
  lemma FirstSlugIsBackdated(r: Register, id: Id, x: string, y: string, got: Moment, lost: Moment)
    requires id in r.schools && r.schools[id].slug.None? && Owned(r.schoolSlugs, id) == []
    requires r.schools[id].municipality in r.municipalities && r.schools[id].SlugStart() <= got.now < lost.now
    requires !SchoolSlugTaken(r, id, r.schools[id].municipality, Some(x))
    requires !SchoolSlugTaken(r, id, r.schools[id].municipality, Some(y))
    requires !SlugKeyTaken(r.schoolSlugs, r.schools[id].municipality, x, r.schools[id].SlugStart())
    ensures var start := r.schools[id].SlugStart();
            var first := ApplyOp(r, RenameSchool(id, None, Some(SlugChange(None, x))), got);
            && first.Ok? && first.value.schools[id].slug == Some(x)
            && var second := ApplyOp(first.value, RenameSchool(id, None, Some(SlugChange(Some(x), y))), lost);
               && second.Ok? && Owned(second.value.schoolSlugs, id) == [Interval(x, start, lost.now)]
               && (Owned(second.value.schoolSlugs, id) == [Interval(x, got.now, lost.now)] <==> got.now == start)
  {
    hide WithHistory, Owned, SchoolSlugTaken;
    FirstRename(r, id, x, got);
    var first := ApplyOp(r, RenameSchool(id, None, Some(SlugChange(None, x))), got).value;
    NothingRecorded(r, id, x, lost.now);
    SecondRename(r, first, id, x, y, lost);
    var start := r.schools[id].SlugStart();
    assert [Interval(x, start, lost.now)][0].starts == start && [Interval(x, got.now, lost.now)][0].starts == got.now;
  }

  lemma FirstRename(r: Register, id: Id, x: string, got: Moment)
    requires id in r.schools && r.schools[id].municipality in r.municipalities
    requires !SchoolSlugTaken(r, id, r.schools[id].municipality, Some(x))
    ensures ApplyOp(r, RenameSchool(id, None, Some(SlugChange(None, x))), got)
         == Ok(r.(schools := r.schools[id := r.schools[id].(slug := Some(x))]))
  {
  }

  lemma NothingRecorded(r: Register, id: Id, x: string, now: Instant)
    requires id in r.schools && Owned(r.schoolSlugs, id) == [] && r.schools[id].SlugStart() < now
    requires !SlugKeyTaken(r.schoolSlugs, r.schools[id].municipality, x, r.schools[id].SlugStart())
    ensures var h := WithHistory(r.schoolSlugs, id, r.schools[id].municipality, r.schools[id].SlugStart(), x, now);
            h.Ok? && Owned(h.value, id) == [Interval(x, r.schools[id].SlugStart(), now)]
  {
    HistoryOf(r.schoolSlugs, id, r.schools[id].municipality, r.schools[id].SlugStart(), x, now, id);
    assert NextStart([], r.schools[id].SlugStart()) == r.schools[id].SlugStart();
  }

  lemma SecondRename(r: Register, first: Register, id: Id, x: string, y: string, lost: Moment)
    requires id in r.schools && first == r.(schools := r.schools[id := r.schools[id].(slug := Some(x))])
    requires r.schools[id].municipality in r.municipalities
    requires !SchoolSlugTaken(r, id, r.schools[id].municipality, Some(y))
    requires WithHistory(r.schoolSlugs, id, r.schools[id].municipality, r.schools[id].SlugStart(), x, lost.now).Ok?
    ensures var second := ApplyOp(first, RenameSchool(id, None, Some(SlugChange(Some(x), y))), lost);
            second.Ok? && second.value.schoolSlugs
                       == WithHistory(r.schoolSlugs, id, r.schools[id].municipality, r.schools[id].SlugStart(), x, lost.now).value
  {
    hide WithHistory;
  }
}
