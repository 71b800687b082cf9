/** How history shows a member: the roles held, the label for a day, and the current period. */
module History {
  import opened Base
  import opened Calendar
  import opened Access
  import opened Rows

  datatype RawHeldRole = RawHeldRole(name: string, capability: CapabilityClass, from: Day, until: Day) {
    predicate HeldOn(day: Day) { from <= day < until }
  }

  /** A role over the days it was actually held, at least one. */
  type HeldRole = r: RawHeldRole | r.from < r.until witness RawHeldRole("", Member, 0, 1)

  ghost predicate HeldOn(held: seq<HeldRole>, day: Day) {
    exists r :: r in held && r.HeldOn(day)
  }

  // The roles held

  function HeldOf(rows: seq<Assignment>): seq<HeldRole> {
    if rows == [] then []
    else
      var r := rows[|rows| - 1];
      HeldOf(rows[..|rows| - 1])
      + if r.Held() then [RawHeldRole(r.role, r.capability, r.period.starts, r.HeldUntil())] else []
  }

  /** Cuts each assignment at its revocation and keeps the non-empty spans, in the rows' order. */
  method HeldRoles(rows: seq<Assignment>) returns (held: seq<HeldRole>)
    ensures held == HeldOf(rows)
  {
    held := [];
    for i := 0 to |rows|
      invariant held == HeldOf(rows[..i])
    {
      var from := rows[i].period.starts;
      var until := rows[i].period.ends;
      if rows[i].revokedOn.Some? && rows[i].revokedOn.value < until {
        until := rows[i].revokedOn.value;
      }
      assert rows[..i + 1][..i] == rows[..i];
      if from < until {
        held := held + [RawHeldRole(rows[i].role, rows[i].capability, from, until)];
      }
    }
    assert rows[..|rows|] == rows;
  }

  /** A day is held exactly when an assignment ran on it and had not been revoked by then. */
  lemma {:induction false} HeldDays(rows: seq<Assignment>, day: Day)
    ensures HeldOn(HeldOf(rows), day)
       <==> exists a :: a in rows && a.period.Contains(day) && (a.Revoked() ==> day < a.revokedOn.value)
  {
    if rows != [] {
      var last := rows[|rows| - 1];
      var rest := rows[..|rows| - 1];
      assert rows == rest + [last];
      HeldDays(rest, day);
      if r :| r in HeldOf(rest) && r.HeldOn(day) {
        assert r in HeldOf(rows);
      } else if last.Held() && last.period.starts <= day < last.HeldUntil() {
        var r := RawHeldRole(last.role, last.capability, last.period.starts, last.HeldUntil());
        assert r in HeldOf(rows) && r.HeldOn(day);
      }
    }
  }

  /** Each role held is one assignment's, with its name and class, over its days up to a revocation; and each such is there. */
  lemma {:induction false} HeldRolesAreTheRows(rows: seq<Assignment>, r: HeldRole)
    ensures r in HeldOf(rows) <==>
              exists a :: a in rows && r.name == a.role && r.capability == a.capability && r.from == a.period.starts
                       && r.until == (if a.revokedOn.Some? && a.revokedOn.value < a.period.ends then a.revokedOn.value
                                      else a.period.ends)
  {
    if rows != [] {
      var last := rows[|rows| - 1];
      var rest := rows[..|rows| - 1];
      assert rows == rest + [last];
      HeldRolesAreTheRows(rest, r);
    }
  }

  // The label for a day

  datatype RoleLabel = RoleLabel(role: string, firstYear: int, lastYear: int)

  function ClassRank(c: CapabilityClass): int {
    match c
    case Admin => 0
    case Member => 1
    case Guest => 2
  }

  datatype Key = Key(first: int, second: int, third: int) {
    predicate Below(k: Key) {
      || first < k.first
      || (first == k.first && (second < k.second || (second == k.second && third < k.third)))
    }
  }

  /** Every role before its place has a greater key. */
  ghost predicate IsFirst(held: seq<HeldRole>, r: HeldRole, key: HeldRole -> Key) {
    exists i :: 0 <= i < |held| && held[i] == r && forall j :: 0 <= j < i ==> key(r).Below(key(held[j]))
  }

  /** The first of the roles with the least key. */
  function MinByKey(held: seq<HeldRole>, key: HeldRole -> Key): (r: Option<HeldRole>)
    ensures r.None? <==> held == []
    ensures r.Some? ==> r.value in held && forall x :: x in held ==> !key(x).Below(key(r.value))
    ensures r.Some? ==> IsFirst(held, r.value, key)
  {
    if held == [] then None
    else
      var rest := MinByKey(held[1..], key);
      if rest.Some? && key(rest.value).Below(key(held[0])) then
        LaterFirst(held, rest.value, key);
        rest
      else Some(held[0])
  }

  lemma LaterFirst(held: seq<HeldRole>, r: HeldRole, key: HeldRole -> Key)
    requires held != [] && IsFirst(held[1..], r, key) && key(r).Below(key(held[0]))
    ensures IsFirst(held, r, key)
  {
    var i :| 0 <= i < |held[1..]| && held[1..][i] == r && forall j :: 0 <= j < i ==> key(r).Below(key(held[1..][j]));
    assert held[i + 1] == r;
    forall j | 0 <= j < i + 1 ensures key(r).Below(key(held[j])) {
      if j > 0 { assert held[j] == held[1..][j - 1]; }
    }
  }

  function Filter(held: seq<HeldRole>, keep: HeldRole -> bool): (kept: seq<HeldRole>)
    ensures forall r :: r in kept <==> r in held && keep(r)
  {
    if held == [] then []
    else (if keep(held[0]) then [held[0]] else []) + Filter(held[1..], keep)
  }

  function Chosen(held: seq<HeldRole>, on: Day): Option<HeldRole> {
    var during := MinByKey(Filter(held, (r: HeldRole) => r.HeldOn(on)),
                           (r: HeldRole) => Key(ClassRank(r.capability), r.from, 0));
    if during.Some? then during
    else
      var after := MinByKey(Filter(held, (r: HeldRole) => r.until <= on),
                            (r: HeldRole) => Key(0 - (r.until as int), ClassRank(r.capability), r.from));
      if after.Some? then after
      else MinByKey(held, (r: HeldRole) => Key(r.from, ClassRank(r.capability), 0))
  }

  function LabelOf(r: HeldRole): RoleLabel {
    RoleLabel(r.name, YearOf(MonthOf(r.from)), YearOf(MonthOf(r.until - 1)))
  }

  /** The label for an event on `on`, `None` when no role was ever held. */
  function LabelFor(held: seq<HeldRole>, on: Day): Option<RoleLabel> {
    var chosen := Chosen(held, on);
    if chosen.Some? then Some(LabelOf(chosen.value)) else None
  }

  /** An administrator's role before a member's before a guest's. */
  predicate Outranks(a: CapabilityClass, b: CapabilityClass) { (a == Admin && b != Admin) || (a == Member && b == Guest) }

  /** The rule as the design states it: held that day before ended before not yet begun. */
  function Nearness(r: HeldRole, on: Day): int {
    if r.HeldOn(on) then 0 else if r.until <= on then 1 else 2
  }

  /** `a` is a better name than `b` for someone shown on `on`. */
  predicate Preferred(a: HeldRole, b: HeldRole, on: Day) {
    || Nearness(a, on) < Nearness(b, on)
    || (Nearness(a, on) == Nearness(b, on)
        && (match Nearness(a, on)
            case 0 => Outranks(a.capability, b.capability) || (a.capability == b.capability && a.from < b.from)
            case 1 => a.until > b.until
                      || (a.until == b.until
                          && (Outranks(a.capability, b.capability) || (a.capability == b.capability && a.from < b.from)))
            case _ => a.from < b.from || (a.from == b.from && Outranks(a.capability, b.capability))))
  }

  /** `y` is the calendar year of the day. */
  predicate InYear(day: Day, y: int) {
    FIRST_YEAR <= y && YearStart(y - FIRST_YEAR) <= day < YearStart(y - FIRST_YEAR + 1)
  }

  /** The label gives the role's name, the year it began, and the year of the last day it was held. */
  predicate Names(shown: RoleLabel, r: HeldRole) {
    shown.role == r.name && InYear(r.from, shown.firstYear) && InYear(r.until - 1, shown.lastYear)
  }

  lemma LabelNames(r: HeldRole)
    ensures Names(LabelOf(r), r)
  {
    YearOfDay(r.from);
    YearOfDay(r.until - 1);
  }

  lemma YearOfDay(day: Day)
    ensures InYear(day, YearOf(MonthOf(day)))
  {
    hide YearStart, MonthOf;
    var y := MonthOf(day) / 12;
    DayBeforeYear(day, y);
    DayBeforeYear(day, y + 1);
  }

  lemma FilterCons(held: seq<HeldRole>, keep: HeldRole -> bool)
    requires held != []
    ensures Filter(held, keep) == (if keep(held[0]) then [held[0]] else []) + Filter(held[1..], keep)
  {
  }

  /** Where the `k`th of those kept stands: what is kept before it is among the first `k`. */
  lemma {:induction false} PlaceOfKept(held: seq<HeldRole>, keep: HeldRole -> bool, k: nat) returns (p: nat)
    requires k < |Filter(held, keep)|
    ensures p < |held| && held[p] == Filter(held, keep)[k] && keep(held[p])
    ensures forall j :: 0 <= j < p && keep(held[j]) ==> held[j] in Filter(held, keep)[..k]
  {
    hide Filter;
    var kept := Filter(held, keep);
    assert kept[k] in held;
    var rest := Filter(held[1..], keep);
    FilterCons(held, keep);
    if keep(held[0]) && k == 0 {
      p := 0;
    } else {
      var n := if keep(held[0]) then k - 1 else k;
      var q := PlaceOfKept(held[1..], keep, n);
      p := q + 1;
      assert held[p] == rest[n] == kept[k];
      forall j | 0 <= j < p && keep(held[j]) ensures held[j] in kept[..k] {
        if j == 0 {
          assert kept[..k][0] == held[0];
        } else {
          assert held[1..][j - 1] in rest[..n];
          var x :| 0 <= x < n && rest[..n][x] == held[j];
          assert kept[..k][x + k - n] == held[j];
        }
      }
    }
  }

  /** The first least of those kept: every kept role before its place has a greater key. */
  lemma FirstOfKept(held: seq<HeldRole>, keep: HeldRole -> bool, key: HeldRole -> Key) returns (i: nat)
    requires Filter(held, keep) != []
    ensures i < |held| && MinByKey(Filter(held, keep), key) == Some(held[i]) && keep(held[i])
    ensures forall j :: 0 <= j < i && keep(held[j]) ==> key(held[i]).Below(key(held[j]))
  {
    hide Filter, MinByKey;
    var kept := Filter(held, keep);
    var k := FirstLeast(kept, key);
    i := PlaceOfKept(held, keep, k);
    forall j | 0 <= j < i && keep(held[j]) ensures key(held[i]).Below(key(held[j])) {
      var q :| 0 <= q < k && kept[..k][q] == held[j];
      assert kept[q] == held[j];
    }
  }

  /** Among equally good names the one that comes first is shown: every role before it is a worse one. */
  lemma ChosenIsFirst(held: seq<HeldRole>, on: Day) returns (i: nat)
    requires held != []
    ensures i < |held| && Chosen(held, on) == Some(held[i])
    ensures forall j :: 0 <= j < i ==> Preferred(held[i], held[j], on)
  {
    hide Filter, MinByKey;
    var isOn := (r: HeldRole) => r.HeldOn(on);
    var isOver := (r: HeldRole) => r.until <= on;
    var during := (r: HeldRole) => Key(ClassRank(r.capability), r.from, 0);
    var after := (r: HeldRole) => Key(0 - (r.until as int), ClassRank(r.capability), r.from);
    var before := (r: HeldRole) => Key(r.from, ClassRank(r.capability), 0);
    if Filter(held, isOn) != [] {
      i := FirstOfKept(held, isOn, during);
    } else if Filter(held, isOver) != [] {
      i := FirstOfKept(held, isOver, after);
      NoneKept(held, isOn);
    } else {
      NoneKept(held, isOn);
      NoneKept(held, isOver);
      i := FirstLeast(held, before);
    }
  }

  lemma NoneKept(held: seq<HeldRole>, keep: HeldRole -> bool)
    requires Filter(held, keep) == []
    ensures forall i :: 0 <= i < |held| ==> !keep(held[i])
    ensures forall key: HeldRole -> Key :: MinByKey(Filter(held, keep), key).None?
  {
    forall i | 0 <= i < |held| ensures !keep(held[i]) {
      assert held[i] in held && held[i] !in Filter(held, keep);
    }
  }

  lemma FirstLeast(held: seq<HeldRole>, key: HeldRole -> Key) returns (i: nat)
    requires held != []
    ensures i < |held| && MinByKey(held, key) == Some(held[i])
    ensures forall j :: 0 <= j < i ==> key(held[i]).Below(key(held[j]))
  {
    i :| 0 <= i < |held| && held[i] == MinByKey(held, key).value
         && forall j :: 0 <= j < i ==> key(held[i]).Below(key(held[j]));
  }

  /** The role shown is one that was held, and no held role is a better name for the day. */
  lemma ChosenIsBest(held: seq<HeldRole>, on: Day)
    ensures Chosen(held, on).None? <==> held == []
    ensures Chosen(held, on).Some? ==>
              Chosen(held, on).value in held
              && forall r :: r in held ==> !Preferred(r, Chosen(held, on).value, on)
  {
    var during := Filter(held, (r: HeldRole) => r.HeldOn(on));
    var after := Filter(held, (r: HeldRole) => r.until <= on);
    if held != [] { assert held[0] in held; }
    forall r | r in held
      ensures r.HeldOn(on) ==> r in during
      ensures r.until <= on ==> r in after
    {
    }
  }

  // The current period

  datatype Span = Span(from: Day, until: Day) {
    predicate Contains(day: Day) { from <= day < until }

    predicate AtMost(s: Span) { from < s.from || (from == s.from && until <= s.until) }
  }

  function SpansOf(held: seq<HeldRole>): (spans: seq<Span>)
    ensures |spans| == |held| && forall i :: 0 <= i < |held| ==> spans[i] == Span(held[i].from, held[i].until)
  {
    seq(|held|, i requires 0 <= i < |held| => Span(held[i].from, held[i].until))
  }

  function Insert(s: Span, spans: seq<Span>): (r: seq<Span>)
    ensures multiset(r) == multiset{s} + multiset(spans)
  {
    if spans == [] || s.AtMost(spans[0]) then [s] + spans
    else
      assert spans == [spans[0]] + spans[1..];
      [spans[0]] + Insert(s, spans[1..])
  }

  /** The standard library's sort. */
  function Sort(spans: seq<Span>): (r: seq<Span>)
    ensures multiset(r) == multiset(spans)
  {
    if spans == [] then []
    else
      assert spans == [spans[0]] + spans[1..];
      Insert(spans[0], Sort(spans[1..]))
  }

  predicate Ascending(spans: seq<Span>) {
    forall i, j :: 0 <= i <= j < |spans| ==> spans[i].AtMost(spans[j])
  }

  lemma {:induction false} InsertAscending(s: Span, spans: seq<Span>)
    requires Ascending(spans)
    ensures Ascending(Insert(s, spans))
  {
    if spans != [] && !s.AtMost(spans[0]) {
      InsertAscending(s, spans[1..]);
      var r := Insert(s, spans[1..]);
      forall x | x in r ensures spans[0].AtMost(x) {
        assert x in multiset(r);
        assert x == s || x in spans[1..];
      }
    }
  }

  lemma {:induction false} SortAscending(spans: seq<Span>)
    ensures Ascending(Sort(spans))
  {
    if spans != [] {
      SortAscending(spans[1..]);
      InsertAscending(spans[0], Sort(spans[1..]));
    }
  }

  datatype ActivePeriod = ActivePeriod(since: Day, earlier: seq<HeldRole>) {
    /** `None` for the name, or the role and year of an earlier period. */
    function LabelOn(on: Day): Option<RoleLabel> {
      if on >= since then None else LabelFor(earlier, on)
    }
  }

  /** The current period began on `since`: unbroken from then to today, and not the day before. */
  ghost predicate BeganOn(held: seq<HeldRole>, since: Day, today: Day) {
    if HeldOn(held, today) then
      && since <= today
      && (forall d: Day :: since <= d <= today ==> HeldOn(held, d))
      && (since > 0 ==> !HeldOn(held, since - 1))
    else since == today
  }

  /** Non-empty runs with at least a day between one and the next. */
  predicate Apart(runs: seq<Span>) {
    && (forall i :: 0 <= i < |runs| ==> runs[i].from < runs[i].until)
    && (forall i, j :: 0 <= i < j < |runs| ==> runs[i].until < runs[j].from)
  }

  ghost predicate Covered(spans: seq<Span>, day: Day) {
    exists s :: s in spans && s.Contains(day)
  }

  function Merged(run: Span, s: Span): Span {
    Span(run.from, Max(run.until, s.until))
  }

  /** Merging a span that touches or overlaps the last run covers the same days. */
  lemma MergeCovers(runs: seq<Span>, s: Span, day: Day)
    requires |runs| > 0 && runs[|runs| - 1].from <= s.from <= runs[|runs| - 1].until && s.from < s.until
    ensures Covered(runs[..|runs| - 1] + [Merged(runs[|runs| - 1], s)], day) <==> Covered(runs, day) || s.Contains(day)
  {
    var rest, last := runs[..|runs| - 1], runs[|runs| - 1];
    assert runs == rest + [last];
    PushCovers(rest, last, day);
    PushCovers(rest, Merged(last, s), day);
  }

  lemma PushCovers(runs: seq<Span>, s: Span, day: Day)
    ensures Covered(runs + [s], day) <==> Covered(runs, day) || s.Contains(day)
  {
    assert s in runs + [s];
    if Covered(runs, day) {
      var r :| r in runs && r.Contains(day);
      assert r in runs + [s];
    }
  }

  /** The runs once a span that starts no earlier than their last is added. */
  function Extended(runs: seq<Span>, s: Span): seq<Span> {
    if runs != [] && s.from <= runs[|runs| - 1].until then runs[..|runs| - 1] + [Merged(runs[|runs| - 1], s)]
    else runs + [s]
  }

  lemma ExtendedIs(runs: seq<Span>, s: Span)
    ensures runs != [] && s.from <= runs[|runs| - 1].until ==>
              Extended(runs, s) == runs[..|runs| - 1] + [Merged(runs[|runs| - 1], s)]
    ensures !(runs != [] && s.from <= runs[|runs| - 1].until) ==> Extended(runs, s) == runs + [s]
  {
  }

  lemma ExtendedIsApart(runs: seq<Span>, s: Span)
    requires Apart(runs) && s.from < s.until && (runs != [] ==> runs[|runs| - 1].from <= s.from)
    ensures Apart(Extended(runs, s)) && Extended(runs, s) != []
    ensures Extended(runs, s)[|Extended(runs, s)| - 1].from <= s.from
  {
  }

  lemma ExtendedCovers(runs: seq<Span>, s: Span, day: Day)
    requires s.from < s.until && (runs != [] ==> runs[|runs| - 1].from <= s.from)
    ensures Covered(Extended(runs, s), day) <==> Covered(runs, day) || s.Contains(day)
  {
    hide Covered;
    if runs != [] && s.from <= runs[|runs| - 1].until {
      MergeCovers(runs, s, day);
    } else {
      PushCovers(runs, s, day);
    }
  }

  lemma SortedSpans(held: seq<HeldRole>, spans: seq<Span>)
    requires spans == Sort(SpansOf(held))
    ensures forall s :: s in spans <==> s in SpansOf(held)
    ensures forall i :: 0 <= i < |spans| ==> spans[i].from < spans[i].until
    ensures forall i, j :: 0 <= i < j < |spans| ==> spans[i].from <= spans[j].from
  {
    SortAscending(SpansOf(held));
    forall s ensures s in spans <==> s in SpansOf(held) {
      assert s in multiset(spans) <==> s in multiset(SpansOf(held));
    }
    assert forall i :: 0 <= i < |spans| ==> spans[i] in SpansOf(held);
  }

  /** Sorting and merging: runs of touching or overlapping spans, covering exactly the same days. */
  method MergeRuns(held: seq<HeldRole>) returns (runs: seq<Span>)
    ensures Apart(runs)
    ensures forall day: Day :: Covered(runs, day) <==> HeldOn(held, day)
  {
    hide Apart, Covered, HeldOn, SpansOf, Ascending, Extended;
    var spans := Sort(SpansOf(held));
    SortedSpans(held, spans);
    runs := [];
    NothingCovered();
    for i := 0 to |spans|
      invariant Apart(runs)
      invariant runs != [] ==> i > 0 && runs[|runs| - 1].from <= spans[i - 1].from
      invariant forall day: Day :: Covered(runs, day) <==> Covered(spans[..i], day)
    {
      var s := spans[i];
      ghost var after := Extended(runs, s);
      ExtendedIsApart(runs, s);
      ExtendedIs(runs, s);
      assert spans[..i + 1] == spans[..i] + [s];
      forall day: Day ensures Covered(after, day) <==> Covered(spans[..i + 1], day) {
        ExtendedCovers(runs, s, day);
        PushCovers(spans[..i], s, day);
      }
      if runs != [] && s.from <= runs[|runs| - 1].until {
        var last := runs[|runs| - 1];
        runs := runs[..|runs| - 1] + [Merged(last, s)];
      } else {
        runs := runs + [s];
      }
      assert runs == after;
    }
    assert spans[..|spans|] == spans;
    forall day: Day ensures Covered(spans, day) <==> HeldOn(held, day) { SpansCover(held, spans, day); }
  }

  lemma NothingCovered()
    ensures Apart([]) && forall day: Day :: !Covered([], day)
  {
  }

  lemma SpansCover(held: seq<HeldRole>, spans: seq<Span>, day: Day)
    requires forall s :: s in spans <==> s in SpansOf(held)
    ensures Covered(spans, day) <==> HeldOn(held, day)
  {
    if s :| s in spans && s.Contains(day) {
      var i :| 0 <= i < |held| && SpansOf(held)[i] == s;
      assert held[i] in held && held[i].HeldOn(day);
    }
    if r :| r in held && r.HeldOn(day) {
      var i :| 0 <= i < |held| && held[i] == r;
      assert SpansOf(held)[i] in spans && SpansOf(held)[i].Contains(day);
    }
  }

  /** Splits an active member's roles at the period that contains today. */
  method CurrentPeriod(held: seq<HeldRole>, today: Day) returns (p: ActivePeriod)
    ensures BeganOn(held, p.since, today)
    ensures p.earlier == Filter(held, (r: HeldRole) => r.from < p.since)
  {
    var runs := MergeRuns(held);
    for i := 0 to |runs|
      invariant forall j :: 0 <= j < i ==> !runs[j].Contains(today)
    {
      if runs[i].Contains(today) {
        var start := runs[i].from;
        p := ActivePeriod(start, Filter(held, (r: HeldRole) => r.until < start));
        RunBegan(held, runs, i, today);
        EndedBeforeStart(held, start, today);
        return;
      }
    }
    p := ActivePeriod(today, Filter(held, (r: HeldRole) => r.until <= today));
    assert !Covered(runs, today);
    EndedBeforeGap(held, today);
  }

  lemma RunBegan(held: seq<HeldRole>, runs: seq<Span>, i: nat, today: Day)
    requires Apart(runs) && i < |runs| && runs[i].Contains(today)
    requires forall day: Day :: Covered(runs, day) <==> HeldOn(held, day)
    ensures HeldOn(held, today) && BeganOn(held, runs[i].from, today)
  {
    var start := runs[i].from;
    forall d: Day | start <= d <= today ensures HeldOn(held, d) {
      assert runs[i] in runs && runs[i].Contains(d);
    }
    if start > 0 {
      forall k | 0 <= k < |runs| ensures !runs[k].Contains(start - 1) {}
      assert !Covered(runs, start - 1);
    }
  }

  lemma {:induction false} SameFilter(held: seq<HeldRole>, f: HeldRole -> bool, g: HeldRole -> bool)
    requires forall r :: r in held ==> f(r) == g(r)
    ensures Filter(held, f) == Filter(held, g)
  {
    if held != [] {
      SameFilter(held[1..], f, g);
      assert held[0] in held;
    }
  }

  lemma NotHeldOn(held: seq<HeldRole>, day: Day, r: HeldRole)
    requires !HeldOn(held, day) && r in held
    ensures day < r.from || r.until <= day
  {
    assert !r.HeldOn(day);
  }

  lemma EndedBeforeStart(held: seq<HeldRole>, start: Day, today: Day)
    requires HeldOn(held, today) && BeganOn(held, start, today)
    ensures Filter(held, (r: HeldRole) => r.until < start) == Filter(held, (r: HeldRole) => r.from < start)
  {
    forall r | r in held ensures r.until < start <==> r.from < start {
      if start > 0 { NotHeldOn(held, start - 1, r); }
    }
    SameFilter(held, (r: HeldRole) => r.until < start, (r: HeldRole) => r.from < start);
  }

  lemma EndedBeforeGap(held: seq<HeldRole>, today: Day)
    requires !HeldOn(held, today)
    ensures Filter(held, (r: HeldRole) => r.until <= today) == Filter(held, (r: HeldRole) => r.from < today)
  {
    forall r | r in held ensures r.until <= today <==> r.from < today {
      assert !r.HeldOn(today);
    }
    SameFilter(held, (r: HeldRole) => r.until <= today, (r: HeldRole) => r.from < today);
  }

  /** The current period's start is determined: it is the least day held without a break to today. */
  lemma PeriodStartIsLeast(held: seq<HeldRole>, since: Day, today: Day, other: Day)
    requires HeldOn(held, today) && BeganOn(held, since, today)
    requires other <= today && forall d: Day :: other <= d <= today ==> HeldOn(held, d)
    ensures since <= other
  {
    if since > 0 { assert !HeldOn(held, since - 1); }
  }

  /** What `CurrentPeriod` promises of its result. */
  ghost predicate SplitAtPeriod(p: ActivePeriod, held: seq<HeldRole>, today: Day) {
    BeganOn(held, p.since, today) && p.earlier == Filter(held, (r: HeldRole) => r.from < p.since)
  }

  /**
   Every role is in an earlier period or begins in the current one, never both; an earlier role
   was over when the current period began, with a day between when today is held.
   */
  lemma EachRoleOnOneSide(p: ActivePeriod, held: seq<HeldRole>, today: Day, r: HeldRole)
    requires SplitAtPeriod(p, held, today) && r in held
    ensures r in p.earlier <==> r.from < p.since
    ensures r in p.earlier ==> r.until <= p.since && (HeldOn(held, today) ==> r.until < p.since)
  {
    if HeldOn(held, today) {
      if p.since > 0 { NotHeldOn(held, p.since - 1, r); }
    } else {
      NotHeldOn(held, today, r);
    }
  }

  /**
   A returner is named for the current period and only for it: an event in it shows the name,
   and an earlier one shows the best-fitting role of an earlier period, never a current one.
   */
  lemma ReturnerIsNamedOnlyNow(p: ActivePeriod, held: seq<HeldRole>, today: Day, on: Day)
    requires SplitAtPeriod(p, held, today)
    ensures on >= p.since ==> p.LabelOn(on).None?
    ensures on < p.since ==>
              (p.LabelOn(on).None? <==> forall r :: r in held ==> r.from >= p.since)
    ensures p.LabelOn(on).Some? ==>
              exists r :: r in held && r.from < p.since && Names(p.LabelOn(on).value, r)
                       && forall x :: x in held && x.from < p.since ==> !Preferred(x, r, on)
  {
    hide LabelOf, Names;
    ChosenIsBest(p.earlier, on);
    if p.LabelOn(on).Some? { LabelNames(Chosen(p.earlier, on).value); }
    if p.earlier != [] { assert p.earlier[0] in p.earlier; }
  }
}
