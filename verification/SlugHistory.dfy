/** How one owner's former slugs are kept: intervals chained end to start. */
module SlugHistory {
  import opened Base

  type Instant = int

  datatype Interval = Interval(slug: string, starts: Instant, ends: Instant) {
    predicate Contains(t: Instant) { starts <= t < ends }
  }

  function LatestEnd(rows: seq<Interval>): Option<Instant> {
    if rows == [] then None
    else
      match LatestEnd(rows[..|rows| - 1])
      case None => Some(rows[|rows| - 1].ends)
      case Some(e) => Some(Max(e, rows[|rows| - 1].ends))
  }

  /** Where the next interval would start: the last end, or else the owner's own start. */
  function NextStart(rows: seq<Interval>, start: Instant): Instant {
    match LatestEnd(rows)
    case Some(e) => e
    case None => start
  }

  /** Moves `slug` into history up to `now`, unless nobody can have seen it live. */
  function Push(rows: seq<Interval>, start: Instant, slug: string, now: Instant): seq<Interval> {
    if NextStart(rows, start) < now then rows + [Interval(slug, NextStart(rows, start), now)] else rows
  }

  /** Non-empty intervals, each starting where the one before it ends, the first at `start`. */
  predicate Chained(rows: seq<Interval>, start: Instant) {
    && (forall i :: 0 <= i < |rows| ==> rows[i].starts < rows[i].ends)
    && (rows != [] ==> rows[0].starts == start)
    && (forall i :: 0 <= i < |rows| - 1 ==> rows[i].ends == rows[i + 1].starts)
  }

  lemma {:induction false} ChainEnds(rows: seq<Interval>, start: Instant)
    requires Chained(rows, start)
    ensures rows != [] ==> LatestEnd(rows) == Some(rows[|rows| - 1].ends)
    ensures NextStart(rows, start) == if rows == [] then start else rows[|rows| - 1].ends
  {
    if |rows| > 1 {
      var init := rows[..|rows| - 1];
      assert Chained(init, start);
      ChainEnds(init, start);
    } else if |rows| == 1 {
      assert LatestEnd(rows[..0]) == None;
    }
  }

  /** Whatever the clock does, stepping back included, moving a slug into history keeps the chain. */
  lemma PushKeepsChain(rows: seq<Interval>, start: Instant, slug: string, now: Instant)
    requires Chained(rows, start)
    ensures Chained(Push(rows, start, slug, now), start)
  {
    ChainEnds(rows, start);
  }

  predicate Covers(rows: seq<Interval>, t: Instant) { exists i :: 0 <= i < |rows| && rows[i].Contains(t) }

  /** The intervals of a chain are disjoint, in order. */
  lemma {:induction false} ChainIsDisjoint(rows: seq<Interval>, start: Instant)
    requires Chained(rows, start)
    ensures forall i, j :: 0 <= i < j < |rows| ==> rows[i].ends <= rows[j].starts
    ensures forall i :: 0 <= i < |rows| ==> rows[i].ends <= NextStart(rows, start)
  {
    ChainEnds(rows, start);
    if rows != [] {
      var init := rows[..|rows| - 1];
      assert Chained(init, start);
      ChainIsDisjoint(init, start);
      ChainEnds(init, start);
    }
  }

  /** And cover every instant from the start to the last end. */
  lemma {:induction false} ChainCovers(rows: seq<Interval>, start: Instant, t: Instant)
    requires Chained(rows, start)
    ensures Covers(rows, t) <==> start <= t < NextStart(rows, start)
  {
    ChainEnds(rows, start);
    if rows != [] {
      var init := rows[..|rows| - 1];
      var last := rows[|rows| - 1];
      assert Chained(init, start);
      ChainCovers(init, start, t);
      ChainEnds(init, start);
      assert Covers(rows, t) <==> Covers(init, t) || last.Contains(t) by {
        if i :| 0 <= i < |init| && init[i].Contains(t) {
          assert rows[i].Contains(t);
        }
      }
      ChainIsDisjoint(rows, start);
    }
  }

  // The history as a timeline

  /** From `at` on the owner has `slug`, or none. */
  datatype Change = Change(at: Instant, slug: Option<string>)

  /** The slug live at `t`, by the last change not after it; `first` from the start on. */
  function LiveAt(first: Option<string>, changes: seq<Change>, t: Instant): Option<string> {
    if changes == [] then first
    else if changes[|changes| - 1].at <= t then changes[|changes| - 1].slug
    else LiveAt(first, changes[..|changes| - 1], t)
  }

  function Current(first: Option<string>, changes: seq<Change>): Option<string> {
    if changes == [] then first else changes[|changes| - 1].slug
  }

  /** The history a run of changes leaves, each moving the slug that was current, if there was one. */
  function Recorded(first: Option<string>, start: Instant, changes: seq<Change>): seq<Interval> {
    if changes == [] then []
    else
      var before := changes[..|changes| - 1];
      match Current(first, before)
      case None => Recorded(first, start, before)
      case Some(slug) => Push(Recorded(first, start, before), start, slug, changes[|changes| - 1].at)
  }

  lemma {:induction false} RecordedIsChained(first: Option<string>, start: Instant, changes: seq<Change>)
    ensures Chained(Recorded(first, start, changes), start)
  {
    if changes != [] {
      var before := changes[..|changes| - 1];
      RecordedIsChained(first, start, before);
      match Current(first, before)
      case None =>
      case Some(slug) => PushKeepsChain(Recorded(first, start, before), start, slug, changes[|changes| - 1].at);
    }
  }

  lemma RecordedAppend(first: Option<string>, start: Instant, changes: seq<Change>, c: Change)
    ensures Recorded(first, start, changes + [c]) ==
            match Current(first, changes)
            case None => Recorded(first, start, changes)
            case Some(slug) => Push(Recorded(first, start, changes), start, slug, c.at)
  {
    assert (changes + [c])[..|changes|] == changes;
  }

  // Which changes are recorded, whatever the clock does

  /** The latest instant at which a slug was given up, or the start. */
  function HighWater(first: Option<string>, start: Instant, changes: seq<Change>): Instant {
    if changes == [] then start
    else
      var before := changes[..|changes| - 1];
      var mark := HighWater(first, start, before);
      if Current(first, before).Some? then Max(mark, changes[|changes| - 1].at) else mark
  }

  lemma {:induction false} HistoryReachesHighWater(first: Option<string>, start: Instant, changes: seq<Change>)
    ensures NextStart(Recorded(first, start, changes), start) == HighWater(first, start, changes)
  {
    RecordedIsChained(first, start, changes);
    ChainEnds(Recorded(first, start, changes), start);
    if changes != [] {
      var before := changes[..|changes| - 1];
      HistoryReachesHighWater(first, start, before);
      RecordedIsChained(first, start, before);
      ChainEnds(Recorded(first, start, before), start);
    }
  }

  /**
   After every history, the slug a change replaces is recorded if and only if the change comes
   after every instant a slug was given up before; otherwise the history stays as it is.
   */
  lemma ReplacedSlugIsRecordedExactly(first: Option<string>, start: Instant, changes: seq<Change>, c: Change, slug: string)
    requires Current(first, changes) == Some(slug)
    ensures var rows := Recorded(first, start, changes);
            var mark := HighWater(first, start, changes);
            && (Recorded(first, start, changes + [c]) == rows + [Interval(slug, mark, c.at)] <==> mark < c.at)
            && (Recorded(first, start, changes + [c]) == rows <==> c.at <= mark)
  {
    RecordedAppend(first, start, changes, c);
    HistoryReachesHighWater(first, start, changes);
    var rows := Recorded(first, start, changes);
    assert |rows + [Interval(slug, HighWater(first, start, changes), c.at)]| == |rows| + 1;
  }

  /** With a clock that steps back, a slug that was live is missing from the history. */
  lemma SteppingBackLosesASlug()
    ensures var changes := [Change(10, Some("b"))];
            var c := Change(5, Some("c"));
            && HighWater(Some("a"), 0, changes) == 10 && Current(Some("a"), changes) == Some("b")
            && Recorded(Some("a"), 0, changes + [c]) == Recorded(Some("a"), 0, changes)
  {
    var changes := [Change(10, Some("b"))];
    assert changes[..0] == [];
    ReplacedSlugIsRecordedExactly(Some("a"), 0, changes, Change(5, Some("c")), "b");
  }

  // What the history says, with a clock that does not step back

  predicate ClockRises(start: Instant, changes: seq<Change>) {
    && (forall i :: 0 <= i < |changes| ==> start <= changes[i].at)
    && (forall i, j :: 0 <= i < j < |changes| ==> changes[i].at <= changes[j].at)
  }

  function LastChange(start: Instant, changes: seq<Change>): Instant {
    if changes == [] then start else changes[|changes| - 1].at
  }

  lemma {:induction false} HighWaterRises(first: Option<string>, start: Instant, changes: seq<Change>)
    requires ClockRises(start, changes)
    ensures start <= HighWater(first, start, changes) <= LastChange(start, changes)
  {
    if changes != [] {
      HighWaterRises(first, start, changes[..|changes| - 1]);
    }
  }

  /** No interval contains an instant with another slug: what is recorded later is current now. */
  lemma {:induction false} NeverAnotherSlug(first: Option<string>, start: Instant, changes: seq<Change>, t: Instant)
    requires ClockRises(start, changes) && LiveAt(first, changes, t).Some?
    ensures var rows := Recorded(first, start, changes);
            && (forall i :: 0 <= i < |rows| && rows[i].Contains(t) ==> rows[i].slug == LiveAt(first, changes, t).value)
            && (HighWater(first, start, changes) <= t ==> LiveAt(first, changes, t) == Current(first, changes))
  {
    if changes != [] {
      var before, last := changes[..|changes| - 1], changes[|changes| - 1];
      var rows, was := Recorded(first, start, changes), Recorded(first, start, before);
      HighWaterRises(first, start, before);
      EndsByHighWater(first, start, changes);
      EndsByHighWater(first, start, before);
      HighWaterRises(first, start, changes);
      if t < last.at {
        NeverAnotherSlug(first, start, before, t);
        HistoryReachesHighWater(first, start, before);
        assert forall i :: 0 <= i < |was| ==> rows[i] == was[i];
      }
    }
  }

  lemma EndsByHighWater(first: Option<string>, start: Instant, changes: seq<Change>)
    ensures var rows := Recorded(first, start, changes);
            forall i :: 0 <= i < |rows| ==> rows[i].ends <= HighWater(first, start, changes)
  {
    RecordedIsChained(first, start, changes);
    ChainIsDisjoint(Recorded(first, start, changes), start);
    HistoryReachesHighWater(first, start, changes);
  }

  /**
   Every instant at which there was a slug before the last one was given up is in an interval,
   which names that slug; at any later instant the slug, if there is one, is the current one.
   */
  lemma HistoryIsTheTimeline(first: Option<string>, start: Instant, changes: seq<Change>, t: Instant)
    requires ClockRises(start, changes) && start <= t && LiveAt(first, changes, t).Some?
    ensures var rows := Recorded(first, start, changes);
            && (t < HighWater(first, start, changes) <==> Covers(rows, t))
            && (forall i :: 0 <= i < |rows| && rows[i].Contains(t) ==> Some(rows[i].slug) == LiveAt(first, changes, t))
            && (!Covers(rows, t) ==> LiveAt(first, changes, t) == Current(first, changes))
  {
    NeverAnotherSlug(first, start, changes, t);
    RecordedIsChained(first, start, changes);
    ChainCovers(Recorded(first, start, changes), start, t);
    HistoryReachesHighWater(first, start, changes);
  }

  // When all of the history is true

  /** Every change from no slug gives one: nothing is given up twice. */
  predicate Genuine(first: Option<string>, changes: seq<Change>) {
    changes == [] ||
    var before := changes[..|changes| - 1];
    Genuine(first, before) && (Current(first, before).None? ==> changes[|changes| - 1].slug.Some?)
  }

  /** Every slug got where there was none is got at once: at the start, or when the one before was given up. */
  predicate GotAtOnce(first: Option<string>, start: Instant, changes: seq<Change>) {
    changes == [] ||
    var before := changes[..|changes| - 1];
    GotAtOnce(first, start, before) && (Current(first, before).None? ==> changes[|changes| - 1].at == LastChange(start, before))
  }

  /** So is every slug that has been replaced or given up since: the last change is not asked about. */
  predicate FormerGotAtOnce(first: Option<string>, start: Instant, changes: seq<Change>) {
    changes == [] || GotAtOnce(first, start, changes[..|changes| - 1])
  }

  /** Each interval names the slug that was live throughout it. */
  ghost predicate AllTrue(first: Option<string>, start: Instant, changes: seq<Change>) {
    var rows := Recorded(first, start, changes);
    forall i, t :: 0 <= i < |rows| && rows[i].Contains(t) ==> LiveAt(first, changes, t) == Some(rows[i].slug)
  }

  /** There was a slug at every instant from `start` to before `end`. */
  ghost predicate LiveThrough(first: Option<string>, changes: seq<Change>, start: Instant, end: Instant) {
    forall t :: start <= t < end ==> LiveAt(first, changes, t).Some?
  }

  /** Intervals never name another slug, so they can only be wrong where there was none. */
  lemma AllTrueIsLiveThrough(first: Option<string>, start: Instant, changes: seq<Change>)
    requires ClockRises(start, changes)
    ensures AllTrue(first, start, changes) <==> LiveThrough(first, changes, start, HighWater(first, start, changes))
  {
    var rows := Recorded(first, start, changes);
    var end := HighWater(first, start, changes);
    RecordedIsChained(first, start, changes);
    HistoryReachesHighWater(first, start, changes);
    if AllTrue(first, start, changes) {
      forall t | start <= t < end ensures LiveAt(first, changes, t).Some? {
        ChainCovers(rows, start, t);
      }
    }
    if LiveThrough(first, changes, start, end) {
      forall i, t | 0 <= i < |rows| && rows[i].Contains(t) ensures LiveAt(first, changes, t) == Some(rows[i].slug) {
        ChainCovers(rows, start, t);
        NeverAnotherSlug(first, start, changes, t);
      }
    }
  }

  lemma LiveBeforeLast(first: Option<string>, changes: seq<Change>, start: Instant, end: Instant)
    requires changes != [] && end <= changes[|changes| - 1].at
    ensures LiveThrough(first, changes, start, end) <==> LiveThrough(first, changes[..|changes| - 1], start, end)
  {
    var before := changes[..|changes| - 1];
    assert forall t :: t < end ==> LiveAt(first, changes, t) == LiveAt(first, before, t);
  }

  lemma LiveIsCurrent(first: Option<string>, changes: seq<Change>, t: Instant)
    requires changes != [] ==> changes[|changes| - 1].at <= t
    ensures LiveAt(first, changes, t) == Current(first, changes)
  {
  }

  /** From the last change on the current slug is live. */
  lemma LiveFromLast(first: Option<string>, changes: seq<Change>, start: Instant, end: Instant)
    requires Current(first, changes).Some? && LastChange(start, changes) <= end
    requires changes != [] ==> start <= LastChange(start, changes)
    ensures LiveThrough(first, changes, start, end) <==> LiveThrough(first, changes, start, LastChange(start, changes))
  {
    forall t | LastChange(start, changes) <= t ensures LiveAt(first, changes, t).Some? {
      LiveIsCurrent(first, changes, t);
    }
  }

  /** From the last change on there is none. */
  lemma NoneFromLast(first: Option<string>, changes: seq<Change>, start: Instant, end: Instant)
    requires Current(first, changes).None? && start <= LastChange(start, changes) <= end
    ensures LiveThrough(first, changes, start, end)
            <==> LiveThrough(first, changes, start, LastChange(start, changes)) && end == LastChange(start, changes)
  {
    LiveIsCurrent(first, changes, LastChange(start, changes));
  }

  /** After a slug was given up for none, the mark is the last change. */
  lemma HighWaterWithout(first: Option<string>, start: Instant, changes: seq<Change>)
    requires ClockRises(start, changes) && Genuine(first, changes) && Current(first, changes).None?
    ensures HighWater(first, start, changes) == LastChange(start, changes)
  {
    if changes != [] {
      HighWaterRises(first, start, changes[..|changes| - 1]);
    }
  }

  /** A slug replaced or given up moves the mark to its own change. */
  lemma HighWaterWith(first: Option<string>, start: Instant, changes: seq<Change>)
    requires changes != [] && ClockRises(start, changes) && Current(first, changes[..|changes| - 1]).Some?
    ensures HighWater(first, start, changes) == LastChange(start, changes)
  {
    HighWaterRises(first, start, changes[..|changes| - 1]);
  }

  /** There was a slug up to the last change if and only if each slug was got at once. */
  lemma {:induction false} LiveToLastExactly(first: Option<string>, start: Instant, changes: seq<Change>)
    requires ClockRises(start, changes) && Genuine(first, changes)
    ensures LiveThrough(first, changes, start, LastChange(start, changes)) <==> GotAtOnce(first, start, changes)
  {
    hide LiveThrough, HighWater;
    if changes == [] {
      NothingThrough(first, start);
    } else {
      var before, last := changes[..|changes| - 1], changes[|changes| - 1];
      assert LastChange(start, before) <= last.at;
      LiveToLastExactly(first, start, before);
      LiveBeforeLast(first, changes, start, last.at);
      if Current(first, before).Some? {
        LiveFromLast(first, before, start, last.at);
      } else {
        NoneFromLast(first, before, start, last.at);
      }
    }
  }

  lemma NothingThrough(first: Option<string>, start: Instant)
    ensures LiveThrough(first, [], start, start)
  {
  }

  /**
   All of the history is true if and only if every slug that has been replaced or given up was
   got at once: at the start, or the moment the one before it was given up.
   */
  lemma AllTrueExactly(first: Option<string>, start: Instant, changes: seq<Change>)
    requires ClockRises(start, changes) && Genuine(first, changes)
    ensures AllTrue(first, start, changes) <==> FormerGotAtOnce(first, start, changes)
  {
    hide AllTrue, LiveThrough, HighWater, GotAtOnce;
    AllTrueIsLiveThrough(first, start, changes);
    if changes == [] {
      HighWaterStarts(first, start);
      NothingThrough(first, start);
    } else {
      var before, last := changes[..|changes| - 1], changes[|changes| - 1];
      assert LastChange(start, before) <= last.at;
      LiveToLastExactly(first, start, before);
      if Current(first, before).Some? {
        HighWaterWith(first, start, changes);
        LiveBeforeLast(first, changes, start, last.at);
        LiveFromLast(first, before, start, last.at);
      } else {
        HighWaterStays(first, start, changes);
        HighWaterWithout(first, start, before);
        LiveBeforeLast(first, changes, start, LastChange(start, before));
      }
    }
  }

  lemma HighWaterStarts(first: Option<string>, start: Instant)
    ensures HighWater(first, start, []) == start
  {
  }

  lemma HighWaterStays(first: Option<string>, start: Instant, changes: seq<Change>)
    requires changes != [] && Current(first, changes[..|changes| - 1]).None?
    ensures HighWater(first, start, changes) == HighWater(first, start, changes[..|changes| - 1])
  {
  }

  predicate NeverGivenUp(changes: seq<Change>) { forall k :: 0 <= k < |changes| ==> changes[k].slug.Some? }

  lemma {:induction false} FirstGotAtOnce(first: Option<string>, start: Instant, changes: seq<Change>)
    requires NeverGivenUp(changes)
    ensures Genuine(first, changes)
    ensures GotAtOnce(first, start, changes) <==> first.Some? || changes == [] || changes[0].at == start
  {
    if changes != [] {
      FirstGotAtOnce(first, start, changes[..|changes| - 1]);
    }
  }

  /**
   For an owner that never goes from a slug to none: it had a slug from the start, or got its
   first one then, or has not changed it since.
   */
  lemma AllTrueUnlessGivenUp(first: Option<string>, start: Instant, changes: seq<Change>)
    requires ClockRises(start, changes) && NeverGivenUp(changes)
    ensures AllTrue(first, start, changes) <==> first.Some? || |changes| <= 1 || changes[0].at == start
  {
    hide AllTrue;
    FirstGotAtOnce(first, start, changes);
    AllTrueExactly(first, start, changes);
    if changes != [] {
      FirstGotAtOnce(first, start, changes[..|changes| - 1]);
    }
  }
}
