/** The profile sweep over runs: other transactions between its scan and its visits, of that day and of later ones. */
module ProfileRuns {
  import opened Base
  import opened Calendar
  import opened Retention
  import opened Rules
  import opened Rows
  import opened Transactions
  import opened Authority
  import opened Remembering

  /** The step would make the membership current again. */
  predicate Returns(s: Step, m: MembershipId) {
    (s.DoSeat? && s.expected == m) || (s.DoGrantRole? && s.target == m)
  }

  // One transaction

  lemma NoRoleAdded(db: Db, s: Step, day: Day, m: MembershipId, a: AssignmentId)
    requires Linked(db) && !Returns(s, m) && a in Next(db, s, day).assignments && a !in db.assignments
    ensures Next(db, s, day).assignments[a].membership != m
  {
    hide UsableIn, Seated, IsAdminOn, LeavesNoAdmin, SettledRow, RevokedRow, Ended, Restamped, StillCounts;
    if s.DoSeat? && Outcome(db, s, day).Ok? { SeatedSpec(s.offers, s.expected, db.assignments); }
  }

  lemma RevokedStays(db: Db, s: Step, day: Day, m: MembershipId)
    requires Linked(db) && !Returns(s, m) && m in db.memberships && db.memberships[m].revokedOn.Some?
    ensures m in Next(db, s, day).memberships && Next(db, s, day).memberships[m].revokedOn.Some?
  {
    hide UsableIn, Seated, IsAdminOn, LeavesNoAdmin, SettledRow, RevokedRow, Ended, Restamped, StillCounts;
    if s.DoClearEnded? { SettledRowKeeps(db, m, day); }
    if s.DoSetRetention? { OwnRowKeeps(db, s.account, s.months, m, day); }
  }

  /** A membership that is given no role stays ended. */
  lemma EndedStays(db: Db, s: Step, day: Day, m: MembershipId, today: Day)
    requires Linked(db) && m in db.memberships && Ended(db, m, today) && !Returns(s, m)
    ensures m in Next(db, s, day).memberships && Ended(Next(db, s, day), m, today)
  {
    hide Next, GrantsEvolve;
    StepEvolves(db, s, day);
    var after := Next(db, s, day);
    if db.memberships[m].revokedOn.Some? {
      RevokedStays(db, s, day, m);
    } else {
      forall a | a in after.assignments && a !in db.assignments ensures after.assignments[a].membership != m {
        NoRoleAdded(db, s, day, m, a);
      }
    }
  }

  lemma EndedLater(db: Db, m: MembershipId, today: Day, day: Day)
    requires m in db.memberships && Ended(db, m, today) && today <= day
    ensures Ended(db, m, day)
  {
  }

  /** What the row keeps is stamped with a day after `today`. */
  predicate StampedAhead(row: Membership, today: Day) {
    row.HasFields() ==> row.keptUntil.Some? && today < row.keptUntil.value
  }

  lemma SettledAhead(db: Db, m: MembershipId, day: Day)
    requires Linked(db) && m in db.memberships && ProfileSound(db.memberships[m]) && Ended(db, m, day)
    ensures StampedAhead(SettledRow(db, m, day), day) && ProfileSound(SettledRow(db, m, day))
  {
    hide SettledRow, Ended, ProfileSound;
    SettledIsSettled(db, m, day);
    SettledRowSound(db, m, day);
  }

  lemma RevokedAhead(db: Db, cut: Db, m: MembershipId, day: Day)
    requires m in db.memberships && Linked(cut) && m in cut.memberships
    ensures StampedAhead(RevokedRow(db, cut, m, day), day)
  {
    hide Ended, EndedOnFor, RetainedUntil;
  }

  lemma RestampedAhead(db: Db, account: AccountId, months: RetentionMonths, m: MembershipId, row: Membership, day: Day)
    requires m in db.memberships && Ended(db, m, day) && ProfileSound(row)
    requires row.account == account ==> StampedAhead(row, day)
    ensures row.account == account ==> StampedAhead(Restamped(db, account, months, m, row, day), day)
    ensures row.account != account ==> Restamped(db, account, months, m, row, day) == row
  {
    hide Ended, EndedOnFor, RetainedUntil;
  }

  lemma RevocationStamps(db: Db, s: Step, day: Day)
    requires Linked(db) && s.DoRevokeMembership? && Outcome(db, s, day).Ok?
    ensures s.membership in Next(db, s, day).memberships
    ensures StampedAhead(Next(db, s, day).memberships[s.membership], day)
    ensures forall m :: m in db.memberships && m != s.membership ==>
              m in Next(db, s, day).memberships && Next(db, s, day).memberships[m] == db.memberships[m]
  {
    hide IsAdminOn, LeavesNoAdmin, RevokedRow, RevokeAll, RevokeGrants, StampedAhead;
    var cut := db.(assignments := RevokeAll(db, s.membership, day));
    CutLinked(db, s.membership, day);
    RevokedAhead(db, cut, s.membership, day);
  }

  lemma SettingStamps(db: Db, s: Step, day: Day, m: MembershipId)
    requires Linked(db) && ProfilesSound(db) && s.DoSetRetention? && Outcome(db, s, day).Ok?
    requires m in db.memberships && Ended(db, m, day)
    ensures m in Next(db, s, day).memberships
    ensures Next(db, s, day).memberships[m] == db.memberships[m] || StampedAhead(Next(db, s, day).memberships[m], day)
  {
    hide SettledRow, Ended, Restamped, StampedAhead, ProfileSound;
    if db.memberships[m].account == s.account {
      SettledAhead(db, m, day);
      SettledRowKeeps(db, m, day);
    }
    RestampedAhead(db, s.account, s.months, m, SettledOwn(db, s.account, m, day), day);
  }

  /** A stamp that is ahead of `today` stays ahead of it, or the fields go. */
  lemma StampStays(db: Db, s: Step, day: Day, m: MembershipId, today: Day)
    requires Linked(db) && ProfilesSound(db) && today <= day && !Returns(s, m)
    requires m in db.memberships && Ended(db, m, today) && StampedAhead(db.memberships[m], today)
    ensures m in Next(db, s, day).memberships && StampedAhead(Next(db, s, day).memberships[m], today)
  {
    hide UsableIn, Seated, IsAdminOn, LeavesNoAdmin, SettledRow, RevokedRow, Ended, Restamped, RevokeAll, ProfileSound;
    EndedLater(db, m, today, day);
    if s.DoRevokeMembership? {
      if Outcome(db, s, day).Ok? { hide Next; RevocationStamps(db, s, day); }
    } else if s.DoSetRetention? {
      if Outcome(db, s, day).Ok? { hide Next; SettingStamps(db, s, day, m); }
    } else if s.DoClearEnded? {
      SettledAhead(db, m, day);
    }
  }

  /** No transaction puts an ended membership into a group. */
  lemma NotPutInGroups(db: Db, s: Step, day: Day, m: MembershipId, today: Day)
    requires Linked(db) && today <= day && m in db.memberships && Ended(db, m, today)
    ensures forall x :: x in Next(db, s, day).groupMembers && x.1 == m ==> x in db.groupMembers
  {
    hide UsableIn, Seated, IsAdminOn, LeavesNoAdmin, SettledRow, RevokedRow, Ended, Restamped, RevokeAll, Unsettled;
    EndedLater(db, m, today, day);
  }

  /** An ended membership whose profile is done stays so through any transaction that does not bring it back. */
  lemma DoneStays(db: Db, s: Step, day: Day, m: MembershipId, today: Day)
    requires Linked(db) && ProfilesSound(db) && today <= day && !Returns(s, m)
    requires m in db.memberships && Ended(db, m, today) && ProfileDone(db, m, today)
    ensures m in Next(db, s, day).memberships
    ensures Ended(Next(db, s, day), m, today) && ProfileDone(Next(db, s, day), m, today)
  {
    hide Next, Ended, ProfileSound;
    EndedStays(db, s, day, m, today);
    StampStays(db, s, day, m, today);
    NotPutInGroups(db, s, day, m, today);
  }

  // Between the scan and the visits

  /** Dated on or after the day of the sweep; the sweep's own visits carry its date. */
  predicate DatedFrom(moves: seq<Move>, today: Day) { forall i :: 0 <= i < |moves| ==> today <= moves[i].day }

  predicate NeverReturns(moves: seq<Move>, m: MembershipId) { forall i :: 0 <= i < |moves| ==> !Returns(moves[i].step, m) }

  function ProfileVisits(moves: seq<Move>, today: Day): set<TenantId> {
    set i | 0 <= i < |moves| && moves[i].step.DoClearEnded? && moves[i].day == today :: moves[i].step.tenant
  }

  lemma {:induction false} DoneRun(db: Db, moves: seq<Move>, m: MembershipId, today: Day)
    requires Linked(db) && ProfilesSound(db) && DatedFrom(moves, today) && NeverReturns(moves, m)
    requires m in db.memberships && Ended(db, m, today) && ProfileDone(db, m, today)
    ensures m in Run(db, moves).memberships
    ensures Ended(Run(db, moves), m, today) && ProfileDone(Run(db, moves), m, today)
    decreases |moves|
  {
    hide Next, Ended, ProfileDone, ProfilesSound;
    if moves != [] {
      var move := moves[0];
      StepEvolves(db, move.step, move.day);
      ProfilesSoundStep(db, move.step, move.day);
      DoneStays(db, move.step, move.day, m, today);
      DoneRun(Next(db, move.step, move.day), moves[1..], m, today);
    }
  }

  lemma {:induction false} VisitDone(db: Db, moves: seq<Move>, i: nat, m: MembershipId, today: Day)
    requires Linked(db) && ProfilesSound(db) && DatedFrom(moves, today) && NeverReturns(moves, m)
    requires m in db.memberships && Ended(db, m, today)
    requires i < |moves| && moves[i].step == DoClearEnded(db.memberships[m].tenant) && moves[i].day == today
    ensures m in Run(db, moves).memberships
    ensures Ended(Run(db, moves), m, today) && ProfileDone(Run(db, moves), m, today)
    decreases i
  {
    hide Next, Ended, ProfilesSound;
    var move := moves[0];
    StepEvolves(db, move.step, move.day);
    ProfilesSoundStep(db, move.step, move.day);
    EndedStays(db, move.step, move.day, m, today);
    var next := Next(db, move.step, move.day);
    if i == 0 {
      SweptProfiles(db, db.memberships[m].tenant, today, m);
      assert forall x :: x in next.groupMembers ==> x == (x.0, x.1);
      DoneRun(next, moves[1..], m, today);
    } else {
      VisitDone(next, moves[1..], i - 1, m, today);
    }
  }

  /**
   A scan and a visit to each FAU it named, with any other transactions in between and among
   them, of that day and of later ones: every membership that had ended at the scan, and has not
   been brought back since, has what it keeps stamped with a day still ahead and is in no group.
   */
  lemma ProfileScanThenVisits(db: Db, moves: seq<Move>, m: MembershipId, today: Day)
    requires Linked(db) && ProfilesSound(db) && DatedFrom(moves, today)
    requires ScannedForProfiles(db, today) <= ProfileVisits(moves, today)
    requires m in db.memberships && Ended(db, m, today) && NeverReturns(moves, m)
    ensures m in Run(db, moves).memberships
    ensures var after := Run(db, moves);
            && Ended(after, m, today)
            && (after.memberships[m].HasFields() ==>
                  after.memberships[m].keptUntil.Some? && today < after.memberships[m].keptUntil.value)
            && (forall g :: (g, m) !in after.groupMembers)
  {
    hide Run, Ended, ProfilesSound;
    if ProfileDone(db, m, today) {
      DoneRun(db, moves, m, today);
    } else {
      var t := db.memberships[m].tenant;
      assert t in ScannedForProfiles(db, today);
      var i :| 0 <= i < |moves| && moves[i].step.DoClearEnded? && moves[i].day == today && moves[i].step.tenant == t;
      VisitDone(db, moves, i, m, today);
    }
  }
}
