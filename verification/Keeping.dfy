/** How long a former member's name and address are kept: exactly as long as the member's setting says. */
module Keeping {
  import opened Base
  import opened Calendar
  import opened Periods
  import opened Access
  import opened Retention
  import opened Rules
  import opened Rows
  import opened Transactions
  import opened Authority
  import opened Effects
  import opened Remembering
  import opened ProfileRuns

  /** A membership has ended when it is revoked, or every role it has is revoked or over. */
  lemma EndedExactly(db: Db, m: MembershipId, today: Day)
    requires m in db.memberships
    ensures Ended(db, m, today) <==>
              || db.memberships[m].revokedOn.Some?
              || forall a :: a in db.assignments && db.assignments[a].membership == m ==>
                   db.assignments[a].revokedOn.Some? || db.assignments[a].period.ends <= today
  {
  }

  // The end date, in rows

  /** The day a role stopped being held: its end, or an earlier revocation. */
  function HeldEnd(row: Assignment): Day {
    if row.revokedOn.Some? && row.revokedOn.value < row.period.ends then row.revokedOn.value else row.period.ends
  }

  function RevokedDay(row: Assignment): Day { if row.revokedOn.Some? then row.revokedOn.value else 0 }

  /** The membership's roles that were held on at least one day. */
  function RolesHeld(db: Db, m: MembershipId): set<AssignmentId> {
    set a | a in db.assignments && db.assignments[a].membership == m
            && db.assignments[a].period.starts < HeldEnd(db.assignments[a])
  }

  function RolesRevoked(db: Db, m: MembershipId): set<AssignmentId> {
    set a | a in db.assignments && db.assignments[a].membership == m && db.assignments[a].revokedOn.Some?
  }

  /** `d` is the latest of the given roles' days, or today when that is still to come. */
  ghost predicate LatestOrToday(db: Db, roles: set<AssignmentId>, dayOf: Assignment -> Day, d: Day, today: Day)
    requires forall a :: a in roles ==> a in db.assignments
  {
    && (exists a :: a in roles && (if dayOf(db.assignments[a]) < today then d == dayOf(db.assignments[a]) else d == today))
    && (forall a :: a in roles ==> dayOf(db.assignments[a]) <= d || d == today)
  }

  /**
   The day an ended membership ended: when its last held role stopped being held; without one, when
   its last role was revoked; without one, when the membership was; never after today.
   */
  ghost predicate EndedOnDay(db: Db, m: MembershipId, today: Day, d: Day)
    requires m in db.memberships
  {
    if RolesHeld(db, m) != {} then LatestOrToday(db, RolesHeld(db, m), HeldEnd, d, today)
    else if RolesRevoked(db, m) != {} then LatestOrToday(db, RolesRevoked(db, m), RevokedDay, d, today)
    else if db.memberships[m].revokedOn.Some? && db.memberships[m].revokedOn.value < today then
      d == db.memberships[m].revokedOn.value
    else d == today
  }

  lemma EndDateInRows(db: Db, m: MembershipId, today: Day)
    requires m in db.memberships
    ensures EndedOnDay(db, m, today, EndedOnFor(db, m, today))
  {
    hide LatestOrToday;
    assert HeldEnds(db, m) == set a | a in RolesHeld(db, m) :: HeldEnd(db.assignments[a]);
    assert RevocationDays(db, m) == set a | a in RolesRevoked(db, m) :: RevokedDay(db.assignments[a]);
    if RolesHeld(db, m) != {} {
      var x :| x in RolesHeld(db, m);
      assert HeldEnd(db.assignments[x]) in HeldEnds(db, m);
      LatestOf(db, RolesHeld(db, m), HeldEnd, HeldEnds(db, m), today);
    } else if RolesRevoked(db, m) != {} {
      var x :| x in RolesRevoked(db, m);
      assert RevokedDay(db.assignments[x]) in RevocationDays(db, m);
      LatestOf(db, RolesRevoked(db, m), RevokedDay, RevocationDays(db, m), today);
    }
  }

  lemma LatestOf(db: Db, roles: set<AssignmentId>, dayOf: Assignment -> Day, days: set<Day>, today: Day)
    requires forall a :: a in roles ==> a in db.assignments
    requires days == (set a | a in roles :: dayOf(db.assignments[a])) && days != {}
    ensures LatestOrToday(db, roles, dayOf, NoLater(Latest(days), today), today)
  {
    var a :| a in roles && dayOf(db.assignments[a]) == Latest(days);
    forall b | b in roles ensures dayOf(db.assignments[b]) <= Latest(days) {
      assert dayOf(db.assignments[b]) in days;
    }
  }

  // The period the setting gives

  /** `until` is the setting's number of months after the end date; none for a setting of none or past the calendar. */
  ghost predicate DueOn(endedOn: Day, setting: RetentionMonths, until: Option<Day>) {
    match setting
    case NoMonths => until == None
    case Three => KeptFor(endedOn, 3, until)
    case Six => KeptFor(endedOn, 6, until)
    case Twelve => KeptFor(endedOn, 12, until)
    case TwentyFour => KeptFor(endedOn, 24, until)
  }

  lemma DueInMonths(endedOn: Day, setting: RetentionMonths)
    ensures DueOn(endedOn, setting, RetainedUntil(endedOn, setting))
  {
    RetainedUntilSpec(endedOn);
  }

  lemma DueOnce(endedOn: Day, setting: RetentionMonths, a: Option<Day>, b: Option<Day>)
    requires DueOn(endedOn, setting, a) && DueOn(endedOn, setting, b)
    ensures a == b
  {
  }

  lemma EndsOnce(db: Db, m: MembershipId, today: Day, a: Day, b: Day)
    requires m in db.memberships && EndedOnDay(db, m, today, a) && EndedOnDay(db, m, today, b)
    ensures a == b
  {
    if RolesHeld(db, m) != {} {
      LatestOnce(db, RolesHeld(db, m), HeldEnd, a, b, today);
    } else if RolesRevoked(db, m) != {} {
      LatestOnce(db, RolesRevoked(db, m), RevokedDay, a, b, today);
    }
  }

  lemma LatestOnce(db: Db, roles: set<AssignmentId>, dayOf: Assignment -> Day, d: Day, e: Day, today: Day)
    requires forall a :: a in roles ==> a in db.assignments
    requires LatestOrToday(db, roles, dayOf, d, today) && LatestOrToday(db, roles, dayOf, e, today)
    ensures d == e
  {
  }

  /** A row that keeps its fields until a day, and one that keeps nothing. */
  predicate KeepsUntil(was: Membership, now: Membership, until: Day) {
    now.name == was.name && now.address == was.address && now.keptUntil == Some(until)
  }

  predicate KeepsNothing(now: Membership) { now.name == None && now.address == None && now.keptUntil == None }

  /**
   What the setting, the end date and the stamp make of a field-bearing row: a stamp that is ahead stays,
   one that is not has run out; without one the fields stay until the due day if that is ahead.
   */
  ghost predicate SettledBy(was: Membership, now: Membership, stamp: Option<Day>, due: Option<Day>, today: Day) {
    var until := if stamp.Some? then stamp else due;
    if until.Some? && today < until.value then KeepsUntil(was, now, until.value) else KeepsNothing(now)
  }

  // Transactions

  /** Ending a membership keeps its fields until its end date plus the setting's months, if that day is ahead. */
  lemma RevocationKeepsExactly(db: Db, s: Step, today: Day, endedOn: Day, due: Option<Day>)
    requires Linked(db) && s.DoRevokeMembership? && Outcome(db, s, today).Ok?
    requires db.memberships[s.membership].HasFields()
    requires EndedOnDay(Next(db, s, today), s.membership, today, endedOn)
    requires DueOn(endedOn, db.accounts[db.memberships[s.membership].account].retention, due)
    ensures var was := db.memberships[s.membership];
            var stamp := if Ended(db, s.membership, today) then was.keptUntil else None;
            SettledBy(was, Next(db, s, today).memberships[s.membership], stamp, due, today)
  {
    hide IsAdminOn, LeavesNoAdmin, Ended, EndedOnFor, EndedOnDay, DueOn, RevokeAll, RevokeGrants, InWindow;
    var m := s.membership;
    var after := Next(db, s, today);
    var cut := db.(assignments := RevokeAll(db, m, today));
    CutLinked(db, m, today);
    RevokingAMemberDoes(db, s, today);
    EndDateAfterRevocation(cut, after, m, today);
    EndDateInRows(after, m, today);
    EndsOnce(after, m, today, endedOn, EndedOnFor(after, m, today));
    DueInMonths(endedOn, db.accounts[db.memberships[m].account].retention);
    DueOnce(endedOn, db.accounts[db.memberships[m].account].retention, due,
            RetainedUntil(endedOn, db.accounts[db.memberships[m].account].retention));
  }

  lemma EndDateAfterRevocation(cut: Db, after: Db, m: MembershipId, today: Day)
    requires m in cut.memberships && m in after.memberships && after.assignments == cut.assignments
    requires cut.memberships[m].revokedOn.None? && after.memberships[m].revokedOn == Some(today)
    ensures EndedOnFor(after, m, today) == EndedOnFor(cut, m, today)
  {
    assert HeldEnds(after, m) == HeldEnds(cut, m);
    assert RevocationDays(after, m) == RevocationDays(cut, m);
  }

  /** The daily sweep of an FAU: an ended row by its stamp, or by the setting and end date; no other row. */
  lemma SweepKeepsExactly(db: Db, tenant: TenantId, today: Day, m: MembershipId, endedOn: Day, due: Option<Day>)
    requires Linked(db) && tenant in db.tenants && m in db.memberships && db.memberships[m].tenant == tenant
    requires db.memberships[m].HasFields() && !db.memberships[m].erased && Ended(db, m, today)
    requires EndedOnDay(db, m, today, endedOn) && DueOn(endedOn, db.accounts[db.memberships[m].account].retention, due)
    ensures var was := db.memberships[m];
            var now := Next(db, DoClearEnded(tenant), today).memberships[m];
            && SettledBy(was, now, was.keptUntil, due, today)
            && (was.keptUntil.Some? && today < was.keptUntil.value ==> now == was)
            && now.revokedOn == was.revokedOn
  {
    hide Ended, EndedOnFor, EndedOnDay, DueOn;
    var setting := db.accounts[db.memberships[m].account].retention;
    EndDateInRows(db, m, today);
    EndsOnce(db, m, today, endedOn, EndedOnFor(db, m, today));
    DueInMonths(endedOn, setting);
    DueOnce(endedOn, setting, due, RetainedUntil(endedOn, setting));
  }

  lemma SweepLeavesOthers(db: Db, tenant: TenantId, today: Day, m: MembershipId)
    requires Linked(db) && m in db.memberships && (db.memberships[m].tenant != tenant || !Ended(db, m, today))
    ensures m in Next(db, DoClearEnded(tenant), today).memberships
    ensures Next(db, DoClearEnded(tenant), today).memberships[m] == db.memberships[m]
    ensures forall g :: (g, m) in db.groupMembers ==> (g, m) in Next(db, DoClearEnded(tenant), today).groupMembers
  {
    hide Ended, SettledRow;
  }

  /** A change of setting: what had not run out under the old one is kept by the new one, if that is ahead. */
  lemma SettingKeepsExactly(db: Db, account: AccountId, months: RetentionMonths, today: Day, m: MembershipId,
                            endedOn: Day, before: Option<Day>, due: Option<Day>)
    requires Linked(db) && account in db.accounts && m in db.memberships && db.memberships[m].account == account
    requires db.memberships[m].HasFields() && !db.memberships[m].erased && Ended(db, m, today)
    requires EndedOnDay(db, m, today, endedOn)
    requires DueOn(endedOn, db.accounts[account].retention, before) && DueOn(endedOn, months, due)
    ensures var was := db.memberships[m];
            var now := Next(db, DoSetRetention(account, months), today).memberships[m];
            var running := if was.keptUntil.Some? then was.keptUntil else before;
            if running.Some? && today < running.value && due.Some? && today < due.value then KeepsUntil(was, now, due.value)
            else KeepsNothing(now)
  {
    hide Ended, EndedOnFor, EndedOnDay, DueOn;
    var setting := db.accounts[account].retention;
    EndDateInRows(db, m, today);
    EndsOnce(db, m, today, endedOn, EndedOnFor(db, m, today));
    DueInMonths(endedOn, setting);
    DueOnce(endedOn, setting, before, RetainedUntil(endedOn, setting));
    DueInMonths(endedOn, months);
    DueOnce(endedOn, months, due, RetainedUntil(endedOn, months));
  }

  /** A returner brings back what is still kept, without its stamp, and nothing that has run out. */
  lemma ReturnKeepsExactly(db: Db, s: Step, today: Day, endedOn: Day, due: Option<Day>)
    requires Linked(db) && s.DoGrantRole? && Outcome(db, s, today).Ok? && Ended(db, s.target, today)
    requires db.memberships[s.target].HasFields() && !db.memberships[s.target].erased
    requires EndedOnDay(db, s.target, today, endedOn)
    requires DueOn(endedOn, db.accounts[db.memberships[s.target].account].retention, due)
    ensures var was, now := db.memberships[s.target], Next(db, s, today).memberships[s.target];
            var until := if was.keptUntil.Some? then was.keptUntil else due;
            && now.keptUntil == None
            && if until.Some? && today < until.value then now.name == was.name && now.address == was.address
               else now.name == None && now.address == None
  {
    hide Ended, EndedOnFor, EndedOnDay, DueOn, IsAdminOn;
    var m := s.target;
    var setting := db.accounts[db.memberships[m].account].retention;
    EndDateInRows(db, m, today);
    EndsOnce(db, m, today, endedOn, EndedOnFor(db, m, today));
    DueInMonths(endedOn, setting);
    DueOnce(endedOn, setting, due, RetainedUntil(endedOn, setting));
  }

  /**
   An acceptance that gives no address keeps the one there is, if the membership is current or its fields
   are still kept, and leaves none otherwise; a given address is written.
   */
  lemma AcceptanceKeepsExactly(db: Db, s: Step, today: Day, endedOn: Day, due: Option<Day>)
    requires Linked(db) && s.DoSeat? && Outcome(db, s, today).Ok? && s.expected in db.memberships
    requires Ended(db, s.expected, today) ==>
               EndedOnDay(db, s.expected, today, endedOn)
               && DueOn(endedOn, db.accounts[db.memberships[s.expected].account].retention, due)
    ensures var was, now := db.memberships[s.expected], Next(db, s, today).memberships[s.expected];
            var until := if was.keptUntil.Some? then was.keptUntil else due;
            && now.name == Some(s.profile.name) && now.keptUntil == None
            && now.address == if s.profile.address.Some? then s.profile.address
                              else if !Ended(db, s.expected, today) || (until.Some? && today < until.value) then was.address
                              else None
  {
    hide Ended, EndedOnFor, EndedOnDay, DueOn, Seated, FreshOffers;
    var m := s.expected;
    if Ended(db, m, today) {
      var setting := db.accounts[db.memberships[m].account].retention;
      EndDateInRows(db, m, today);
      EndsOnce(db, m, today, endedOn, EndedOnFor(db, m, today));
      DueInMonths(endedOn, setting);
      DueOnce(endedOn, setting, due, RetainedUntil(endedOn, setting));
    }
  }

  // Over runs

  /** The step erases the account's fields or changes its setting, or brings the membership back. */
  predicate Interferes(s: Step, m: MembershipId, account: AccountId) {
    (s.DoErase? && s.account == account) || (s.DoSetRetention? && s.account == account) || Returns(s, m)
  }

  /** Ended, and keeping its fields until a day. */
  predicate Stamped(db: Db, m: MembershipId, row: Membership, until: Day, today: Day) {
    && m in db.memberships && Ended(db, m, today) && KeepsUntil(row, db.memberships[m], until)
    && db.memberships[m].account == row.account
  }

  lemma StampedStays(db: Db, s: Step, day: Day, m: MembershipId, row: Membership, until: Day, today: Day)
    requires Linked(db) && Stamped(db, m, row, until, today) && today <= day < until
    requires row.HasFields() && !Interferes(s, m, row.account)
    ensures Stamped(Next(db, s, day), m, row, until, today)
  {
    hide Next, Outcome, Ended, SettledRow;
    EndedLater(db, m, today, day);
    EndedStays(db, s, day, m, today);
    if s.DoRevokeMembership? && s.membership == m {
      RevokedStamped(db, s, day);
    } else if s.DoClearEnded? {
      SettledStamped(db, m, day);
      ClearedOrSettled(db, s.tenant, day, m);
    } else if s.DoSetRetention? {
      OtherSetting(db, s, day, m);
    } else if s.DoRevokeMembership? {
      OtherRevocation(db, s, day, m);
    } else {
      RowUntouched(db, s, day, m);
    }
  }

  lemma ClearedOrSettled(db: Db, tenant: TenantId, day: Day, m: MembershipId)
    requires Linked(db) && m in db.memberships
    ensures var after := Next(db, DoClearEnded(tenant), day);
            m in after.memberships && (after.memberships[m] == db.memberships[m] || after.memberships[m] == SettledRow(db, m, day))
  {
    hide Ended, SettledRow;
  }

  lemma OtherSetting(db: Db, s: Step, day: Day, m: MembershipId)
    requires Linked(db) && s.DoSetRetention? && m in db.memberships && db.memberships[m].account != s.account
    ensures m in Next(db, s, day).memberships && Next(db, s, day).memberships[m] == db.memberships[m]
  {
    hide Ended, SettledRow;
  }

  lemma OtherRevocation(db: Db, s: Step, day: Day, m: MembershipId)
    requires Linked(db) && s.DoRevokeMembership? && m in db.memberships && m != s.membership
    ensures m in Next(db, s, day).memberships && Next(db, s, day).memberships[m] == db.memberships[m]
  {
    hide Next, InWindow;
    if Outcome(db, s, day).Ok? { RevokingAMemberDoes(db, s, day); } else { RefusedChangesNothing(db, s, day); }
  }

  lemma RowUntouched(db: Db, s: Step, day: Day, m: MembershipId)
    requires Linked(db) && m in db.memberships && !Returns(s, m)
    requires !s.DoRevokeMembership? && !s.DoClearEnded? && !s.DoSetRetention?
    requires !(s.DoErase? && s.account == db.memberships[m].account)
    ensures m in Next(db, s, day).memberships && Next(db, s, day).memberships[m] == db.memberships[m]
  {
    hide IsAdminOn, LeavesNoAdmin, Ended, SettledRow, SettleOutcome, Seated, UsableIn, FreshOffers;
  }

  lemma RevokedStamped(db: Db, s: Step, day: Day)
    requires Linked(db) && s.DoRevokeMembership? && s.membership in db.memberships && Ended(db, s.membership, day)
    requires var row := db.memberships[s.membership]; row.HasFields() && row.keptUntil.Some? && day < row.keptUntil.value
    ensures s.membership in Next(db, s, day).memberships
    ensures var row, now := db.memberships[s.membership], Next(db, s, day).memberships[s.membership];
            now.name == row.name && now.address == row.address && now.keptUntil == row.keptUntil && now.account == row.account
  {
    hide IsAdminOn, LeavesNoAdmin, Ended, RevokeAll, RevokeGrants, EndedOnFor;
    CutLinked(db, s.membership, day);
  }

  lemma SettledStamped(db: Db, m: MembershipId, day: Day)
    requires Linked(db) && m in db.memberships
    requires var row := db.memberships[m]; row.HasFields() && row.keptUntil.Some? && day < row.keptUntil.value
    ensures SettledRow(db, m, day) == db.memberships[m]
  {
    hide Ended, EndedOnFor;
  }

  /**
   Over every run: the fields of an ended, stamped membership are there until the day of its stamp,
   unless the account is erased, its setting changed, or the membership brought back.
   */
  lemma {:induction false} KeptUntilTheStamp(db: Db, moves: seq<Move>, m: MembershipId, row: Membership, until: Day, today: Day)
    requires Linked(db) && Stamped(db, m, row, until, today) && row.HasFields()
    requires forall i :: 0 <= i < |moves| ==> today <= moves[i].day < until && !Interferes(moves[i].step, m, row.account)
    ensures Stamped(Run(db, moves), m, row, until, today)
    decreases |moves|
  {
    hide Next, Stamped, Interferes;
    if moves != [] {
      StepEvolves(db, moves[0].step, moves[0].day);
      StampedStays(db, moves[0].step, moves[0].day, m, row, until, today);
      KeptUntilTheStamp(Next(db, moves[0].step, moves[0].day), moves[1..], m, row, until, today);
    }
  }

  /** The fields of a membership that has not ended change only when it is ended, erased, or written by an acceptance. */
  lemma ActiveFieldsStay(db: Db, s: Step, day: Day, m: MembershipId)
    requires Linked(db) && m in db.memberships && !Ended(db, m, day) && !db.memberships[m].erased
    requires !(s.DoRevokeMembership? && s.membership == m) && !(s.DoSeat? && s.expected == m)
    requires !(s.DoErase? && s.account == db.memberships[m].account)
    ensures m in Next(db, s, day).memberships
    ensures var was, now := db.memberships[m], Next(db, s, day).memberships[m];
            now.name == was.name && now.address == was.address
  {
    hide IsAdminOn, LeavesNoAdmin, Ended, RevokedRow, Seated, RevokeAll, RevokeGrants, EndedOnFor, EffectiveKeepUntil;
    if s.DoRevokeMembership? {
      if Outcome(db, s, day).Ok? { hide Next; RevokingAMemberDoes(db, s, day); }
    }
  }
}
