/** How long ended memberships keep their fields, over every run of transactions. */
module Remembering {
  import opened Base
  import opened Calendar
  import opened Periods
  import opened Retention
  import opened Rules
  import opened Rows
  import opened Transactions
  import opened Authority

  // The row checks of migration 0009

  predicate ProfileSound(row: Membership) {
    && (row.keptUntil.Some? ==> row.HasFields())
    && (row.erased ==> !row.HasFields())
    && (row.revokedOn.Some? && row.HasFields() ==> row.keptUntil.Some?)
  }

  predicate ProfilesSound(db: Db) {
    forall m :: m in db.memberships ==> ProfileSound(db.memberships[m])
  }

  lemma SettledRowSound(db: Db, m: MembershipId, today: Day)
    requires Linked(db) && m in db.memberships && ProfileSound(db.memberships[m])
    ensures ProfileSound(SettledRow(db, m, today))
    ensures ProfileSound(SettledRow(db, m, today).(revokedOn := None, keptUntil := None))
  {
    hide KeepUntil, EndedOnFor, Ended;
  }

  lemma RevokedRowSound(db: Db, cut: Db, m: MembershipId, today: Day)
    requires m in db.memberships && Linked(cut) && m in cut.memberships && ProfileSound(db.memberships[m])
    ensures ProfileSound(RevokedRow(db, cut, m, today))
  {
    hide EffectiveKeepUntil, Ended;
  }

  lemma RestampedSound(db: Db, account: AccountId, months: RetentionMonths, m: MembershipId, row: Membership, today: Day)
    requires m in db.memberships && ProfileSound(row)
    ensures ProfileSound(Restamped(db, account, months, m, row, today))
  {
    hide KeepUntil, EndedOnFor, Ended;
  }

  /** No transaction leaves a stamp without a field, an erased field, or a revoked field without a stamp. */
  lemma ProfilesSoundStep(db: Db, s: Step, today: Day)
    requires Linked(db) && ProfilesSound(db)
    ensures ProfilesSound(Next(db, s, today))
  {
    hide SettledRow, SettleOutcome, Ended, RevokedRow, Restamped, IsAdminOn, LeavesNoAdmin, Seated, RevokeAll,
      ProfileSound, Unsettled, EndedIn, Candidates, NewGrants, RevokeGrants;
    forall m | m in db.memberships
      ensures ProfileSound(SettledRow(db, m, today))
      ensures ProfileSound(SettledRow(db, m, today).(revokedOn := None, keptUntil := None))
    {
      SettledRowSound(db, m, today);
    }
    match s
    case DoSeat(_, _, _, _, _) => SeatSound(db, s, today);
    case DoRevokeMembership(_, _, m, _) =>
      if m in db.memberships {
        var cut := db.(assignments := RevokeAll(db, m, today));
        assert Linked(cut) by { CutLinked(db, m, today); }
        RevokedRowSound(db, cut, m, today);
      }
    case DoSetRetention(account, months) =>
      forall m | m in db.memberships
        ensures ProfileSound(Restamped(db, account, months, m, SettledOwn(db, account, m, today), today))
      {
        RestampedSound(db, account, months, m, SettledOwn(db, account, m, today), today);
      }
    case DoErase(_) => EraseSound(db, s, today);
    case _ =>
  }

  lemma CutLinked(db: Db, m: MembershipId, today: Day)
    requires Linked(db)
    ensures Linked(db.(assignments := RevokeAll(db, m, today)))
  {
    hide StillCounts;
  }

  lemma SeatSound(db: Db, s: Step, today: Day)
    requires Linked(db) && ProfilesSound(db) && s.DoSeat?
    ensures ProfilesSound(Next(db, s, today))
  {
    hide SettledRow, SettleOutcome, Ended, Seated;
    if s.expected in db.memberships { SettledRowKeeps(db, s.expected, today); }
  }

  lemma EraseSound(db: Db, s: Step, today: Day)
    requires Linked(db) && ProfilesSound(db) && s.DoErase?
    ensures ProfilesSound(Next(db, s, today))
  {
  }

  lemma {:induction false} ProfilesSoundRun(db: Db, moves: seq<Move>)
    requires Linked(db) && ProfilesSound(db)
    ensures ProfilesSound(Run(db, moves))
    decreases |moves|
  {
    hide Next, ProfilesSound;
    if moves != [] {
      StepEvolves(db, moves[0].step, moves[0].day);
      ProfilesSoundStep(db, moves[0].step, moves[0].day);
      ProfilesSoundRun(Next(db, moves[0].step, moves[0].day), moves[1..]);
    }
  }

  // The daily sweep

  /** Settling a profile once is enough: what is left is not due again today. */
  lemma SettledIsSettled(db: Db, m: MembershipId, today: Day)
    requires Linked(db) && m in db.memberships && ProfileSound(db.memberships[m]) && Ended(db, m, today)
    ensures var row := SettledRow(db, m, today);
            row.HasFields() ==> row.keptUntil.Some? && today < row.keptUntil.value
  {
    hide Ended, RetainedUntil, EndedOnFor;
  }

  lemma EndedBySameRows(db: Db, after: Db, m: MembershipId, today: Day)
    requires m in db.memberships && m in after.memberships
    requires after.assignments == db.assignments && after.memberships[m].revokedOn == db.memberships[m].revokedOn
    ensures Ended(after, m, today) == Ended(db, m, today)
  {
  }

  /**
   After the sweep of an FAU every ended membership that still has a field is stamped with a
   day still ahead, and none is left in a group by hand.
   */
  lemma SweptProfiles(db: Db, tenant: TenantId, today: Day, m: MembershipId)
    requires Linked(db) && ProfilesSound(db) && tenant in db.tenants
    requires Belongs(db, tenant, m) && Ended(db, m, today)
    ensures var after := Next(db, DoClearEnded(tenant), today);
            && m in after.memberships && Ended(after, m, today)
            && (after.memberships[m].HasFields() ==>
                  after.memberships[m].keptUntil.Some? && today < after.memberships[m].keptUntil.value)
            && (forall g :: (g, m) !in after.groupMembers)
  {
    hide SettledRow, Ended, ProfileSound;
    var after := Next(db, DoClearEnded(tenant), today);
    SettledRowKeeps(db, m, today);
    EndedBySameRows(db, after, m, today);
    SettledIsSettled(db, m, today);
    assert m in EndedIn(db, tenant, today);
  }

  /** Running the sweep again the same day changes nothing. */
  lemma ProfileSweepIsIdempotent(db: Db, tenant: TenantId, today: Day)
    requires Linked(db) && ProfilesSound(db)
    ensures var once := Next(db, DoClearEnded(tenant), today);
            Linked(once) && Next(once, DoClearEnded(tenant), today) == once
  {
    hide SettledRow, Ended, ProfileSound;
    var once := Next(db, DoClearEnded(tenant), today);
    StepEvolves(db, DoClearEnded(tenant), today);
    if tenant in db.tenants {
      forall m | m in once.memberships ensures !Unsettled(once, tenant, m, today) {
        SettledRowKeeps(db, m, today);
        EndedBySameRows(db, once, m, today);
        if Belongs(db, tenant, m) && Ended(db, m, today) { SettledIsSettled(db, m, today); }
      }
      assert EndedIn(once, tenant, today) == EndedIn(db, tenant, today) by {
        forall m | m in once.memberships ensures Ended(once, m, today) == Ended(db, m, today) {
          SettledRowKeeps(db, m, today);
          EndedBySameRows(db, once, m, today);
        }
      }
    }
  }

  /** Nothing of the membership is due today: what it keeps is stamped ahead, and no group has it by hand. */
  predicate ProfileDone(db: Db, m: MembershipId, today: Day)
    requires m in db.memberships
  {
    Ended(db, m, today) ==>
      && (db.memberships[m].HasFields() ==>
            db.memberships[m].keptUntil.Some? && today < db.memberships[m].keptUntil.value)
      && (forall x :: x in db.groupMembers ==> x.1 != m)
  }

  /** Every FAU with a membership that is due is still to be visited. */
  predicate ProfilesLeft(db: Db, todo: set<TenantId>, today: Day) {
    forall m :: m in db.memberships && db.memberships[m].tenant !in todo ==> ProfileDone(db, m, today)
  }

  /** The profile sweep's unlocked scan: FAU-er with a due profile, or an ended member in a group. */
  function ScannedForProfiles(db: Db, today: Day): set<TenantId> {
    set m | m in db.memberships && !ProfileDone(db, m, today) :: db.memberships[m].tenant
  }

  lemma ProfileScanIsComplete(db: Db, today: Day)
    ensures ProfilesLeft(db, ScannedForProfiles(db, today), today)
  {
    hide ProfileDone;
    forall m | m in db.memberships && !ProfileDone(db, m, today)
      ensures db.memberships[m].tenant in ScannedForProfiles(db, today) {}
  }

  lemma OneTenantsProfilesDone(db: Db, todo: set<TenantId>, tenant: TenantId, today: Day)
    requires Linked(db) && ProfilesSound(db) && tenant in db.tenants && ProfilesLeft(db, todo, today)
    ensures ProfilesLeft(Next(db, DoClearEnded(tenant), today), todo - {tenant}, today)
  {
    hide SettledRow, Ended, ProfileSound, ProfilesSound;
    var after := Next(db, DoClearEnded(tenant), today);
    forall m | m in after.memberships && after.memberships[m].tenant !in todo - {tenant}
      ensures ProfileDone(after, m, today)
    {
      SettledRowKeeps(db, m, today);
      EndedBySameRows(db, after, m, today);
      if db.memberships[m].tenant == tenant {
        if Ended(db, m, today) { SweptProfiles(db, tenant, today, m); }
      } else {
        assert ProfileDone(db, m, today);
      }
    }
  }

  // Changing the setting

  /** A period already over under the old setting is not revived by the new one. */
  lemma SettingNeverRevives(db: Db, account: AccountId, months: RetentionMonths, today: Day, m: MembershipId)
    requires Linked(db) && ProfilesSound(db) && account in db.accounts
    requires m in db.memberships && db.memberships[m].account == account && Ended(db, m, today)
    requires EffectiveKeepUntil(db, m, db.memberships[m].keptUntil, today).None?
    ensures !Next(db, DoSetRetention(account, months), today).memberships[m].HasFields()
  {
    hide Ended, EffectiveKeepUntil, KeepUntil, EndedOnFor;
  }

  /**
   What an ended membership of the account keeps is stamped with its end date plus the new
   months, a day still ahead.
   */
  lemma SettingRestamps(db: Db, account: AccountId, months: RetentionMonths, today: Day, m: MembershipId)
    requires Linked(db) && ProfilesSound(db) && account in db.accounts
    requires m in db.memberships && db.memberships[m].account == account && Ended(db, m, today)
    requires Next(db, DoSetRetention(account, months), today).memberships[m].HasFields()
    ensures var after := Next(db, DoSetRetention(account, months), today);
            && after.memberships[m].keptUntil.Some? && today < after.memberships[m].keptUntil.value
            && after.memberships[m].keptUntil == RetainedUntil(EndedOnFor(after, m, today), months)
  {
    hide Ended, EndedOnFor, RetainedUntil;
    var after := Next(db, DoSetRetention(account, months), today);
    SettledRowKeeps(db, m, today);
    SettledIsSettled(db, m, today);
    EndedOnBySameRows(db, after, m, today);
  }

  lemma EndedOnBySameRows(db: Db, after: Db, m: MembershipId, today: Day)
    requires m in db.memberships && m in after.memberships
    requires after.assignments == db.assignments && after.memberships[m].revokedOn == db.memberships[m].revokedOn
    ensures EndedOnFor(after, m, today) == EndedOnFor(db, m, today)
  {
    assert HeldEnds(after, m) == HeldEnds(db, m);
    assert RevocationDays(after, m) == RevocationDays(db, m);
  }

  /** Active memberships, and everyone else's, are left alone. */
  lemma SettingLeavesOthers(db: Db, account: AccountId, months: RetentionMonths, today: Day, m: MembershipId)
    requires Linked(db) && m in db.memberships
    requires db.memberships[m].account != account || !Ended(db, m, today)
    ensures Next(db, DoSetRetention(account, months), today).memberships[m] == db.memberships[m]
  {
    hide Ended, EffectiveKeepUntil, KeepUntil, EndedOnFor;
  }

  // The end date

  /** `m` held or was booked something, and all of it is over: revoked by then, or ended. */
  predicate AllOver(db: Db, m: MembershipId, day: Day) {
    && (exists a :: a in db.assignments && db.assignments[a].membership == m)
    && (forall a :: a in db.assignments && db.assignments[a].membership == m ==> Over(db.assignments[a], day))
  }

  predicate Over(a: Assignment, day: Day) {
    if a.Revoked() then a.revokedOn.value <= day else a.period.ends <= day
  }

  lemma EndedIsAllOver(db: Db, m: MembershipId, today: Day)
    requires Sound(db, today) && m in db.memberships && Ended(db, m, today)
    requires exists a :: a in db.assignments && db.assignments[a].membership == m
    ensures AllOver(db, m, today)
  {
    hide HandoverPeriod, GrantsSound;
  }

  lemma HeldEndsAreOver(db: Db, m: MembershipId, day: Day)
    requires AllOver(db, m, day)
    ensures forall d :: d in HeldEnds(db, m) || d in RevocationDays(db, m) ==> d <= day
    ensures HeldEnds(db, m) == {} ==>
              && RevocationDays(db, m) != {}
              && forall a :: a in db.assignments && db.assignments[a].membership == m ==> db.assignments[a].Revoked()
  {
    forall a | a in db.assignments && db.assignments[a].membership == m
      ensures db.assignments[a].Held() ==> db.assignments[a].HeldUntil() in HeldEnds(db, m)
      ensures db.assignments[a].Revoked() ==> db.assignments[a].revokedOn.value in RevocationDays(db, m)
    {
    }
  }

  /** A later revocation of a role that was over moves no end. */
  lemma OverRoleKeepsItsEnd(a: Assignment, now: Assignment, day: Day, today: Day)
    requires Over(a, day) && day <= today && SameOrRevoked(a, now, today)
    ensures Over(now, today) && now.HeldUntil() == a.HeldUntil() && now.Held() == a.Held()
    ensures a.Revoked() ==> now == a
  {
  }

  ghost predicate NoNewRoles(db: Db, after: Db, m: MembershipId) {
    forall a :: a in after.assignments && after.assignments[a].membership == m ==> a in db.assignments
  }

  lemma EndDateStep(db: Db, after: Db, m: MembershipId, day: Day, today: Day)
    requires Linked(db) && m in db.memberships && AllOver(db, m, day) && day <= today
    requires Evolves(db, after, today) && NoNewRoles(db, after, m)
    ensures AllOver(after, m, today)
    ensures HeldEnds(after, m) == HeldEnds(db, m)
    ensures HeldEnds(db, m) == {} ==> RevocationDays(after, m) == RevocationDays(db, m)
  {
    hide GrantsEvolve, MembershipsEvolve, Linked;
    HeldEndsAreOver(db, m, day);
    forall a | a in db.assignments && db.assignments[a].membership == m
      ensures Over(after.assignments[a], today)
      ensures after.assignments[a].HeldUntil() == db.assignments[a].HeldUntil()
      ensures after.assignments[a].Held() == db.assignments[a].Held()
      ensures db.assignments[a].Revoked() ==> after.assignments[a] == db.assignments[a]
    {
      OverRoleKeepsItsEnd(db.assignments[a], after.assignments[a], day, today);
    }
    SameHeldEnds(db, after, m);
  }

  lemma SameHeldEnds(db: Db, after: Db, m: MembershipId)
    requires forall a :: a in db.assignments && db.assignments[a].membership == m ==>
               && a in after.assignments && after.assignments[a].membership == m
               && after.assignments[a].HeldUntil() == db.assignments[a].HeldUntil()
               && after.assignments[a].Held() == db.assignments[a].Held()
               && (db.assignments[a].Revoked() ==> after.assignments[a] == db.assignments[a])
    requires NoNewRoles(db, after, m)
    requires forall a :: a in after.assignments && a in db.assignments ==>
               after.assignments[a].membership == db.assignments[a].membership
    requires HeldEnds(db, m) == {} ==>
               forall a :: a in db.assignments && db.assignments[a].membership == m ==> db.assignments[a].Revoked()
    ensures HeldEnds(after, m) == HeldEnds(db, m)
    ensures HeldEnds(db, m) == {} ==> RevocationDays(after, m) == RevocationDays(db, m)
  {
    forall d ensures d in HeldEnds(after, m) <==> d in HeldEnds(db, m) {
      if d in HeldEnds(db, m) {
        var a :| a in db.assignments && db.assignments[a].membership == m && db.assignments[a].Held()
              && db.assignments[a].HeldUntil() == d;
        assert after.assignments[a].Held() && after.assignments[a].HeldUntil() == d;
      }
    }
  }

  lemma {:induction false} RunKeepsAssignments(db: Db, moves: seq<Move>, a: AssignmentId)
    requires Linked(db) && a in db.assignments
    ensures a in Run(db, moves).assignments
    ensures Run(db, moves).assignments[a].membership == db.assignments[a].membership
    decreases |moves|
  {
    hide Next;
    if moves != [] {
      StepEvolves(db, moves[0].step, moves[0].day);
      RunKeepsAssignments(Next(db, moves[0].step, moves[0].day), moves[1..], a);
    }
  }

  lemma {:induction false} EndDateRun(db: Db, moves: seq<Move>, m: MembershipId, day: Day)
    requires Linked(db) && m in db.memberships && AllOver(db, m, day) && DaysRise(moves, day)
    requires NoNewRoles(db, Run(db, moves), m)
    ensures var after := Run(db, moves);
            && m in after.memberships
            && AllOver(after, m, LastDay(moves, day))
            && HeldEnds(after, m) == HeldEnds(db, m)
            && (HeldEnds(db, m) == {} ==> RevocationDays(after, m) == RevocationDays(db, m))
    decreases |moves|
  {
    hide Next, AllOver, HeldEnds, RevocationDays, Linked;
    if moves != [] {
      var next := Next(db, moves[0].step, moves[0].day);
      StepEvolves(db, moves[0].step, moves[0].day);
      forall a | a in next.assignments && next.assignments[a].membership == m ensures a in db.assignments {
        RunKeepsAssignments(next, moves[1..], a);
      }
      EndDateStep(db, next, m, day, moves[0].day);
      EndDateRun(next, moves[1..], m, moves[0].day);
    }
  }

  /**
   The end date is a fact of the past: a membership that has ended with at least one role keeps
   its end date whatever happens later, revocations of its ended roles included, and however
   late it is read, as long as it is given no new role; and it stays ended.
   */
  lemma EndDateIsAFactOfThePast(db: Db, m: MembershipId, today: Day, moves: seq<Move>, on: Day)
    requires Linked(db) && Sound(db, today) && m in db.memberships && Ended(db, m, today)
    requires exists a :: a in db.assignments && db.assignments[a].membership == m
    requires DaysRise(moves, today) && LastDay(moves, today) <= on
    requires NoNewRoles(db, Run(db, moves), m)
    ensures m in Run(db, moves).memberships && Ended(Run(db, moves), m, on)
    ensures EndedOnFor(Run(db, moves), m, on) == EndedOnFor(db, m, today) <= today
  {
    hide Sound;
    var after := Run(db, moves);
    EndedIsAllOver(db, m, today);
    EndDateRun(db, moves, m, today);
    HeldEndsAreOver(db, m, today);
    HeldEndsAreOver(after, m, LastDay(moves, today));
    DaysOnlyRise(moves, today);
  }

  lemma {:induction false} DaysOnlyRise(moves: seq<Move>, from: Day)
    requires DaysRise(moves, from)
    ensures from <= LastDay(moves, from)
    decreases |moves|
  {
    if moves != [] { DaysOnlyRise(moves[1..], moves[0].day); }
  }
}
