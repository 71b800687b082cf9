/** What every run of membership transactions keeps, and what none of them can bring back. */
module Authority {
  import opened Base
  import opened Calendar
  import opened Periods
  import opened Access
  import opened Retention
  import opened Rules
  import opened Rows
  import opened Transactions

  // One step, seen from the assignments and grants

  /** An assignment after a step: as it was, or revoked today. */
  predicate SameOrRevoked(was: Assignment, now: Assignment, today: Day) {
    now == was || (!was.Revoked() && now == was.(revokedOn := Some(today)))
  }

  ghost predicate AssignmentsEvolve(db: Db, after: Db, today: Day) {
    && (forall a :: a in db.assignments ==>
          a in after.assignments && SameOrRevoked(db.assignments[a], after.assignments[a], today))
    && (forall a :: a in after.assignments && a !in db.assignments ==>
          && !after.assignments[a].Revoked()
          && after.assignments[a].membership in after.memberships
          && after.memberships[after.assignments[a].membership].revokedOn.None?)
  }

  ghost predicate GrantsEvolve(db: Db, after: Db, today: Day) {
    && (forall g :: g in db.grants ==>
          && g in after.grants && after.grants[g].period == db.grants[g].period
          && (db.grants[g].revoked ==> after.grants[g].revoked)
          && ((g in after.assignments && g in db.assignments && after.assignments[g] != db.assignments[g]) ==>
                after.grants[g].revoked))
    && (forall g :: g in after.grants && g !in db.grants ==>
          && (exists t :: Candidate(db, t, g, today))
          && g in after.assignments && after.assignments[g] == db.assignments[g]
          && after.grants[g] == Grant(HandoverPeriod(db.assignments[g].period.ends).value, false))
  }

  /** Nothing of a revoked membership counts any more: neither a running role nor a window or grant. */
  predicate Spent(db: Db, m: MembershipId, today: Day) {
    forall a :: a in db.assignments && db.assignments[a].membership == m ==>
                  !StillCounts(db.assignments[a], today) && (a in db.grants ==> db.grants[a].revoked)
  }

  ghost predicate MembershipsEvolve(db: Db, after: Db, today: Day) {
    && after.tenants == db.tenants
    && (forall x :: x in db.accounts ==> x in after.accounts && after.accounts[x].usable == db.accounts[x].usable)
    && (forall m :: m in db.memberships ==>
          && m in after.memberships
          && after.memberships[m].tenant == db.memberships[m].tenant
          && after.memberships[m].account == db.memberships[m].account
          && (after.memberships[m].revokedOn == db.memberships[m].revokedOn
              || after.memberships[m].revokedOn.None?
              || (after.memberships[m].revokedOn == Some(today) && Spent(after, m, today))))
    && (forall m :: m in after.memberships && m !in db.memberships ==> after.memberships[m].revokedOn.None?)
  }

  /** Nothing that counts is taken away: rows stay as they are and current memberships stay current. */
  ghost predicate Grows(db: Db, after: Db) {
    && (forall a :: a in db.assignments ==> a in after.assignments && after.assignments[a] == db.assignments[a])
    && (forall g :: g in db.grants ==> g in after.grants && after.grants[g] == db.grants[g])
    && (forall m :: m in db.memberships && db.memberships[m].revokedOn.None? ==>
          m in after.memberships && after.memberships[m].revokedOn.None?)
  }

  ghost predicate Evolves(db: Db, after: Db, today: Day) {
    && Linked(after)
    && AssignmentsEvolve(db, after, today)
    && GrantsEvolve(db, after, today)
    && MembershipsEvolve(db, after, today)
  }

  /** Settling a profile touches the profile only. */
  lemma SettledRowKeeps(db: Db, m: MembershipId, today: Day)
    requires Linked(db) && m in db.memberships
    ensures var row := SettledRow(db, m, today);
            && row.tenant == db.memberships[m].tenant && row.account == db.memberships[m].account
            && row.revokedOn == db.memberships[m].revokedOn && row.erased == db.memberships[m].erased
            && row.tenant in db.tenants && row.account in db.accounts
  {
    hide SettleOutcome, EffectiveKeepUntil;
  }

  lemma GrantRoleEvolves(db: Db, s: Step, today: Day)
    requires Linked(db) && s.DoGrantRole?
    ensures Evolves(db, Next(db, s, today), today) && Grows(db, Next(db, s, today))
  {
    hide SettledRow, Ended, IsAdminOn, UsableIn, AssignmentsEvolve, GrantsEvolve, MembershipsEvolve, Linked;
    var r := GrantRole(db, s.tenant, s.actor, s.target, s.id, s.role, s.capability, s.period, today);
    if r.Ok? {
      SettledRowKeeps(db, s.target, today);
      SeatParts(db, r.value, s.target, today);
    } else {
      SeatParts(db, db, s.target, today);
    }
  }

  lemma SeatEvolves(db: Db, s: Step, today: Day)
    requires Linked(db) && s.DoSeat?
    ensures Evolves(db, Next(db, s, today), today) && Grows(db, Next(db, s, today))
  {
    hide SettledRow, Ended, SettleOutcome, Seated, AssignmentsEvolve, GrantsEvolve, MembershipsEvolve, Linked;
    var r := Seat(db, s.tenant, s.account, s.expected, s.profile, s.offers, today);
    if r.Ok? {
      SeatedSpec(s.offers, s.expected, db.assignments);
      if s.expected in db.memberships { SettledRowKeeps(db, s.expected, today); }
      SeatParts(db, r.value, s.expected, today);
    } else {
      SeatParts(db, db, s.expected, today);
    }
  }

  /** Adding assignments to a membership that ends up current, whatever its profile becomes. */
  lemma SeatParts(db: Db, after: Db, m: MembershipId, today: Day)
    requires Linked(db)
    requires after.tenants == db.tenants && after.accounts == db.accounts && after.grants == db.grants
    requires forall a :: a in db.assignments ==> a in after.assignments && after.assignments[a] == db.assignments[a]
    requires forall a :: a in after.assignments && a !in db.assignments ==>
                           !after.assignments[a].Revoked() && after.assignments[a].membership == m
    requires || (after.memberships == db.memberships && after.assignments == db.assignments)
             || (&& m in after.memberships && after.memberships[m].revokedOn.None?
                 && after.memberships[m].tenant in db.tenants && after.memberships[m].account in db.accounts
                 && (m in db.memberships ==>
                       && after.memberships[m].tenant == db.memberships[m].tenant
                       && after.memberships[m].account == db.memberships[m].account)
                 && after.memberships == db.memberships[m := after.memberships[m]])
    ensures Evolves(db, after, today) && Grows(db, after)
  {
  }

  lemma RevokeAssignmentEvolves(db: Db, s: Step, today: Day)
    requires Linked(db) && s.DoRevokeAssignment?
    ensures Evolves(db, Next(db, s, today), today)
  {
    hide IsAdminOn, LeavesNoAdmin, Linked, Evolves, RevokeGrants, Belongs;
    var r := RevokeAssignment(db, s.tenant, s.actor, s.id, s.confirm, today);
    if r.Ok? {
      OneRevoked(db, r.value, s.id, today);
    } else {
      ProfilesEvolve(db, db, today);
    }
  }

  /** Rows in `gone` may be revoked today, and every grant from one of them is. */
  lemma GoneRows(db: Db, after: Db, gone: set<AssignmentId>, today: Day)
    requires after.assignments.Keys == db.assignments.Keys && after.grants == RevokeGrants(db, gone)
    requires forall a :: a in db.assignments ==>
               || after.assignments[a] == db.assignments[a]
               || (&& a in gone && !db.assignments[a].Revoked()
                   && after.assignments[a] == db.assignments[a].(revokedOn := Some(today)))
    ensures AssignmentsEvolve(db, after, today) && GrantsEvolve(db, after, today)
  {
    hide HandoverPeriod, Candidate;
  }

  lemma RevokedKeys(db: Db, gone: set<AssignmentId>)
    ensures RevokeGrants(db, gone).Keys == db.grants.Keys
  {
  }

  lemma OneRevoked(db: Db, after: Db, id: AssignmentId, today: Day)
    requires Linked(db) && id in db.assignments && !db.assignments[id].Revoked()
    requires after == db.(assignments := db.assignments[id := db.assignments[id].(revokedOn := Some(today))],
                          grants := RevokeGrants(db, {id}))
    ensures Evolves(db, after, today)
  {
    hide RevokeGrants, AssignmentsEvolve, GrantsEvolve, Spent;
    RevokedKeys(db, {id});
    GoneRows(db, after, {id}, today);
  }

  lemma RevokeMembershipEvolves(db: Db, s: Step, today: Day)
    requires Linked(db) && s.DoRevokeMembership?
    ensures Evolves(db, Next(db, s, today), today)
  {
    hide IsAdminOn, LeavesNoAdmin, RevokedRow, StillCounts, Evolves;
    var r := RevokeMembership(db, s.tenant, s.actor, s.membership, s.confirm, today);
    if r.Ok? {
      RevokedRowKeeps(db, db.(assignments := RevokeAll(db, s.membership, today)), s.membership, today);
      CascadeEvolves(db, r.value, s.membership, today);
    } else {
      ProfilesEvolve(db, db, today);
    }
  }

  lemma RevokedRowKeeps(db: Db, cut: Db, m: MembershipId, today: Day)
    requires m in db.memberships && Linked(cut) && m in cut.memberships
    ensures var row := RevokedRow(db, cut, m, today);
            && row.tenant == db.memberships[m].tenant && row.account == db.memberships[m].account
            && row.revokedOn == Some(today)
  {
    hide EffectiveKeepUntil, Ended;
  }

  /** What revoking a membership leaves of the rows the evolution is about. */
  ghost predicate Cascaded(db: Db, after: Db, m: MembershipId, today: Day) {
    && after.tenants == db.tenants && after.accounts == db.accounts
    && after.assignments == RevokeAll(db, m, today)
    && after.grants == RevokeGrants(db, AssignmentsOf(db, m))
    && m in db.memberships && m in after.memberships && after.memberships == db.memberships[m := after.memberships[m]]
    && after.memberships[m].tenant == db.memberships[m].tenant
    && after.memberships[m].account == db.memberships[m].account
    && after.memberships[m].revokedOn == Some(today)
  }

  lemma CascadeSpends(db: Db, after: Db, m: MembershipId, today: Day)
    requires Cascaded(db, after, m, today)
    ensures Spent(after, m, today)
  {
    hide HandoverPeriod;
    forall a | a in after.assignments && after.assignments[a].membership == m
      ensures !StillCounts(after.assignments[a], today) && (a in after.grants ==> after.grants[a].revoked)
    {
      assert after.assignments[a] == if StillCounts(db.assignments[a], today)
                                     then db.assignments[a].(revokedOn := Some(today)) else db.assignments[a];
    }
  }

  lemma CascadeRows(db: Db, after: Db, m: MembershipId, today: Day)
    requires Linked(db) && Cascaded(db, after, m, today)
    ensures Linked(after) && AssignmentsEvolve(db, after, today) && GrantsEvolve(db, after, today)
  {
    hide OpenWindow, RevokeGrants, AssignmentsEvolve, GrantsEvolve;
    GoneRows(db, after, AssignmentsOf(db, m), today);
    assert after.grants.Keys == db.grants.Keys by { RevokedKeys(db, AssignmentsOf(db, m)); }
  }

  lemma CascadeEvolves(db: Db, after: Db, m: MembershipId, today: Day)
    requires Linked(db) && Cascaded(db, after, m, today)
    ensures Evolves(db, after, today)
  {
    hide Spent, AssignmentsEvolve, GrantsEvolve, RevokeAll, RevokeGrants;
    CascadeSpends(db, after, m, today);
    CascadeRows(db, after, m, today);
  }

  /** A step that rewrites profiles and settings only. */
  lemma ProfilesEvolve(db: Db, after: Db, today: Day)
    requires Linked(db)
    requires after.tenants == db.tenants && after.assignments == db.assignments && after.grants == db.grants
    requires after.memberships.Keys == db.memberships.Keys
    requires forall x :: x in db.accounts ==> x in after.accounts && after.accounts[x].usable == db.accounts[x].usable
    requires forall m :: m in db.memberships ==>
               && after.memberships[m].tenant == db.memberships[m].tenant
               && after.memberships[m].account == db.memberships[m].account
               && after.memberships[m].revokedOn == db.memberships[m].revokedOn
    ensures Evolves(db, after, today) && Grows(db, after)
  {
  }

  lemma SweepEvolves(db: Db, s: Step, today: Day)
    requires Linked(db) && s.DoSweepHandover?
    ensures Evolves(db, Next(db, s, today), today) && Grows(db, Next(db, s, today))
  {
    hide HandoverPeriod, OpenWindow, UsableIn, StillCounts;
    forall a | a in Candidates(db, s.tenant, today) ensures Candidate(db, s.tenant, a, today) {}
  }

  lemma ClearEndedEvolves(db: Db, s: Step, today: Day)
    requires Linked(db) && s.DoClearEnded?
    ensures Evolves(db, Next(db, s, today), today) && Grows(db, Next(db, s, today))
  {
    hide SettledRow, Ended, Evolves, Unsettled, EndedIn;
    forall m | m in db.memberships { SettledRowKeeps(db, m, today); }
    ProfilesEvolve(db, Next(db, s, today), today);
  }

  lemma OwnRowKeeps(db: Db, account: AccountId, months: RetentionMonths, m: MembershipId, today: Day)
    requires Linked(db) && m in db.memberships
    ensures var now := Restamped(db, account, months, m, SettledOwn(db, account, m, today), today);
            && now.tenant == db.memberships[m].tenant && now.account == db.memberships[m].account
            && now.revokedOn == db.memberships[m].revokedOn
  {
    hide SettledRow, KeepUntil, EndedOnFor, Ended;
    SettledRowKeeps(db, m, today);
  }

  lemma SettingEvolves(db: Db, s: Step, today: Day)
    requires Linked(db) && s.DoSetRetention?
    ensures Evolves(db, Next(db, s, today), today) && Grows(db, Next(db, s, today))
  {
    hide SettledOwn, Evolves, Restamped;
    forall m | m in db.memberships { OwnRowKeeps(db, s.account, s.months, m, today); }
    ProfilesEvolve(db, Next(db, s, today), today);
  }

  lemma EraseEvolves(db: Db, s: Step, today: Day)
    requires Linked(db) && s.DoErase?
    ensures Evolves(db, Next(db, s, today), today) && Grows(db, Next(db, s, today))
  {
    hide Evolves;
    ProfilesEvolve(db, Next(db, s, today), today);
  }

  lemma GroupEvolves(db: Db, s: Step, today: Day)
    requires Linked(db) && s.DoAddToGroup?
    ensures Evolves(db, Next(db, s, today), today) && Grows(db, Next(db, s, today))
  {
    hide Evolves, IsAdminOn, Ended, UsableIn;
    ProfilesEvolve(db, Next(db, s, today), today);
  }

  lemma AccountEvolves(db: Db, s: Step, today: Day)
    requires Linked(db) && s.DoOpenAccount?
    ensures Evolves(db, Next(db, s, today), today) && Grows(db, Next(db, s, today))
  {
    hide Evolves;
    ProfilesEvolve(db, Next(db, s, today), today);
  }

  /** Every transaction, refused or not. */
  lemma StepEvolves(db: Db, s: Step, today: Day)
    requires Linked(db)
    ensures Evolves(db, Next(db, s, today), today)
  {
    hide Next, Evolves;
    match s
    case DoGrantRole(_, _, _, _, _, _, _) => GrantRoleEvolves(db, s, today);
    case DoSeat(_, _, _, _, _) => SeatEvolves(db, s, today);
    case DoRevokeAssignment(_, _, _, _) => RevokeAssignmentEvolves(db, s, today);
    case DoRevokeMembership(_, _, _, _) => RevokeMembershipEvolves(db, s, today);
    case DoSweepHandover(_) => SweepEvolves(db, s, today);
    case DoClearEnded(_) => ClearEndedEvolves(db, s, today);
    case DoSetRetention(_, _) => SettingEvolves(db, s, today);
    case DoErase(_) => EraseEvolves(db, s, today);
    case DoAddToGroup(_, _, _, _) => GroupEvolves(db, s, today);
    case DoOpenAccount(_) => AccountEvolves(db, s, today);
  }

  lemma RefusedChangesNothing(db: Db, s: Step, today: Day)
    requires Linked(db) && Outcome(db, s, today).Err?
    ensures Next(db, s, today) == db
  {
    hide Outcome;
  }

  predicate Revokes(s: Step) { s.DoRevokeAssignment? || s.DoRevokeMembership? }

  lemma OthersGrow(db: Db, s: Step, today: Day)
    requires Linked(db) && !Revokes(s)
    ensures Grows(db, Next(db, s, today))
  {
    hide Next, Grows;
    match s
    case DoGrantRole(_, _, _, _, _, _, _) => GrantRoleEvolves(db, s, today);
    case DoSeat(_, _, _, _, _) => SeatEvolves(db, s, today);
    case DoSweepHandover(_) => SweepEvolves(db, s, today);
    case DoClearEnded(_) => ClearEndedEvolves(db, s, today);
    case DoSetRetention(_, _) => SettingEvolves(db, s, today);
    case DoErase(_) => EraseEvolves(db, s, today);
    case DoAddToGroup(_, _, _, _) => GroupEvolves(db, s, today);
    case DoOpenAccount(_) => AccountEvolves(db, s, today);
  }

  // Runs

  datatype Move = Move(step: Step, day: Day)

  /** The database after a run of transactions, in commit order. */
  ghost function Run(db: Db, moves: seq<Move>): (after: Db)
    requires Linked(db)
    ensures Linked(after)
    decreases |moves|
  {
    if moves == [] then db
    else
      StepEvolves(db, moves[0].step, moves[0].day);
      Run(Next(db, moves[0].step, moves[0].day), moves[1..])
  }

  /** The Oslo date never goes back. */
  ghost predicate DaysRise(moves: seq<Move>, from: Day) {
    moves == [] || (from <= moves[0].day && DaysRise(moves[1..], moves[0].day))
  }

  function LastDay(moves: seq<Move>, from: Day): Day {
    if moves == [] then from else LastDay(moves[1..], moves[0].day)
  }

  // Invariant

  /** Every grant comes from an admin-class role, runs that role's window, and dies with it. */
  predicate GrantsSound(db: Db) {
    forall g :: g in db.grants ==>
      && g in db.assignments && db.assignments[g].capability.Admin?
      && HandoverPeriod(db.assignments[g].period.ends) == Some(db.grants[g].period)
      && (!db.grants[g].revoked ==> !db.assignments[g].Revoked())
  }

  /** Revocations lie in the past, and a revoked membership holds nothing that still counts. */
  predicate RevocationsSettled(db: Db, today: Day) {
    && (forall a :: a in db.assignments && db.assignments[a].Revoked() ==> db.assignments[a].revokedOn.value <= today)
    && (forall m :: m in db.memberships && db.memberships[m].revokedOn.Some? ==>
          db.memberships[m].revokedOn.value <= today && Spent(db, m, today))
  }

  predicate Sound(db: Db, today: Day) {
    GrantsSound(db) && RevocationsSettled(db, today)
  }

  /** What no longer counts on a day never counts again. */
  lemma CountsNoMore(a: Assignment, day: Day, later: Day)
    requires day <= later && !StillCounts(a, day)
    ensures !StillCounts(a, later)
  {
    hide HandoverPeriod;
  }

  lemma GrantsStaySound(db: Db, after: Db, today: Day)
    requires Linked(db) && GrantsSound(db) && Evolves(db, after, today)
    ensures GrantsSound(after)
  {
    hide HandoverPeriod, StillCounts, MembershipsEvolve;
    forall g | g in after.grants
      ensures && g in after.assignments && after.assignments[g].capability.Admin?
              && HandoverPeriod(after.assignments[g].period.ends) == Some(after.grants[g].period)
              && (!after.grants[g].revoked ==> !after.assignments[g].Revoked())
    {
      assert g in db.grants || exists t :: Candidate(db, t, g, today);
    }
  }

  lemma SoundStep(db: Db, s: Step, day: Day, today: Day)
    requires Linked(db) && Sound(db, day) && day <= today
    ensures Linked(Next(db, s, today)) && Sound(Next(db, s, today), today)
  {
    hide Next, GrantsSound, Spent, GrantsEvolve, MembershipsEvolve;
    StepEvolves(db, s, today);
    var after := Next(db, s, today);
    GrantsStaySound(db, after, today);
    forall m | m in after.memberships && after.memberships[m].revokedOn.Some?
      ensures after.memberships[m].revokedOn.value <= today && Spent(after, m, today)
    {
      SpentStays(db, after, m, day, today);
    }
  }

  lemma SpentStays(db: Db, after: Db, m: MembershipId, day: Day, today: Day)
    requires Linked(db) && Sound(db, day) && day <= today && Evolves(db, after, today)
    requires m in after.memberships && after.memberships[m].revokedOn.Some?
    ensures after.memberships[m].revokedOn.value <= today && Spent(after, m, today)
  {
    hide HandoverPeriod, StillCounts, GrantsSound;
    if after.memberships[m].revokedOn == db.memberships[m].revokedOn {
      assert Spent(db, m, day);
      forall a | a in after.assignments && after.assignments[a].membership == m
        ensures !StillCounts(after.assignments[a], today) && (a in after.grants ==> after.grants[a].revoked)
      {
        CountsNoMore(db.assignments[a], day, today);
        RevokedDoesNotCount(db.assignments[a], after.assignments[a], today);
      }
    }
  }

  lemma RevokedDoesNotCount(a: Assignment, now: Assignment, today: Day)
    requires !StillCounts(a, today) && SameOrRevoked(a, now, today)
    ensures !StillCounts(now, today)
  {
    hide HandoverPeriod;
  }

  /** The invariant holds in every state a run can reach. */
  lemma {:induction false} SoundRun(db: Db, moves: seq<Move>, day: Day)
    requires Linked(db) && Sound(db, day) && DaysRise(moves, day)
    ensures Sound(Run(db, moves), LastDay(moves, day))
    decreases |moves|
  {
    hide Next, Sound;
    if moves != [] {
      SoundStep(db, moves[0].step, day, moves[0].day);
      SoundRun(Next(db, moves[0].step, moves[0].day), moves[1..], moves[0].day);
    }
  }

  // Nothing comes back

  /** `a` gives nothing from `day` on, and no grant from it does. */
  predicate Inert(db: Db, a: AssignmentId, day: Day) {
    && a in db.assignments && !StillCounts(db.assignments[a], day)
    && (a in db.grants ==> db.grants[a].revoked)
  }

  lemma InertStep(db: Db, a: AssignmentId, s: Step, day: Day, today: Day)
    requires Linked(db) && Inert(db, a, day) && day <= today
    ensures Inert(Next(db, s, today), a, day)
  {
    hide Next, HandoverPeriod;
    StepEvolves(db, s, today);
    if a in Next(db, s, today).grants && a !in db.grants {
      CountsNoMore(db.assignments[a], day, today);
    }
  }

  lemma {:induction false} InertRun(db: Db, a: AssignmentId, moves: seq<Move>, day: Day, from: Day)
    requires Linked(db) && Inert(db, a, day) && day <= from && DaysRise(moves, from)
    ensures Inert(Run(db, moves), a, day)
    decreases |moves|
  {
    hide Next, Inert;
    if moves != [] {
      StepEvolves(db, moves[0].step, moves[0].day);
      InertStep(db, a, moves[0].step, day, moves[0].day);
      InertRun(Next(db, moves[0].step, moves[0].day), a, moves[1..], day, moves[0].day);
    }
  }

  lemma InertGivesNothing(db: Db, a: AssignmentId, day: Day, on: Day)
    requires GrantsSound(db) && Inert(db, a, day) && day <= on
    ensures !db.assignments[a].ValidOn(on)
    ensures a in db.grants ==> !db.grants[a].ValidOn(on)
  {
    hide HandoverPeriod;
  }

  /** What a membership held when it was revoked gives nothing from that day on. */
  lemma RevokedIsInert(db: Db, s: Step, today: Day, a: AssignmentId)
    requires Linked(db) && Sound(db, today)
    requires s.DoRevokeMembership? && Outcome(db, s, today).Ok?
    requires a in db.assignments && db.assignments[a].membership == s.membership
    ensures Inert(Next(db, s, today), a, today)
  {
    hide HandoverPeriod, StillCounts, Evolves;
    StepEvolves(db, s, today);
    SoundStep(db, s, today, today);
    SpentAfterRevocation(db, s, today);
    EvolvesKeeps(db, Next(db, s, today), a, today);
  }

  /**
   A revoked membership gets nothing back: whatever transactions follow, reopening and any
   number of sweeps included, no assignment it held at the revocation is valid on any later
   day, and no handover grant from one is.
   */
  lemma NoResurrection(db: Db, s: Step, today: Day, moves: seq<Move>, a: AssignmentId, on: Day)
    requires Linked(db) && Sound(db, today)
    requires s.DoRevokeMembership? && Outcome(db, s, today).Ok?
    requires DaysRise(moves, today) && today <= on
    requires a in db.assignments && db.assignments[a].membership == s.membership
    ensures var after := Run(Next(db, s, today), moves);
            && a in after.assignments && !after.assignments[a].ValidOn(on)
            && (a in after.grants ==> !after.grants[a].ValidOn(on))
  {
    hide HandoverPeriod, StillCounts, Evolves;
    var next := Next(db, s, today);
    StepEvolves(db, s, today);
    SoundStep(db, s, today, today);
    RevokedIsInert(db, s, today, a);
    InertRun(next, a, moves, today, today);
    SoundRun(next, moves, today);
    InertGivesNothing(Run(next, moves), a, today, on);
  }

  lemma SpentAfterRevocation(db: Db, s: Step, today: Day)
    requires Linked(db) && s.DoRevokeMembership? && Outcome(db, s, today).Ok?
    ensures Spent(Next(db, s, today), s.membership, today)
  {
    hide IsAdminOn, LeavesNoAdmin, RevokedRow, HandoverPeriod;
  }

  lemma EvolvesKeeps(db: Db, after: Db, a: AssignmentId, today: Day)
    requires Evolves(db, after, today) && a in db.assignments
    ensures a in after.assignments && SameOrRevoked(db.assignments[a], after.assignments[a], today)
  {
  }
}
