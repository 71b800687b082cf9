/** The last-admin safeguard and the handover sweep over whole runs of transactions. */
module Coverage {
  import opened Base
  import opened Calendar
  import opened Periods
  import opened Access
  import opened Rules
  import opened Rows
  import opened Transactions
  import opened Authority

  // The last-admin safeguard

  function RemovalOf(s: Step): Removal
    requires Revokes(s)
  {
    if s.DoRevokeAssignment? then OneAssignment(s.id) else WholeMembership(s.membership)
  }

  function Confirmed(s: Step, confirm: bool): Step
    requires Revokes(s)
  {
    if s.DoRevokeAssignment? then DoRevokeAssignment(s.tenant, s.actor, s.id, confirm)
    else DoRevokeMembership(s.tenant, s.actor, s.membership, confirm)
  }

  /**
   The rows the safeguard counts as removed are the rows the cascade really ends: afterwards a
   row covers a day exactly when it did before and was not named as removed.
   */
  lemma RevocationEndsExactly(db: Db, s: Step, today: Day, tenant: TenantId, a: AssignmentId, day: Day)
    requires Linked(db) && Revokes(s) && Outcome(db, s, today).Ok?
    ensures Covers(Next(db, s, today), tenant, a, day)
       <==> Covers(db, tenant, a, day) && !RemovalOf(s).Removes(a, db.assignments[a].membership)
  {
    hide LeavesNoAdmin, RevokedRow, IsAdminOn, HandoverPeriod;
    if s.DoRevokeMembership? {
      CascadeEnds(db, s, today, tenant, a, day);
    }
  }

  lemma CascadeEnds(db: Db, s: Step, today: Day, tenant: TenantId, a: AssignmentId, day: Day)
    requires Linked(db) && s.DoRevokeMembership? && Outcome(db, s, today).Ok?
    ensures Covers(Next(db, s, today), tenant, a, day)
       <==> Covers(db, tenant, a, day) && db.assignments[a].membership != s.membership
  {
    hide LeavesNoAdmin, RevokedRow, IsAdminOn, StillCounts;
    var cut := db.(assignments := RevokeAll(db, s.membership, today));
    RevokedRowKeeps(db, cut, s.membership, today);
  }

  lemma AdminsAfterRevocation(db: Db, s: Step, today: Day, tenant: TenantId, day: Day)
    requires Linked(db) && Revokes(s) && Outcome(db, s, today).Ok?
    ensures HasAdminOn(Next(db, s, today), tenant, day) <==> CoveredBy(db, tenant, RemovalOf(s), false, day)
  {
    hide Next, Covers, Outcome;
    forall a { RevocationEndsExactly(db, s, today, tenant, a, day); }
  }

  /**
   The safeguard is exact over what the revocation really does: a revocation that would
   otherwise go through is refused unconfirmed if and only if some day from today on loses its
   last administrator by it.
   */
  lemma RefusedExactlyWhenADayIsLost(db: Db, s: Step, today: Day)
    requires Linked(db) && Revokes(s) && Outcome(db, Confirmed(s, true), today).Ok?
    ensures Outcome(db, Confirmed(s, false), today) == Err(WouldLeaveNoAdmin)
       <==> exists day: Day :: today <= day && HasAdminOn(db, s.tenant, day)
                            && !HasAdminOn(Next(db, Confirmed(s, true), today), s.tenant, day)
  {
    hide Next, HasAdminOn, CoveredBy, RevokedRow, IsAdminOn, RevokeAll, RevokeGrants;
    var removal := RemovalOf(s);
    assert Outcome(db, Confirmed(s, false), today) == Err(WouldLeaveNoAdmin)
      <==> LeavesNoAdmin(db, s.tenant, removal, today);
    forall day: Day
      ensures !HasAdminOn(Next(db, Confirmed(s, true), today), s.tenant, day)
         <==> !CoveredBy(db, s.tenant, removal, false, day)
      ensures HasAdminOn(db, s.tenant, day)
         <==> CoveredBy(db, s.tenant, removal, true, day) || CoveredBy(db, s.tenant, removal, false, day)
    {
      AdminsAfterRevocation(db, Confirmed(s, true), today, s.tenant, day);
      CoveredEitherWay(db, s.tenant, removal, day);
    }
  }

  lemma CoveredEitherWay(db: Db, tenant: TenantId, removal: Removal, day: Day)
    ensures HasAdminOn(db, tenant, day)
       <==> CoveredBy(db, tenant, removal, true, day) || CoveredBy(db, tenant, removal, false, day)
  {
    if a :| Covers(db, tenant, a, day) {
      var gone := removal.Removes(a, db.assignments[a].membership);
      assert CoveredBy(db, tenant, removal, gone, day);
    }
  }

  predicate Unconfirmed(s: Step) { Revokes(s) ==> !s.confirm }

  lemma GrowsKeepsCover(db: Db, after: Db, tenant: TenantId, a: AssignmentId, day: Day, today: Day)
    requires Grows(db, after) && Evolves(db, after, today) && Covers(db, tenant, a, day)
    ensures Covers(after, tenant, a, day)
  {
  }

  /** No unconfirmed transaction takes an administrator from any day still to come. */
  lemma AdminDaysStepKept(db: Db, s: Step, today: Day, tenant: TenantId, day: Day)
    requires Linked(db) && Unconfirmed(s) && today <= day && HasAdminOn(db, tenant, day)
    ensures HasAdminOn(Next(db, s, today), tenant, day)
  {
    hide Next, Covers, Outcome, Grows, Evolves;
    if !Revokes(s) {
      var a :| Covers(db, tenant, a, day);
      StepEvolves(db, s, today);
      OthersGrow(db, s, today);
      GrowsKeepsCover(db, Next(db, s, today), tenant, a, day, today);
    } else if Outcome(db, s, today).Ok? {
      AdminsAfterRevocation(db, s, today, tenant, day);
      CoveredEitherWay(db, tenant, RemovalOf(s), day);
      NotRefused(db, s, today);
      if tenant != s.tenant { OtherTenantUntouched(db, s, today, tenant, day); }
    } else {
      RefusedChangesNothing(db, s, today);
    }
  }

  lemma NotRefused(db: Db, s: Step, today: Day)
    requires Linked(db) && Revokes(s) && !s.confirm && Outcome(db, s, today).Ok?
    ensures !LeavesNoAdmin(db, s.tenant, RemovalOf(s), today)
  {
    hide LeavesNoAdmin, IsAdminOn, RevokedRow, RevokeAll;
  }

  lemma OtherTenantUntouched(db: Db, s: Step, today: Day, tenant: TenantId, day: Day)
    requires Linked(db) && Revokes(s) && Outcome(db, s, today).Ok? && tenant != s.tenant
    ensures !CoveredBy(db, tenant, RemovalOf(s), true, day)
  {
    hide LeavesNoAdmin, IsAdminOn, RevokedRow, RevokeAll;
  }

  /**
   Over every run without a confirmed removal, the days from the run's last date on that have
   an administrator only become more.
   */
  lemma {:induction false} AdminDaysNeverShrink(db: Db, moves: seq<Move>, from: Day, tenant: TenantId, day: Day)
    requires Linked(db) && DaysRise(moves, from) && LastDay(moves, from) <= day
    requires forall i :: 0 <= i < |moves| ==> Unconfirmed(moves[i].step)
    requires HasAdminOn(db, tenant, day)
    ensures HasAdminOn(Run(db, moves), tenant, day)
    decreases |moves|
  {
    hide Next, HasAdminOn;
    if moves != [] {
      LastDayRises(moves, from);
      StepEvolves(db, moves[0].step, moves[0].day);
      AdminDaysStepKept(db, moves[0].step, moves[0].day, tenant, day);
      AdminDaysNeverShrink(Next(db, moves[0].step, moves[0].day), moves[1..], moves[0].day, tenant, day);
    }
  }

  lemma {:induction false} LastDayRises(moves: seq<Move>, from: Day)
    requires DaysRise(moves, from)
    ensures from <= LastDay(moves, from) && (moves != [] ==> moves[0].day <= LastDay(moves, from))
    decreases |moves|
  {
    if moves != [] { LastDayRises(moves[1..], moves[0].day); }
  }

  // The handover sweep

  /** `a` cannot become a candidate of the FAU's sweep of the day again. */
  predicate SweptOver(db: Db, tenant: TenantId, a: AssignmentId, on: Day) {
    && a in db.assignments
    && (|| a in db.grants
        || db.assignments[a].Revoked()
        || !OpenWindow(db.assignments[a], on)
        || !(db.assignments[a].membership in db.memberships
             && db.memberships[db.assignments[a].membership].tenant == tenant
             && db.memberships[db.assignments[a].membership].account in db.accounts
             && db.accounts[db.memberships[db.assignments[a].membership].account].usable))
  }

  /** A window that is open later was open on every day since the role ended. */
  lemma WindowWasOpen(a: Assignment, day: Day, on: Day)
    requires OpenWindow(a, on) && a.period.ends <= day <= on
    ensures OpenWindow(a, day)
  {
    hide HandoverPeriod;
  }

  /**
   A sweep dated `today`, made when it is already `day`, settles every role that was over by
   `today` for every day from then on.
   */
  lemma SweepSweepsOver(db: Db, tenant: TenantId, today: Day, day: Day, on: Day, a: AssignmentId)
    requires Linked(db) && Sound(db, day) && today <= day <= on
    requires tenant in db.tenants && db.tenants[tenant].status.Active? && a in db.assignments
    requires OpenWindow(db.assignments[a], on) ==> db.assignments[a].period.ends <= today
    ensures SweptOver(Next(db, DoSweepHandover(tenant), today), tenant, a, on)
  {
    hide HandoverPeriod, GrantsSound;
    var row := db.assignments[a];
    if OpenWindow(row, on) {
      WindowWasOpen(row, today, on);
      WindowWasOpen(row, day, on);
      if a in Candidates(db, tenant, today) {
        assert a in NewGrants(db, Candidates(db, tenant, today));
      } else {
        assert db.memberships[row.membership].revokedOn.Some? ==> Spent(db, row.membership, day);
      }
    }
  }

  /** No transaction, whatever its day, makes such a row a candidate of that day. */
  lemma SweptOverStays(db: Db, s: Step, day: Day, tenant: TenantId, a: AssignmentId, on: Day)
    requires Linked(db) && SweptOver(db, tenant, a, on)
    ensures SweptOver(Next(db, s, day), tenant, a, on)
  {
    hide Next, HandoverPeriod;
    StepEvolves(db, s, day);
  }

  lemma {:induction false} SweptOverRun(db: Db, moves: seq<Move>, tenant: TenantId, a: AssignmentId, on: Day)
    requires Linked(db) && SweptOver(db, tenant, a, on)
    ensures SweptOver(Run(db, moves), tenant, a, on)
    decreases |moves|
  {
    hide Next, SweptOver;
    if moves != [] {
      StepEvolves(db, moves[0].step, moves[0].day);
      SweptOverStays(db, moves[0].step, moves[0].day, tenant, a, on);
      SweptOverRun(Next(db, moves[0].step, moves[0].day), moves[1..], tenant, a, on);
    }
  }

  /**
   A second sweep creates no grant for any role the first one saw, or on a later day any that
   was over by then, whatever transactions run in between: revocations, reopenings and other
   sweeps included.
   */
  lemma SecondSweepCreatesNone(db: Db, tenant: TenantId, moves: seq<Move>, today: Day, on: Day, a: AssignmentId)
    requires Linked(db) && Sound(db, today) && tenant in db.tenants && db.tenants[tenant].status.Active?
    requires today <= on && a in db.assignments && (on == today || db.assignments[a].period.ends <= today)
    ensures a !in Candidates(Run(Next(db, DoSweepHandover(tenant), today), moves), tenant, on)
  {
    hide Next, HandoverPeriod;
    StepEvolves(db, DoSweepHandover(tenant), today);
    SweepSweepsOver(db, tenant, today, today, on, a);
    SweptOverRun(Next(db, DoSweepHandover(tenant), today), moves, tenant, a, on);
  }

  /** A sweep leaves its own FAU nothing to do, and gives no other FAU more. */
  lemma SweepLeavesNone(db: Db, tenant: TenantId, today: Day, other: TenantId, a: AssignmentId)
    requires Linked(db)
    ensures var after := Next(db, DoSweepHandover(tenant), today);
            && (Candidate(after, other, a, today) ==> Candidate(db, other, a, today))
            && (tenant in db.tenants && db.tenants[tenant].status.Active? ==> !Candidate(after, tenant, a, today))
  {
    hide HandoverPeriod, OpenWindow;
    var after := Next(db, DoSweepHandover(tenant), today);
    if Candidate(after, tenant, a, today) && Candidate(db, tenant, a, today) {
      assert a in Candidates(db, tenant, today);
    }
  }

  lemma NoneAfterSweep(db: Db, tenant: TenantId, today: Day)
    requires Linked(db) && tenant in db.tenants && db.tenants[tenant].status.Active?
    ensures Candidates(Next(db, DoSweepHandover(tenant), today), tenant, today) == {}
  {
    hide Next, Candidate;
    forall a { SweepLeavesNone(db, tenant, today, tenant, a); }
  }

  lemma NothingToSweep(db: Db, tenant: TenantId, today: Day)
    requires Linked(db) && Candidates(db, tenant, today) == {}
    ensures Next(db, DoSweepHandover(tenant), today) == db
  {
    hide Candidates;
    assert NewGrants(db, {}) == db.grants;
  }

  /** With nothing in between, the second sweep changes nothing at all. */
  lemma SweepIsIdempotent(db: Db, tenant: TenantId, today: Day)
    requires Linked(db)
    ensures var once := Next(db, DoSweepHandover(tenant), today);
            Linked(once) && Next(once, DoSweepHandover(tenant), today) == once
  {
    hide Next, Candidates;
    var once := Next(db, DoSweepHandover(tenant), today);
    StepEvolves(db, DoSweepHandover(tenant), today);
    if tenant in db.tenants && db.tenants[tenant].status.Active? {
      NoneAfterSweep(db, tenant, today);
      NothingToSweep(once, tenant, today);
    } else {
      IdleSweep(db, tenant, today);
    }
  }

  lemma IdleSweep(db: Db, tenant: TenantId, today: Day)
    requires Linked(db) && (tenant in db.tenants ==> !db.tenants[tenant].status.Active?)
    ensures Next(db, DoSweepHandover(tenant), today) == db
  {
    hide Candidates;
  }

  /** The unlocked scan misses no FAU that has a role to hand over when it is made. */
  lemma ScanFindsEveryTenant(db: Db, tenant: TenantId, a: AssignmentId, today: Day)
    requires Candidate(db, tenant, a, today)
    ensures tenant in ScannedTenants(db, today)
  {
    hide HandoverPeriod;
    assert db.memberships[db.assignments[a].membership].tenant == tenant;
  }

  /** Every active FAU with a role to hand over is still to be visited. */
  ghost predicate LeftToDo(db: Db, todo: set<TenantId>, today: Day) {
    forall t, a :: t in db.tenants && db.tenants[t].status.Active? && Candidate(db, t, a, today) ==> t in todo
  }

  lemma ScanIsComplete(db: Db, today: Day)
    ensures LeftToDo(db, ScannedTenants(db, today), today)
  {
    hide OpenWindow;
    forall t, a | Candidate(db, t, a, today) ensures t in ScannedTenants(db, today) {
      ScanFindsEveryTenant(db, t, a, today);
    }
  }

  lemma OneTenantDone(db: Db, todo: set<TenantId>, tenant: TenantId, today: Day)
    requires Linked(db) && LeftToDo(db, todo, today)
    ensures LeftToDo(Next(db, DoSweepHandover(tenant), today), todo - {tenant}, today)
  {
    hide Next, Candidate;
    StepEvolves(db, DoSweepHandover(tenant), today);
    var after := Next(db, DoSweepHandover(tenant), today);
    forall t, a | t in after.tenants && after.tenants[t].status.Active? && Candidate(after, t, a, today)
      ensures t in todo - {tenant}
    {
      SweepLeavesNone(db, tenant, today, t, a);
    }
  }

  // Access after a removal

  /** `v` is how the database shows assignment `a`. */
  predicate ShownAs(db: Db, a: AssignmentId, v: AssignmentView) {
    && a in db.assignments
    && v == AssignmentView(db.assignments[a].capability, db.assignments[a].period, db.assignments[a].Revoked())
  }

  predicate GrantShownAs(db: Db, a: AssignmentId, v: GrantView) {
    a in db.grants && v == GrantView(db.grants[a].period, db.grants[a].revoked)
  }

  /**
   The access check of a removed person who has returned: from the roles and grants they held
   at the removal they get no capability and no handover authority, on any day after it.
   */
  lemma ReturnerGetsNothingBack(db: Db, s: Step, today: Day, moves: seq<Move>, on: Day,
                                held: seq<AssignmentId>, views: seq<AssignmentView>,
                                granted: seq<AssignmentId>, grants: seq<GrantView>, standing: Standing)
    requires Linked(db) && Sound(db, today)
    requires s.DoRevokeMembership? && Outcome(db, s, today).Ok?
    requires DaysRise(moves, today) && today <= on
    requires forall a :: a in held || a in granted ==> a in db.assignments && db.assignments[a].membership == s.membership
    requires var after := Run(Next(db, s, today), moves);
             && |views| == |held| && (forall i :: 0 <= i < |held| ==> ShownAs(after, held[i], views[i]))
             && |grants| == |granted| && (forall i :: 0 <= i < |granted| ==> GrantShownAs(after, granted[i], grants[i]))
    ensures EvaluateAccess(standing, views, grants, on).capability.NoCapability?
    ensures !EvaluateAccess(standing, views, grants, on).handover
  {
    hide Next, HandoverPeriod, StillCounts, Outcome;
    forall v | v in views ensures !v.ValidOn(on) {
      var i :| 0 <= i < |views| && views[i] == v;
      NoResurrection(db, s, today, moves, held[i], on);
    }
    forall g | g in grants ensures !g.ValidOn(on) {
      var i :| 0 <= i < |grants| && grants[i] == g;
      NoResurrection(db, s, today, moves, granted[i], on);
    }
  }
}
