/** The handover sweep over runs: what transactions between two sweeps, or a scan and its visits, can add. */
module SweepRuns {
  import opened Base
  import opened Calendar
  import opened Periods
  import opened Access
  import opened Rules
  import opened Rows
  import opened Transactions
  import opened Authority
  import opened Coverage
  import opened Effects

  // Late offers

  /** An offered admin role that is over, with its handover window still open. */
  predicate Late(o: Offer, today: Day) {
    && o.capability.Admin? && o.period.HasEndedBy(today)
    && HandoverPeriod(o.period.ends).Some? && !HandoverPeriod(o.period.ends).value.HasEndedBy(today)
  }

  /** The assignments a step would seat late in the FAU: a condition on what it offers. */
  function LateIds(s: Step, tenant: TenantId, today: Day): set<AssignmentId> {
    if s.DoSeat? && s.tenant == tenant then
      set i | 0 <= i < |s.offers| && Late(s.offers[i], today) :: s.offers[i].id
    else {}
  }

  /** Those of them an acceptance that goes through does seat. */
  ghost function SeatedBy(db: Db, s: Step, tenant: TenantId, today: Day): set<AssignmentId>
    requires Linked(db)
  {
    if Outcome(db, s, today).Ok? then LateIds(s, tenant, today) else {}
  }

  /** All that a run seats late. */
  ghost function SeatedLate(db: Db, moves: seq<Move>, tenant: TenantId): set<AssignmentId>
    requires Linked(db)
    decreases |moves|
  {
    if moves == [] then {}
    else
      StepEvolves(db, moves[0].step, moves[0].day);
      SeatedBy(db, moves[0].step, tenant, moves[0].day)
      + SeatedLate(Next(db, moves[0].step, moves[0].day), moves[1..], tenant)
  }

  predicate OnDay(moves: seq<Move>, today: Day) { forall i :: 0 <= i < |moves| ==> moves[i].day == today }

  /** What an acceptance leaves of the member it seats. */
  lemma SeatedMember(db: Db, s: Step, today: Day)
    requires Linked(db) && s.DoSeat? && Outcome(db, s, today).Ok?
    ensures var after := Next(db, s, today);
            && UsableIn(after, s.tenant, s.expected) && FreshOffers(s.offers, db)
            && after.assignments == Seated(s.offers, s.expected, db.assignments) && after.grants == db.grants
  {
    hide SettledRow, SettleOutcome, Ended, Seated, FreshOffers;
    if s.expected in db.memberships { SettledRowKeeps(db, s.expected, today); }
  }

  lemma LateSeatOpens(db: Db, s: Step, tenant: TenantId, today: Day, a: AssignmentId)
    requires Linked(db) && a in SeatedBy(db, s, tenant, today)
    ensures a in Next(db, s, today).assignments && OpenWindow(Next(db, s, today).assignments[a], today)
  {
    hide Next, Outcome, HandoverPeriod, Seated, UsableIn;
    SeatedMember(db, s, today);
    var i :| 0 <= i < |s.offers| && Late(s.offers[i], today) && s.offers[i].id == a;
    SeatedAt(s.offers, s.expected, db.assignments, i);
  }

  /** A role seated late in an active FAU waits for the next sweep. */
  lemma LateSeatIsCandidate(db: Db, s: Step, tenant: TenantId, today: Day, a: AssignmentId)
    requires Linked(db) && a in SeatedBy(db, s, tenant, today)
    ensures a in Candidates(Next(db, s, today), tenant, today)
  {
    hide Next, Outcome, OpenWindow, UsableIn, Seated, Late;
    LateSeatOpens(db, s, tenant, today, a);
    SeatedMember(db, s, today);
    SeatedSpec(s.offers, s.expected, db.assignments);
  }

  /** A role that was over on a day, with its window open, is added later only by an acceptance that offers it. */
  lemma NewOpenRowWasOffered(db: Db, s: Step, day: Day, today: Day, a: AssignmentId)
    requires Linked(db) && today <= day && a !in db.assignments
    requires a in Next(db, s, day).assignments && OpenWindow(Next(db, s, day).assignments[a], today)
    ensures s.DoSeat? && Outcome(db, s, day).Ok? && a in LateIds(s, s.tenant, today)
    ensures Next(db, s, day).assignments[a].membership == s.expected
  {
    hide HandoverPeriod, UsableIn, Seated, IsAdminOn, LeavesNoAdmin, SettledRow, RevokedRow, Ended, Restamped, Seat;
    if s.DoSeat? && Outcome(db, s, day).Ok? {
      SeatedMember(db, s, day);
      SeatedSpec(s.offers, s.expected, db.assignments);
      var row := Next(db, s, day).assignments[a];
      var i :| 0 <= i < |s.offers| && s.offers[i].id == a
               && s.offers[i].capability == row.capability && s.offers[i].period == row.period;
      assert Late(s.offers[i], today);
    }
  }

  /** Only an acceptance adds an assignment that is over. */
  lemma NewCandidateWasSeated(db: Db, s: Step, tenant: TenantId, today: Day, a: AssignmentId)
    requires Linked(db) && a !in db.assignments && Candidate(Next(db, s, today), tenant, a, today)
    ensures a in SeatedBy(db, s, tenant, today)
  {
    hide Next, Outcome, OpenWindow, LateIds, UsableIn;
    NewOpenRowWasOffered(db, s, today, today, a);
    SeatedMember(db, s, today);
    SameTenant(Next(db, s, today), s.tenant, tenant, s.expected);
  }

  lemma SameTenant(db: Db, tenant: TenantId, other: TenantId, m: MembershipId)
    requires UsableIn(db, tenant, m) && UsableIn(db, other, m)
    ensures tenant == other
  {
  }

  lemma SweptOverIsNone(db: Db, tenant: TenantId, a: AssignmentId, today: Day)
    requires SweptOver(db, tenant, a, today)
    ensures !Candidate(db, tenant, a, today)
  {
    hide OpenWindow;
  }

  /** A row that is not a candidate can become one today only if a revoked membership held it. */
  lemma SweptOverOrCandidate(db: Db, tenant: TenantId, a: AssignmentId, today: Day)
    requires a in db.assignments
    requires db.assignments[a].membership in db.memberships
             && db.memberships[db.assignments[a].membership].revokedOn.None?
    ensures SweptOver(db, tenant, a, today) || Candidate(db, tenant, a, today)
  {
    hide OpenWindow;
  }

  // Between two sweeps

  /** Every row is swept over, or seated late with its window open. */
  ghost predicate Known(db: Db, late: set<AssignmentId>, tenant: TenantId, today: Day) {
    && (forall a :: a in db.assignments ==> a in late || SweptOver(db, tenant, a, today))
    && (forall a :: a in late ==> a in db.assignments && OpenWindow(db.assignments[a], today))
  }

  lemma KnownStep(db: Db, late: set<AssignmentId>, s: Step, tenant: TenantId, today: Day)
    requires Linked(db) && Known(db, late, tenant, today)
    ensures Linked(Next(db, s, today))
    ensures Known(Next(db, s, today), late + SeatedBy(db, s, tenant, today), tenant, today)
  {
    hide Next, SweptOver, Candidate, SeatedBy, HandoverPeriod, GrantsEvolve, MembershipsEvolve;
    StepEvolves(db, s, today);
    var after := Next(db, s, today);
    var more := late + SeatedBy(db, s, tenant, today);
    forall a | a in after.assignments ensures a in more || SweptOver(after, tenant, a, today) {
      if a in db.assignments {
        if a !in late { SweptOverStays(db, s, today, tenant, a, today); }
      } else {
        SweptOverOrCandidate(after, tenant, a, today);
        if Candidate(after, tenant, a, today) { NewCandidateWasSeated(db, s, tenant, today, a); }
      }
    }
    forall a | a in more ensures a in after.assignments && OpenWindow(after.assignments[a], today) {
      if a !in late { LateSeatOpens(db, s, tenant, today, a); }
    }
  }

  lemma {:induction false} KnownRun(db: Db, late: set<AssignmentId>, moves: seq<Move>, tenant: TenantId, today: Day)
    requires Linked(db) && Known(db, late, tenant, today) && OnDay(moves, today)
    ensures Known(Run(db, moves), late + SeatedLate(db, moves, tenant), tenant, today)
    decreases |moves|
  {
    hide Next, Known, SeatedBy;
    if moves == [] {
      assert late + {} == late;
    } else {
      var s := moves[0].step;
      KnownStep(db, late, s, tenant, today);
      var next := Next(db, s, today);
      KnownRun(next, late + SeatedBy(db, s, tenant, today), moves[1..], tenant, today);
      assert late + SeatedBy(db, s, tenant, today) + SeatedLate(next, moves[1..], tenant)
          == late + (SeatedBy(db, s, tenant, today) + SeatedLate(next, moves[1..], tenant));
    }
  }

  /** A row still to be handed over: unrevoked, without a grant, and held by a usable member. */
  predicate StillOpen(db: Db, tenant: TenantId, a: AssignmentId) {
    && a in db.assignments && !db.assignments[a].Revoked() && a !in db.grants
    && UsableIn(db, tenant, db.assignments[a].membership)
  }

  lemma KnownCandidates(db: Db, late: set<AssignmentId>, tenant: TenantId, today: Day)
    requires Known(db, late, tenant, today)
    ensures Candidates(db, tenant, today) == set a | a in late && StillOpen(db, tenant, a)
  {
    hide OpenWindow, UsableIn, SweptOver;
    forall a | a in db.assignments && SweptOver(db, tenant, a, today) ensures !Candidate(db, tenant, a, today) {
      SweptOverIsNone(db, tenant, a, today);
    }
  }

  /**
   After a sweep of an active FAU and whatever transactions follow that day, a second sweep
   creates grants for exactly the late roles seated in between that are still open, so none at
   all if and only if every one of them has been revoked, granted or lost its member.
   */
  lemma SecondSweepCreatesExactlyLateSeats(db: Db, tenant: TenantId, moves: seq<Move>, today: Day)
    requires Linked(db) && Sound(db, today) && tenant in db.tenants && db.tenants[tenant].status.Active?
    requires OnDay(moves, today)
    ensures var swept := Next(db, DoSweepHandover(tenant), today);
            Linked(swept) &&
            var after := Run(swept, moves);
            var late := SeatedLate(swept, moves, tenant);
            && Candidates(after, tenant, today) == (set a | a in late && StillOpen(after, tenant, a))
            && (Candidates(after, tenant, today) == {} <==> forall a :: a in late ==> !StillOpen(after, tenant, a))
  {
    hide Next, SweptOver, OpenWindow, StillOpen, Sound;
    var swept := Next(db, DoSweepHandover(tenant), today);
    StepEvolves(db, DoSweepHandover(tenant), today);
    forall a | a in swept.assignments ensures SweptOver(swept, tenant, a, today) {
      SweepKeepsRows(db, tenant, today);
      if OpenWindow(db.assignments[a], today) { OpenIsOver(db.assignments[a], today); }
      SweepSweepsOver(db, tenant, today, today, today, a);
    }
    KnownRun(swept, {}, moves, tenant, today);
    var after, late := Run(swept, moves), SeatedLate(swept, moves, tenant);
    assert {} + late == late;
    KnownCandidates(after, late, tenant, today);
    assert forall a :: a in Candidates(after, tenant, today) <==> a in late && StillOpen(after, tenant, a);
  }

  lemma SweepKeepsRows(db: Db, tenant: TenantId, today: Day)
    requires Linked(db)
    ensures var after := Next(db, DoSweepHandover(tenant), today);
            && after.tenants == db.tenants && after.accounts == db.accounts
            && after.memberships == db.memberships && after.assignments == db.assignments
  {
  }

  /**
   There are such roles: an active FAU is swept, an account that is not a member accepts an
   invitation to a role that has ended since it was offered, and a second sweep that day hands
   that role over.
   */
  lemma LateSeatFeedsSecondSweep(db: Db, tenant: TenantId, account: AccountId, m: MembershipId, profile: Profile,
                                 o: Offer, today: Day)
    requires Linked(db)
    requires tenant in db.tenants && RequireOpen(db.tenants[tenant]).Ok?
    requires account in db.accounts && db.accounts[account].usable
    requires m !in db.memberships && forall x :: !ExistingFor(db, tenant, account, x)
    requires o.id !in db.assignments && Late(o, today)
    ensures var swept := Next(db, DoSweepHandover(tenant), today);
            Linked(swept) && Candidates(swept, tenant, today) == {} &&
            var after := Next(swept, DoSeat(tenant, account, m, profile, [o]), today);
            && o.id in Candidates(after, tenant, today)
            && Linked(after) && o.id in Next(after, DoSweepHandover(tenant), today).grants
  {
    hide Next, Late, Candidates, Linked, AssignmentsEvolve, GrantsEvolve, MembershipsEvolve;
    var swept := Next(db, DoSweepHandover(tenant), today);
    SweepKeepsRows(db, tenant, today);
    NoneAfterSweep(db, tenant, today);
    StepEvolves(db, DoSweepHandover(tenant), today);
    forall x ensures !ExistingFor(swept, tenant, account, x) { assert !ExistingFor(db, tenant, account, x); }
    LateSeatWaits(swept, DoSeat(tenant, account, m, profile, [o]), today, o);
  }

  lemma OneLateOffer(db: Db, s: Step, today: Day, o: Offer)
    requires Linked(db) && s.DoSeat? && Outcome(db, s, today).Ok? && s.offers == [o] && Late(o, today)
    ensures o.id in Candidates(Next(db, s, today), s.tenant, today)
  {
    hide Next, Outcome, Candidates, Late;
    assert o.id in LateIds(s, s.tenant, today) by { assert s.offers[0] == o; }
    LateSeatIsCandidate(db, s, s.tenant, today, o.id);
  }

  lemma LateSeatWaits(db: Db, s: Step, today: Day, o: Offer)
    requires Linked(db) && s.DoSeat? && s.tenant in db.tenants && RequireOpen(db.tenants[s.tenant]).Ok?
    requires s.account in db.accounts && db.accounts[s.account].usable
    requires s.expected !in db.memberships && forall x :: !ExistingFor(db, s.tenant, s.account, x)
    requires s.offers == [o] && o.id !in db.assignments && Late(o, today)
    ensures o.id in Candidates(Next(db, s, today), s.tenant, today)
    ensures Linked(Next(db, s, today))
            && o.id in Next(Next(db, s, today), DoSweepHandover(s.tenant), today).grants
  {
    hide Next, Outcome, Late, Candidate, Candidates, Linked, ExistingFor, AssignmentsEvolve, GrantsEvolve, MembershipsEvolve;
    SeatGoesThrough(db, s, today);
    StepEvolves(db, s, today);
    OneLateOffer(db, s, today, o);
    SweepGrants(Next(db, s, today), s.tenant, today, o.id);
  }

  lemma SweepGrants(db: Db, tenant: TenantId, today: Day, a: AssignmentId)
    requires Linked(db) && tenant in db.tenants && db.tenants[tenant].status.Active? && a in Candidates(db, tenant, today)
    ensures a in Next(db, DoSweepHandover(tenant), today).grants
  {
    assert a in NewGrants(db, Candidates(db, tenant, today));
  }

  /** An account that is not a member yet is seated with a new membership. */
  lemma SeatGoesThrough(db: Db, s: Step, today: Day)
    requires Linked(db) && s.DoSeat? && s.tenant in db.tenants && RequireOpen(db.tenants[s.tenant]).Ok?
    requires s.account in db.accounts && db.accounts[s.account].usable && FreshOffers(s.offers, db)
    requires s.expected !in db.memberships && forall x :: !ExistingFor(db, s.tenant, s.account, x)
    ensures Outcome(db, s, today).Ok? && Next(db, s, today).tenants == db.tenants
  {
    hide Seated, SettledRow, SettleOutcome, Ended;
  }

  /** No acceptance of the run offers the FAU a role that is late. */
  predicate OffersNothingLate(moves: seq<Move>, tenant: TenantId, today: Day) {
    forall i :: 0 <= i < |moves| ==> LateIds(moves[i].step, tenant, today) == {}
  }

  lemma {:induction false} NothingSeatedLate(db: Db, moves: seq<Move>, tenant: TenantId, today: Day)
    requires Linked(db) && OnDay(moves, today) && OffersNothingLate(moves, tenant, today)
    ensures SeatedLate(db, moves, tenant) == {}
    decreases |moves|
  {
    hide Next, LateIds;
    if moves != [] {
      StepEvolves(db, moves[0].step, today);
      NothingSeatedLate(Next(db, moves[0].step, today), moves[1..], tenant, today);
    }
  }

  /** If nothing late is offered between them, the second sweep of the day changes nothing. */
  lemma SecondSweepChangesNothing(db: Db, tenant: TenantId, moves: seq<Move>, today: Day)
    requires Linked(db) && Sound(db, today) && tenant in db.tenants && db.tenants[tenant].status.Active?
    requires OnDay(moves, today) && OffersNothingLate(moves, tenant, today)
    ensures var swept := Next(db, DoSweepHandover(tenant), today);
            Linked(swept) &&
            var after := Run(swept, moves);
            Candidates(after, tenant, today) == {} && Next(after, DoSweepHandover(tenant), today) == after
  {
    hide Run, Sound, StillOpen, SeatedLate, OffersNothingLate;
    var swept := Next(db, DoSweepHandover(tenant), today);
    SecondSweepCreatesExactlyLateSeats(db, tenant, moves, today);
    NothingSeatedLate(swept, moves, tenant, today);
    NothingToSweep(Run(swept, moves), tenant, today);
  }

  // Between a scan and its visits

  /** On a sound day a row that is not a candidate stays none. */
  lemma NoCandidateIsSweptOver(db: Db, tenant: TenantId, a: AssignmentId, today: Day)
    requires Linked(db) && Sound(db, today) && a in db.assignments && !Candidate(db, tenant, a, today)
    ensures SweptOver(db, tenant, a, today)
  {
    hide HandoverPeriod, OpenWindow, GrantsSound;
    var m := db.assignments[a].membership;
    if db.memberships[m].revokedOn.Some? && !db.assignments[a].Revoked() { RevokedHoldsNothingOpen(db, m, a, today); }
  }

  lemma RevokedHoldsNothingOpen(db: Db, m: MembershipId, a: AssignmentId, today: Day)
    requires Linked(db) && Sound(db, today) && m in db.memberships && db.memberships[m].revokedOn.Some?
    requires a in db.assignments && db.assignments[a].membership == m && !db.assignments[a].Revoked()
    ensures !OpenWindow(db.assignments[a], today)
  {
    hide HandoverPeriod, GrantsSound;
    assert Spent(db, m, today);
  }

  /** A transaction that seats nothing late adds no FAU to those left to visit. */
  lemma OthersAddNoVisit(db: Db, s: Step, todo: set<TenantId>, today: Day)
    requires Linked(db) && Sound(db, today) && LeftToDo(db, todo, today)
    requires forall t :: LateIds(s, t, today) == {}
    ensures LeftToDo(Next(db, s, today), todo, today)
  {
    hide Next, Candidate, SweptOver, LateIds, Sound, AssignmentsEvolve, GrantsEvolve;
    StepEvolves(db, s, today);
    var after := Next(db, s, today);
    forall t, a | t in after.tenants && after.tenants[t].status.Active? && Candidate(after, t, a, today)
      ensures t in todo
    {
      if a in db.assignments {
        if !Candidate(db, t, a, today) {
          NoCandidateIsSweptOver(db, t, a, today);
          SweptOverStays(db, s, today, t, a, today);
          SweptOverIsNone(after, t, a, today);
        }
      } else {
        NewCandidateWasSeated(db, s, t, today, a);
      }
    }
  }

  /**
   The sweep keeps the date it was started on, so its visits are dated `today` however late they
   are made; every other transaction has the date of its own commit, which only rises.
   */
  predicate IsVisit(m: Move, today: Day) { m.step.DoSweepHandover? && m.day == today }

  predicate AroundVisits(moves: seq<Move>, today: Day, clock: Day) {
    moves == []
    || (if IsVisit(moves[0], today) then AroundVisits(moves[1..], today, clock)
        else clock <= moves[0].day && AroundVisits(moves[1..], today, moves[0].day))
  }

  /** The date once the run is over. */
  function ClockAfter(moves: seq<Move>, today: Day, clock: Day): Day {
    if moves == [] then clock
    else ClockAfter(moves[1..], today, if IsVisit(moves[0], today) then clock else moves[0].day)
  }

  /** The FAU-er the sweep visits. */
  function Visited(moves: seq<Move>, today: Day): set<TenantId> {
    set i | 0 <= i < |moves| && IsVisit(moves[i], today) :: moves[i].step.tenant
  }

  lemma {:induction false} ClockRises(moves: seq<Move>, today: Day, clock: Day)
    requires AroundVisits(moves, today, clock)
    ensures clock <= ClockAfter(moves, today, clock)
    decreases |moves|
  {
    if moves != [] { ClockRises(moves[1..], today, if IsVisit(moves[0], today) then clock else moves[0].day); }
  }

  /** A visit made late, with the sweep's own date, keeps the tables sound. */
  lemma VisitKeepsSound(db: Db, tenant: TenantId, today: Day, clock: Day)
    requires Linked(db) && Sound(db, clock)
    ensures Linked(Next(db, DoSweepHandover(tenant), today)) && Sound(Next(db, DoSweepHandover(tenant), today), clock)
  {
    hide HandoverPeriod, StillCounts, OpenWindow, GrantsSound;
    var after := Next(db, DoSweepHandover(tenant), today);
    StepEvolves(db, DoSweepHandover(tenant), today);
    GrantsStaySound(db, after, today);
    forall m | m in after.memberships && after.memberships[m].revokedOn.Some? ensures Spent(after, m, clock) {
      assert Spent(db, m, clock);
    }
  }

  lemma AroundStep(db: Db, m: Move, today: Day, clock: Day)
    requires Linked(db) && Sound(db, clock) && (IsVisit(m, today) || clock <= m.day)
    ensures Linked(Next(db, m.step, m.day)) && Sound(Next(db, m.step, m.day), if IsVisit(m, today) then clock else m.day)
  {
    hide Next, Sound;
    if IsVisit(m, today) {
      VisitKeepsSound(db, m.step.tenant, today, clock);
    } else {
      SoundStep(db, m.step, clock, m.day);
    }
  }

  lemma {:induction false} VisitSweepsOver(db: Db, moves: seq<Move>, i: nat, today: Day, clock: Day, on: Day,
                                           tenant: TenantId, a: AssignmentId)
    requires Linked(db) && Sound(db, clock) && AroundVisits(moves, today, clock)
    requires today <= clock && ClockAfter(moves, today, clock) <= on
    requires i < |moves| && IsVisit(moves[i], today) && moves[i].step.tenant == tenant
    requires tenant in db.tenants && db.tenants[tenant].status.Active?
    requires a in db.assignments && db.assignments[a].period.ends <= today
    ensures SweptOver(Run(db, moves), tenant, a, on)
    decreases i
  {
    hide Next, SweptOver, Sound, GrantsEvolve;
    var m := moves[0];
    StepEvolves(db, m.step, m.day);
    ClockRises(moves, today, clock);
    if i == 0 {
      SweepSweepsOver(db, tenant, today, clock, on, a);
      SweptOverRun(Next(db, m.step, m.day), moves[1..], tenant, a, on);
    } else {
      AroundStep(db, m, today, clock);
      VisitSweepsOver(Next(db, m.step, m.day), moves[1..], i - 1, today, if IsVisit(m, today) then clock else m.day, on,
                      tenant, a);
    }
  }

  /** What is settled for a day is settled for later ones, of a role that was over by then. */
  lemma SweptOverLater(db: Db, tenant: TenantId, a: AssignmentId, today: Day, on: Day)
    requires SweptOver(db, tenant, a, today) && today <= on && db.assignments[a].period.ends <= today
    ensures SweptOver(db, tenant, a, on)
  {
    hide OpenWindow;
    if OpenWindow(db.assignments[a], on) { WindowWasOpen(db.assignments[a], today, on); }
  }

  /**
   A scan and a visit to each FAU it named, with any other transactions in between and among
   them, of that day and of later ones: no role that was over at the scan is left for an active
   FAU to hand over, on the day it all ends or after, whatever is offered meanwhile.
   */
  lemma ScanThenVisitsLeavesNothingOld(db: Db, moves: seq<Move>, today: Day, on: Day, tenant: TenantId, a: AssignmentId)
    requires Linked(db) && Sound(db, today)
    requires AroundVisits(moves, today, today) && ClockAfter(moves, today, today) <= on
    requires ScannedTenants(db, today) <= Visited(moves, today)
    requires tenant in db.tenants && db.tenants[tenant].status.Active?
    requires a in db.assignments && db.assignments[a].period.ends <= today
    ensures !Candidate(Run(db, moves), tenant, a, on)
  {
    hide Run, Candidate, SweptOver, ScannedTenants, Sound;
    ClockRises(moves, today, today);
    if Candidate(db, tenant, a, today) {
      ScanFindsEveryTenant(db, tenant, a, today);
      var i :| 0 <= i < |moves| && IsVisit(moves[i], today) && moves[i].step.tenant == tenant;
      VisitSweepsOver(db, moves, i, today, today, on, tenant, a);
    } else {
      NoCandidateIsSweptOver(db, tenant, a, today);
      SweptOverLater(db, tenant, a, today, on);
      SweptOverRun(db, moves, tenant, a, on);
    }
    SweptOverIsNone(Run(db, moves), tenant, a, on);
  }

  /** Roles added since the scan were not over by then, or their window was closed. */
  predicate NoneAddedLate(scanned: Db, db: Db, today: Day) {
    forall a :: a in db.assignments && a !in scanned.assignments ==> !OpenWindow(db.assignments[a], today)
  }

  lemma NoneAddedLateStep(scanned: Db, db: Db, m: Move, today: Day)
    requires Linked(db) && NoneAddedLate(scanned, db, today) && (IsVisit(m, today) || today <= m.day)
    requires forall t :: LateIds(m.step, t, today) == {}
    ensures NoneAddedLate(scanned, Next(db, m.step, m.day), today)
  {
    hide Next, OpenWindow, LateIds, GrantsEvolve, MembershipsEvolve;
    StepEvolves(db, m.step, m.day);
    var after := Next(db, m.step, m.day);
    forall a | a in after.assignments && a !in scanned.assignments ensures !OpenWindow(after.assignments[a], today) {
      if a in db.assignments {
        SameWindow(db.assignments[a], after.assignments[a], m.day, today);
      } else if OpenWindow(after.assignments[a], today) {
        NewOpenRowWasOffered(db, m.step, m.day, today, a);
      }
    }
  }

  lemma SameWindow(was: Assignment, now: Assignment, day: Day, today: Day)
    requires SameOrRevoked(was, now, day)
    ensures OpenWindow(now, today) == OpenWindow(was, today)
  {
    hide HandoverPeriod;
  }

  lemma {:induction false} NoneAddedLateRun(scanned: Db, db: Db, moves: seq<Move>, today: Day, clock: Day)
    requires Linked(db) && NoneAddedLate(scanned, db, today) && AroundVisits(moves, today, clock) && today <= clock
    requires forall t :: OffersNothingLate(moves, t, today)
    ensures NoneAddedLate(scanned, Run(db, moves), today)
    decreases |moves|
  {
    hide Next, NoneAddedLate, LateIds;
    if moves != [] {
      var m := moves[0];
      StepEvolves(db, m.step, m.day);
      forall t ensures LateIds(m.step, t, today) == {} && OffersNothingLate(moves[1..], t, today) {
        assert OffersNothingLate(moves, t, today);
      }
      NoneAddedLateStep(scanned, db, m, today);
      NoneAddedLateRun(scanned, Next(db, m.step, m.day), moves[1..], today, if IsVisit(m, today) then clock else m.day);
    }
  }

  lemma {:induction false} RunKeepsRow(db: Db, moves: seq<Move>, a: AssignmentId)
    requires Linked(db) && a in db.assignments
    ensures a in Run(db, moves).assignments && Run(db, moves).assignments[a].period == db.assignments[a].period
    decreases |moves|
  {
    hide Next, GrantsEvolve, MembershipsEvolve;
    if moves != [] {
      StepEvolves(db, moves[0].step, moves[0].day);
      RunKeepsRow(Next(db, moves[0].step, moves[0].day), moves[1..], a);
    }
  }

  /**
   If no acceptance meanwhile offers a role that was over at the scan with its window open, what
   an active FAU has left to hand over once the visits are made is only what ended after the
   scan; on the day of the scan, nothing.
   */
  lemma ScanThenVisits(db: Db, moves: seq<Move>, today: Day, on: Day, tenant: TenantId, a: AssignmentId)
    requires Linked(db) && Sound(db, today)
    requires AroundVisits(moves, today, today) && ClockAfter(moves, today, today) <= on
    requires ScannedTenants(db, today) <= Visited(moves, today)
    requires forall t :: OffersNothingLate(moves, t, today)
    requires tenant in db.tenants && db.tenants[tenant].status.Active?
    requires a in Candidates(Run(db, moves), tenant, on)
    ensures today < Run(db, moves).assignments[a].period.ends <= on
  {
    hide Run, OpenWindow, ScannedTenants, Visited, Sound, OffersNothingLate, AroundVisits, ClockAfter;
    var after := Run(db, moves);
    ClockRises(moves, today, today);
    if a in db.assignments {
      RunKeepsRow(db, moves, a);
      if db.assignments[a].period.ends <= today {
        ScanThenVisitsLeavesNothingOld(db, moves, today, on, tenant, a);
      }
    } else {
      NoneAddedLateRun(db, db, moves, today, today);
      if after.assignments[a].period.ends <= today { WindowWasOpen(after.assignments[a], today, on); }
    }
    OpenIsOver(after.assignments[a], on);
  }

  lemma OpenIsOver(a: Assignment, on: Day)
    requires OpenWindow(a, on)
    ensures a.period.ends <= on
  {
    hide HandoverPeriod;
  }
}
