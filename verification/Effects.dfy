/** What each transaction needs and does, read off the rows. */
module Effects {
  import opened Base
  import opened Calendar
  import opened Periods
  import opened Access
  import opened Retention
  import opened Rules
  import opened Rows
  import opened Transactions
  import opened Authority

  // The rows that give authority

  /** A current membership of the FAU whose account is usable. */
  predicate CurrentIn(db: Db, tenant: TenantId, m: MembershipId) {
    && m in db.memberships && db.memberships[m].tenant == tenant && db.memberships[m].revokedOn.None?
    && db.memberships[m].account in db.accounts && db.accounts[db.memberships[m].account].usable
  }

  /** It holds an admin-class role on the day: unrevoked, begun, and not over. */
  ghost predicate AdminInRows(db: Db, tenant: TenantId, m: MembershipId, day: Day) {
    && CurrentIn(db, tenant, m)
    && exists a :: && a in db.assignments && db.assignments[a].membership == m && db.assignments[a].capability == Admin
                   && db.assignments[a].revokedOn == None
                   && db.assignments[a].period.starts <= day && day < db.assignments[a].period.ends
  }

  lemma AdminIsInRows(db: Db, tenant: TenantId, m: MembershipId, day: Day)
    ensures IsAdminOn(db, tenant, m, day) <==> AdminInRows(db, tenant, m, day)
  {
    if IsAdminOn(db, tenant, m, day) {
      var a :| && a in db.assignments && db.assignments[a].membership == m
               && db.assignments[a].capability.Admin? && db.assignments[a].ValidOn(day);
      assert db.assignments[a].revokedOn == None;
    }
    if AdminInRows(db, tenant, m, day) {
      var a :| && a in db.assignments && db.assignments[a].membership == m && db.assignments[a].capability == Admin
               && db.assignments[a].revokedOn == None
               && db.assignments[a].period.starts <= day && day < db.assignments[a].period.ends;
      assert db.assignments[a].ValidOn(day);
    }
  }

  /** The FAU exists, is active and not frozen. */
  predicate OpenFau(db: Db, tenant: TenantId) {
    tenant in db.tenants && db.tenants[tenant].status == Active && !db.tenants[tenant].frozen
  }

  /** The handover window of an admin role: from its end to the same day six months on, or that month's last. */
  ghost predicate InWindow(a: Assignment, day: Day) {
    && a.capability == Admin && a.period.ends <= day && a.period.ends < MAX_DAY
    && exists close: Day :: MonthsOn(a.period.ends, 6, close) && day < close
  }

  lemma WindowInRows(a: Assignment, day: Day)
    ensures OpenWindow(a, day) <==> InWindow(a, day)
  {
    hide MonthsOn;
    HandoverPeriodSpec(a.period.ends);
    if InWindow(a, day) {
      var close: Day :| MonthsOn(a.period.ends, 6, close) && day < close;
      SameClose(a.period.ends, close, HandoverPeriod(a.period.ends).value.ends);
    }
  }

  lemma SameClose(ends: Day, a: Day, b: Day)
    requires MonthsOn(ends, 6, a) && MonthsOn(ends, 6, b)
    ensures a == b
  {
    OneDayOn(ends, 6, a, b);
  }

  // When a transaction goes through

  /** Granting: an administrator of an open FAU, to a current member, for a period not over. */
  lemma GrantGoesThroughExactly(db: Db, s: Step, day: Day)
    requires Linked(db) && s.DoGrantRole?
    ensures Outcome(db, s, day).Ok? <==>
              && OpenFau(db, s.tenant) && AdminInRows(db, s.tenant, s.actor, day)
              && CurrentIn(db, s.tenant, s.target) && day < s.period.ends && s.id !in db.assignments
    ensures OpenFau(db, s.tenant) && !AdminInRows(db, s.tenant, s.actor, day) ==> Outcome(db, s, day) == Err(NotAuthorized)
  {
    hide IsAdminOn, AdminInRows, SettledRow, Ended;
    AdminIsInRows(db, s.tenant, s.actor, day);
  }

  lemma AddingGoesThroughExactly(db: Db, s: Step, day: Day)
    requires Linked(db) && s.DoAddToGroup?
    ensures Outcome(db, s, day).Ok? <==>
              && OpenFau(db, s.tenant) && AdminInRows(db, s.tenant, s.actor, day)
              && CurrentIn(db, s.tenant, s.membership) && !Ended(db, s.membership, day)
              && (s.group, s.membership) !in db.groupMembers
    ensures OpenFau(db, s.tenant) && !AdminInRows(db, s.tenant, s.actor, day) ==> Outcome(db, s, day) == Err(NotAuthorized)
  {
    hide IsAdminOn, AdminInRows, Ended;
    AdminIsInRows(db, s.tenant, s.actor, day);
  }

  /** The actor may end what the membership holds: it is their own, or they administer the FAU. */
  ghost predicate MayEnd(db: Db, tenant: TenantId, actor: MembershipId, m: MembershipId, day: Day) {
    actor == m || AdminInRows(db, tenant, actor, day)
  }

  /** Ending a role: its holder or an administrator, unless it is over the safeguard. */
  lemma RevokingARoleGoesThroughExactly(db: Db, s: Step, day: Day)
    requires Linked(db) && s.DoRevokeAssignment?
    ensures Outcome(db, s, day).Ok? <==>
              && s.tenant in db.tenants && s.id in db.assignments && !db.assignments[s.id].Revoked()
              && db.memberships[db.assignments[s.id].membership].tenant == s.tenant
              && MayEnd(db, s.tenant, s.actor, db.assignments[s.id].membership, day)
              && (s.confirm || !LeavesNoAdmin(db, s.tenant, OneAssignment(s.id), day))
    ensures s.tenant in db.tenants && !AdminInRows(db, s.tenant, s.actor, day)
            && (s.id in db.assignments ==> db.assignments[s.id].membership != s.actor) ==>
              Outcome(db, s, day) == Err(NotAuthorized)
  {
    hide IsAdminOn, AdminInRows, LeavesNoAdmin;
    AdminIsInRows(db, s.tenant, s.actor, day);
  }

  lemma RevokingAMemberGoesThroughExactly(db: Db, s: Step, day: Day)
    requires Linked(db) && s.DoRevokeMembership?
    ensures Outcome(db, s, day).Ok? <==>
              && s.tenant in db.tenants && s.membership in db.memberships
              && db.memberships[s.membership].tenant == s.tenant && db.memberships[s.membership].revokedOn.None?
              && MayEnd(db, s.tenant, s.actor, s.membership, day)
              && (s.confirm || !LeavesNoAdmin(db, s.tenant, WholeMembership(s.membership), day))
    ensures s.tenant in db.tenants && !MayEnd(db, s.tenant, s.actor, s.membership, day) ==>
              Outcome(db, s, day) == Err(NotAuthorized)
  {
    hide IsAdminOn, AdminInRows, LeavesNoAdmin, RevokedRow, RevokeAll, RevokeGrants;
    AdminIsInRows(db, s.tenant, s.actor, day);
  }

  /** Seating: an open FAU, a usable account, the membership the acceptance expects, and new ids. */
  lemma SeatingGoesThroughExactly(db: Db, s: Step, day: Day)
    requires Linked(db) && s.DoSeat?
    ensures Outcome(db, s, day).Ok? <==>
              && OpenFau(db, s.tenant) && s.account in db.accounts && db.accounts[s.account].usable
              && FreshOffers(s.offers, db)
              && (forall m :: ExistingFor(db, s.tenant, s.account, m) ==> m == s.expected && !db.memberships[m].erased)
              && (s.expected in db.memberships ==> ExistingFor(db, s.tenant, s.account, s.expected))
  {
    hide Seated, SettledRow, SettleOutcome, Ended, FreshOffers;
  }

  // What it leaves

  /** A granted role is one new row, as asked for; no other role, grant or membership changes. */
  lemma GrantDoes(db: Db, s: Step, day: Day)
    requires Linked(db) && s.DoGrantRole? && Outcome(db, s, day).Ok?
    ensures var after := Next(db, s, day);
            && after.assignments == db.assignments[s.id := Assignment(s.target, s.role, s.capability, s.period, None)]
            && after.grants == db.grants && after.tenants == db.tenants && after.accounts == db.accounts
            && s.target in after.memberships && after.memberships == db.memberships[s.target := after.memberships[s.target]]
            && after.memberships[s.target].revokedOn.None? && after.memberships[s.target].keptUntil.None?
            && (forall x :: x in after.groupMembers <==>
                  x in db.groupMembers && (x.1 == s.target ==> !Ended(db, s.target, day)))
  {
    hide IsAdminOn, SettledRow, Ended;
  }

  /** An acceptance leaves one new row for each offer, in its own words, and the profile's name. */
  lemma SeatDoes(db: Db, s: Step, day: Day)
    requires Linked(db) && s.DoSeat? && Outcome(db, s, day).Ok?
    ensures var after := Next(db, s, day);
            && (forall a :: a in db.assignments ==> a in after.assignments && after.assignments[a] == db.assignments[a])
            && (forall i :: 0 <= i < |s.offers| ==>
                  && s.offers[i].id in after.assignments
                  && after.assignments[s.offers[i].id]
                       == Assignment(s.expected, s.offers[i].role, s.offers[i].capability, s.offers[i].period, None))
            && (forall a :: a in after.assignments && a !in db.assignments ==>
                  exists i :: 0 <= i < |s.offers| && s.offers[i].id == a)
            && after.grants == db.grants && after.tenants == db.tenants && after.accounts == db.accounts
    ensures var after := Next(db, s, day);
            && s.expected in after.memberships && after.memberships == db.memberships[s.expected := after.memberships[s.expected]]
            && var row := after.memberships[s.expected];
            && row.tenant == s.tenant && row.account == s.account && row.revokedOn.None? && row.keptUntil.None?
            && !row.erased && row.name == Some(s.profile.name)
            && (s.profile.address.Some? ==> row.address == s.profile.address)
  {
    hide SettleOutcome, Ended, Seated, FreshOffers, EffectiveKeepUntil;
    SeatWrites(db, s, day);
    SeatedSpec(s.offers, s.expected, db.assignments);
    forall i | 0 <= i < |s.offers|
      ensures var o := s.offers[i];
              && o.id in Seated(s.offers, s.expected, db.assignments)
              && Seated(s.offers, s.expected, db.assignments)[o.id] == Assignment(s.expected, o.role, o.capability, o.period, None)
    {
      SeatedAt(s.offers, s.expected, db.assignments, i);
    }
  }

  lemma SeatWrites(db: Db, s: Step, day: Day)
    requires Linked(db) && s.DoSeat? && Outcome(db, s, day).Ok?
    ensures Next(db, s, day).assignments == Seated(s.offers, s.expected, db.assignments)
    ensures (forall j :: 0 <= j < |s.offers| ==> s.offers[j].id !in db.assignments)
            && (forall j, k :: 0 <= j < k < |s.offers| ==> s.offers[j].id != s.offers[k].id)
  {
    hide SettledRow, SettleOutcome, Ended, Seated;
  }

  lemma {:induction false} SeatedAt(offers: seq<Offer>, m: MembershipId, assignments: map<AssignmentId, Assignment>, i: nat)
    requires forall j :: 0 <= j < |offers| ==> offers[j].id !in assignments
    requires forall j, k :: 0 <= j < k < |offers| ==> offers[j].id != offers[k].id
    requires i < |offers|
    ensures var o := offers[i];
            var after := Seated(offers, m, assignments);
            o.id in after && after[o.id] == Assignment(m, o.role, o.capability, o.period, None)
  {
    var o := offers[0];
    var next := assignments[o.id := Assignment(m, o.role, o.capability, o.period, None)];
    if i == 0 {
      SeatedSpec(offers[1..], m, next);
    } else {
      SeatedAt(offers[1..], m, next, i - 1);
    }
  }

  lemma RevokingARoleDoes(db: Db, s: Step, day: Day)
    requires Linked(db) && s.DoRevokeAssignment? && Outcome(db, s, day).Ok?
    ensures var after := Next(db, s, day);
            && after == db.(assignments := after.assignments, grants := after.grants)
            && after.assignments == db.assignments[s.id := db.assignments[s.id].(revokedOn := Some(day))]
            && after.grants.Keys == db.grants.Keys
            && (forall g :: g in db.grants ==>
                  after.grants[g] == if g == s.id then db.grants[g].(revoked := true) else db.grants[g])
  {
    hide IsAdminOn, LeavesNoAdmin;
  }

  /**
   Ending a membership ends exactly what still counts of it: every role that runs or is booked, every
   ended admin role whose handover window is not over, every grant from its roles, and its
   place in every group.
   */
  lemma RevokingAMemberDoes(db: Db, s: Step, day: Day)
    requires Linked(db) && s.DoRevokeMembership? && Outcome(db, s, day).Ok?
    ensures var after := Next(db, s, day);
            && after.assignments.Keys == db.assignments.Keys && after.grants.Keys == db.grants.Keys
            && (forall a :: a in db.assignments ==>
                  after.assignments[a] ==
                    if db.assignments[a].membership == s.membership && db.assignments[a].revokedOn.None?
                       && (day < db.assignments[a].period.ends || InWindow(db.assignments[a], day))
                    then db.assignments[a].(revokedOn := Some(day)) else db.assignments[a])
            && (forall g :: g in db.grants ==>
                  after.grants[g] == if db.assignments[g].membership == s.membership then db.grants[g].(revoked := true)
                                     else db.grants[g])
            && (forall x :: x in after.groupMembers <==> x in db.groupMembers && x.1 != s.membership)
            && s.membership in after.memberships && after.memberships[s.membership].revokedOn == Some(day)
            && after.memberships == db.memberships[s.membership := after.memberships[s.membership]]
  {
    hide IsAdminOn, LeavesNoAdmin, RevokedRow, InWindow, OpenWindow;
    forall a | a in db.assignments ensures OpenWindow(db.assignments[a], day) <==> InWindow(db.assignments[a], day) {
      WindowInRows(db.assignments[a], day);
    }
    var cut := db.(assignments := RevokeAll(db, s.membership, day));
    RevokedRowKeeps(db, cut, s.membership, day);
  }

  /**
   A sweep of an active FAU adds a grant for exactly the ended, unrevoked admin roles of its current
   members whose window is not over and that have none; each runs the role's window.
   */
  lemma SweepDoes(db: Db, tenant: TenantId, day: Day, a: AssignmentId)
    requires Linked(db) && tenant in db.tenants && db.tenants[tenant].status == Active
    ensures var after := Next(db, DoSweepHandover(tenant), day);
            && after == db.(grants := after.grants)
            && (a in db.grants ==> a in after.grants && after.grants[a] == db.grants[a])
            && (a !in db.grants ==>
                  (a in after.grants <==>
                     && a in db.assignments && CurrentIn(db, tenant, db.assignments[a].membership)
                     && db.assignments[a].revokedOn.None? && InWindow(db.assignments[a], day)))
            && (a !in db.grants && a in after.grants ==>
                  && !after.grants[a].revoked && after.grants[a].period.starts == db.assignments[a].period.ends
                  && MonthsOn(db.assignments[a].period.ends, 6, after.grants[a].period.ends))
  {
    hide InWindow, OpenWindow, MonthsOn, HandoverPeriod;
    if a in db.assignments {
      WindowInRows(db.assignments[a], day);
      HandoverPeriodSpec(db.assignments[a].period.ends);
    }
    SweepRows(db, tenant, day, a);
  }

  lemma SweepRows(db: Db, tenant: TenantId, day: Day, a: AssignmentId)
    requires Linked(db) && tenant in db.tenants && db.tenants[tenant].status == Active
    ensures var after := Next(db, DoSweepHandover(tenant), day);
            && after == db.(grants := after.grants)
            && (a in db.grants ==> a in after.grants && after.grants[a] == db.grants[a])
            && (a !in db.grants ==> (a in after.grants <==> Candidate(db, tenant, a, day)))
            && (a !in db.grants && a in after.grants ==>
                  HandoverPeriod(db.assignments[a].period.ends).Some?
                  && after.grants[a] == Grant(HandoverPeriod(db.assignments[a].period.ends).value, false))
  {
    hide HandoverPeriod;
  }

  /** An erasure empties exactly the account's memberships, and nothing else. */
  lemma EraseDoes(db: Db, account: AccountId, day: Day)
    requires Linked(db)
    ensures var after := Next(db, DoErase(account), day);
            && after == db.(memberships := after.memberships) && after.memberships.Keys == db.memberships.Keys
            && (forall m :: m in db.memberships ==>
                  if db.memberships[m].account != account || db.memberships[m].erased then
                    after.memberships[m] == db.memberships[m]
                  else
                    after.memberships[m]
                      == db.memberships[m].(name := None, address := None, keptUntil := None, erased := true))
  {
  }

  /** A change of setting is written, to that account alone; roles, grants and groups stay. */
  lemma SettingDoes(db: Db, s: Step, day: Day)
    requires Linked(db) && s.DoSetRetention?
    ensures Outcome(db, s, day).Ok? <==> s.account in db.accounts
    ensures var after := Next(db, s, day);
            && after == db.(memberships := after.memberships, accounts := after.accounts)
            && after.memberships.Keys == db.memberships.Keys
            && (s.account in db.accounts ==>
                  after.accounts == db.accounts[s.account := Account(db.accounts[s.account].usable, s.months)])
  {
    hide Restamped, SettledOwn;
  }

  lemma OpeningAnAccountDoes(db: Db, s: Step, day: Day)
    requires Linked(db) && s.DoOpenAccount?
    ensures Next(db, s, day)
         == if s.account in db.accounts then db else db.(accounts := db.accounts[s.account := Account(true, Three)])
  {
  }

  /** The sweep of profiles takes exactly its ended members out of groups, and touches only its FAU's memberships. */
  lemma ClearingDoes(db: Db, tenant: TenantId, day: Day)
    requires Linked(db) && tenant in db.tenants
    ensures var after := Next(db, DoClearEnded(tenant), day);
            && after == db.(memberships := after.memberships, groupMembers := after.groupMembers)
            && after.memberships.Keys == db.memberships.Keys
            && (forall m :: m in db.memberships && db.memberships[m].tenant != tenant ==> after.memberships[m] == db.memberships[m])
            && (forall x :: x in after.groupMembers <==>
                  x in db.groupMembers
                  && !(x.1 in db.memberships && db.memberships[x.1].tenant == tenant && Ended(db, x.1, day)))
  {
    hide Ended, SettledRow;
  }

  lemma AddingDoes(db: Db, s: Step, day: Day)
    requires Linked(db) && s.DoAddToGroup? && Outcome(db, s, day).Ok?
    ensures Next(db, s, day) == db.(groupMembers := db.groupMembers + {(s.group, s.membership)})
  {
    hide IsAdminOn, Ended;
  }

  // Only with authority

  /** The step ends the role, by its holder or an administrator of its FAU. */
  ghost predicate EndsRole(db: Db, move: Move, a: AssignmentId)
    requires a in db.assignments && db.assignments[a].membership in db.memberships
  {
    var m := db.assignments[a].membership;
    var tenant := db.memberships[m].tenant;
    || (move.step.DoRevokeAssignment? && move.step.id == a && MayEnd(db, tenant, move.step.actor, m, move.day))
    || (move.step.DoRevokeMembership? && move.step.membership == m && MayEnd(db, tenant, move.step.actor, m, move.day))
  }

  ghost predicate EndsMembership(db: Db, move: Move, m: MembershipId)
    requires m in db.memberships
  {
    && move.step.DoRevokeMembership? && move.step.membership == m
    && MayEnd(db, db.memberships[m].tenant, move.step.actor, m, move.day)
  }

  /** The step adds the role: granted by an administrator of the FAU, or seated by an acceptance. */
  ghost predicate AddsRole(db: Db, move: Move, a: AssignmentId) {
    || (move.step.DoGrantRole? && move.step.id == a && AdminInRows(db, move.step.tenant, move.step.actor, move.day)
        && CurrentIn(db, move.step.tenant, move.step.target))
    || (move.step.DoSeat? && exists i :: 0 <= i < |move.step.offers| && move.step.offers[i].id == a)
  }

  ghost predicate AddsToGroup(db: Db, move: Move, x: (GroupId, MembershipId)) {
    && move.step.DoAddToGroup? && x == (move.step.group, move.step.membership)
    && AdminInRows(db, move.step.tenant, move.step.actor, move.day) && CurrentIn(db, move.step.tenant, x.1)
  }

  lemma RoleEndsWithAuthority(db: Db, move: Move, a: AssignmentId)
    requires Linked(db) && a in db.assignments && !db.assignments[a].Revoked()
    ensures a in Next(db, move.step, move.day).assignments
    ensures Next(db, move.step, move.day).assignments[a].Revoked() ==> EndsRole(db, move, a)
  {
    hide Next, MayEnd, InWindow;
    StepEvolves(db, move.step, move.day);
    var s := move.step;
    if Outcome(db, s, move.day).Err? {
      RefusedChangesNothing(db, s, move.day);
    } else if s.DoRevokeAssignment? {
      RevokingARoleGoesThroughExactly(db, s, move.day);
      RevokingARoleDoes(db, s, move.day);
    } else if s.DoRevokeMembership? {
      RevokingAMemberGoesThroughExactly(db, s, move.day);
      RevokingAMemberDoes(db, s, move.day);
    } else {
      OthersGrow(db, s, move.day);
    }
  }

  lemma MembershipEndsWithAuthority(db: Db, move: Move, m: MembershipId)
    requires Linked(db) && m in db.memberships && db.memberships[m].revokedOn.None?
    ensures m in Next(db, move.step, move.day).memberships
    ensures Next(db, move.step, move.day).memberships[m].revokedOn.Some? ==> EndsMembership(db, move, m)
  {
    hide Next, MayEnd, InWindow;
    StepEvolves(db, move.step, move.day);
    var s := move.step;
    if Outcome(db, s, move.day).Err? {
      RefusedChangesNothing(db, s, move.day);
    } else if s.DoRevokeAssignment? {
      RevokingARoleDoes(db, s, move.day);
    } else if s.DoRevokeMembership? {
      RevokingAMemberGoesThroughExactly(db, s, move.day);
      RevokingAMemberDoes(db, s, move.day);
    } else {
      OthersGrow(db, s, move.day);
    }
  }

  lemma RoleIsAddedWithAuthority(db: Db, move: Move, a: AssignmentId)
    requires Linked(db) && a !in db.assignments && a in Next(db, move.step, move.day).assignments
    ensures AddsRole(db, move, a)
  {
    hide IsAdminOn, AdminInRows, LeavesNoAdmin, SettledRow, Ended, RevokedRow, Restamped, Seated, StillCounts, Seat;
    var s := move.step;
    if Outcome(db, s, move.day).Ok? {
      if s.DoGrantRole? { GrantGoesThroughExactly(db, s, move.day); }
      if s.DoSeat? { SeatDoes(db, s, move.day); }
    }
  }

  lemma GroupIsJoinedWithAuthority(db: Db, move: Move, x: (GroupId, MembershipId))
    requires Linked(db) && x !in db.groupMembers && x in Next(db, move.step, move.day).groupMembers
    ensures AddsToGroup(db, move, x)
  {
    hide Next, Outcome, AdminInRows, Ended;
    var s := move.step;
    if Outcome(db, s, move.day).Err? {
      RefusedChangesNothing(db, s, move.day);
    } else if s.DoAddToGroup? {
      AddingGoesThroughExactly(db, s, move.day);
      AddingDoes(db, s, move.day);
    } else {
      OthersAddToNoGroup(db, s, move.day);
    }
  }

  lemma OthersAddToNoGroup(db: Db, s: Step, day: Day)
    requires Linked(db) && Outcome(db, s, day).Ok? && !s.DoAddToGroup?
    ensures Next(db, s, day).groupMembers <= db.groupMembers
  {
    hide IsAdminOn, LeavesNoAdmin, SettledRow, SettleOutcome, Ended, RevokedRow, Restamped, Seated, RevokeAll, UsableIn,
      FreshOffers, Linked, RevokeGrants, Candidates, NewGrants;
  }

  // Over runs

  /** The database as the run's move `i` finds it. */
  ghost function Before(db: Db, moves: seq<Move>, i: nat): (d: Db)
    requires Linked(db) && i <= |moves|
    ensures Linked(d)
  {
    Run(db, moves[..i])
  }

  lemma {:induction false} BeforeNext(db: Db, moves: seq<Move>, i: nat)
    requires Linked(db) && i < |moves|
    ensures Before(db, moves, i + 1) == Next(Before(db, moves, i), moves[i].step, moves[i].day)
    decreases i
  {
    hide Next;
    if i == 0 {
      assert moves[..1] == [moves[0]] && moves[..0] == [];
      StepEvolves(db, moves[0].step, moves[0].day);
      assert [moves[0]][1..] == [];
      assert Run(Next(db, moves[0].step, moves[0].day), []) == Next(db, moves[0].step, moves[0].day);
    } else {
      StepEvolves(db, moves[0].step, moves[0].day);
      var next := Next(db, moves[0].step, moves[0].day);
      assert moves[..i][1..] == moves[1..][..i - 1] && moves[..i + 1][1..] == moves[1..][..i];
      BeforeNext(next, moves[1..], i - 1);
    }
  }

  /**
   Over every run: a role that is unrevoked at its start and revoked at its end was ended by a move
   whose actor held the role or was, that day, an administrator of its FAU.
   */
  lemma {:induction false} NoRoleEndsWithoutAuthority(db: Db, moves: seq<Move>, n: nat, a: AssignmentId)
    requires Linked(db) && n <= |moves| && a in db.assignments && !db.assignments[a].Revoked()
    ensures a in Before(db, moves, n).assignments
    ensures Before(db, moves, n).assignments[a].Revoked() ==>
              exists i :: && 0 <= i < n && a in Before(db, moves, i).assignments
                          && EndsRole(Before(db, moves, i), moves[i], a)
    decreases n
  {
    hide Next, EndsRole, Before, Run;
    if n == 0 {
      StartsThere(db, moves);
    } else {
      NoRoleEndsWithoutAuthority(db, moves, n - 1, a);
      BeforeNext(db, moves, n - 1);
      var d := Before(db, moves, n - 1);
      if d.assignments[a].Revoked() {
        StepEvolves(d, moves[n - 1].step, moves[n - 1].day);
      } else {
        RoleEndsWithAuthority(d, moves[n - 1], a);
      }
    }
  }

  lemma StartsThere(db: Db, moves: seq<Move>)
    requires Linked(db)
    ensures Before(db, moves, 0) == db
  {
  }

  lemma {:induction false} NoMembershipEndsWithoutAuthority(db: Db, moves: seq<Move>, n: nat, m: MembershipId)
    requires Linked(db) && n <= |moves| && m in db.memberships && db.memberships[m].revokedOn.None?
    ensures m in Before(db, moves, n).memberships
    ensures Before(db, moves, n).memberships[m].revokedOn.Some? ==>
              exists i :: && 0 <= i < n && m in Before(db, moves, i).memberships
                          && EndsMembership(Before(db, moves, i), moves[i], m)
    decreases n
  {
    hide Next, EndsMembership, Before, Run;
    if n == 0 {
      StartsThere(db, moves);
    } else {
      NoMembershipEndsWithoutAuthority(db, moves, n - 1, m);
      BeforeNext(db, moves, n - 1);
      var d := Before(db, moves, n - 1);
      if d.memberships[m].revokedOn.Some? {
        StepEvolves(d, moves[n - 1].step, moves[n - 1].day);
      } else {
        MembershipEndsWithAuthority(d, moves[n - 1], m);
      }
    }
  }

  /** Over every run: a new role was granted by an administrator of its FAU that day, or seated by an acceptance. */
  lemma {:induction false} NoRoleComesWithoutAuthority(db: Db, moves: seq<Move>, n: nat, a: AssignmentId)
    requires Linked(db) && n <= |moves| && a !in db.assignments && a in Before(db, moves, n).assignments
    ensures exists i :: 0 <= i < n && AddsRole(Before(db, moves, i), moves[i], a)
    decreases n
  {
    hide Next, AddsRole, Before, Run;
    if n == 0 {
      StartsThere(db, moves);
    } else {
      BeforeNext(db, moves, n - 1);
      if a in Before(db, moves, n - 1).assignments {
        NoRoleComesWithoutAuthority(db, moves, n - 1, a);
      } else {
        RoleIsAddedWithAuthority(Before(db, moves, n - 1), moves[n - 1], a);
      }
    }
  }

  lemma {:induction false} NoGroupIsJoinedWithoutAuthority(db: Db, moves: seq<Move>, n: nat, x: (GroupId, MembershipId))
    requires Linked(db) && n <= |moves| && x !in db.groupMembers && x in Before(db, moves, n).groupMembers
    ensures exists i :: 0 <= i < n && AddsToGroup(Before(db, moves, i), moves[i], x)
    decreases n
  {
    hide Next, AddsToGroup, Before, Run;
    if n == 0 {
      StartsThere(db, moves);
    } else {
      BeforeNext(db, moves, n - 1);
      if x in Before(db, moves, n - 1).groupMembers {
        NoGroupIsJoinedWithoutAuthority(db, moves, n - 1, x);
      } else {
        GroupIsJoinedWithAuthority(Before(db, moves, n - 1), moves[n - 1], x);
      }
    }
  }
}
