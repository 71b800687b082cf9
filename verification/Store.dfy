/**
 The membership tables and the transactions that change them in place. Each public method is
 one committed transaction under the FAU's lock, and refines the step of the same name.
 */
module Store {
  import opened Base
  import opened Calendar
  import opened Periods
  import opened Access
  import opened Retention
  import opened Rules
  import opened Rows
  import opened Transactions
  import opened Authority
  import opened AdminState
  import opened History
  import opened Framing
  import opened Coverage
  import opened Remembering

  lemma LatestIs(days: set<Day>, d: Day)
    requires d in days && forall x :: x in days ==> x <= d
    ensures Latest(days) == d
  {
  }

  /** `rows` are the membership's assignments, each at least once, in any order. */
  ghost predicate RowsOf(db: Db, m: MembershipId, rows: seq<Assignment>) {
    && (forall a :: a in db.assignments && db.assignments[a].membership == m ==> db.assignments[a] in rows)
    && (forall r :: r in rows ==> exists a :: a in db.assignments && db.assignments[a].membership == m && db.assignments[a] == r)
  }

  lemma {:induction false} HeldMembers(rows: seq<Assignment>, d: Day)
    ensures (exists r :: r in HeldOf(rows) && r.until == d) <==> (exists a :: a in rows && a.Held() && a.HeldUntil() == d)
  {
    if rows != [] {
      var last := rows[|rows| - 1];
      var rest := rows[..|rows| - 1];
      assert rows == rest + [last];
      HeldMembers(rest, d);
      if r :| r in HeldOf(rest) && r.until == d {
        assert r in HeldOf(rows);
      } else if last.Held() && last.HeldUntil() == d {
        var r := RawHeldRole(last.role, last.capability, last.period.starts, last.HeldUntil());
        assert r in HeldOf(rows);
      }
    }
  }

  lemma HeldEndsFromRows(db: Db, m: MembershipId, rows: seq<Assignment>)
    requires RowsOf(db, m, rows)
    ensures forall d :: d in HeldEnds(db, m) <==> exists r :: r in HeldOf(rows) && r.until == d
  {
    forall d
      ensures d in HeldEnds(db, m) <==> exists r :: r in HeldOf(rows) && r.until == d
    {
      HeldMembers(rows, d);
      if a :| a in rows && a.Held() && a.HeldUntil() == d {
        var id :| id in db.assignments && db.assignments[id].membership == m && db.assignments[id] == a;
        assert d in HeldEnds(db, m);
      }
    }
  }

  function Answer<T>(r: Result<T, Error>): Result<(), Error> {
    match r
    case Ok(_) => Ok(())
    case Err(e) => Err(e)
  }

  /** The cascade leaves the membership's assignments, and so its grants, the same ones. */
  lemma CutGrants(db: Db, now: Db, m: MembershipId, today: Day)
    requires now.assignments == RevokeAll(db, m, today) && now.grants == db.grants
    ensures RevokeGrants(now, AssignmentsOf(now, m)) == RevokeGrants(db, AssignmentsOf(db, m))
  {
    hide StillCounts;
    assert AssignmentsOf(now, m) == AssignmentsOf(db, m);
  }

  lemma MoreKeys<K, V>(a: map<K, V>, b: map<K, V>, added: set<K>)
    requires b.Keys == a.Keys + added && a.Keys !! added
    ensures |b| == |a| + |added|
  {
    assert |a| == |a.Keys| && |b| == |b.Keys|;
  }

  /** A sweep adds one grant for each candidate. */
  lemma GrantsAdded(db: Db, tenant: TenantId, today: Day)
    ensures match SweepHandover(db, tenant, today)
            case Ok(after) =>
              |after.grants| == |db.grants| + if db.tenants[tenant].status.Active? then |Candidates(db, tenant, today)| else 0
            case Err(_) => tenant !in db.tenants
  {
    if tenant in db.tenants && db.tenants[tenant].status.Active? {
      hide HandoverPeriod, UsableIn, OpenWindow;
      var made := Candidates(db, tenant, today);
      SweepKeys(db, tenant, today);
      MoreKeys(db.grants, SweepHandover(db, tenant, today).value.grants, made);
    }
  }

  lemma SweepKeys(db: Db, tenant: TenantId, today: Day)
    requires tenant in db.tenants && db.tenants[tenant].status.Active?
    ensures var made := Candidates(db, tenant, today);
            SweepHandover(db, tenant, today).value.grants.Keys == db.grants.Keys + made && db.grants.Keys !! made
  {
    hide HandoverPeriod, UsableIn;
  }

  lemma NoSuchTenant(db: Db, todo: set<TenantId>, tenant: TenantId, today: Day)
    requires Linked(db) && tenant !in db.tenants && ProfilesLeft(db, todo, today)
    ensures ProfilesLeft(Next(db, DoClearEnded(tenant), today), todo - {tenant}, today)
  {
    hide ProfileDone;
  }

  class MembershipStore {
    var tenants: map<TenantId, Tenant>
    var accounts: map<AccountId, Account>
    var memberships: map<MembershipId, Membership>
    var assignments: map<AssignmentId, Assignment>
    var grants: map<AssignmentId, Grant>
    var groupMembers: set<(GroupId, MembershipId)>

    function Tables(): Db
      reads this
    {
      Db(tenants, accounts, memberships, assignments, grants, groupMembers)
    }

    // Reads

    method FetchAssignments(m: MembershipId) returns (rows: seq<Assignment>)
      ensures RowsOf(Tables(), m, rows)
    {
      rows := [];
      var todo := assignments.Keys;
      while todo != {}
        invariant todo <= assignments.Keys
        invariant forall a :: a in assignments && a !in todo && assignments[a].membership == m ==> assignments[a] in rows
        invariant forall r :: r in rows ==> exists a :: a in assignments && assignments[a].membership == m && assignments[a] == r
        decreases todo
      {
        var a :| a in todo;
        if assignments[a].membership == m {
          rows := rows + [assignments[a]];
        }
        todo := todo - {a};
      }
    }

    static method LatestUntil(held: seq<HeldRole>) returns (d: Day)
      requires held != []
      ensures exists r :: r in held && r.until == d
      ensures forall r :: r in held ==> r.until <= d
    {
      d := held[0].until;
      for i := 1 to |held|
        invariant exists r :: r in held && r.until == d
        invariant forall j :: 0 <= j < i ==> held[j].until <= d
      {
        if d < held[i].until {
          d := held[i].until;
        }
      }
    }

    static method LatestRevocation(rows: seq<Assignment>) returns (latest: Option<Day>)
      ensures latest.None? ==> forall r :: r in rows ==> !r.Revoked()
      ensures latest.Some? ==>
                && (exists r :: r in rows && r.Revoked() && r.revokedOn == latest)
                && (forall r :: r in rows && r.Revoked() ==> r.revokedOn.value <= latest.value)
    {
      latest := None;
      for i := 0 to |rows|
        invariant latest.None? ==> forall j :: 0 <= j < i ==> !rows[j].Revoked()
        invariant latest.Some? ==>
                    && (exists r :: r in rows && r.Revoked() && r.revokedOn == latest)
                    && (forall j :: 0 <= j < i && rows[j].Revoked() ==> rows[j].revokedOn.value <= latest.value)
      {
        if rows[i].revokedOn.Some? && (latest.None? || latest.value < rows[i].revokedOn.value) {
          latest := rows[i].revokedOn;
        }
      }
    }

    /** The one end date every retention path uses. */
    method EndedOn(m: MembershipId, today: Day) returns (d: Day)
      requires m in memberships
      ensures d == EndedOnFor(Tables(), m, today)
    {
      var rows := FetchAssignments(m);
      var held := HeldRoles(rows);
      HeldEndsFromRows(Tables(), m, rows);
      if held != [] {
        d := LatestUntil(held);
        LatestIs(HeldEnds(Tables(), m), d);
        return if d < today then d else today;
      }
      assert HeldEnds(Tables(), m) == {};
      var revoked := LatestRevocation(rows);
      RevocationsFromRows(m, rows, revoked);
      if revoked.None? {
        revoked := memberships[m].revokedOn;
      }
      match revoked {
        case Some(on) => return if on < today then on else today;
        case None => return today;
      }
    }

    lemma RevocationsFromRows(m: MembershipId, rows: seq<Assignment>, latest: Option<Day>)
      requires RowsOf(Tables(), m, rows)
      requires latest.None? ==> forall r :: r in rows ==> !r.Revoked()
      requires latest.Some? ==>
                 && (exists r :: r in rows && r.Revoked() && r.revokedOn == latest)
                 && (forall r :: r in rows && r.Revoked() ==> r.revokedOn.value <= latest.value)
      ensures latest.None? <==> RevocationDays(Tables(), m) == {}
      ensures latest.Some? ==> Latest(RevocationDays(Tables(), m)) == latest.value
    {
      var days := RevocationDays(Tables(), m);
      if latest.Some? {
        assert latest.value in days;
        LatestIs(days, latest.value);
      }
    }

    method KeptUntil(m: MembershipId, stamped: Option<Day>, today: Day) returns (until: Option<Day>)
      requires Linked(Tables()) && m in memberships
      ensures until == EffectiveKeepUntil(Tables(), m, stamped, today)
    {
      if stamped.Some? {
        return if today < stamped.value then stamped else None;
      }
      var ended := EndedOn(m, today);
      until := KeepUntil(ended, accounts[memberships[m].account].retention, today);
    }

    // Profiles

    /** Stamps or clears an ended membership's profile; leaves an active one alone. */
    method SettleProfile(m: MembershipId, today: Day) returns (outcome: Settled)
      requires Linked(Tables()) && m in memberships
      modifies this`memberships
      ensures outcome == SettleOutcome(old(Tables()), m, today)
      ensures memberships == old(memberships)[m := SettledRow(old(Tables()), m, today)]
    {
      var row := memberships[m];
      if row.erased || !row.HasFields() {
        return AbsentProfile;
      }
      if !Ended(Tables(), m, today) {
        return ActiveProfile;
      }
      var until := KeptUntil(m, row.keptUntil, today);
      if until.Some? {
        if row.keptUntil.None? {
          memberships := memberships[m := row.(keptUntil := until)];
        }
        return RetainedProfile;
      }
      memberships := memberships[m := row.Cleared()];
      return ClearedProfile;
    }

    method RemoveFromAllGroups(m: MembershipId)
      modifies this`groupMembers
      ensures groupMembers == WithoutGroups(old(Tables()), {m})
    {
      groupMembers := set x | x in groupMembers && x.1 != m;
    }

    /** Adds a member to a group by hand. */
    method AddGroupMember(tenant: TenantId, actor: MembershipId, group: GroupId, m: MembershipId, today: Day)
      returns (r: Result<(), Error>)
      modifies this`groupMembers
      ensures Committed(old(Tables()), AddToGroup(old(Tables()), tenant, actor, group, m, today), Tables(), r)
      ensures r.Ok? ==> m in memberships && !Ended(Tables(), m, today) && groupMembers - old(groupMembers) == {(group, m)}
    {
      hide IsAdminOn, Ended;
      if tenant !in tenants { return Err(UnknownTenant); }
      var open := RequireOpen(tenants[tenant]);
      if open.Err? { return Err(open.error); }
      if !IsAdminOn(Tables(), tenant, actor, today) { return Err(NotAuthorized); }
      if m !in memberships || memberships[m].tenant != tenant { return Err(UnknownMembership); }
      if memberships[m].revokedOn.Some? { return Err(MembershipRevoked); }
      if memberships[m].account !in accounts || !accounts[memberships[m].account].usable { return Err(AccountDisabled); }
      if Ended(Tables(), m, today) { return Err(MembershipEnded); }
      if (group, m) in groupMembers { return Err(AlreadyInGroup); }
      ghost var db := Tables();
      groupMembers := groupMembers + {(group, m)};
      EndedBySameRows(db, Tables(), m, today);
      return Ok(());
    }

    /** A returner leaves every group, is settled, and becomes current again. */
    method ReopenProfile(m: MembershipId, today: Day) returns (outcome: Settled)
      requires Linked(Tables()) && m in memberships
      modifies this`memberships, this`groupMembers
      ensures outcome == SettleOutcome(old(Tables()), m, today)
      ensures Tables() == Reopened(old(Tables()), m, today)
    {
      if Ended(Tables(), m, today) {
        RemoveFromAllGroups(m);
      }
      ghost var mid := Tables();
      assert SettleOutcome(mid, m, today) == SettleOutcome(old(Tables()), m, today)
          && SettledRow(mid, m, today) == SettledRow(old(Tables()), m, today) by {
        SettlesTheSame(old(Tables()), mid, m, today);
      }
      outcome := SettleProfile(m, today);
      memberships := memberships[m := memberships[m].(revokedOn := None, keptUntil := None)];
    }

    // Roles

    method GrantRole(tenant: TenantId, actor: MembershipId, target: MembershipId, id: AssignmentId,
                     role: string, capability: CapabilityClass, period: Period, today: Day)
      returns (r: Result<(), Error>)
      requires Linked(Tables())
      modifies this`memberships, this`assignments, this`groupMembers
      ensures Committed(old(Tables()), Transactions.GrantRole(old(Tables()), tenant, actor, target, id, role, capability, period, today),
                        Tables(), r)
    {
      if tenant !in tenants { return Err(UnknownTenant); }
      var open := RequireOpen(tenants[tenant]);
      if open.Err? { return Err(open.error); }
      if !IsAdminOn(Tables(), tenant, actor, today) { return Err(NotAuthorized); }
      if target !in memberships || memberships[target].tenant != tenant { return Err(UnknownMembership); }
      if memberships[target].revokedOn.Some? { return Err(MembershipRevoked); }
      if !UsableIn(Tables(), tenant, target) { return Err(AccountDisabled); }
      if period.HasEndedBy(today) { return Err(PeriodAlreadyEnded); }
      if id in assignments { return Err(Database); }
      var _ := ReopenProfile(target, today);
      assignments := assignments[id := Assignment(target, role, capability, period, None)];
      return Ok(());
    }

    /** The write half of accepting an invitation. */
    method SeatMember(tenant: TenantId, account: AccountId, expected: MembershipId, profile: Profile,
                      offers: seq<Offer>, today: Day)
      returns (r: Result<(), Error>)
      requires Linked(Tables())
      modifies this`memberships, this`assignments, this`groupMembers
      ensures Committed(old(Tables()), Seat(old(Tables()), tenant, account, expected, profile, offers, today), Tables(), r)
    {
      hide SettledRow, SettleOutcome, Ended;
      if tenant !in tenants { return Err(UnknownTenant); }
      var open := RequireOpen(tenants[tenant]);
      if open.Err? { return Err(open.error); }
      if account !in accounts || !accounts[account].usable { return Err(AccountDisabled); }
      if !FreshOffers(offers, Tables()) { return Err(Database); }
      if exists m :: m in memberships && memberships[m].tenant == tenant && memberships[m].account == account && m != expected {
        ghost var other :| other in memberships && memberships[other].tenant == tenant && memberships[other].account == account
                           && other != expected;
        assert ExistingFor(Tables(), tenant, account, other);
        return Err(AcceptanceTargetChanged);
      }
      if expected in memberships && memberships[expected].tenant == tenant && memberships[expected].account == account {
        if memberships[expected].erased { return Err(MembershipErased); }
        var outcome := ReopenProfile(expected, today);
        var keep := (outcome.ActiveProfile? || outcome.RetainedProfile?) && profile.address.None?;
        var row := memberships[expected];
        memberships := memberships[expected := row.(name := Some(profile.name),
                                                    address := if keep then row.address else profile.address)];
      } else {
        if expected in memberships { return Err(Database); }
        memberships := memberships[expected := Membership(tenant, account, None, Some(profile.name), profile.address, None, false)];
      }
      for i := 0 to |offers|
        modifies this`assignments
        invariant Seated(offers[i..], expected, assignments) == Seated(offers, expected, old(assignments))
      {
        var o := offers[i];
        assignments := assignments[o.id := Assignment(expected, o.role, o.capability, o.period, None)];
        assert offers[i..][1..] == offers[i + 1..];
      }
      return Ok(());
    }

    method LoadAdminState(tenant: TenantId) returns (rows: seq<AdminAssignment>, held: seq<AdminGrant>)
      requires Linked(Tables())
      ensures Loaded(Tables(), tenant, rows, held)
    {
      rows, held := [], [];
      var todo := assignments.Keys;
      while todo != {}
        invariant todo <= assignments.Keys
        invariant forall a :: a !in todo && LoadsAssignment(Tables(), tenant, a) ==> AssignmentRow(Tables(), a) in rows
        invariant forall r :: r in rows ==> LoadsAssignment(Tables(), tenant, r.id) && r == AssignmentRow(Tables(), r.id)
        decreases todo
      {
        var a :| a in todo;
        if LoadsAssignment(Tables(), tenant, a) {
          rows := rows + [AssignmentRow(Tables(), a)];
        }
        todo := todo - {a};
      }
      todo := grants.Keys;
      while todo != {}
        invariant todo <= grants.Keys
        invariant forall a :: a !in todo && LoadsGrant(Tables(), tenant, a) ==> GrantRowOf(Tables(), a) in held
        invariant forall g :: g in held ==> LoadsGrant(Tables(), tenant, g.source) && g == GrantRowOf(Tables(), g.source)
        decreases todo
      {
        var a :| a in todo;
        if LoadsGrant(Tables(), tenant, a) {
          held := held + [GrantRowOf(Tables(), a)];
        }
        todo := todo - {a};
      }
    }

    /** The safeguard over the FAU as it stands. */
    method CheckRemoval(tenant: TenantId, removal: Removal, confirm: bool, today: Day) returns (r: Result<bool, Error>)
      requires Linked(Tables())
      ensures r.Err? <==> LeavesNoAdmin(Tables(), tenant, removal, today) && !confirm
      ensures r.Err? ==> r.error == WouldLeaveNoAdmin
      ensures r.Ok? ==> (r.value <==> LeavesNoAdmin(Tables(), tenant, removal, today))
    {
      var rows, held := LoadAdminState(tenant);
      LoadedGap(Tables(), tenant, rows, held, removal, today);
      r := CheckLastAdmin(rows, held, today, confirm, removal);
    }

    method RevokeRoleAssignment(tenant: TenantId, actor: MembershipId, id: AssignmentId, confirm: bool, today: Day)
      returns (r: Result<(), Error>)
      requires Linked(Tables())
      modifies this`assignments, this`grants
      ensures Committed(old(Tables()), RevokeAssignment(old(Tables()), tenant, actor, id, confirm, today), Tables(), r)
    {
      hide LeavesNoAdmin, IsAdminOn;
      if tenant !in tenants { return Err(UnknownTenant); }
      var admin := IsAdminOn(Tables(), tenant, actor, today);
      if id !in assignments || !Belongs(Tables(), tenant, assignments[id].membership)
         || !(admin || assignments[id].membership == actor) {
        return Err(if admin then UnknownAssignment else NotAuthorized);
      }
      if assignments[id].revokedOn.Some? { return Err(AssignmentAlreadyRevoked); }
      var leaves := CheckRemoval(tenant, OneAssignment(id), confirm, today);
      if leaves.Err? { return Err(leaves.error); }
      assignments := assignments[id := assignments[id].(revokedOn := Some(today))];
      grants := map g | g in grants :: if g == id then grants[g].(revoked := true) else grants[g];
      return Ok(());
    }

    /** Ended admin roles whose handover window is still open die with the membership. */
    method RevokeEndedAdminRolesWithOpenWindow(m: MembershipId, today: Day)
      modifies this`assignments
      ensures assignments.Keys == old(assignments).Keys
      ensures forall a :: a in assignments ==>
                assignments[a] ==
                  if old(assignments)[a].membership == m && !old(assignments)[a].Revoked()
                     && OpenWindow(old(assignments)[a], today)
                  then old(assignments)[a].(revokedOn := Some(today)) else old(assignments)[a]
    {
      hide HandoverPeriod;
      var ended := set a | && a in assignments && assignments[a].membership == m && !assignments[a].Revoked()
                           && assignments[a].capability.Admin? && assignments[a].period.ends <= today;
      var open := {};
      while ended != {}
        invariant ended <= assignments.Keys && open <= assignments.Keys
        invariant forall a :: a in ended ==>
                    && assignments[a].membership == m && !assignments[a].Revoked()
                    && assignments[a].capability.Admin? && assignments[a].period.ends <= today
        invariant forall a :: a in open ==>
                    assignments[a].membership == m && !assignments[a].Revoked() && OpenWindow(assignments[a], today)
        invariant forall a :: (a in assignments && assignments[a].membership == m && !assignments[a].Revoked()
                               && OpenWindow(assignments[a], today)) ==> a in ended || a in open
        decreases ended
      {
        var a :| a in ended;
        var window := HandoverPeriod(assignments[a].period.ends);
        if window.Some? && !window.value.HasEndedBy(today) {
          open := open + {a};
        }
        ended := ended - {a};
      }
      assignments := map a | a in assignments ::
        if a in open then assignments[a].(revokedOn := Some(today)) else assignments[a];
    }

    method RevokeMembership(tenant: TenantId, actor: MembershipId, m: MembershipId, confirm: bool, today: Day)
      returns (r: Result<(), Error>)
      requires Linked(Tables())
      modifies this`memberships, this`assignments, this`grants, this`groupMembers
      ensures Committed(old(Tables()), Transactions.RevokeMembership(old(Tables()), tenant, actor, m, confirm, today), Tables(), r)
    {
      hide LeavesNoAdmin, IsAdminOn, Ended, EffectiveKeepUntil, StillCounts, RevokeAll, RevokeGrants, AssignmentsOf;
      if tenant !in tenants { return Err(UnknownTenant); }
      if actor != m && !IsAdminOn(Tables(), tenant, actor, today) { return Err(NotAuthorized); }
      if m !in memberships || memberships[m].tenant != tenant { return Err(UnknownMembership); }
      if memberships[m].revokedOn.Some? { return Err(MembershipRevoked); }
      var stamped := if Ended(Tables(), m, today) then memberships[m].keptUntil else None;
      var leaves := CheckRemoval(tenant, WholeMembership(m), confirm, today);
      if leaves.Err? { return Err(leaves.error); }
      ghost var db := Tables();
      RevokeAssignmentsOf(m, today);
      EndProfile(m, stamped, today);
      CutGrants(db, Tables(), m, today);
      RevokeGrantsOf(m);
      RemoveFromAllGroups(m);
      return Ok(());
    }

    /** The assignment cascade: what runs or is booked, then ended admin roles with an open window. */
    method RevokeAssignmentsOf(m: MembershipId, today: Day)
      requires Linked(Tables())
      modifies this`assignments
      ensures assignments == RevokeAll(old(Tables()), m, today)
      ensures Linked(Tables())
    {
      hide Linked, RevokeAll, OpenWindow;
      ghost var db := Tables();
      assignments := map a | a in assignments ::
        if RunsOrBooked(assignments[a], m, today) then assignments[a].(revokedOn := Some(today)) else assignments[a];
      ghost var first := assignments;
      RevokeEndedAdminRolesWithOpenWindow(m, today);
      CascadeInTwo(db, m, today, first, assignments);
    }

    /** Every grant from any of the membership's roles. */
    method RevokeGrantsOf(m: MembershipId)
      modifies this`grants
      ensures grants == RevokeGrants(old(Tables()), AssignmentsOf(old(Tables()), m))
    {
      grants := map g | g in grants ::
        if g in assignments && assignments[g].membership == m then grants[g].(revoked := true) else grants[g];
    }

    /** Revokes the membership's row, keeping its fields until a date or clearing them. */
    method EndProfile(m: MembershipId, stamped: Option<Day>, today: Day)
      requires Linked(Tables()) && m in memberships
      modifies this`memberships
      ensures var keep := if old(memberships)[m].HasFields() then EffectiveKeepUntil(old(Tables()), m, stamped, today) else None;
              memberships == old(memberships)[m := if keep.Some?
                                                   then old(memberships)[m].(revokedOn := Some(today), keptUntil := keep)
                                                   else old(memberships)[m].Cleared().(revokedOn := Some(today))]
    {
      hide EffectiveKeepUntil;
      var row := memberships[m];
      var keep := None;
      if row.HasFields() {
        keep := KeptUntil(m, stamped, today);
      }
      memberships := memberships[m := if keep.Some? then row.(revokedOn := Some(today), keptUntil := keep)
                                      else row.Cleared().(revokedOn := Some(today))];
    }

    // Sweeps

    /** One FAU's share of the handover sweep, its candidates read again under the lock. */
    method CreateTenantHandoverGrants(tenant: TenantId, today: Day) returns (r: Result<nat, Error>)
      requires Linked(Tables())
      modifies this`grants
      ensures Committed(old(Tables()), SweepHandover(old(Tables()), tenant, today), Tables(), Answer(r))
      ensures r.Ok? ==> r.value == if old(tenants)[tenant].status.Active? then |Candidates(old(Tables()), tenant, today)| else 0
    {
      hide HandoverPeriod, Linked, NewGrants, EndedAdminRole, GrantedSoFar, Candidates;
      if tenant !in tenants { return Err(UnknownTenant); }
      if !tenants[tenant].status.Active? { return Ok(0); }
      var todo := set a | a in assignments && EndedAdminRole(Tables(), tenant, a, today);
      ghost var db := Tables();
      ghost var made: set<AssignmentId> := {};
      var created := 0;
      GrantNone(db, tenant, today, todo);
      while todo != {}
        modifies this`grants
        invariant GrantedSoFar(db, tenant, today, grants, made, todo) && created == |made|
        decreases todo
      {
        var a :| a in todo;
        GrantOneMore(db, tenant, today, grants, made, todo, a);
        todo := todo - {a};
        var window := HandoverPeriod(assignments[a].period.ends);
        if window.None? || window.value.HasEndedBy(today) {
          continue;
        }
        if a !in grants {
          grants := grants[a := Grant(window.value, false)];
          made := made + {a};
          created := created + 1;
        }
      }
      GrantedAll(db, tenant, today, grants, made);
      return Ok(created);
    }

    /**
     The whole sweep with nothing in between: an unlocked scan for FAU-er worth locking, then
     one transaction each. Afterwards no active FAU has a role left to hand over.
     */
    method CreateHandoverGrants(today: Day) returns (created: nat)
      requires Linked(Tables())
      modifies this`grants
      ensures Linked(Tables()) && LeftToDo(Tables(), {}, today)
      ensures |grants| == |old(grants)| + created
    {
      hide Next, LeftToDo, ScannedTenants, SweepHandover, Linked;
      created := 0;
      var todo := ScannedTenants(Tables(), today);
      ScanIsComplete(Tables(), today);
      while todo != {}
        modifies this`grants
        invariant Linked(Tables()) && LeftToDo(Tables(), todo, today)
        invariant |grants| == |old(grants)| + created
        decreases todo
      {
        var t :| t in todo;
        ghost var before := Tables();
        var r := CreateTenantHandoverGrants(t, today);
        CommittedIsNext(before, DoSweepHandover(t), today, SweepHandover(before, t, today), Tables(), Answer(r));
        StepEvolves(before, DoSweepHandover(t), today);
        OneTenantDone(before, todo, t, today);
        GrantsAdded(before, t, today);
        todo := todo - {t};
        if r.Ok? {
          created := created + r.value;
        }
      }
    }

    /** Settles each of the profiles, one after the other. Returns how many it cleared. */
    method SettleAll(due: set<MembershipId>, today: Day) returns (cleared: nat)
      requires Linked(Tables()) && due <= memberships.Keys
      modifies this`memberships
      ensures SettledSoFar(old(Tables()), memberships, due, today)
      ensures cleared == |set m | m in due && SettleOutcome(old(Tables()), m, today).ClearedProfile?|
    {
      hide SettleOutcome, SettledRow, SettledSoFar, Linked;
      ghost var db := Tables();
      var todo := due;
      ghost var gone: set<MembershipId> := {};
      cleared := 0;
      NoneSettled(db, today);
      assert due - todo == {};
      while todo != {}
        modifies this`memberships
        invariant todo <= due && cleared == |gone| && Linked(db) && memberships.Keys == db.memberships.Keys
        invariant gone == set m | m in due - todo && SettleOutcome(db, m, today).ClearedProfile?
        invariant SettledSoFar(db, memberships, due - todo, today)
        decreases todo
      {
        var m :| m in todo;
        SettleOneMore(db, memberships, due - todo, m, today);
        var outcome := SettleProfile(m, today);
        assert due - (todo - {m}) == (due - todo) + {m};
        todo := todo - {m};
        if outcome.ClearedProfile? {
          gone := gone + {m};
          cleared := cleared + 1;
        }
      }
      assert due - todo == due;
    }

    /** One FAU's share of the daily profile sweep. Returns how many profiles it cleared. */
    method ClearEndedProfiles(tenant: TenantId, today: Day) returns (r: Result<nat, Error>)
      requires Linked(Tables())
      modifies this`memberships, this`groupMembers
      ensures Committed(old(Tables()), ClearEnded(old(Tables()), tenant, today), Tables(), Answer(r))
      ensures r.Ok? ==> r.value == |set m | m in old(memberships) && Unsettled(old(Tables()), tenant, m, today)
                                            && SettleOutcome(old(Tables()), m, today).ClearedProfile?|
    {
      hide SettleOutcome, SettledRow, Unsettled, EndedIn, Linked, SettledSoFar;
      if tenant !in tenants { return Err(UnknownTenant); }
      ghost var db := Tables();
      var due := set m | m in memberships && Unsettled(Tables(), tenant, m, today);
      var cleared := SettleAll(due, today);
      assert (set m | m in due && SettleOutcome(db, m, today).ClearedProfile?)
          == (set m | m in db.memberships && Unsettled(db, tenant, m, today) && SettleOutcome(db, m, today).ClearedProfile?);
      ClearedAll(db, tenant, memberships, due, today);
      var ended := EndedIn(Tables(), tenant, today);
      groupMembers := set x | x in groupMembers && x.1 !in ended;
      return Ok(cleared);
    }

    /**
     The whole daily profile sweep: a scan made once, then each FAU it named. Afterwards nothing
     is due today anywhere, and the count is of the memberships that lost their fields by it.
     */
    method ClearAllEndedProfiles(today: Day) returns (cleared: nat)
      requires Linked(Tables()) && ProfilesSound(Tables())
      modifies this`memberships, this`groupMembers
      ensures Linked(Tables()) && ProfilesSound(Tables()) && ProfilesLeft(Tables(), {}, today)
      ensures OnlyLoses(old(memberships), memberships) && cleared == |LostFields(old(memberships), memberships)|
    {
      hide Next, ProfilesLeft, ProfilesSound, ProfileDone, Linked, SettleOutcome, SettledRow, EndedIn, Unsettled, OnlyLoses, LostFields;
      cleared := 0;
      NothingLost(memberships);
      var todo := set m | m in memberships && !ProfileDone(Tables(), m, today) :: memberships[m].tenant;
      assert todo == ScannedForProfiles(Tables(), today);
      ProfileScanIsComplete(Tables(), today);
      while todo != {}
        modifies this`memberships, this`groupMembers
        invariant Linked(Tables()) && ProfilesSound(Tables()) && ProfilesLeft(Tables(), todo, today)
        invariant OnlyLoses(old(memberships), memberships) && cleared == |LostFields(old(memberships), memberships)|
        decreases todo
      {
        var t :| t in todo;
        ghost var before := Tables();
        var r := ClearEndedProfiles(t, today);
        CommittedIsNext(before, DoClearEnded(t), today, ClearEnded(before, t, today), Tables(), Answer(r));
        StepEvolves(before, DoClearEnded(t), today);
        ProfilesSoundStep(before, DoClearEnded(t), today);
        if t in before.tenants {
          OneTenantsProfilesDone(before, todo, t, today);
        } else {
          NoSuchTenant(before, todo, t, today);
        }
        VisitLoses(before, t, today);
        LossesAddUp(old(memberships), before.memberships, memberships);
        NothingLost(memberships);
        todo := todo - {t};
        if r.Ok? {
          assert LostFields(before.memberships, memberships)
              == set m | m in before.memberships && Unsettled(before, t, m, today) && SettleOutcome(before, m, today).ClearedProfile?;
          cleared := cleared + r.value;
        }
      }
    }

    // The member's own settings

    /** Recalculates each of the stamped periods under the new setting. */
    method RestampAll(stamped: set<MembershipId>, months: RetentionMonths, today: Day)
      requires stamped <= memberships.Keys
      modifies this`memberships
      ensures RestampedSoFar(old(Tables()), memberships, months, stamped, today)
    {
      hide KeepUntil, EndedOnFor, RestampedSoFar;
      ghost var db := Tables();
      var todo := stamped;
      NoneRestamped(db, months, today);
      assert stamped - todo == {};
      while todo != {}
        modifies this`memberships
        invariant todo <= stamped && memberships.Keys == db.memberships.Keys
        invariant RestampedSoFar(db, memberships, months, stamped - todo, today)
        decreases todo
      {
        var m :| m in todo;
        RestampOneMore(db, memberships, months, stamped - todo, m, today);
        RestampReads(db, memberships, months, stamped - todo, m, today);
        var ended := EndedOn(m, today);
        var until := KeepUntil(ended, months, today);
        memberships := memberships[m := if until.Some? then memberships[m].(keptUntil := until) else memberships[m].Cleared()];
        assert stamped - (todo - {m}) == (stamped - todo) + {m};
        todo := todo - {m};
      }
      assert stamped - todo == stamped;
    }

    /** Settles under the old setting, writes the new one, and recalculates every running period. */
    method SetRetentionMonths(account: AccountId, months: RetentionMonths, today: Day) returns (r: Result<(), Error>)
      requires Linked(Tables())
      modifies this`memberships, this`accounts
      ensures Committed(old(Tables()), SetRetention(old(Tables()), account, months, today), Tables(), r)
    {
      hide SettledRow, Ended, Restamped, NewStamp, Linked, SettledSoFar, RestampedSoFar;
      if account !in accounts { return Err(UnknownAccount); }
      ghost var db := Tables();
      var own := set m | m in memberships && memberships[m].account == account && !memberships[m].erased && memberships[m].HasFields();
      var _ := SettleAll(own, today);
      ghost var settled := memberships;
      accounts := accounts[account := accounts[account].(retention := months)];
      ghost var mid := Tables();
      var stamped := set m | && m in memberships && memberships[m].account == account
                             && memberships[m].keptUntil.Some? && Ended(Tables(), m, today);
      RestampAll(stamped, months, today);
      SetAll(db, account, months, own, settled, mid, stamped, memberships, today);
      return Ok(());
    }

    /** Removes the account's fields everywhere and marks its memberships erased. */
    method EraseMemberNames(account: AccountId) returns (erased: nat)
      modifies this`memberships
      ensures Tables() == EraseNames(old(Tables()), account)
      ensures erased == |set m | m in old(memberships) && old(memberships)[m].account == account && !old(memberships)[m].erased|
    {
      var gone := set m | m in memberships && memberships[m].account == account && !memberships[m].erased;
      erased := |gone|;
      memberships := map m | m in memberships ::
        if m in gone then memberships[m].(name := None, address := None, keptUntil := None, erased := true) else memberships[m];
    }
  }

  /** The method's answer and new tables are those the transaction is specified to have. */
  ghost predicate Committed(before: Db, outcome: Result<Db, Error>, after: Db, r: Result<(), Error>) {
    match outcome
    case Ok(d) => r == Ok(()) && after == d
    case Err(e) => r == Err(e) && after == before
  }

  /** A committed method is one step of a run. */
  lemma CommittedIsNext(before: Db, step: Step, today: Day, outcome: Result<Db, Error>, after: Db, r: Result<(), Error>)
    requires Linked(before) && outcome == Outcome(before, step, today) && Committed(before, outcome, after, r)
    ensures after == Next(before, step, today)
  {
  }
}
