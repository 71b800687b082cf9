/**
 What each membership transaction does to the database. Every mutation of an FAU's members
 locks the FAU first, so a transaction is one step; a refused one changes nothing.
 */
module Transactions {
  import opened Base
  import opened Calendar
  import opened Periods
  import opened Access
  import opened Retention
  import opened Rules
  import opened Rows

  // Reading

  /** The membership belongs to the FAU, is not revoked, and its account is usable. */
  predicate UsableIn(db: Db, tenant: TenantId, m: MembershipId) {
    && m in db.memberships
    && db.memberships[m].tenant == tenant
    && db.memberships[m].revokedOn.None?
    && db.memberships[m].account in db.accounts
    && db.accounts[db.memberships[m].account].usable
  }

  predicate Belongs(db: Db, tenant: TenantId, m: MembershipId) {
    m in db.memberships && db.memberships[m].tenant == tenant
  }

  predicate IsAdminOn(db: Db, tenant: TenantId, m: MembershipId, day: Day) {
    && UsableIn(db, tenant, m)
    && exists a :: && a in db.assignments && db.assignments[a].membership == m
                   && db.assignments[a].capability.Admin? && db.assignments[a].ValidOn(day)
  }

  /** What a revocation ends: one assignment, or everything a membership holds. */
  datatype Removal = OneAssignment(assignment: AssignmentId) | WholeMembership(membership: MembershipId) {
    predicate Removes(a: AssignmentId, m: MembershipId) {
      match this
      case OneAssignment(x) => a == x
      case WholeMembership(x) => m == x
    }
  }

  /** `a` is an admin-class assignment that makes its holder an administrator on `day`. */
  predicate AdminRow(db: Db, tenant: TenantId, a: AssignmentId, day: Day) {
    && a in db.assignments
    && UsableIn(db, tenant, db.assignments[a].membership)
    && db.assignments[a].capability.Admin?
    && db.assignments[a].ValidOn(day)
  }

  /** The handover grant from `a` counts as administrator coverage on `day`. */
  predicate GrantRow(db: Db, tenant: TenantId, a: AssignmentId, day: Day) {
    && a in db.grants && a in db.assignments
    && UsableIn(db, tenant, db.assignments[a].membership)
    && !db.assignments[a].Revoked()
    && db.grants[a].ValidOn(day)
  }

  ghost predicate Covers(db: Db, tenant: TenantId, a: AssignmentId, day: Day) {
    AdminRow(db, tenant, a, day) || GrantRow(db, tenant, a, day)
  }

  /** The FAU has an administrator on `day`. */
  ghost predicate HasAdminOn(db: Db, tenant: TenantId, day: Day) {
    exists a :: Covers(db, tenant, a, day)
  }

  ghost predicate CoveredBy(db: Db, tenant: TenantId, removal: Removal, gone: bool, day: Day) {
    exists a :: Covers(db, tenant, a, day) && removal.Removes(a, db.assignments[a].membership) == gone
  }

  /** Some day from `today` on has an administrator only through what the removal ends. */
  ghost predicate LeavesNoAdmin(db: Db, tenant: TenantId, removal: Removal, today: Day) {
    exists day: Day :: today <= day && CoveredBy(db, tenant, removal, true, day)
                    && !CoveredBy(db, tenant, removal, false, day)
  }

  function RequireOpen(t: Tenant): Result<(), Error> {
    if !t.status.Active? then Err(TenantNotActive)
    else if t.frozen then Err(TenantFrozen)
    else Ok(())
  }

  // Retention

  /** Revoked, or with no assignment still running or yet to start. */
  predicate Ended(db: Db, m: MembershipId, today: Day)
    requires m in db.memberships
  {
    || db.memberships[m].revokedOn.Some?
    || !exists a :: && a in db.assignments && db.assignments[a].membership == m
                    && !db.assignments[a].Revoked() && db.assignments[a].period.ends > today
  }

  ghost function Latest(days: set<Day>): (d: Day)
    requires days != {}
    ensures d in days && forall x :: x in days ==> x <= d
  {
    var x :| x in days;
    if days == {x} then x
    else
      var y := Latest(days - {x});
      assert forall z :: z in days ==> z == x || z in days - {x};
      if x < y then y else x
  }

  /** The days roles of `m` stopped being held. */
  ghost function HeldEnds(db: Db, m: MembershipId): set<Day> {
    set a | a in db.assignments && db.assignments[a].membership == m && db.assignments[a].Held()
      :: db.assignments[a].HeldUntil()
  }

  ghost function RevocationDays(db: Db, m: MembershipId): set<Day> {
    set a | a in db.assignments && db.assignments[a].membership == m && db.assignments[a].Revoked()
      :: db.assignments[a].revokedOn.value
  }

  ghost function NoLater(d: Day, today: Day): Day { if d < today then d else today }

  /** The day an ended membership ended. */
  ghost function EndedOnFor(db: Db, m: MembershipId, today: Day): Day
    requires m in db.memberships
  {
    if HeldEnds(db, m) != {} then NoLater(Latest(HeldEnds(db, m)), today)
    else if RevocationDays(db, m) != {} then NoLater(Latest(RevocationDays(db, m)), today)
    else if db.memberships[m].revokedOn.Some? then NoLater(db.memberships[m].revokedOn.value, today)
    else today
  }

  predicate Linked(db: Db) {
    && (forall m :: m in db.memberships ==>
                      db.memberships[m].tenant in db.tenants && db.memberships[m].account in db.accounts)
    && (forall a :: a in db.assignments ==> db.assignments[a].membership in db.memberships)
    && (forall g :: g in db.grants ==> g in db.assignments)
  }

  function MonthsFor(db: Db, m: MembershipId): RetentionMonths
    requires Linked(db) && m in db.memberships
  {
    db.accounts[db.memberships[m].account].retention
  }

  ghost function EffectiveKeepUntil(db: Db, m: MembershipId, stamped: Option<Day>, today: Day): Option<Day>
    requires Linked(db) && m in db.memberships
  {
    if stamped.Some? then (if today < stamped.value then stamped else None)
    else KeepUntil(EndedOnFor(db, m, today), MonthsFor(db, m), today)
  }

  datatype Settled = ActiveProfile | RetainedProfile | ClearedProfile | AbsentProfile

  ghost function SettleOutcome(db: Db, m: MembershipId, today: Day): Settled
    requires Linked(db) && m in db.memberships
  {
    var row := db.memberships[m];
    if row.erased || !row.HasFields() then AbsentProfile
    else if !Ended(db, m, today) then ActiveProfile
    else if EffectiveKeepUntil(db, m, row.keptUntil, today).Some? then RetainedProfile
    else ClearedProfile
  }

  /** The membership's row once its profile is settled. */
  ghost function SettledRow(db: Db, m: MembershipId, today: Day): Membership
    requires Linked(db) && m in db.memberships
  {
    var row := db.memberships[m];
    match SettleOutcome(db, m, today)
    case RetainedProfile => row.(keptUntil := EffectiveKeepUntil(db, m, row.keptUntil, today))
    case ClearedProfile => row.Cleared()
    case _ => row
  }

  function WithoutGroups(db: Db, gone: set<MembershipId>): set<(GroupId, MembershipId)> {
    set x | x in db.groupMembers && x.1 !in gone
  }

  /** A returner: out of every group when ended, settled, and current again. */
  ghost function Reopened(db: Db, m: MembershipId, today: Day): Db
    requires Linked(db) && m in db.memberships
  {
    db.(memberships := db.memberships[m := SettledRow(db, m, today).(revokedOn := None, keptUntil := None)],
        groupMembers := if Ended(db, m, today) then WithoutGroups(db, {m}) else db.groupMembers)
  }

  // Granting

  ghost function GrantRole(db: Db, tenant: TenantId, actor: MembershipId, target: MembershipId,
                           id: AssignmentId, role: string, capability: CapabilityClass, period: Period, today: Day)
    : Result<Db, Error>
    requires Linked(db)
  {
    if tenant !in db.tenants then Err(UnknownTenant)
    else if RequireOpen(db.tenants[tenant]).Err? then Err(RequireOpen(db.tenants[tenant]).error)
    else if !IsAdminOn(db, tenant, actor, today) then Err(NotAuthorized)
    else if !Belongs(db, tenant, target) then Err(UnknownMembership)
    else if db.memberships[target].revokedOn.Some? then Err(MembershipRevoked)
    else if !UsableIn(db, tenant, target) then Err(AccountDisabled)
    else if period.HasEndedBy(today) then Err(PeriodAlreadyEnded)
    else if id in db.assignments then Err(Database)
    else
      var open := Reopened(db, target, today);
      Ok(open.(assignments := db.assignments[id := Assignment(target, role, capability, period, None)]))
  }

  /** Adding to a group by hand: an administrator adds anyone whose membership has not ended. */
  function AddToGroup(db: Db, tenant: TenantId, actor: MembershipId, group: GroupId, m: MembershipId, today: Day)
    : Result<Db, Error>
  {
    if tenant !in db.tenants then Err(UnknownTenant)
    else if RequireOpen(db.tenants[tenant]).Err? then Err(RequireOpen(db.tenants[tenant]).error)
    else if !IsAdminOn(db, tenant, actor, today) then Err(NotAuthorized)
    else if !Belongs(db, tenant, m) then Err(UnknownMembership)
    else if db.memberships[m].revokedOn.Some? then Err(MembershipRevoked)
    else if !UsableIn(db, tenant, m) then Err(AccountDisabled)
    else if Ended(db, m, today) then Err(MembershipEnded)
    else if (group, m) in db.groupMembers then Err(AlreadyInGroup)
    else Ok(db.(groupMembers := db.groupMembers + {(group, m)}))
  }

  datatype Offer = Offer(id: AssignmentId, role: string, capability: CapabilityClass, period: Period)

  datatype Profile = Profile(name: Ciphertext, address: Option<Ciphertext>)

  function Seated(offers: seq<Offer>, m: MembershipId, assignments: map<AssignmentId, Assignment>)
    : map<AssignmentId, Assignment>
  {
    if offers == [] then assignments
    else
      var o := offers[0];
      Seated(offers[1..], m, assignments[o.id := Assignment(m, o.role, o.capability, o.period, None)])
  }

  /** Ids minted for one acceptance: pairwise distinct and new. */
  predicate FreshOffers(offers: seq<Offer>, db: Db) {
    && (forall i :: 0 <= i < |offers| ==> offers[i].id !in db.assignments)
    && (forall i, j :: 0 <= i < j < |offers| ==> offers[i].id != offers[j].id)
  }

  ghost predicate ExistingFor(db: Db, tenant: TenantId, account: AccountId, m: MembershipId) {
    m in db.memberships && db.memberships[m].tenant == tenant && db.memberships[m].account == account
  }

  /**
   The write half of an acceptance: find, reopen or create the account's membership, write the
   profile, and insert the offered roles. The checks before it refuse a disabled account and
   an FAU that is not open.
   */
  ghost function Seat(db: Db, tenant: TenantId, account: AccountId, expected: MembershipId,
                      profile: Profile, offers: seq<Offer>, today: Day): Result<Db, Error>
    requires Linked(db)
  {
    if tenant !in db.tenants then Err(UnknownTenant)
    else if RequireOpen(db.tenants[tenant]).Err? then Err(RequireOpen(db.tenants[tenant]).error)
    else if account !in db.accounts || !db.accounts[account].usable then Err(AccountDisabled)
    else if !FreshOffers(offers, db) then Err(Database)
    else if exists m :: ExistingFor(db, tenant, account, m) && m != expected then Err(AcceptanceTargetChanged)
    else if ExistingFor(db, tenant, account, expected) then
      if db.memberships[expected].erased then Err(MembershipErased)
      else
        var outcome := SettleOutcome(db, expected, today);
        var open := Reopened(db, expected, today);
        var keep := (outcome.ActiveProfile? || outcome.RetainedProfile?) && profile.address.None?;
        var row := open.memberships[expected];
        Ok(open.(memberships := open.memberships[expected :=
                   row.(name := Some(profile.name),
                        address := if keep then row.address else profile.address)],
                 assignments := Seated(offers, expected, db.assignments)))
    else if expected in db.memberships then Err(Database)
    else
      Ok(db.(memberships := db.memberships[expected :=
               Membership(tenant, account, None, Some(profile.name), profile.address, None, false)],
             assignments := Seated(offers, expected, db.assignments)))
  }

  // Revoking

  function RevokeGrants(db: Db, gone: set<AssignmentId>): map<AssignmentId, Grant> {
    map g | g in db.grants :: if g in gone then db.grants[g].(revoked := true) else db.grants[g]
  }

  ghost function RevokeAssignment(db: Db, tenant: TenantId, actor: MembershipId, id: AssignmentId,
                                  confirm: bool, today: Day): Result<Db, Error>
    requires Linked(db)
  {
    var admin := IsAdminOn(db, tenant, actor, today);
    if tenant !in db.tenants then Err(UnknownTenant)
    else if id !in db.assignments || !Belongs(db, tenant, db.assignments[id].membership)
            || !(admin || db.assignments[id].membership == actor) then
      Err(if admin then UnknownAssignment else NotAuthorized)
    else if db.assignments[id].Revoked() then Err(AssignmentAlreadyRevoked)
    else if LeavesNoAdmin(db, tenant, OneAssignment(id), today) && !confirm then Err(WouldLeaveNoAdmin)
    else Ok(db.(assignments := db.assignments[id := db.assignments[id].(revokedOn := Some(today))],
                grants := RevokeGrants(db, {id})))
  }

  /** An ended admin-class assignment whose handover window is not over. */
  predicate OpenWindow(a: Assignment, today: Day) {
    && a.capability.Admin? && a.period.ends <= today
    && HandoverPeriod(a.period.ends).Some?
    && !HandoverPeriod(a.period.ends).value.HasEndedBy(today)
  }

  /** What revoking a membership ends: all that runs or is booked, and ended admin roles whose window is open. */
  predicate StillCounts(a: Assignment, today: Day) {
    !a.Revoked() && (a.period.ends > today || OpenWindow(a, today))
  }

  function RevokeAll(db: Db, m: MembershipId, today: Day): map<AssignmentId, Assignment> {
    map a | a in db.assignments ::
      if db.assignments[a].membership == m && StillCounts(db.assignments[a], today)
      then db.assignments[a].(revokedOn := Some(today)) else db.assignments[a]
  }

  function AssignmentsOf(db: Db, m: MembershipId): set<AssignmentId> {
    set a | a in db.assignments && db.assignments[a].membership == m
  }

  /** The revoked membership's row: its fields kept until a date, or cleared. */
  ghost function RevokedRow(db: Db, cut: Db, m: MembershipId, today: Day): Membership
    requires m in db.memberships && Linked(cut) && m in cut.memberships
  {
    var row := db.memberships[m];
    var stamped := if Ended(db, m, today) then row.keptUntil else None;
    var keep := if row.HasFields() then EffectiveKeepUntil(cut, m, stamped, today) else None;
    if keep.Some? then row.(revokedOn := Some(today), keptUntil := keep)
    else row.Cleared().(revokedOn := Some(today))
  }

  ghost function RevokeMembership(db: Db, tenant: TenantId, actor: MembershipId, m: MembershipId,
                                  confirm: bool, today: Day): Result<Db, Error>
    requires Linked(db)
  {
    if tenant !in db.tenants then Err(UnknownTenant)
    else if actor != m && !IsAdminOn(db, tenant, actor, today) then Err(NotAuthorized)
    else if !Belongs(db, tenant, m) then Err(UnknownMembership)
    else if db.memberships[m].revokedOn.Some? then Err(MembershipRevoked)
    else if LeavesNoAdmin(db, tenant, WholeMembership(m), today) && !confirm then Err(WouldLeaveNoAdmin)
    else
      var cut := db.(assignments := RevokeAll(db, m, today));
      Ok(cut.(memberships := db.memberships[m := RevokedRow(db, cut, m, today)],
              grants := RevokeGrants(db, AssignmentsOf(db, m)),
              groupMembers := WithoutGroups(db, {m})))
  }

  // Sweeping

  /** An ended, unrevoked admin-class assignment of the FAU without a grant whose window is open. */
  predicate Candidate(db: Db, tenant: TenantId, a: AssignmentId, today: Day) {
    && a in db.assignments && a !in db.grants
    && UsableIn(db, tenant, db.assignments[a].membership)
    && !db.assignments[a].Revoked()
    && OpenWindow(db.assignments[a], today)
  }

  function Candidates(db: Db, tenant: TenantId, today: Day): set<AssignmentId> {
    set a | a in db.assignments && Candidate(db, tenant, a, today)
  }

  function NewGrants(db: Db, sources: set<AssignmentId>): map<AssignmentId, Grant>
    requires forall a :: a in sources ==> a in db.assignments && HandoverPeriod(db.assignments[a].period.ends).Some?
  {
    db.grants + map a | a in sources :: Grant(HandoverPeriod(db.assignments[a].period.ends).value, false)
  }

  function SweepHandover(db: Db, tenant: TenantId, today: Day): Result<Db, Error> {
    if tenant !in db.tenants then Err(UnknownTenant)
    else if !db.tenants[tenant].status.Active? then Ok(db)
    else Ok(db.(grants := NewGrants(db, Candidates(db, tenant, today))))
  }

  /** The sweep's unlocked scan: which FAU-er are worth locking. */
  function ScannedTenants(db: Db, today: Day): set<TenantId> {
    set a | && a in db.assignments && a !in db.grants && db.assignments[a].capability.Admin?
            && !db.assignments[a].Revoked() && db.assignments[a].period.ends <= today
            && db.assignments[a].membership in db.memberships
      :: db.memberships[db.assignments[a].membership].tenant
  }

  /** Ended, with a field, and no stamp that is still ahead. */
  predicate Unsettled(db: Db, tenant: TenantId, m: MembershipId, today: Day) {
    && Belongs(db, tenant, m) && db.memberships[m].HasFields()
    && (db.memberships[m].keptUntil.None? || db.memberships[m].keptUntil.value <= today)
    && Ended(db, m, today)
  }

  function EndedIn(db: Db, tenant: TenantId, today: Day): set<MembershipId> {
    set m | m in db.memberships && Belongs(db, tenant, m) && Ended(db, m, today)
  }

  ghost function ClearEnded(db: Db, tenant: TenantId, today: Day): Result<Db, Error>
    requires Linked(db)
  {
    if tenant !in db.tenants then Err(UnknownTenant)
    else Ok(db.(memberships := map m | m in db.memberships ::
                  if Unsettled(db, tenant, m, today) then SettledRow(db, m, today) else db.memberships[m],
                groupMembers := WithoutGroups(db, EndedIn(db, tenant, today))))
  }

  // The member's own settings

  /** A row of the account, settled under the setting about to be replaced. */
  ghost function SettledOwn(db: Db, account: AccountId, m: MembershipId, today: Day): Membership
    requires Linked(db) && m in db.memberships
  {
    if db.memberships[m].account == account then SettledRow(db, m, today) else db.memberships[m]
  }

  /** A stamped, ended row of the account under the new setting. */
  ghost function Restamped(db: Db, account: AccountId, months: RetentionMonths, m: MembershipId,
                           row: Membership, today: Day): Membership
    requires m in db.memberships
  {
    if row.account == account && row.keptUntil.Some? && Ended(db, m, today) then
      var until := KeepUntil(EndedOnFor(db, m, today), months, today);
      if until.Some? then row.(keptUntil := until) else row.Cleared()
    else row
  }

  ghost function SetRetention(db: Db, account: AccountId, months: RetentionMonths, today: Day): Result<Db, Error>
    requires Linked(db)
  {
    if account !in db.accounts then Err(UnknownAccount)
    else Ok(db.(memberships := map m | m in db.memberships ::
                  Restamped(db, account, months, m, SettledOwn(db, account, m, today), today),
                accounts := db.accounts[account := db.accounts[account].(retention := months)]))
  }

  function EraseNames(db: Db, account: AccountId): Db {
    db.(memberships := map m | m in db.memberships ::
          if db.memberships[m].account == account && !db.memberships[m].erased
          then db.memberships[m].Cleared().(erased := true) else db.memberships[m])
  }

  /** A verified address gets an account, as the first acceptance at it does. */
  function OpenAccount(db: Db, account: AccountId): Result<Db, Error> {
    if account in db.accounts then Err(Database)
    else Ok(db.(accounts := db.accounts[account := Account(true, Three)]))
  }

  // Runs

  datatype Step =
    | DoGrantRole(tenant: TenantId, actor: MembershipId, target: MembershipId, id: AssignmentId,
                  role: string, capability: CapabilityClass, period: Period)
    | DoSeat(tenant: TenantId, account: AccountId, expected: MembershipId, profile: Profile, offers: seq<Offer>)
    | DoRevokeAssignment(tenant: TenantId, actor: MembershipId, id: AssignmentId, confirm: bool)
    | DoRevokeMembership(tenant: TenantId, actor: MembershipId, membership: MembershipId, confirm: bool)
    | DoSweepHandover(tenant: TenantId)
    | DoClearEnded(tenant: TenantId)
    | DoSetRetention(account: AccountId, months: RetentionMonths)
    | DoErase(account: AccountId)
    | DoAddToGroup(tenant: TenantId, actor: MembershipId, group: GroupId, membership: MembershipId)
    | DoOpenAccount(account: AccountId)

  ghost function Outcome(db: Db, step: Step, today: Day): Result<Db, Error>
    requires Linked(db)
  {
    match step
    case DoGrantRole(t, actor, target, id, role, capability, period) =>
      GrantRole(db, t, actor, target, id, role, capability, period, today)
    case DoSeat(t, account, expected, profile, offers) => Seat(db, t, account, expected, profile, offers, today)
    case DoRevokeAssignment(t, actor, id, confirm) => RevokeAssignment(db, t, actor, id, confirm, today)
    case DoRevokeMembership(t, actor, m, confirm) => RevokeMembership(db, t, actor, m, confirm, today)
    case DoSweepHandover(t) => SweepHandover(db, t, today)
    case DoClearEnded(t) => ClearEnded(db, t, today)
    case DoSetRetention(account, months) => SetRetention(db, account, months, today)
    case DoErase(account) => Ok(EraseNames(db, account))
    case DoAddToGroup(t, actor, group, m) => AddToGroup(db, t, actor, group, m, today)
    case DoOpenAccount(account) => OpenAccount(db, account)
  }

  /** One committed transaction, or none when it is refused. */
  ghost function Next(db: Db, step: Step, today: Day): Db
    requires Linked(db)
  {
    match Outcome(db, step, today)
    case Ok(after) => after
    case Err(_) => db
  }

  lemma {:induction false} SeatedSpec(offers: seq<Offer>, m: MembershipId, assignments: map<AssignmentId, Assignment>)
    requires forall i :: 0 <= i < |offers| ==> offers[i].id !in assignments
    requires forall i, j :: 0 <= i < j < |offers| ==> offers[i].id != offers[j].id
    ensures var after := Seated(offers, m, assignments);
            && (forall a :: a in assignments ==> a in after && after[a] == assignments[a])
            && (forall a :: a in after && a !in assignments ==>
                  && !after[a].Revoked() && after[a].membership == m
                  && exists i :: 0 <= i < |offers| && offers[i].id == a
                              && offers[i].capability == after[a].capability && offers[i].period == after[a].period)
  {
    if offers != [] {
      var o := offers[0];
      var next := assignments[o.id := Assignment(m, o.role, o.capability, o.period, None)];
      SeatedSpec(offers[1..], m, next);
      var after := Seated(offers, m, assignments);
      forall a | a in after && a !in assignments
        ensures && !after[a].Revoked() && after[a].membership == m
                && exists i :: 0 <= i < |offers| && offers[i].id == a
                            && offers[i].capability == after[a].capability && offers[i].period == after[a].period
      {
        if a != o.id {
          var i :| 0 <= i < |offers[1..]| && offers[1..][i].id == a
                   && offers[1..][i].capability == after[a].capability && offers[1..][i].period == after[a].period;
          assert offers[i + 1] == offers[1..][i];
        } else {
          assert offers[0].id == a;
        }
      }
    }
  }
}
