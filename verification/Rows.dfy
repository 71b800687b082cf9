/** The rows of the membership database. */
module Rows {
  import opened Base
  import opened Calendar
  import opened Periods
  import opened Access
  import opened Retention

  type TenantId = nat
  type AccountId = nat
  type MembershipId = nat
  type AssignmentId = nat
  type GroupId = nat
  type Ciphertext = seq<int>

  datatype TenantStatus = Pending | Active | Closed

  datatype Tenant = Tenant(status: TenantStatus, frozen: bool)

  /** `usable`: verified and not disabled. */
  datatype Account = Account(usable: bool, retention: RetentionMonths)

  /** A revocation is kept as its Oslo date, which is all the rules read from it. */
  datatype Membership = Membership(tenant: TenantId, account: AccountId, revokedOn: Option<Day>,
                                   name: Option<Ciphertext>, address: Option<Ciphertext>,
                                   keptUntil: Option<Day>, erased: bool)
  {
    predicate HasFields() { name.Some? || address.Some? }

    function Cleared(): Membership { this.(name := None, address := None, keptUntil := None) }
  }

  datatype Assignment = Assignment(membership: MembershipId, role: string, capability: CapabilityClass,
                                   period: Period, revokedOn: Option<Day>)
  {
    predicate Revoked() { revokedOn.Some? }

    predicate ValidOn(day: Day) { !Revoked() && period.Contains(day) }

    /** The day the role stopped being held: its end, or an earlier revocation. */
    function HeldUntil(): Day {
      if revokedOn.Some? && revokedOn.value < period.ends then revokedOn.value else period.ends
    }

    predicate Held() { period.starts < HeldUntil() }
  }

  datatype Grant = Grant(period: Period, revoked: bool) {
    predicate ValidOn(day: Day) { !revoked && period.Contains(day) }
  }

  /** Grants are keyed by their source assignment: the table's unique constraint. */
  datatype Db = Db(tenants: map<TenantId, Tenant>, accounts: map<AccountId, Account>,
                   memberships: map<MembershipId, Membership>,
                   assignments: map<AssignmentId, Assignment>,
                   grants: map<AssignmentId, Grant>,
                   groupMembers: set<(GroupId, MembershipId)>)

  datatype Error =
    | UnknownTenant | TenantNotActive | TenantFrozen | NotAuthorized
    | UnknownMembership | MembershipRevoked | AccountDisabled | PeriodAlreadyEnded
    | MembershipEnded | AlreadyInGroup
    | UnknownAssignment | AssignmentAlreadyRevoked | WouldLeaveNoAdmin
    | AcceptanceTargetChanged | MembershipErased | UnknownAccount | Database
}
