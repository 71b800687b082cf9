/**
 Invitations: issue, re-send, withdraw and accept. Each transaction locks the FAU, so it is
 one step; accepting first looks the token up outside the lock, so that is a step of its own.
 */
module Invitations {
  import opened Base
  import opened Calendar
  import opened Periods
  import opened Access
  import opened Retention
  import opened Rules
  import opened Rows
  import opened Transactions
  import opened Authority

  type InvitationId = nat
  type SessionId = nat
  type Email = string
  /** Tokens and their hashes are told apart equally well, so one name stands for both. */
  type Token = nat
  /** Microseconds of Unix time. */
  type Instant = int

  const INVITATION_MICROS: int := 14 * 24 * 60 * 60 * 1_000_000
  const MAX_INSTANT: Instant := 253402207200_999_999

  /** One instant and the Oslo date it falls on. */
  datatype Moment = Moment(now: Instant, today: Day)

  function InvitationExpiry(now: Instant): Instant { Min(now + INVITATION_MICROS, MAX_INSTANT) }

  datatype Holder = Ewb | SchoolRep

  /** What each mode must name: the issuer, the grant it was issued under, or the seat. */
  datatype Mode = Normal(issuer: MembershipId) | Handover(issuer: MembershipId, grant: AssignmentId)
                | Recovery(holder: Holder) | Activation
  {
    predicate IssuedBy(m: MembershipId) { (Normal? || Handover?) && issuer == m }
  }

  datatype OfferedRole = OfferedRole(role: string, capability: CapabilityClass, period: Period,
                                     group: Option<GroupId>)

  datatype Invitation = Invitation(tenant: TenantId, mode: Mode, recipient: Email, token: Token,
                                   expires: Instant, roles: seq<OfferedRole>,
                                   accepted: Option<MembershipId>, revoked: bool)

  /** The tables an invitation transaction reads or writes. `disabled`: accounts disabled by an operator. */
  datatype Office = Office(db: Db, rows: map<InvitationId, Invitation>, archived: set<GroupId>,
                           seats: map<TenantId, Holder>, addresses: map<Email, AccountId>,
                           disabled: set<AccountId>)

  datatype AcceptanceRefusal =
    | Revoked | AlreadyAccepted | Expired | EmailMismatch | AccountIsDisabled
    | NotActive | Frozen | IssuerLacksAuthority

  datatype Refusal =
    | Members(error: Error) | UnknownInvitation | InvitationNotPending | GroupArchived
    | NoRolesOffered | DuplicateRole | SelfInvitation
    | Acceptance(why: AcceptanceRefusal) | OverrideNotAllowed | AdminEnd(end: AdminEndError) | EmptyPeriod

  // Authority

  /** The grant is valid on the day and belongs to the membership. */
  predicate GrantValid(db: Db, tenant: TenantId, grant: AssignmentId, m: MembershipId, day: Day) {
    GrantRow(db, tenant, grant, day) && db.assignments[grant].membership == m
  }

  datatype ChangeKind = Resending | Withdrawing

  predicate MayChange(o: Office, tenant: TenantId, actor: MembershipId, id: InvitationId, today: Day, kind: ChangeKind) {
    || IsAdminOn(o.db, tenant, actor, today)
    || (Found(o, tenant, id) && o.rows[id].mode.IssuedBy(actor) &&
        match o.rows[id].mode
        case Handover(_, grant) =>
          if kind.Resending? then GrantValid(o.db, tenant, grant, actor, today) else UsableIn(o.db, tenant, actor)
        case Normal(_) => kind.Withdrawing? && UsableIn(o.db, tenant, actor)
        case _ => false)
  }

  predicate Found(o: Office, tenant: TenantId, id: InvitationId) {
    id in o.rows && o.rows[id].tenant == tenant
  }

  predicate IsPending(i: Invitation) { i.accepted.None? && !i.revoked }

  predicate OffersArchived(o: Office, roles: seq<OfferedRole>) {
    exists i :: 0 <= i < |roles| && roles[i].group.Some? && roles[i].group.value in o.archived
  }

  // Transactions

  predicate TokenInUse(o: Office, token: Token) {
    exists id :: id in o.rows && o.rows[id].token == token
  }

  /** The row every path that issues an invitation writes. */
  function Inserted(o: Office, tenant: TenantId, id: InvitationId, token: Token, mode: Mode,
                    recipient: Email, roles: seq<OfferedRole>, at: Moment): Result<Office, Refusal>
  {
    if id in o.rows || TokenInUse(o, token) then Err(Members(Database))
    else Ok(o.(rows := o.rows[id := Invitation(tenant, mode, recipient, token, InvitationExpiry(at.now), roles, None, false)]))
  }

  /** The first reason an offer is refused, role by role. */
  function OfferRefusal(o: Office, roles: seq<OfferedRole>, today: Day): Option<Refusal>
    decreases |roles|
  {
    if roles == [] then None
    else
      var init := roles[..|roles| - 1];
      var last := roles[|roles| - 1];
      var before := OfferRefusal(o, init, today);
      if before.Some? then before
      else if last.period.HasEndedBy(today) then Some(Members(PeriodAlreadyEnded))
      else if last.group.Some? && last.group.value in o.archived then Some(GroupArchived)
      else if exists r :: r in init && r.role == last.role then Some(DuplicateRole)
      else None
  }

  /** `issue_invitation`: by an administrator, or under the actor's own handover grant. */
  function Issued(o: Office, tenant: TenantId, actor: MembershipId, grant: Option<AssignmentId>, id: InvitationId,
                  token: Token, recipient: Email, roles: seq<OfferedRole>, at: Moment): Result<Office, Refusal>
  {
    if tenant !in o.db.tenants then Err(Members(UnknownTenant))
    else if RequireOpen(o.db.tenants[tenant]).Err? then Err(Members(RequireOpen(o.db.tenants[tenant]).error))
    else if grant.None? && !IsAdminOn(o.db, tenant, actor, at.today) then Err(Members(NotAuthorized))
    else if grant.Some? && !GrantValid(o.db, tenant, grant.value, actor, at.today) then Err(Members(NotAuthorized))
    else if grant.Some? && (exists r :: r in roles && r.capability.Guest?) then Err(Members(NotAuthorized))
    else if grant.Some? && recipient in o.addresses && actor in o.db.memberships
            && o.addresses[recipient] == o.db.memberships[actor].account then Err(SelfInvitation)
    else if roles == [] then Err(NoRolesOffered)
    else
      match OfferRefusal(o, roles, at.today)
      case Some(e) => Err(e)
      case None =>
        Inserted(o, tenant, id, token, if grant.Some? then Handover(actor, grant.value) else Normal(actor), recipient, roles, at)
  }

  /** `resend_invitation`: authority first, then the FAU, then the invitation's own state. */
  function Resent(o: Office, tenant: TenantId, actor: MembershipId, id: InvitationId, token: Token, at: Moment)
    : Result<Office, Refusal>
  {
    if tenant !in o.db.tenants then Err(Members(UnknownTenant))
    else if !MayChange(o, tenant, actor, id, at.today, Resending) then Err(Members(NotAuthorized))
    else if RequireOpen(o.db.tenants[tenant]).Err? then Err(Members(RequireOpen(o.db.tenants[tenant]).error))
    else if !Found(o, tenant, id) then Err(UnknownInvitation)
    else if !IsPending(o.rows[id]) then Err(InvitationNotPending)
    else if OffersArchived(o, o.rows[id].roles) then Err(GroupArchived)
    else if TokenInUse(o, token) then Err(Members(Database))
    else Ok(o.(rows := o.rows[id := o.rows[id].(token := token, expires := InvitationExpiry(at.now))]))
  }

  /** `withdraw_invitation`: also while the FAU is frozen. */
  function Withdrawn(o: Office, tenant: TenantId, actor: MembershipId, id: InvitationId, at: Moment): Result<Office, Refusal> {
    if tenant !in o.db.tenants then Err(Members(UnknownTenant))
    else if !MayChange(o, tenant, actor, id, at.today, Withdrawing) then Err(Members(NotAuthorized))
    else if !Found(o, tenant, id) then Err(UnknownInvitation)
    else if !IsPending(o.rows[id]) then Err(InvitationNotPending)
    else Ok(o.(rows := o.rows[id := o.rows[id].(revoked := true)]))
  }

  /** The issuer's authority, by mode, on the day of the acceptance. */
  ghost predicate StillBacked(o: Office, tenant: TenantId, mode: Mode, today: Day) {
    match mode
    case Normal(issuer) => IsAdminOn(o.db, tenant, issuer, today)
    case Handover(issuer, grant) => GrantValid(o.db, tenant, grant, issuer, today)
    case Recovery(holder) =>
      !HasAdminOn(o.db, tenant, today) && tenant in o.seats && o.seats[tenant] == holder
    case Activation => true
  }

  predicate DisabledAddress(o: Office, email: Email) {
    email in o.addresses && o.addresses[email] in o.disabled
  }

  /** The rules of an acceptance, in the order they are checked. */
  function CheckAcceptance(i: Invitation, now: Instant, acceptor: Email, disabled: bool, tenant: Tenant, backed: bool)
    : Option<AcceptanceRefusal>
  {
    if i.revoked then Some(Revoked)
    else if i.accepted.Some? then Some(AlreadyAccepted)
    else if now >= i.expires then Some(Expired)
    else if i.recipient != acceptor then Some(EmailMismatch)
    else if disabled then Some(AccountIsDisabled)
    else if !tenant.status.Active? then Some(NotActive)
    else if tenant.frozen then Some(Frozen)
    else if !backed then Some(IssuerLacksAuthority)
    else None
  }

  /** `minted`: the id a new account gets; `ids`: those of the new assignments. */
  datatype AcceptRequest = AcceptRequest(acceptor: Email, end: Option<Day>, membership: MembershipId,
                                         profile: Profile, minted: AccountId, ids: seq<AssignmentId>)

  /** The offered roles with the leader's own end date for the admin ones, or why it is refused. */
  function Overridden(roles: seq<OfferedRole>, end: Day): Result<seq<OfferedRole>, Refusal> {
    if roles == [] then Ok([])
    else
      var last := roles[|roles| - 1];
      match Overridden(roles[..|roles| - 1], end)
      case Err(e) => Err(e)
      case Ok(rest) =>
        if !last.capability.Admin? then Ok(rest + [last])
        else
          match NewPeriod(last.period.starts, end)
          case None => Err(EmptyPeriod)
          case Some(p) => Ok(rest + [last.(period := p)])
  }

  function RolesToSeat(i: Invitation, end: Option<Day>, today: Day): Result<seq<OfferedRole>, Refusal> {
    match end
    case None => Ok(i.roles)
    case Some(e) =>
      if !i.mode.Activation? then Err(OverrideNotAllowed)
      else if ValidateAdminEnd(today, e).Err? then Err(AdminEnd(ValidateAdminEnd(today, e).error))
      else Overridden(i.roles, e)
  }

  function Offers(roles: seq<OfferedRole>, ids: seq<AssignmentId>): seq<Offer>
    requires |roles| <= |ids|
  {
    seq(|roles|, (i: nat) requires i < |roles| => Offer(ids[i], roles[i].role, roles[i].capability, roles[i].period))
  }

  function AccountFor(o: Office, req: AcceptRequest): AccountId {
    if req.acceptor in o.addresses then o.addresses[req.acceptor] else req.minted
  }

  /** The verified address's account, created or marked verified. */
  function WithAccount(o: Office, req: AcceptRequest): Office {
    var account := AccountFor(o, req);
    var months := if account in o.db.accounts then o.db.accounts[account].retention else Three;
    o.(db := o.db.(accounts := o.db.accounts[account := Account(account !in o.disabled, months)]),
       addresses := o.addresses[req.acceptor := account])
  }

  /** `accept_invitation` after its lookup found `id` by `token`. */
  ghost function Accepted(o: Office, id: InvitationId, token: Token, req: AcceptRequest, at: Moment): Result<Office, Refusal>
    requires Linked(o.db)
  {
    if id !in o.rows || o.rows[id].token != token then Err(UnknownInvitation)
    else
      var i := o.rows[id];
      if i.tenant !in o.db.tenants then Err(Members(UnknownTenant))
      else
        var refusal := CheckAcceptance(i, at.now, req.acceptor, DisabledAddress(o, req.acceptor), o.db.tenants[i.tenant],
                                       StillBacked(o, i.tenant, i.mode, at.today));
        if refusal.Some? then Err(Acceptance(refusal.value))
        else if OffersArchived(o, i.roles) then Err(GroupArchived)
        else
          match RolesToSeat(i, req.end, at.today)
          case Err(e) => Err(e)
          case Ok(roles) =>
            if |req.ids| < |roles| || (req.acceptor !in o.addresses && req.minted in o.db.accounts) then Err(Members(Database))
            else
              var open := WithAccount(o, req);
              match Seat(open.db, i.tenant, AccountFor(o, req), req.membership, req.profile, Offers(roles, req.ids), at.today)
              case Err(e) => Err(Members(e))
              case Ok(db) => Ok(open.(db := db, rows := o.rows[id := i.(accepted := Some(req.membership))]))
  }
}
