/**
 The invitations table and the transactions that change it in place, over the membership
 tables. Each refines the step of the same name.
 */
module InvitationDesk {
  import opened Base
  import opened Calendar
  import opened Periods
  import opened Access
  import opened Rules
  import opened Rows
  import opened Transactions
  import opened AdminState
  import opened Invitations
  import Store

  /** The offered roles are refused for the first one at fault, as they are read in order. */
  method ResolveRoles(o: Office, roles: seq<OfferedRole>, today: Day) returns (r: Option<Refusal>)
    ensures r == OfferRefusal(o, roles, today)
  {
    var seen := {};
    for i := 0 to |roles|
      invariant OfferRefusal(o, roles[..i], today).None?
      invariant forall name :: name in seen <==> exists x :: x in roles[..i] && x.role == name
    {
      var offer := roles[i];
      var read := roles[..i + 1];
      assert read[..i] == roles[..i];
      var why :=
        if offer.period.HasEndedBy(today) then Some(Refusal.Members(PeriodAlreadyEnded))
        else if offer.group.Some? && offer.group.value in o.archived then Some(GroupArchived)
        else if offer.role in seen then Some(DuplicateRole)
        else None;
      if why.Some? {
        assert OfferRefusal(o, read, today) == why;
        FirstRefusalStands(o, roles, i + 1, today);
        return why;
      }
      seen := seen + {offer.role};
    }
    assert roles[..|roles|] == roles;
    return None;
  }

  lemma {:induction false} FirstRefusalStands(o: Office, roles: seq<OfferedRole>, n: nat, today: Day)
    requires n <= |roles| && OfferRefusal(o, roles[..n], today).Some?
    ensures OfferRefusal(o, roles, today) == OfferRefusal(o, roles[..n], today)
  {
    if n < |roles| {
      var init := roles[..|roles| - 1];
      assert init[..n] == roles[..n];
      FirstRefusalStands(o, init, n, today);
    } else {
      assert roles[..n] == roles;
    }
  }

  /** Gives every admin role the leader's own end date, or stops at the first it would empty. */
  method OverrideAdminEnds(roles: seq<OfferedRole>, end: Day) returns (r: Result<seq<OfferedRole>, Refusal>)
    ensures r == Overridden(roles, end)
  {
    var moved := roles;
    for i := 0 to |roles|
      invariant |moved| == |roles| && moved[i..] == roles[i..]
      invariant Overridden(roles[..i], end) == Ok(moved[..i])
    {
      assert roles[..i + 1][..i] == roles[..i] && moved[i..][0] == roles[i..][0];
      if moved[i].capability.Admin? {
        var p := NewPeriod(moved[i].period.starts, end);
        if p.None? {
          EmptyStands(roles, i + 1, end);
          return Err(EmptyPeriod);
        }
        moved := moved[i := moved[i].(period := p.value)];
      }
      assert moved[..i + 1] == moved[..i] + [moved[i]];
      assert moved[i + 1..] == roles[i..][1..];
    }
    assert roles[..|roles|] == roles && moved[..|roles|] == moved;
    return Ok(moved);
  }

  lemma {:induction false} EmptyStands(roles: seq<OfferedRole>, n: nat, end: Day)
    requires n <= |roles| && Overridden(roles[..n], end).Err?
    ensures Overridden(roles, end) == Overridden(roles[..n], end)
  {
    if n < |roles| {
      var init := roles[..|roles| - 1];
      assert init[..n] == roles[..n];
      EmptyStands(init, n, end);
    } else {
      assert roles[..n] == roles;
    }
  }

  lemma AccountKeepsLinks(o: Office, req: AcceptRequest)
    requires Linked(o.db)
    ensures Linked(WithAccount(o, req).db)
  {
  }

  class Desk {
    const members: Store.MembershipStore
    var rows: map<InvitationId, Invitation>
    var archived: set<GroupId>
    var seats: map<TenantId, Holder>
    var addresses: map<Email, AccountId>
    var disabled: set<AccountId>

    constructor (members: Store.MembershipStore)
      ensures this.members == members && View() == Office(members.Tables(), map[], {}, map[], map[], {})
    {
      this.members := members;
      rows, archived, seats, addresses, disabled := map[], {}, map[], map[], {};
    }

    function View(): Office
      reads this, members
    {
      Office(members.Tables(), rows, archived, seats, addresses, disabled)
    }

    method Insert(tenant: TenantId, id: InvitationId, token: Token, mode: Mode, recipient: Email,
                  roles: seq<OfferedRole>, at: Moment)
      returns (r: Result<(), Refusal>)
      modifies `rows
      ensures Committed(old(View()), Inserted(old(View()), tenant, id, token, mode, recipient, roles, at), View(), r)
    {
      if id in rows || TokenInUse(View(), token) { return Err(Refusal.Members(Database)); }
      rows := rows[id := Invitation(tenant, mode, recipient, token, InvitationExpiry(at.now), roles, None, false)];
      return Ok(());
    }

    method Issue(tenant: TenantId, actor: MembershipId, grant: Option<AssignmentId>, id: InvitationId,
                 token: Token, recipient: Email, roles: seq<OfferedRole>, at: Moment)
      returns (r: Result<(), Refusal>)
      modifies `rows
      ensures Committed(old(View()), Issued(old(View()), tenant, actor, grant, id, token, recipient, roles, at), View(), r)
    {
      var db := members.Tables();
      if tenant !in db.tenants { return Err(Refusal.Members(UnknownTenant)); }
      var open := RequireOpen(db.tenants[tenant]);
      if open.Err? { return Err(Refusal.Members(open.error)); }
      var mode;
      if grant.None? {
        if !IsAdminOn(db, tenant, actor, at.today) { return Err(Refusal.Members(NotAuthorized)); }
        mode := Normal(actor);
      } else {
        if !GrantValid(db, tenant, grant.value, actor, at.today) { return Err(Refusal.Members(NotAuthorized)); }
        if exists x :: x in roles && x.capability.Guest? { return Err(Refusal.Members(NotAuthorized)); }
        if recipient in addresses && actor in db.memberships && addresses[recipient] == db.memberships[actor].account {
          return Err(SelfInvitation);
        }
        mode := Handover(actor, grant.value);
      }
      if roles == [] { return Err(NoRolesOffered); }
      var refusal := ResolveRoles(View(), roles, at.today);
      if refusal.Some? { return Err(refusal.value); }
      r := Insert(tenant, id, token, mode, recipient, roles, at);
    }

    method Resend(tenant: TenantId, actor: MembershipId, id: InvitationId, token: Token, at: Moment)
      returns (r: Result<(), Refusal>)
      modifies `rows
      ensures Committed(old(View()), Resent(old(View()), tenant, actor, id, token, at), View(), r)
    {
      if tenant !in members.tenants { return Err(Refusal.Members(UnknownTenant)); }
      if !MayChange(View(), tenant, actor, id, at.today, Resending) { return Err(Refusal.Members(NotAuthorized)); }
      var open := RequireOpen(members.tenants[tenant]);
      if open.Err? { return Err(Refusal.Members(open.error)); }
      if !Found(View(), tenant, id) { return Err(UnknownInvitation); }
      if !IsPending(rows[id]) { return Err(InvitationNotPending); }
      if OffersArchived(View(), rows[id].roles) { return Err(GroupArchived); }
      if TokenInUse(View(), token) { return Err(Refusal.Members(Database)); }
      rows := rows[id := rows[id].(token := token, expires := InvitationExpiry(at.now))];
      return Ok(());
    }

    method Withdraw(tenant: TenantId, actor: MembershipId, id: InvitationId, at: Moment) returns (r: Result<(), Refusal>)
      modifies `rows
      ensures Committed(old(View()), Withdrawn(old(View()), tenant, actor, id, at), View(), r)
    {
      if tenant !in members.tenants { return Err(Refusal.Members(UnknownTenant)); }
      if !MayChange(View(), tenant, actor, id, at.today, Withdrawing) { return Err(Refusal.Members(NotAuthorized)); }
      if !Found(View(), tenant, id) { return Err(UnknownInvitation); }
      if !IsPending(rows[id]) { return Err(InvitationNotPending); }
      rows := rows[id := rows[id].(revoked := true)];
      return Ok(());
    }

    /** The unlocked read an acceptance starts with. */
    method LookUp(token: Token) returns (found: Option<InvitationId>)
      ensures found.Some? ==> found.value in rows && rows[found.value].token == token
      ensures found.None? ==> !TokenInUse(View(), token)
    {
      var todo := rows.Keys;
      while todo != {}
        invariant todo <= rows.Keys
        invariant forall id :: id in rows && id !in todo ==> rows[id].token != token
        decreases todo
      {
        var id :| id in todo;
        if rows[id].token == token { return Some(id); }
        todo := todo - {id};
      }
      return None;
    }

    /** Whether the issuer's authority, read under the lock, still stands. */
    method Backed(tenant: TenantId, mode: Mode, today: Day) returns (b: bool)
      requires Linked(members.Tables())
      ensures b <==> StillBacked(View(), tenant, mode, today)
    {
      var db := members.Tables();
      match mode
      case Normal(issuer) => b := IsAdminOn(db, tenant, issuer, today);
      case Handover(issuer, grant) => b := GrantValid(db, tenant, grant, issuer, today);
      case Activation => b := true;
      case Recovery(holder) =>
        var admins, held := members.LoadAdminState(tenant);
        LoadedHasAdmin(db, tenant, admins, held, today);
        b := !HasAdmin(admins, held, today) && tenant in seats && seats[tenant] == holder;
    }

    /**
     What an acceptance does under the lock, to the invitation its lookup found by `token`. A
     refused seat undoes the account it found or created.
     */
    method Accept(id: InvitationId, token: Token, req: AcceptRequest, at: Moment) returns (r: Result<(), Refusal>)
      requires Linked(members.Tables())
      modifies `rows, `addresses, members`accounts, members`memberships, members`assignments, members`groupMembers
      ensures Committed(old(View()), Accepted(old(View()), id, token, req, at), View(), r)
    {
      hide Seat, Linked, StillBacked, OffersArchived, RolesToSeat, CheckAcceptance;
      ghost var before := View();
      if id !in rows || rows[id].token != token { return Err(UnknownInvitation); }
      var i := rows[id];
      if i.tenant !in members.tenants { return Err(Refusal.Members(UnknownTenant)); }
      var backed := Backed(i.tenant, i.mode, at.today);
      var refusal := CheckAcceptance(i, at.now, req.acceptor, DisabledAddress(View(), req.acceptor), members.tenants[i.tenant], backed);
      if refusal.Some? { return Err(Acceptance(refusal.value)); }
      if OffersArchived(View(), i.roles) { return Err(GroupArchived); }
      var roles := SeatedRoles(i, req.end, at.today);
      if roles.Err? { return Err(roles.error); }
      if |req.ids| < |roles.value| || (req.acceptor !in addresses && req.minted in members.accounts) {
        return Err(Refusal.Members(Database));
      }
      var open := WithAccount(View(), req);
      AccountKeepsLinks(View(), req);
      var was := members.accounts;
      members.accounts := open.db.accounts;
      assert members.Tables() == open.db;
      var seated := members.SeatMember(i.tenant, AccountFor(View(), req), req.membership, req.profile,
                                       Offers(roles.value, req.ids), at.today);
      if seated.Err? {
        members.accounts := was;
        assert View() == before;
        return Err(Refusal.Members(seated.error));
      }
      addresses := open.addresses;
      rows := rows[id := i.(accepted := Some(req.membership))];
      return Ok(());
    }

    method SeatedRoles(i: Invitation, end: Option<Day>, today: Day) returns (r: Result<seq<OfferedRole>, Refusal>)
      ensures r == RolesToSeat(i, end, today)
    {
      if end.None? { return Ok(i.roles); }
      if !i.mode.Activation? { return Err(OverrideNotAllowed); }
      var valid := ValidateAdminEnd(today, end.value);
      if valid.Err? { return Err(AdminEnd(valid.error)); }
      r := OverrideAdminEnds(i.roles, end.value);
    }
  }

  /** The method's answer and new tables are those the transaction is specified to have. */
  ghost predicate Committed(before: Office, outcome: Result<Office, Refusal>, after: Office, r: Result<(), Refusal>) {
    match outcome
    case Ok(o) => r == Ok(()) && after == o
    case Err(e) => r == Err(e) && after == before
  }
}
