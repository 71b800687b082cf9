/** Who may issue, change and accept an invitation, read off the rows, and what each then leaves. */
module InvitationRules {
  import opened Base
  import opened Calendar
  import opened Periods
  import opened Access
  import opened Retention
  import opened Rules
  import opened Rows
  import opened Transactions
  import opened Authority
  import opened Effects
  import opened Invitations

  // Authority in rows

  /** The membership's own handover grant, in force on the day. */
  predicate GrantInRows(db: Db, tenant: TenantId, grant: AssignmentId, day: Day) {
    && grant in db.grants && grant in db.assignments
    && CurrentIn(db, tenant, db.assignments[grant].membership) && db.assignments[grant].revokedOn == None
    && !db.grants[grant].revoked && db.grants[grant].period.starts <= day && day < db.grants[grant].period.ends
  }

  lemma GrantIsInRows(db: Db, tenant: TenantId, grant: AssignmentId, m: MembershipId, day: Day)
    ensures GrantValid(db, tenant, grant, m, day)
       <==> GrantInRows(db, tenant, grant, day) && db.assignments[grant].membership == m
  {
  }

  lemma NoAdministratorInRows(db: Db, tenant: TenantId, day: Day)
    ensures HasAdminOn(db, tenant, day)
       <==> (exists m :: AdminInRows(db, tenant, m, day)) || (exists g :: GrantInRows(db, tenant, g, day))
  {
    if a :| Covers(db, tenant, a, day) {
      if AdminRow(db, tenant, a, day) {
        assert AdminInRows(db, tenant, db.assignments[a].membership, day);
      } else {
        assert GrantInRows(db, tenant, a, day);
      }
    }
    if m :| AdminInRows(db, tenant, m, day) {
      var a :| && a in db.assignments && db.assignments[a].membership == m && db.assignments[a].capability == Admin
               && db.assignments[a].revokedOn == None
               && db.assignments[a].period.starts <= day && day < db.assignments[a].period.ends;
      assert Covers(db, tenant, a, day);
    }
    if g :| GrantInRows(db, tenant, g, day) {
      assert Covers(db, tenant, g, day);
    }
  }

  /** What each kind of invitation rests on, the day it is accepted. */
  ghost predicate RestsOn(o: Office, tenant: TenantId, mode: Mode, day: Day) {
    match mode
    case Normal(issuer) => AdminInRows(o.db, tenant, issuer, day)
    case Handover(issuer, grant) => GrantInRows(o.db, tenant, grant, day) && o.db.assignments[grant].membership == issuer
    case Recovery(holder) =>
      && (forall m :: !AdminInRows(o.db, tenant, m, day)) && (forall g :: !GrantInRows(o.db, tenant, g, day))
      && tenant in o.seats && o.seats[tenant] == holder
    case Activation => true
  }

  lemma RestsOnRows(o: Office, tenant: TenantId, mode: Mode, day: Day)
    ensures StillBacked(o, tenant, mode, day) <==> RestsOn(o, tenant, mode, day)
  {
    hide HasAdminOn, AdminInRows, GrantInRows, GrantValid, IsAdminOn;
    match mode
    case Normal(issuer) => AdminIsInRows(o.db, tenant, issuer, day);
    case Handover(issuer, grant) => GrantIsInRows(o.db, tenant, grant, issuer, day);
    case Recovery(_) => NoAdministratorInRows(o.db, tenant, day);
    case Activation =>
  }

  // Offered roles

  /** No offered role is over, bound to an archived group, or named twice. */
  predicate Offerable(o: Office, roles: seq<OfferedRole>, day: Day) {
    && (forall i :: 0 <= i < |roles| ==> day < roles[i].period.ends)
    && (forall i :: 0 <= i < |roles| && roles[i].group.Some? ==> roles[i].group.value !in o.archived)
    && (forall i, j :: 0 <= i < j < |roles| ==> roles[i].role != roles[j].role)
  }

  lemma {:induction false} OfferableExactly(o: Office, roles: seq<OfferedRole>, day: Day)
    ensures OfferRefusal(o, roles, day).None? <==> Offerable(o, roles, day)
    decreases |roles|
  {
    if roles != [] {
      hide Offerable;
      var n := |roles| - 1;
      OfferableExactly(o, roles[..n], day);
      OneMoreOfferable(o, roles[..n], roles[n], day);
      assert roles == roles[..n] + [roles[n]];
    } else {
      assert Offerable(o, roles, day);
    }
  }

  lemma OneMoreOfferable(o: Office, init: seq<OfferedRole>, last: OfferedRole, day: Day)
    ensures Offerable(o, init + [last], day) <==>
              && Offerable(o, init, day) && day < last.period.ends
              && (last.group.Some? ==> last.group.value !in o.archived) && (forall r :: r in init ==> r.role != last.role)
  {
    var n, roles := |init|, init + [last];
    assert forall i :: 0 <= i < n ==> roles[i] == init[i];
    assert roles[n] == last;
    if Offerable(o, roles, day) {
      forall r | r in init ensures r.role != last.role {
        var i :| 0 <= i < n && init[i] == r;
        assert roles[i].role != roles[n].role;
      }
      OfferablePrefix(o, init, last, day);
    }
  }

  lemma OfferablePrefix(o: Office, init: seq<OfferedRole>, last: OfferedRole, day: Day)
    requires Offerable(o, init + [last], day)
    ensures Offerable(o, init, day)
  {
    var roles := init + [last];
    forall i | 0 <= i < |init| ensures roles[i] == init[i] {}
    forall i, j | 0 <= i < j < |init| ensures init[i].role != init[j].role {
      assert roles[i].role != roles[j].role;
    }
    forall i | 0 <= i < |init| ensures day < init[i].period.ends && (init[i].group.Some? ==> init[i].group.value !in o.archived) {
      assert day < roles[i].period.ends;
    }
  }

  /** The leader's own end date is taken by the admin roles alone, and every one of them must begin before it. */
  lemma {:induction false} OverriddenExactly(roles: seq<OfferedRole>, end: Day)
    ensures Overridden(roles, end).Ok? <==>
              forall i :: 0 <= i < |roles| && roles[i].capability == Admin ==> roles[i].period.starts < end
    ensures Overridden(roles, end).Ok? ==>
              var moved := Overridden(roles, end).value;
              && |moved| == |roles|
              && forall i :: 0 <= i < |roles| ==>
                   if roles[i].capability == Admin then
                     moved[i] == OfferedRole(roles[i].role, Admin, RawPeriod(roles[i].period.starts, end), roles[i].group)
                   else moved[i] == roles[i]
    ensures Overridden(roles, end).Err? ==> Overridden(roles, end).error == EmptyPeriod
    decreases |roles|
  {
    if roles != [] {
      var init := roles[..|roles| - 1];
      OverriddenExactly(init, end);
      assert forall i :: 0 <= i < |init| ==> init[i] == roles[i];
    }
  }

  lemma RolesToSeatExactly(i: Invitation, end: Option<Day>, today: Day, soonest: Day, latest: Day)
    requires MonthsOn(today, 1, soonest) && MonthsOn(today, 24, latest)
    ensures RolesToSeat(i, end, today).Ok? <==>
              end.Some? ==>
                && i.mode == Activation && soonest <= end.value <= latest
                && forall k :: 0 <= k < |i.roles| && i.roles[k].capability == Admin ==> i.roles[k].period.starts < end.value
    ensures RolesToSeat(i, end, today).Ok? ==>
              var seated := RolesToSeat(i, end, today).value;
              && |seated| == |i.roles|
              && forall k :: 0 <= k < |seated| ==>
                   if end.Some? && i.roles[k].capability == Admin then
                     seated[k] == OfferedRole(i.roles[k].role, Admin, RawPeriod(i.roles[k].period.starts, end.value), i.roles[k].group)
                   else seated[k] == i.roles[k]
  {
    hide MonthsOn, ValidateAdminEnd;
    if end.Some? {
      ValidateAdminEndSpec(today, end.value, soonest, latest);
      OverriddenExactly(i.roles, end.value);
    }
  }

  // Issuing, re-sending, withdrawing

  /** Fourteen days in microseconds, or the last instant there is. */
  predicate FourteenDaysAfter(now: Instant, expires: Instant) {
    if now + 1_209_600_000_000 <= 253402207200_999_999 then expires == now + 1_209_600_000_000
    else expires == 253402207200_999_999
  }

  /** The recipient's account is the actor's own. */
  predicate Self(o: Office, actor: MembershipId, recipient: Email) {
    recipient in o.addresses && actor in o.db.memberships && o.addresses[recipient] == o.db.memberships[actor].account
  }

  predicate FreshInvitation(o: Office, id: InvitationId, token: Token) {
    id !in o.rows && forall x :: x in o.rows ==> o.rows[x].token != token
  }

  /** What every way of issuing writes: a pending row with its own words, for fourteen days. */
  lemma InsertingExactly(o: Office, tenant: TenantId, id: InvitationId, token: Token, mode: Mode, recipient: Email,
                         roles: seq<OfferedRole>, at: Moment)
    ensures Inserted(o, tenant, id, token, mode, recipient, roles, at).Ok? <==> FreshInvitation(o, id, token)
    ensures var r := Inserted(o, tenant, id, token, mode, recipient, roles, at);
            r.Ok? ==>
              && id in r.value.rows && FourteenDaysAfter(at.now, r.value.rows[id].expires)
              && r.value == o.(rows := o.rows[id := Invitation(tenant, mode, recipient, token, r.value.rows[id].expires, roles, None, false)])
  {
  }

  /** Issuing: an administrator, or the holder of a handover grant to someone else and for no guest role. */
  lemma IssuingExactly(o: Office, tenant: TenantId, actor: MembershipId, grant: Option<AssignmentId>, id: InvitationId,
                       token: Token, recipient: Email, roles: seq<OfferedRole>, at: Moment)
    ensures Issued(o, tenant, actor, grant, id, token, recipient, roles, at).Ok? <==>
              && OpenFau(o.db, tenant) && roles != [] && Offerable(o, roles, at.today) && FreshInvitation(o, id, token)
              && if grant.None? then AdminInRows(o.db, tenant, actor, at.today)
                 else && GrantInRows(o.db, tenant, grant.value, at.today) && o.db.assignments[grant.value].membership == actor
                      && !Self(o, actor, recipient)
                      && forall r :: r in roles ==> r.capability != Guest
    ensures OpenFau(o.db, tenant) && !AdminInRows(o.db, tenant, actor, at.today)
            && !(grant.Some? && GrantInRows(o.db, tenant, grant.value, at.today)
                 && o.db.assignments[grant.value].membership == actor) ==>
              Issued(o, tenant, actor, grant, id, token, recipient, roles, at) == Err(Members(NotAuthorized))
    ensures var r := Issued(o, tenant, actor, grant, id, token, recipient, roles, at);
            r.Ok? ==>
              && id in r.value.rows && FourteenDaysAfter(at.now, r.value.rows[id].expires)
              && r.value == o.(rows := o.rows[id := Invitation(tenant, if grant.Some? then Handover(actor, grant.value) else Normal(actor),
                                                              recipient, token, r.value.rows[id].expires, roles, None, false)])
  {
    hide IsAdminOn, AdminInRows, GrantInRows, GrantValid, OfferRefusal, Offerable;
    AdminIsInRows(o.db, tenant, actor, at.today);
    OfferableExactly(o, roles, at.today);
    if grant.Some? { GrantIsInRows(o.db, tenant, grant.value, actor, at.today); }
  }

  /** Who may re-send: an administrator, or the issuer of a handover invitation whose grant is in force. */
  ghost predicate MayResend(o: Office, tenant: TenantId, actor: MembershipId, id: InvitationId, day: Day) {
    || AdminInRows(o.db, tenant, actor, day)
    || (&& id in o.rows && o.rows[id].tenant == tenant && o.rows[id].mode.Handover? && o.rows[id].mode.issuer == actor
        && GrantInRows(o.db, tenant, o.rows[id].mode.grant, day) && o.db.assignments[o.rows[id].mode.grant].membership == actor)
  }

  /** Who may withdraw: an administrator, or the issuer while still a current member. */
  ghost predicate MayWithdraw(o: Office, tenant: TenantId, actor: MembershipId, id: InvitationId, day: Day) {
    || AdminInRows(o.db, tenant, actor, day)
    || (&& id in o.rows && o.rows[id].tenant == tenant && (o.rows[id].mode.Handover? || o.rows[id].mode.Normal?)
        && o.rows[id].mode.issuer == actor && CurrentIn(o.db, tenant, actor))
  }

  lemma ResendingExactly(o: Office, tenant: TenantId, actor: MembershipId, id: InvitationId, token: Token, at: Moment)
    ensures Resent(o, tenant, actor, id, token, at).Ok? <==>
              && OpenFau(o.db, tenant) && MayResend(o, tenant, actor, id, at.today)
              && id in o.rows && o.rows[id].tenant == tenant && o.rows[id].accepted == None && !o.rows[id].revoked
              && (forall k :: 0 <= k < |o.rows[id].roles| && o.rows[id].roles[k].group.Some? ==>
                    o.rows[id].roles[k].group.value !in o.archived)
              && (forall x :: x in o.rows ==> o.rows[x].token != token)
    ensures tenant in o.db.tenants && !MayResend(o, tenant, actor, id, at.today) ==>
              Resent(o, tenant, actor, id, token, at) == Err(Members(NotAuthorized))
    ensures var r := Resent(o, tenant, actor, id, token, at);
            r.Ok? ==>
              && id in r.value.rows && FourteenDaysAfter(at.now, r.value.rows[id].expires)
              && r.value == o.(rows := o.rows[id := o.rows[id].(token := token, expires := r.value.rows[id].expires)])
  {
    hide IsAdminOn, AdminInRows, GrantInRows, GrantValid;
    AdminIsInRows(o.db, tenant, actor, at.today);
    if id in o.rows && o.rows[id].mode.Handover? { GrantIsInRows(o.db, tenant, o.rows[id].mode.grant, actor, at.today); }
  }

  lemma WithdrawingExactly(o: Office, tenant: TenantId, actor: MembershipId, id: InvitationId, at: Moment)
    ensures Withdrawn(o, tenant, actor, id, at).Ok? <==>
              && tenant in o.db.tenants && MayWithdraw(o, tenant, actor, id, at.today)
              && id in o.rows && o.rows[id].tenant == tenant && o.rows[id].accepted == None && !o.rows[id].revoked
    ensures tenant in o.db.tenants && !MayWithdraw(o, tenant, actor, id, at.today) ==>
              Withdrawn(o, tenant, actor, id, at) == Err(Members(NotAuthorized))
    ensures Withdrawn(o, tenant, actor, id, at).Ok? ==>
              Withdrawn(o, tenant, actor, id, at).value == o.(rows := o.rows[id := o.rows[id].(revoked := true)])
  {
    hide IsAdminOn, AdminInRows;
    AdminIsInRows(o.db, tenant, actor, at.today);
  }

  // Accepting

  /** The one invited accepts what stands: the row is pending and current, the address its own, the FAU open. */
  ghost predicate Acceptable(o: Office, id: InvitationId, token: Token, acceptor: Email, at: Moment) {
    && id in o.rows
    && var i := o.rows[id];
       && i.token == token && i.accepted == None && !i.revoked && at.now < i.expires
       && i.recipient == acceptor
       && (acceptor in o.addresses ==> o.addresses[acceptor] !in o.disabled)
       && OpenFau(o.db, i.tenant)
       && RestsOn(o, i.tenant, i.mode, at.today)
       && forall k :: 0 <= k < |i.roles| && i.roles[k].group.Some? ==> i.roles[k].group.value !in o.archived
  }

  /** The membership the acceptance expects is the account's own, not erased; or there is none and it is new. */
  ghost predicate SeatFree(o: Office, tenant: TenantId, account: AccountId, m: MembershipId) {
    && (forall x :: x in o.db.memberships && o.db.memberships[x].tenant == tenant && o.db.memberships[x].account == account ==>
          x == m && !o.db.memberships[x].erased)
    && (m in o.db.memberships ==> o.db.memberships[m].tenant == tenant && o.db.memberships[m].account == account)
  }

  /** Ids minted for the new assignments: enough, distinct, and new. */
  predicate FreshIds(o: Office, ids: seq<AssignmentId>, n: nat) {
    && n <= |ids|
    && (forall i :: 0 <= i < n ==> ids[i] !in o.db.assignments)
    && (forall i, j :: 0 <= i < j < n ==> ids[i] != ids[j])
  }

  lemma CheckedExactly(o: Office, id: InvitationId, token: Token, req: AcceptRequest, at: Moment)
    requires id in o.rows && o.rows[id].tenant in o.db.tenants
    ensures var i := o.rows[id];
            Acceptable(o, id, token, req.acceptor, at) <==>
              && i.token == token && !OffersArchived(o, i.roles)
              && CheckAcceptance(i, at.now, req.acceptor, DisabledAddress(o, req.acceptor), o.db.tenants[i.tenant],
                                 StillBacked(o, i.tenant, i.mode, at.today)).None?
  {
    hide RestsOn, StillBacked;
    RestsOnRows(o, o.rows[id].tenant, o.rows[id].mode, at.today);
  }

  /** The account the acceptance is for once its address has one: usable unless disabled. */
  lemma AccountOpened(o: Office, req: AcceptRequest)
    requires Linked(o.db)
    ensures var open := WithAccount(o, req);
            var account := AccountFor(o, req);
            && Linked(open.db) && account in open.db.accounts && open.db.accounts[account].usable == (account !in o.disabled)
            && open.db == o.db.(accounts := open.db.accounts)
            && (forall x :: x in o.db.accounts && x != account ==> x in open.db.accounts && open.db.accounts[x] == o.db.accounts[x])
            && open.addresses == o.addresses[req.acceptor := account] && open.rows == o.rows
            && open == o.(db := open.db, addresses := open.addresses)
  {
  }

  lemma SeatingInRows(o: Office, tenant: TenantId, req: AcceptRequest, roles: seq<OfferedRole>, day: Day)
    requires Linked(o.db) && |roles| <= |req.ids| && OpenFau(o.db, tenant) && AccountFor(o, req) !in o.disabled
    ensures var open := WithAccount(o, req);
            var s := DoSeat(tenant, AccountFor(o, req), req.membership, req.profile, Offers(roles, req.ids));
            && Linked(open.db)
            && (Outcome(open.db, s, day).Ok? <==>
                  SeatFree(o, tenant, AccountFor(o, req), req.membership) && FreshIds(o, req.ids, |roles|))
  {
    hide Outcome, Linked;
    var open := WithAccount(o, req);
    var account := AccountFor(o, req);
    var offers := Offers(roles, req.ids);
    var s := DoSeat(tenant, account, req.membership, req.profile, offers);
    AccountOpened(o, req);
    SeatingGoesThroughExactly(open.db, s, day);
    assert FreshOffers(offers, open.db) <==> FreshIds(o, req.ids, |roles|) by {
      assert forall k :: 0 <= k < |roles| ==> offers[k].id == req.ids[k];
    }
    assert forall x :: ExistingFor(open.db, tenant, account, x)
             <==> x in o.db.memberships && o.db.memberships[x].tenant == tenant && o.db.memberships[x].account == account;
  }

  /**
   An acceptance goes through exactly when the one invited accepts what stands, the roles with any end
   date of the leader's resolve, and the membership expected is theirs.
   */
  lemma AcceptingExactly(o: Office, id: InvitationId, token: Token, req: AcceptRequest, at: Moment)
    requires Linked(o.db)
    ensures Accepted(o, id, token, req, at).Ok? <==>
              && Acceptable(o, id, token, req.acceptor, at)
              && RolesToSeat(o.rows[id], req.end, at.today).Ok?
              && (req.acceptor !in o.addresses ==> req.minted !in o.db.accounts && req.minted !in o.disabled)
              && SeatFree(o, o.rows[id].tenant, AccountFor(o, req), req.membership)
              && FreshIds(o, req.ids, |RolesToSeat(o.rows[id], req.end, at.today).value|)
  {
    hide Acceptable, SeatFree, FreshIds, RolesToSeat, StillBacked, CheckAcceptance, OffersArchived, DisabledAddress,
      Seat, Offers, Linked, WithAccount, FreshOffers;
    if id in o.rows && o.rows[id].token == token && o.rows[id].tenant in o.db.tenants {
      var i := o.rows[id];
      CheckedExactly(o, id, token, req, at);
      if Acceptable(o, id, token, req.acceptor, at) && RolesToSeat(i, req.end, at.today).Ok? {
        AcceptableMeans(o, id, token, req.acceptor, at);
        var roles := RolesToSeat(i, req.end, at.today).value;
        if |roles| <= |req.ids| && (req.acceptor !in o.addresses ==> req.minted !in o.db.accounts) {
          if AccountFor(o, req) !in o.disabled {
            SeatingInRows(o, i.tenant, req, roles, at.today);
          } else {
            DisabledIsRefused(o, i.tenant, req, roles, at.today);
          }
        } else {
          if |req.ids| < |roles| { TooFewIds(o, req.ids, |roles|); }
        }
      }
    } else {
      NotAcceptable(o, id, token, req.acceptor, at);
    }
  }

  lemma TooFewIds(o: Office, ids: seq<AssignmentId>, n: nat)
    requires |ids| < n
    ensures !FreshIds(o, ids, n)
  {
  }

  lemma AcceptableMeans(o: Office, id: InvitationId, token: Token, acceptor: Email, at: Moment)
    requires Acceptable(o, id, token, acceptor, at)
    ensures OpenFau(o.db, o.rows[id].tenant) && (acceptor in o.addresses ==> o.addresses[acceptor] !in o.disabled)
  {
  }

  lemma NotAcceptable(o: Office, id: InvitationId, token: Token, acceptor: Email, at: Moment)
    requires !(id in o.rows && o.rows[id].token == token && o.rows[id].tenant in o.db.tenants)
    ensures !Acceptable(o, id, token, acceptor, at)
  {
  }

  lemma DisabledIsRefused(o: Office, tenant: TenantId, req: AcceptRequest, roles: seq<OfferedRole>, day: Day)
    requires Linked(o.db) && |roles| <= |req.ids| && AccountFor(o, req) in o.disabled
    ensures var open := WithAccount(o, req);
            && Linked(open.db)
            && Seat(open.db, tenant, AccountFor(o, req), req.membership, req.profile, Offers(roles, req.ids), day).Err?
  {
    hide Linked;
    AccountOpened(o, req);
  }

  /** The first rule that fails names the refusal: the token's own state, the person, the FAU, what it rests on. */
  lemma RefusalsInOrder(o: Office, id: InvitationId, token: Token, req: AcceptRequest, at: Moment)
    requires Linked(o.db) && id in o.rows && o.rows[id].token == token && o.rows[id].tenant in o.db.tenants
    ensures var i := o.rows[id];
            var tenant := o.db.tenants[i.tenant];
            var why := Accepted(o, id, token, req, at);
            if i.revoked then why == Err(Acceptance(Revoked))
            else if i.accepted != None then why == Err(Acceptance(AlreadyAccepted))
            else if i.expires <= at.now then why == Err(Acceptance(Expired))
            else if i.recipient != req.acceptor then why == Err(Acceptance(EmailMismatch))
            else if req.acceptor in o.addresses && o.addresses[req.acceptor] in o.disabled then
              why == Err(Acceptance(AccountIsDisabled))
            else if tenant.status != Active then why == Err(Acceptance(NotActive))
            else if tenant.frozen then why == Err(Acceptance(Frozen))
            else if !RestsOn(o, i.tenant, i.mode, at.today) then why == Err(Acceptance(IssuerLacksAuthority))
            else why.Err? ==> !why.error.Acceptance?
  {
    hide StillBacked, RestsOn, Seat, WithAccount, Offers, Linked, RolesToSeat, OffersArchived, Acceptable;
    RestsOnRows(o, o.rows[id].tenant, o.rows[id].mode, at.today);
    NoAcceptanceError(o.rows[id], req.end, at.today);
  }

  lemma NoAcceptanceError(i: Invitation, end: Option<Day>, today: Day)
    ensures RolesToSeat(i, end, today).Err? ==> !RolesToSeat(i, end, today).error.Acceptance?
  {
    hide ValidateAdminEnd;
    if end.Some? { OverriddenExactly(i.roles, end.value); }
  }

  /**
   What an acceptance leaves: the invited address has an account, the membership expected is that
   account's in the inviting FAU, it holds one new assignment per offered role, and the
   invitation is accepted by it.
   */
  lemma AcceptingDoes(o: Office, id: InvitationId, token: Token, req: AcceptRequest, at: Moment)
    requires Linked(o.db) && Accepted(o, id, token, req, at).Ok?
    ensures id in o.rows && RolesToSeat(o.rows[id], req.end, at.today).Ok?
    ensures var i := o.rows[id];
            var after := Accepted(o, id, token, req, at).value;
            var roles := RolesToSeat(i, req.end, at.today).value;
            && |roles| <= |req.ids|
            && after.rows == o.rows[id := i.(accepted := Some(req.membership))]
            && after.addresses == o.addresses[i.recipient := AccountFor(o, req)]
            && (forall a :: a in o.db.assignments ==> a in after.db.assignments && after.db.assignments[a] == o.db.assignments[a])
            && (forall k :: 0 <= k < |roles| ==>
                  && req.ids[k] in after.db.assignments
                  && after.db.assignments[req.ids[k]]
                       == Assignment(req.membership, roles[k].role, roles[k].capability, roles[k].period, None))
            && (forall a :: a in after.db.assignments && a !in o.db.assignments ==> exists k :: 0 <= k < |roles| && req.ids[k] == a)
            && req.membership in after.db.memberships
            && after.db.memberships == o.db.memberships[req.membership := after.db.memberships[req.membership]]
            && var row := after.db.memberships[req.membership];
               row.tenant == i.tenant && row.account == AccountFor(o, req) && row.revokedOn.None?
  {
    hide Acceptable, SeatFree, FreshIds, RolesToSeat, StillBacked, CheckAcceptance, OffersArchived, DisabledAddress,
      Seat, Linked, WithAccount, FreshOffers;
    AcceptingExactly(o, id, token, req, at);
    AcceptorIsRecipient(o, id, token, req.acceptor, at);
    var i := o.rows[id];
    var roles := RolesToSeat(i, req.end, at.today).value;
    var open := WithAccount(o, req);
    AccountOpened(o, req);
    var s := DoSeat(i.tenant, AccountFor(o, req), req.membership, req.profile, Offers(roles, req.ids));
    AcceptedSeats(o, id, token, req, at);
    SeatDoes(open.db, s, at.today);
    var after := Accepted(o, id, token, req, at).value;
    forall k | 0 <= k < |roles|
      ensures req.ids[k] in after.db.assignments
      ensures after.db.assignments[req.ids[k]] == Assignment(req.membership, roles[k].role, roles[k].capability, roles[k].period, None)
    {
      assert s.offers[k] == Offer(req.ids[k], roles[k].role, roles[k].capability, roles[k].period);
    }
    forall a | a in after.db.assignments && a !in o.db.assignments ensures exists k :: 0 <= k < |roles| && req.ids[k] == a {
      var k :| 0 <= k < |s.offers| && s.offers[k].id == a;
      assert req.ids[k] == a;
    }
  }

  lemma AcceptorIsRecipient(o: Office, id: InvitationId, token: Token, acceptor: Email, at: Moment)
    requires Acceptable(o, id, token, acceptor, at)
    ensures id in o.rows && o.rows[id].recipient == acceptor
  {
  }

  lemma AcceptedSeats(o: Office, id: InvitationId, token: Token, req: AcceptRequest, at: Moment)
    requires Linked(o.db) && Accepted(o, id, token, req, at).Ok?
    ensures id in o.rows && RolesToSeat(o.rows[id], req.end, at.today).Ok? && Linked(WithAccount(o, req).db)
    ensures var roles := RolesToSeat(o.rows[id], req.end, at.today).value;
            && |roles| <= |req.ids|
            && var s := DoSeat(o.rows[id].tenant, AccountFor(o, req), req.membership, req.profile, Offers(roles, req.ids));
               && Outcome(WithAccount(o, req).db, s, at.today).Ok?
               && Accepted(o, id, token, req, at).value
                    == WithAccount(o, req).(db := Next(WithAccount(o, req).db, s, at.today),
                                            rows := o.rows[id := o.rows[id].(accepted := Some(req.membership))])
  {
    hide Seat, StillBacked, CheckAcceptance, RolesToSeat, OffersArchived, DisabledAddress, Offers;
  }
}
