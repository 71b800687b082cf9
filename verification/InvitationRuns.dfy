/**
 Runs of invitation transactions, interleaved with every other membership transaction and
 with the unlocked lookup that starts an acceptance, and what their history can look like.
 */
module InvitationRuns {
  import opened Base
  import opened Calendar
  import opened Rows
  import T = Transactions
  import A = Authority
  import C = Coverage
  import S = SweepRuns
  import opened Invitations
  import R = InvitationRules

  /** What has happened to invitations, oldest first. */
  datatype Event =
    | TokenIssued(id: InvitationId, token: Token, recipient: Email, at: Instant)
    | InvitationWithdrawn(id: InvitationId)
    | InvitationAccepted(id: InvitationId, token: Token, acceptor: Email, moment: Moment)
  {
    predicate Settles() { !TokenIssued? }
  }

  /** An acceptance that has read the token's row and not yet taken the lock. */
  datatype Lookup = Lookup(token: Token, id: InvitationId)

  datatype World = World(office: Office, lookups: map<SessionId, Lookup>, log: seq<Event>)

  datatype Step =
    | Issue(tenant: TenantId, actor: MembershipId, grant: Option<AssignmentId>, id: InvitationId, token: Token,
            recipient: Email, roles: seq<OfferedRole>)
    | IssueOther(tenant: TenantId, id: InvitationId, token: Token, mode: Mode, recipient: Email, roles: seq<OfferedRole>)
    | Resend(tenant: TenantId, actor: MembershipId, id: InvitationId, token: Token)
    | Withdraw(tenant: TenantId, actor: MembershipId, id: InvitationId)
    | LookUp(session: SessionId, token: Token, id: InvitationId)
    | Accept(session: SessionId, req: AcceptRequest)
    | MembersStep(step: T.Step)
    | ArchiveGroup(group: GroupId)
    | MoveSeat(tenant: TenantId, holder: Holder)
    | DisableAccount(account: AccountId)
    | ChangeTenant(tenant: TenantId, row: Tenant)

  /** Tokens are random: a new one is none that was ever issued. */
  predicate NewToken(w: World, token: Token) {
    forall e :: e in w.log && e.TokenIssued? ==> e.token != token
  }

  predicate Enabled(w: World, s: Step) {
    match s
    case Issue(_, _, _, _, token, _, _) => NewToken(w, token)
    case IssueOther(_, _, token, _, _, _) => NewToken(w, token)
    case Resend(_, _, _, token) => NewToken(w, token)
    case LookUp(_, token, id) => id in w.office.rows && w.office.rows[id].token == token
    case Accept(session, _) => session in w.lookups
    case _ => true
  }

  /** The office after the step, if it commits. */
  ghost function Outcome(w: World, s: Step, at: Moment): Result<Office, Refusal>
    requires Enabled(w, s) && T.Linked(w.office.db)
  {
    var o := w.office;
    match s
    case Issue(t, actor, grant, id, token, recipient, roles) => Issued(o, t, actor, grant, id, token, recipient, roles, at)
    case IssueOther(t, id, token, mode, recipient, roles) => Inserted(o, t, id, token, mode, recipient, roles, at)
    case Resend(t, actor, id, token) => Resent(o, t, actor, id, token, at)
    case Withdraw(t, actor, id) => Withdrawn(o, t, actor, id, at)
    case LookUp(_, _, _) => Ok(o)
    case Accept(session, req) => Accepted(o, w.lookups[session].id, w.lookups[session].token, req, at)
    case MembersStep(step) => Ok(o.(db := T.Next(o.db, step, at.today)))
    case ArchiveGroup(g) => Ok(o.(archived := o.archived + {g}))
    case MoveSeat(t, holder) => Ok(o.(seats := o.seats[t := holder]))
    case DisableAccount(a) =>
      Ok(if a !in o.db.accounts then o
         else o.(disabled := o.disabled + {a},
                 db := o.db.(accounts := o.db.accounts[a := o.db.accounts[a].(usable := false)])))
    case ChangeTenant(t, row) => Ok(o.(db := o.db.(tenants := o.db.tenants[t := row])))
  }

  /** What a committed step adds to the history. */
  function Logged(w: World, s: Step, at: Moment): seq<Event>
    requires Enabled(w, s)
  {
    match s
    case Issue(_, _, _, id, token, recipient, _) => [TokenIssued(id, token, recipient, at.now)]
    case IssueOther(_, id, token, _, recipient, _) => [TokenIssued(id, token, recipient, at.now)]
    case Resend(_, _, id, token) =>
      if id in w.office.rows then [TokenIssued(id, token, w.office.rows[id].recipient, at.now)] else []
    case Withdraw(_, _, id) => [InvitationWithdrawn(id)]
    case Accept(session, req) => [InvitationAccepted(w.lookups[session].id, w.lookups[session].token, req.acceptor, at)]
    case _ => []
  }

  ghost function Next(w: World, s: Step, at: Moment): World
    requires T.Linked(w.office.db)
  {
    if !Enabled(w, s) || Outcome(w, s, at).Err? then w
    else World(Outcome(w, s, at).value,
               if s.LookUp? then w.lookups[s.session := Lookup(s.token, s.id)] else w.lookups,
               w.log + Logged(w, s, at))
  }

  datatype Move = Move(step: Step, at: Moment)

  /** Membership rows keep naming existing accounts and FAU-er, so every run goes on. */
  lemma AcceptanceKeepsLinks(o: Office, id: InvitationId, token: Token, req: AcceptRequest, at: Moment)
    requires T.Linked(o.db) && Accepted(o, id, token, req, at).Ok?
    ensures T.Linked(Accepted(o, id, token, req, at).value.db)
  {
    hide T.Seat, CheckAcceptance, StillBacked, RolesToSeat, Offers;
    var i := o.rows[id];
    var roles := RolesToSeat(i, req.end, at.today).value;
    var open := WithAccount(o, req);
    A.SeatEvolves(open.db, T.DoSeat(i.tenant, AccountFor(o, req), req.membership, req.profile, Offers(roles, req.ids)), at.today);
  }

  lemma IssueKeepsMembers(o: Office, tenant: TenantId, actor: MembershipId, grant: Option<AssignmentId>, id: InvitationId,
                          token: Token, recipient: Email, roles: seq<OfferedRole>, at: Moment)
    requires Issued(o, tenant, actor, grant, id, token, recipient, roles, at).Ok?
    ensures Issued(o, tenant, actor, grant, id, token, recipient, roles, at).value.db == o.db
  {
    hide T.IsAdminOn, GrantValid, OfferRefusal, TokenInUse, T.RequireOpen;
  }

  lemma ChangesKeepMembers(o: Office, tenant: TenantId, actor: MembershipId, id: InvitationId, token: Token, at: Moment)
    ensures Resent(o, tenant, actor, id, token, at).Ok? ==> Resent(o, tenant, actor, id, token, at).value.db == o.db
    ensures Withdrawn(o, tenant, actor, id, at).Ok? ==> Withdrawn(o, tenant, actor, id, at).value.db == o.db
  {
    hide MayChange, Found, OffersArchived, TokenInUse, T.RequireOpen;
  }

  /** Issuing, re-sending and withdrawing write invitations only. */
  lemma OthersKeepMembers(w: World, s: Step, at: Moment)
    requires T.Linked(w.office.db) && Enabled(w, s) && !s.Accept? && !s.MembersStep? && Outcome(w, s, at).Ok?
    ensures var db := Outcome(w, s, at).value.db;
            db.memberships == w.office.db.memberships && db.assignments == w.office.db.assignments
            && db.grants == w.office.db.grants
            && w.office.db.accounts.Keys <= db.accounts.Keys && w.office.db.tenants.Keys <= db.tenants.Keys
  {
    hide Accepted, T.Next, T.Linked, Issued, Resent, Withdrawn, NewToken, TokenInUse;
    match s
    case Issue(t, actor, grant, id, token, recipient, roles) =>
      IssueKeepsMembers(w.office, t, actor, grant, id, token, recipient, roles, at);
    case Resend(t, actor, id, token) => ChangesKeepMembers(w.office, t, actor, id, token, at);
    case Withdraw(t, actor, id) => ChangesKeepMembers(w.office, t, actor, id, 0, at);
    case _ =>
  }

  lemma StepKeepsLinks(w: World, s: Step, at: Moment)
    requires T.Linked(w.office.db)
    ensures T.Linked(Next(w, s, at).office.db)
  {
    hide T.Next, Accepted, Issued, Resent, Withdrawn, Inserted;
    if Enabled(w, s) && Outcome(w, s, at).Ok? {
      match s
      case Accept(session, req) =>
        AcceptanceKeepsLinks(w.office, w.lookups[session].id, w.lookups[session].token, req, at);
      case MembersStep(step) => A.StepEvolves(w.office.db, step, at.today);
      case _ => OthersKeepMembers(w, s, at);
    }
  }

  // What a step does to the invitations

  /** An accepting step found the row still holding the looked-up token, pending and unexpired. */
  predicate AcceptsRow(w: World, id: InvitationId, token: Token, acceptor: Email, at: Moment) {
    && id in w.office.rows && IsPending(w.office.rows[id])
    && w.office.rows[id].token == token && at.now < w.office.rows[id].expires && w.office.rows[id].recipient == acceptor
  }

  lemma AcceptanceRows(o: Office, id: InvitationId, token: Token, req: AcceptRequest, at: Moment)
    requires T.Linked(o.db) && Accepted(o, id, token, req, at).Ok?
    ensures id in o.rows && IsPending(o.rows[id]) && o.rows[id].token == token && at.now < o.rows[id].expires
    ensures o.rows[id].recipient == req.acceptor
    ensures Accepted(o, id, token, req, at).value.rows == o.rows[id := o.rows[id].(accepted := Some(req.membership))]
  {
    hide T.Seat, T.Linked, StillBacked, RolesToSeat, Offers, OffersArchived, DisabledAddress;
  }

  lemma StepRows(w: World, s: Step, at: Moment)
    requires T.Linked(w.office.db) && Enabled(w, s) && Outcome(w, s, at).Ok?
    ensures var rows := w.office.rows;
            var after := Outcome(w, s, at).value.rows;
            match s
            case Issue(_, _, _, id, token, recipient, _) =>
              && id !in rows && id in after && IsPending(after[id]) && after[id].token == token && after[id].recipient == recipient
              && after[id].expires == InvitationExpiry(at.now) && after == rows[id := after[id]]
            case IssueOther(_, id, token, _, recipient, _) =>
              && id !in rows && id in after && IsPending(after[id]) && after[id].token == token && after[id].recipient == recipient
              && after[id].expires == InvitationExpiry(at.now) && after == rows[id := after[id]]
            case Resend(_, _, id, token) =>
              && id in rows && IsPending(rows[id])
              && after == rows[id := rows[id].(token := token, expires := InvitationExpiry(at.now))]
            case Withdraw(_, _, id) =>
              id in rows && IsPending(rows[id]) && after == rows[id := rows[id].(revoked := true)]
            case Accept(session, req) =>
              var id := w.lookups[session].id;
              && AcceptsRow(w, id, w.lookups[session].token, req.acceptor, at)
              && after == rows[id := rows[id].(accepted := Some(req.membership))]
            case _ => after == rows
  {
    hide Accepted, T.Next, T.Linked, OfferRefusal, MayChange, InvitationExpiry;
    if s.Accept? {
      AcceptanceRows(w.office, w.lookups[s.session].id, w.lookups[s.session].token, s.req, at);
    }
  }

  // What the history can look like

  /** The token an invitation was issued or last re-sent with. */
  function LatestToken(log: seq<Event>, id: InvitationId): Option<Event>
    decreases |log|
  {
    if log == [] then None
    else
      var last := log[|log| - 1];
      if last.TokenIssued? && last.id == id then Some(last) else LatestToken(log[..|log| - 1], id)
  }

  predicate Settled(log: seq<Event>, id: InvitationId) { exists e :: e in log && e.id == id && e.Settles() }

  /** Every token of the invitation was issued to that address. */
  predicate IssuedOnlyTo(log: seq<Event>, id: InvitationId, to: Email) {
    forall e :: e in log && e.TokenIssued? && e.id == id ==> e.recipient == to
  }

  /** What must have been true of the history when its `k`th event was added. */
  predicate EventSound(log: seq<Event>, k: nat)
    requires k < |log|
  {
    var e := log[k];
    var before := log[..k];
    && !Settled(before, e.id)
    && (e.TokenIssued? ==> forall x :: x in before && x.TokenIssued? ==> x.token != e.token)
    && (e.InvitationAccepted? ==>
          var latest := LatestToken(before, e.id);
          latest.Some? && latest.value.TokenIssued? && latest.value.token == e.token
          && e.moment.now < InvitationExpiry(latest.value.at) && IssuedOnlyTo(before, e.id, e.acceptor))
  }

  predicate LogSound(log: seq<Event>) { forall k :: 0 <= k < |log| ==> EventSound(log, k) }

  /** The row is what the history says of it. */
  predicate RowTraced(w: World, id: InvitationId)
    requires id in w.office.rows
  {
    var i := w.office.rows[id];
    var latest := LatestToken(w.log, id);
    && latest.Some? && latest.value.TokenIssued?
    && latest.value.token == i.token && InvitationExpiry(latest.value.at) == i.expires
    && (IsPending(i) <==> !Settled(w.log, id)) && IssuedOnlyTo(w.log, id, i.recipient)
    && !(i.accepted.Some? && i.revoked)
  }

  predicate Traced(w: World) {
    && T.Linked(w.office.db)
    && (forall id :: id in w.office.rows ==> RowTraced(w, id))
    && (forall e :: e in w.log ==> e.id in w.office.rows)
    && LogSound(w.log)
  }

  lemma LogGrows(log: seq<Event>, e: Event)
    requires LogSound(log) && EventSound(log + [e], |log|)
    ensures LogSound(log + [e])
  {
    hide EventSound;
    forall k | 0 <= k < |log + [e]| ensures EventSound(log + [e], k) {
      if k < |log| {
        EventUnmoved(log, e, k);
      }
    }
  }

  lemma EventUnmoved(log: seq<Event>, e: Event, k: nat)
    requires k < |log| && EventSound(log, k)
    ensures EventSound(log + [e], k)
  {
    assert (log + [e])[..k] == log[..k];
  }

  lemma LatestAfter(log: seq<Event>, e: Event, id: InvitationId)
    ensures LatestToken(log + [e], id) == if e.TokenIssued? && e.id == id then Some(e) else LatestToken(log, id)
    ensures Settled(log + [e], id) <==> Settled(log, id) || (e.id == id && e.Settles())
    ensures forall to :: IssuedOnlyTo(log + [e], id, to) <==>
              IssuedOnlyTo(log, id, to) && (e.TokenIssued? && e.id == id ==> e.recipient == to)
  {
    assert (log + [e])[..|log|] == log;
    assert forall x :: x in log + [e] <==> x in log || x == e;
  }

  /** One event and the row it is about, with every other row left alone. */
  lemma EventTraced(w: World, after: World, e: Event)
    requires Traced(w) && T.Linked(after.office.db) && after.log == w.log + [e] && EventSound(after.log, |w.log|)
    requires e.id in after.office.rows && after.office.rows == w.office.rows[e.id := after.office.rows[e.id]]
    requires RowTraced(after, e.id)
    ensures Traced(after)
  {
    hide EventSound;
    LogGrows(w.log, e);
    forall id | id in after.office.rows ensures RowTraced(after, id) {
      if id != e.id {
        LatestAfter(w.log, e, id);
      }
    }
  }

  lemma StepTraced(w: World, s: Step, at: Moment)
    requires Traced(w)
    ensures Traced(Next(w, s, at))
  {
    hide Outcome, T.Linked, InvitationExpiry, LatestToken, Settled;
    if Enabled(w, s) && Outcome(w, s, at).Ok? {
      StepKeepsLinks(w, s, at);
      StepRows(w, s, at);
      var after := Next(w, s, at);
      if Logged(w, s, at) != [] {
        var e := Logged(w, s, at)[0];
        assert after.log[..|w.log|] == w.log;
        LatestAfter(w.log, e, e.id);
        UnknownIsUnsettled(w, e.id);
        EventTraced(w, after, e);
      } else {
        assert after.log == w.log;
      }
    }
  }

  lemma UnknownIsUnsettled(w: World, id: InvitationId)
    requires Traced(w)
    ensures id !in w.office.rows ==> !Settled(w.log, id)
  {
  }

  // Runs

  ghost function Run(w: World, moves: seq<Move>): World
    requires T.Linked(w.office.db)
    decreases |moves|
  {
    if moves == [] then w
    else
      StepKeepsLinks(w, moves[0].step, moves[0].at);
      Run(Next(w, moves[0].step, moves[0].at), moves[1..])
  }

  lemma {:induction false} TracedRun(w: World, moves: seq<Move>)
    requires Traced(w)
    ensures Traced(Run(w, moves))
    decreases |moves|
  {
    hide Next, LogSound, RowTraced;
    if moves != [] {
      StepTraced(w, moves[0].step, moves[0].at);
      TracedRun(Next(w, moves[0].step, moves[0].at), moves[1..]);
    }
  }

  /** Before any invitation was issued. */
  predicate Untouched(w: World) { T.Linked(w.office.db) && w.office.rows == map[] && w.log == [] }

  lemma {:induction false} LatestIsLast(log: seq<Event>, id: InvitationId) returns (j: nat)
    requires LatestToken(log, id).Some?
    ensures j < |log| && LatestToken(log, id) == Some(log[j]) && log[j].TokenIssued? && log[j].id == id
    ensures forall i :: j < i < |log| && log[i].id == id ==> log[i].Settles()
    decreases |log|
  {
    var last := log[|log| - 1];
    if last.TokenIssued? && last.id == id {
      j := |log| - 1;
    } else {
      j := LatestIsLast(log[..|log| - 1], id);
    }
  }

  /**
   An invitation is accepted only with the token it was last issued, before that token expires,
   and then nothing more happens to it: it is not accepted again, withdrawn or re-sent.
   */
  lemma AcceptedOnceWithItsLatestToken(w: World, moves: seq<Move>, k: nat)
    requires Untouched(w)
    requires k < |Run(w, moves).log| && Run(w, moves).log[k].InvitationAccepted?
    ensures var log := Run(w, moves).log;
            var e := log[k];
            exists j :: && 0 <= j < k && log[j].TokenIssued? && log[j].id == e.id && log[j].token == e.token
                        && e.moment.now < log[j].at + 1_209_600_000_000 && e.moment.now < 253402207200_999_999
                        && forall i :: j < i < |log| && i != k ==> log[i].id != e.id
  {
    hide Next, RowTraced;
    TracedRun(w, moves);
    var log := Run(w, moves).log;
    var e := log[k];
    assert EventSound(log, k);
    var j := LatestIsLast(log[..k], e.id);
    forall i | j < i < |log| && i != k ensures log[i].id != e.id {
      if i < k {
        assert log[i] in log[..k];
      } else {
        assert EventSound(log, i) && log[k] in log[..i];
      }
    }
  }

  // Accepted by the one invited

  /** The world as the run's move `i` finds it. */
  ghost function Before(w: World, moves: seq<Move>, i: nat): World
    requires T.Linked(w.office.db) && i <= |moves|
  {
    Run(w, moves[..i])
  }

  lemma {:induction false} LogOnlyGrows(w: World, moves: seq<Move>)
    requires T.Linked(w.office.db)
    ensures T.Linked(Run(w, moves).office.db) && w.log <= Run(w, moves).log
    decreases |moves|
  {
    hide Outcome, T.Linked;
    if moves != [] {
      StepKeepsLinks(w, moves[0].step, moves[0].at);
      LogOnlyGrows(Next(w, moves[0].step, moves[0].at), moves[1..]);
    }
  }

  /** The move commits and adds the event to the history. */
  ghost predicate Adds(w: World, move: Move, e: Event) {
    && T.Linked(w.office.db) && Enabled(w, move.step) && Outcome(w, move.step, move.at).Ok?
    && Logged(w, move.step, move.at) == [e]
  }

  lemma {:induction false} EveryEventWasAdded(w: World, moves: seq<Move>, k: nat)
    requires T.Linked(w.office.db) && |w.log| <= k < |Run(w, moves).log|
    ensures exists i :: 0 <= i < |moves| && Adds(Before(w, moves, i), moves[i], Run(w, moves).log[k])
    decreases |moves|
  {
    hide Outcome, T.Linked, Logged, Enabled;
    var m := moves[0];
    StepKeepsLinks(w, m.step, m.at);
    var next := Next(w, m.step, m.at);
    LogOnlyGrows(next, moves[1..]);
    if k < |next.log| {
      OneEventAStep(w, m.step, m.at);
      assert moves[..0] == [] && Before(w, moves, 0) == w;
      assert Adds(Before(w, moves, 0), moves[0], Run(w, moves).log[k]);
    } else {
      EveryEventWasAdded(next, moves[1..], k);
      var i :| 0 <= i < |moves[1..]| && Adds(Before(next, moves[1..], i), moves[1..][i], Run(next, moves[1..]).log[k]);
      assert moves[..i + 1][1..] == moves[1..][..i];
      assert Adds(Before(w, moves, i + 1), moves[i + 1], Run(w, moves).log[k]);
    }
  }

  lemma OneEventAStep(w: World, s: Step, at: Moment)
    requires Enabled(w, s)
    ensures |Logged(w, s, at)| <= 1
  {
  }

  /** The move accepts, for that address and on that day, what then stood: the rows of the invitation and of its authority. */
  ghost predicate AcceptsWhatStands(w: World, move: Move, e: Event) {
    && e.InvitationAccepted? && move.step.Accept? && move.at == e.moment && move.step.req.acceptor == e.acceptor
    && R.Acceptable(w.office, e.id, e.token, e.acceptor, e.moment)
  }

  lemma AcceptingMove(w: World, move: Move, e: Event)
    requires Adds(w, move, e) && e.InvitationAccepted?
    ensures AcceptsWhatStands(w, move, e)
  {
    hide Accepted, T.Linked, R.Acceptable;
    var l := w.lookups[move.step.session];
    R.AcceptingExactly(w.office, l.id, l.token, move.step.req, move.at);
  }

  /**
   Over every run an invitation is accepted only by the address it was issued to, and on a day on which
   that address's account is not disabled, the FAU is active and not frozen, and what the
   invitation rests on stands: the issuer an administrator, the grant in force, or no administrator
   and the seat the one that issued it.
   */
  lemma AcceptedByTheInvited(w: World, moves: seq<Move>, k: nat)
    requires Untouched(w)
    requires k < |Run(w, moves).log| && Run(w, moves).log[k].InvitationAccepted?
    ensures var log := Run(w, moves).log;
            && (exists i :: 0 <= i < |moves| && AcceptsWhatStands(Before(w, moves, i), moves[i], log[k]))
            && (forall j :: 0 <= j < k && log[j].TokenIssued? && log[j].id == log[k].id ==> log[j].recipient == log[k].acceptor)
  {
    hide Next, RowTraced, InvitationExpiry, Adds, AcceptsWhatStands, Before;
    var log := Run(w, moves).log;
    TracedRun(w, moves);
    EveryEventWasAdded(w, moves, k);
    var i :| 0 <= i < |moves| && Adds(Before(w, moves, i), moves[i], log[k]);
    AcceptingMove(Before(w, moves, i), moves[i], log[k]);
    assert EventSound(log, k);
    forall j | 0 <= j < k && log[j].TokenIssued? && log[j].id == log[k].id ensures log[j].recipient == log[k].acceptor {
      assert log[j] in log[..k];
    }
  }

  lemma TokensIssuedOnce(log: seq<Event>, i: nat, l: nat)
    requires LogSound(log) && i < |log| && l < |log|
    requires log[i].TokenIssued? && log[l].TokenIssued? && log[i].token == log[l].token
    ensures i == l
  {
    assert EventSound(log, i) && EventSound(log, l);
  }

  /** Once an invitation is re-sent its earlier token accepts nothing, this or any other invitation. */
  lemma ReplacedTokenIsDead(w: World, moves: seq<Move>, i: nat, j: nat, k: nat)
    requires Untouched(w)
    requires var log := Run(w, moves).log;
             i < j < k < |log| && log[i].TokenIssued? && log[j].TokenIssued? && log[i].id == log[j].id
    ensures var log := Run(w, moves).log;
            !(log[k].InvitationAccepted? && log[k].token == log[i].token)
  {
    hide Next, RowTraced, InvitationExpiry;
    var log := Run(w, moves).log;
    if log[k].InvitationAccepted? && log[k].token == log[i].token {
      TracedRun(w, moves);
      AcceptedOnceWithItsLatestToken(w, moves, k);
      var l :| && 0 <= l < k && log[l].TokenIssued? && log[l].id == log[k].id && log[l].token == log[k].token
               && forall x :: l < x < |log| && x != k ==> log[x].id != log[k].id;
      TokensIssuedOnce(log, i, l);
    }
  }

  /** No row is both accepted and withdrawn, and a settled one stays as it is. */
  lemma {:induction false} SettledStays(w: World, moves: seq<Move>, id: InvitationId)
    requires Traced(w) && id in w.office.rows && !IsPending(w.office.rows[id])
    ensures id in Run(w, moves).office.rows && Run(w, moves).office.rows[id] == w.office.rows[id]
    ensures !(w.office.rows[id].accepted.Some? && w.office.rows[id].revoked)
    decreases |moves|
  {
    hide Outcome, LogSound, InvitationExpiry, T.Linked;
    assert RowTraced(w, id);
    if moves != [] {
      var m := moves[0];
      if Enabled(w, m.step) && Outcome(w, m.step, m.at).Ok? {
        StepRows(w, m.step, m.at);
      }
      StepTraced(w, m.step, m.at);
      SettledStays(Next(w, m.step, m.at), moves[1..], id);
    }
  }

  // A handover invitation dies with its grant

  predicate DaysFrom(moves: seq<Move>, day: Day) { forall m :: m in moves ==> day <= m.at.today }

  /** Nothing but the members' own transactions and an acceptance's new roles touches assignments and grants. */
  lemma AcceptanceKeepsInert(o: Office, id: InvitationId, token: Token, req: AcceptRequest, at: Moment,
                             a: AssignmentId, day: Day)
    requires T.Linked(o.db) && Accepted(o, id, token, req, at).Ok? && A.Inert(o.db, a, day) && day <= at.today
    ensures A.Inert(Accepted(o, id, token, req, at).value.db, a, day)
  {
    hide T.Seat, CheckAcceptance, StillBacked, RolesToSeat, Offers, T.StillCounts;
    var i := o.rows[id];
    var roles := RolesToSeat(i, req.end, at.today).value;
    var open := WithAccount(o, req);
    A.InertStep(open.db, a, T.DoSeat(i.tenant, AccountFor(o, req), req.membership, req.profile, Offers(roles, req.ids)), day, at.today);
  }

  lemma InertKept(w: World, s: Step, at: Moment, a: AssignmentId, day: Day)
    requires T.Linked(w.office.db) && A.Inert(w.office.db, a, day) && day <= at.today
    ensures A.Inert(Next(w, s, at).office.db, a, day)
  {
    hide T.Next, Accepted, Issued, Resent, Withdrawn, Inserted, T.Linked, T.StillCounts;
    if Enabled(w, s) && Outcome(w, s, at).Ok? {
      match s
      case Accept(session, req) =>
        AcceptanceKeepsInert(w.office, w.lookups[session].id, w.lookups[session].token, req, at, a, day);
      case MembersStep(step) => A.InertStep(w.office.db, a, step, day, at.today);
      case _ => OthersKeepMembers(w, s, at);
    }
  }

  /** The invitation was issued under the handover grant from `grant` and has not been accepted. */
  predicate Hangs(w: World, id: InvitationId, grant: AssignmentId) {
    && id in w.office.rows && w.office.rows[id].mode.Handover? && w.office.rows[id].mode.grant == grant
    && w.office.rows[id].accepted.None?
  }

  lemma InertAcceptsNothing(o: Office, id: InvitationId, token: Token, req: AcceptRequest, at: Moment, day: Day)
    requires T.Linked(o.db) && id in o.rows && o.rows[id].mode.Handover? && A.Inert(o.db, o.rows[id].mode.grant, day)
    ensures Accepted(o, id, token, req, at).Err?
  {
    hide T.Seat, T.Linked, RolesToSeat, Offers, OffersArchived, DisabledAddress, T.StillCounts;
  }

  lemma HangsStep(w: World, s: Step, at: Moment, id: InvitationId, grant: AssignmentId, day: Day)
    requires T.Linked(w.office.db) && Hangs(w, id, grant) && A.Inert(w.office.db, grant, day)
    ensures Hangs(Next(w, s, at), id, grant)
  {
    hide Outcome, T.Linked, InvitationExpiry, A.Inert;
    if Enabled(w, s) && Outcome(w, s, at).Ok? {
      StepRows(w, s, at);
      if s.Accept? && w.lookups[s.session].id == id {
        NoAcceptance(w, s, at, id, day);
      }
    }
  }

  lemma NoAcceptance(w: World, s: Step, at: Moment, id: InvitationId, day: Day)
    requires T.Linked(w.office.db) && s.Accept? && Enabled(w, s) && w.lookups[s.session].id == id && id in w.office.rows
    requires w.office.rows[id].mode.Handover? && A.Inert(w.office.db, w.office.rows[id].mode.grant, day)
    ensures Outcome(w, s, at).Err?
  {
    hide Accepted, A.Inert, T.Linked;
    InertAcceptsNothing(w.office, id, w.lookups[s.session].token, s.req, at, day);
  }

  lemma {:induction false} HangsRun(w: World, moves: seq<Move>, id: InvitationId, grant: AssignmentId, day: Day)
    requires T.Linked(w.office.db) && Hangs(w, id, grant) && A.Inert(w.office.db, grant, day) && DaysFrom(moves, day)
    ensures Hangs(Run(w, moves), id, grant)
    decreases |moves|
  {
    hide Next, Hangs, A.Inert, T.Linked;
    if moves != [] {
      var m := moves[0];
      assert m in moves;
      StepKeepsLinks(w, m.step, m.at);
      HangsStep(w, m.step, m.at, id, grant, day);
      InertKept(w, m.step, m.at, grant, day);
      HangsRun(Next(w, m.step, m.at), moves[1..], id, grant, day);
    }
  }

  /**
   When the membership behind a handover grant is revoked, an invitation issued under the grant
   is never accepted, whatever follows: re-sends, sweeps and the membership's return included.
   */
  lemma HandoverInvitationDiesWithItsIssuer(w: World, s: T.Step, at: Moment, moves: seq<Move>, id: InvitationId, grant: AssignmentId)
    requires T.Linked(w.office.db) && A.Sound(w.office.db, at.today)
    requires s.DoRevokeMembership? && T.Outcome(w.office.db, s, at.today).Ok?
    requires Hangs(w, id, grant) && grant in w.office.db.assignments
             && w.office.db.assignments[grant].membership == s.membership
    requires DaysFrom(moves, at.today)
    ensures T.Linked(Next(w, MembersStep(s), at).office.db)
    ensures Hangs(Run(Next(w, MembersStep(s), at), moves), id, grant)
  {
    hide T.Next, T.Outcome, A.Sound, T.Linked, A.Inert;
    StepKeepsLinks(w, MembersStep(s), at);
    A.RevokedIsInert(w.office.db, s, at.today, grant);
    HangsRun(Next(w, MembersStep(s), at), moves, id, grant, at.today);
  }

  // A role that ends while it is offered

  lemma CheckedAnew(o: Office, tenant: TenantId, actor: MembershipId, id: InvitationId, token: Token, offered: OfferedRole,
                    issued: Moment, recipient: Email)
    requires Issued(o, tenant, actor, None, id, token, recipient, [offered], issued).Ok?
    ensures var i := Invitation(tenant, Normal(actor), recipient, token, InvitationExpiry(issued.now), [offered], None, false);
            && Issued(o, tenant, actor, None, id, token, recipient, [offered], issued).value == o.(rows := o.rows[id := i])
            && !OffersArchived(o, [offered]) && issued.today < offered.period.ends
    ensures tenant in o.db.tenants && T.RequireOpen(o.db.tenants[tenant]).Ok?
  {
    hide T.IsAdminOn, GrantValid, TokenInUse, InvitationExpiry;
    assert [offered][..0] == [];
    assert OfferRefusal(o, [], issued.today).None?;
  }

  /** A sweep reads and leaves everything an acceptance is checked against. */
  lemma SweptOffice(o: Office, tenant: TenantId, today: Day)
    requires T.Linked(o.db)
    ensures var db := T.Next(o.db, T.DoSweepHandover(tenant), today);
            && T.Linked(db) && db.tenants == o.db.tenants && db.accounts == o.db.accounts
            && db.memberships == o.db.memberships && db.assignments == o.db.assignments
  {
    hide T.Next, T.Linked;
    A.StepEvolves(o.db, T.DoSweepHandover(tenant), today);
    S.SweepKeepsRows(o.db, tenant, today);
  }

  /** The acceptance of a still backed invitation by someone who is not a member goes through. */
  lemma NewcomerAccepts(o: Office, id: InvitationId, offered: OfferedRole, at: Moment, req: AcceptRequest, a: AssignmentId)
    requires T.Linked(o.db) && id in o.rows
    requires var i := o.rows[id];
             && i.tenant in o.db.tenants && T.RequireOpen(o.db.tenants[i.tenant]).Ok?
             && i.mode.Normal? && T.IsAdminOn(o.db, i.tenant, i.mode.issuer, at.today)
             && i.recipient == req.acceptor && at.now < i.expires && IsPending(i) && i.roles == [offered]
             && !OffersArchived(o, i.roles)
             && forall x :: !T.ExistingFor(o.db, i.tenant, AccountFor(o, req), x)
    requires AccountFor(o, req) !in o.disabled && (req.acceptor !in o.addresses ==> req.minted !in o.db.accounts)
    requires req.end.None? && req.membership !in o.db.memberships && req.ids == [a] && a !in o.db.assignments
    ensures var i := o.rows[id];
            var s := T.DoSeat(i.tenant, AccountFor(o, req), req.membership, req.profile,
                              [T.Offer(a, offered.role, offered.capability, offered.period)]);
            var open := WithAccount(o, req);
            && T.Linked(open.db) && T.Outcome(open.db, s, at.today).Ok?
            && Accepted(o, id, i.token, req, at).Ok?
            && Accepted(o, id, i.token, req, at).value.db == T.Next(open.db, s, at.today)
  {
    hide T.IsAdminOn, OffersArchived, T.Seat;
    var i := o.rows[id];
    var open := WithAccount(o, req);
    var s := T.DoSeat(i.tenant, AccountFor(o, req), req.membership, req.profile,
                      [T.Offer(a, offered.role, offered.capability, offered.period)]);
    assert Offers([offered], req.ids) == s.offers;
    forall x ensures !T.ExistingFor(open.db, i.tenant, AccountFor(o, req), x) {
      assert !T.ExistingFor(o.db, i.tenant, AccountFor(o, req), x);
    }
    S.SeatGoesThrough(open.db, s, at.today);
  }

  /**
   An invitation to an admin role outlives the role: it is issued while the role still runs and
   accepted, within its 14 days, on a day the role is over and after that day's sweep. The
   role is seated all the same, and waits for a second sweep of the day.
   */
  lemma LateAcceptanceFeedsSecondSweep(o: Office, tenant: TenantId, actor: MembershipId, id: InvitationId, token: Token,
                                       offered: OfferedRole, issued: Moment, at: Moment, req: AcceptRequest, a: AssignmentId)
    requires T.Linked(o.db)
    requires Issued(o, tenant, actor, None, id, token, req.acceptor, [offered], issued).Ok?
    requires at.now < InvitationExpiry(issued.now) && T.IsAdminOn(o.db, tenant, actor, at.today)
    requires S.Late(T.Offer(a, offered.role, offered.capability, offered.period), at.today)
    requires AccountFor(o, req) !in o.disabled && (req.acceptor !in o.addresses ==> req.minted !in o.db.accounts)
    requires forall x :: !T.ExistingFor(o.db, tenant, AccountFor(o, req), x)
    requires req.end.None? && req.membership !in o.db.memberships && req.ids == [a] && a !in o.db.assignments
    ensures var invited := Issued(o, tenant, actor, None, id, token, req.acceptor, [offered], issued).value;
            && invited.db == o.db && issued.today < at.today
            && var swept := invited.(db := T.Next(o.db, T.DoSweepHandover(tenant), at.today));
            && T.Linked(swept.db) && T.Candidates(swept.db, tenant, at.today) == {}
            && Accepted(swept, id, token, req, at).Ok?
            && a in T.Candidates(Accepted(swept, id, token, req, at).value.db, tenant, at.today)
  {
    hide T.Next, T.Outcome, T.Candidates, T.Linked, Issued, Accepted, WithAccount, InvitationExpiry, OffersArchived;
    CheckedAnew(o, tenant, actor, id, token, offered, issued, req.acceptor);
    var invited := Issued(o, tenant, actor, None, id, token, req.acceptor, [offered], issued).value;
    var swept := invited.(db := T.Next(o.db, T.DoSweepHandover(tenant), at.today));
    SweptOffice(o, tenant, at.today);
    C.NoneAfterSweep(o.db, tenant, at.today);
    SameArchive(o, swept, [offered]);
    forall x ensures !T.ExistingFor(swept.db, tenant, AccountFor(swept, req), x) {
      assert !T.ExistingFor(o.db, tenant, AccountFor(o, req), x);
    }
    NewcomerAccepts(swept, id, offered, at, req, a);
    var offer := T.Offer(a, offered.role, offered.capability, offered.period);
    var s := T.DoSeat(tenant, AccountFor(swept, req), req.membership, req.profile, [offer]);
    S.OneLateOffer(WithAccount(swept, req).db, s, at.today, offer);
  }

  lemma SameArchive(o: Office, other: Office, roles: seq<OfferedRole>)
    requires other.archived == o.archived
    ensures OffersArchived(other, roles) == OffersArchived(o, roles)
  {
  }
}
