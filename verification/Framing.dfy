/** What settling a membership reads: its own row, its assignments and its account. */
module Framing {
  import opened Base
  import opened Calendar
  import opened Periods
  import opened Retention
  import opened Rules
  import opened Rows
  import opened Transactions
  import opened Authority
  import opened Remembering

  /** Both databases agree on everything settling `m` reads. */
  ghost predicate SameFor(db: Db, other: Db, m: MembershipId) {
    && m in db.memberships && m in other.memberships
    && other.memberships[m] == db.memberships[m]
    && other.assignments == db.assignments && other.accounts == db.accounts
  }

  lemma SettlesTheSame(db: Db, other: Db, m: MembershipId, today: Day)
    requires Linked(db) && Linked(other) && SameFor(db, other, m)
    ensures SettleOutcome(other, m, today) == SettleOutcome(db, m, today)
    ensures SettledRow(other, m, today) == SettledRow(db, m, today)
  {
    EndedBySameRows(db, other, m, today);
    EndedOnBySameRows(db, other, m, today);
  }

  lemma SameEnd(db: Db, other: Db, m: MembershipId, today: Day)
    requires m in db.memberships && m in other.memberships
    requires other.assignments == db.assignments && other.memberships[m].revokedOn == db.memberships[m].revokedOn
    ensures Ended(other, m, today) == Ended(db, m, today)
    ensures EndedOnFor(other, m, today) == EndedOnFor(db, m, today)
  {
    EndedBySameRows(db, other, m, today);
    EndedOnBySameRows(db, other, m, today);
  }

  lemma SettledRowsKeep(db: Db, today: Day)
    requires Linked(db)
    ensures forall m :: m in db.memberships ==>
              && SettledRow(db, m, today).tenant == db.memberships[m].tenant
              && SettledRow(db, m, today).account == db.memberships[m].account
              && SettledRow(db, m, today).revokedOn == db.memberships[m].revokedOn
  {
    hide SettledRow;
    forall m | m in db.memberships
      ensures && SettledRow(db, m, today).tenant == db.memberships[m].tenant
              && SettledRow(db, m, today).account == db.memberships[m].account
              && SettledRow(db, m, today).revokedOn == db.memberships[m].revokedOn
    {
      SettledRowKeeps(db, m, today);
    }
  }

  lemma NothingToSettle(db: Db, m: MembershipId, today: Day)
    requires Linked(db) && m in db.memberships
    requires db.memberships[m].erased || !db.memberships[m].HasFields()
    ensures SettledRow(db, m, today) == db.memberships[m]
  {
  }

  lemma EndedInSame(db: Db, other: Db, tenant: TenantId, today: Day)
    requires other.assignments == db.assignments && other.memberships.Keys == db.memberships.Keys
    requires forall m :: m in db.memberships ==>
               && other.memberships[m].tenant == db.memberships[m].tenant
               && other.memberships[m].revokedOn == db.memberships[m].revokedOn
    ensures EndedIn(other, tenant, today) == EndedIn(db, tenant, today)
  {
    hide Ended;
    forall m | m in db.memberships ensures Ended(other, m, today) == Ended(db, m, today) {
      EndedBySameRows(db, other, m, today);
    }
  }

  ghost function NewStamp(db: Db, months: RetentionMonths, m: MembershipId, today: Day): Membership
    requires m in db.memberships
  {
    var until := KeepUntil(EndedOnFor(db, m, today), months, today);
    if until.Some? then db.memberships[m].(keptUntil := until) else db.memberships[m].Cleared()
  }

  /** Recalculating a row settled in place is what the specification asks of the row before it. */
  lemma RestampedFrom(db: Db, mid: Db, account: AccountId, months: RetentionMonths, m: MembershipId, today: Day)
    requires Linked(db) && m in db.memberships && m in mid.memberships
    requires mid.assignments == db.assignments && mid.memberships[m] == SettledOwn(db, account, m, today)
    ensures Restamped(db, account, months, m, SettledOwn(db, account, m, today), today)
         == if mid.memberships[m].account == account && mid.memberships[m].keptUntil.Some? && Ended(mid, m, today)
            then NewStamp(mid, months, m, today) else mid.memberships[m]
  {
    hide SettledRow, Ended, EndedOnFor, KeepUntil;
    SettledRowKeeps(db, m, today);
    SameEnd(db, mid, m, today);
  }

  lemma NoNewGrants(db: Db)
    ensures NewGrants(db, {}) == db.grants
  {
  }

  lemma OneMoreGrant(db: Db, made: set<AssignmentId>, a: AssignmentId)
    requires forall x :: x in made + {a} ==> x in db.assignments && HandoverPeriod(db.assignments[x].period.ends).Some?
    ensures NewGrants(db, made + {a})
         == NewGrants(db, made)[a := Grant(HandoverPeriod(db.assignments[a].period.ends).value, false)]
    ensures a !in db.grants && a !in made ==> a !in NewGrants(db, made)
  {
    hide HandoverPeriod;
  }

  /** The assignment cascade in its two statements. */
  lemma CascadeInTwo(db: Db, m: MembershipId, today: Day, first: map<AssignmentId, Assignment>,
                     second: map<AssignmentId, Assignment>)
    requires first == map a | a in db.assignments ::
                        if RunsOrBooked(db.assignments[a], m, today)
                        then db.assignments[a].(revokedOn := Some(today)) else db.assignments[a]
    requires second.Keys == first.Keys
    requires forall a :: a in second ==>
               second[a] == if first[a].membership == m && !first[a].Revoked() && OpenWindow(first[a], today)
                            then first[a].(revokedOn := Some(today)) else first[a]
    ensures second == RevokeAll(db, m, today)
    ensures Linked(db) ==> Linked(db.(assignments := second))
  {
    hide HandoverPeriod;
  }

  predicate RunsOrBooked(a: Assignment, m: MembershipId, today: Day) {
    a.membership == m && !a.Revoked() && a.period.ends > today
  }

  /** The profiles in `done` are settled, the others untouched. */
  ghost predicate SettledSoFar(db: Db, now: map<MembershipId, Membership>, done: set<MembershipId>, today: Day)
    requires Linked(db)
  {
    && now.Keys == db.memberships.Keys
    && forall m :: m in now ==> now[m] == if m in done then SettledRow(db, m, today) else db.memberships[m]
  }

  lemma SettledSoFarLinked(db: Db, now: map<MembershipId, Membership>, done: set<MembershipId>, today: Day)
    requires Linked(db) && SettledSoFar(db, now, done, today)
    ensures Linked(db.(memberships := now))
  {
    hide SettledRow;
    SettledRowsKeep(db, today);
  }

  /** Settling one more reads only what settling the others left alone. */
  lemma SettleOneMore(db: Db, now: map<MembershipId, Membership>, done: set<MembershipId>, m: MembershipId, today: Day)
    requires Linked(db) && SettledSoFar(db, now, done, today) && m in db.memberships && m !in done
    ensures Linked(db.(memberships := now))
    ensures SettleOutcome(db.(memberships := now), m, today) == SettleOutcome(db, m, today)
    ensures SettledSoFar(db, now[m := SettledRow(db.(memberships := now), m, today)], done + {m}, today)
  {
    hide SettledRow, SettleOutcome;
    SettledSoFarLinked(db, now, done, today);
    SettlesTheSame(db, db.(memberships := now), m, today);
  }

  /** The periods in `done` are recalculated, the others untouched. */
  ghost predicate RestampedSoFar(db: Db, now: map<MembershipId, Membership>, months: RetentionMonths,
                                 done: set<MembershipId>, today: Day)
  {
    && now.Keys == db.memberships.Keys
    && forall m :: m in now ==> now[m] == if m in done then NewStamp(db, months, m, today) else db.memberships[m]
  }

  lemma RestampOneMore(db: Db, now: map<MembershipId, Membership>, months: RetentionMonths,
                       done: set<MembershipId>, m: MembershipId, today: Day)
    requires RestampedSoFar(db, now, months, done, today) && m in db.memberships && m !in done
    ensures EndedOnFor(db.(memberships := now), m, today) == EndedOnFor(db, m, today)
    ensures RestampedSoFar(db, now[m := NewStamp(db, months, m, today)], months, done + {m}, today)
  {
    hide NewStamp;
    SameEnd(db, db.(memberships := now), m, today);
  }

  /** The daily sweep as the specification states it. */
  lemma ClearedAll(db: Db, tenant: TenantId, now: map<MembershipId, Membership>, due: set<MembershipId>, today: Day)
    requires Linked(db) && SettledSoFar(db, now, due, today)
    requires due == set m | m in db.memberships && Unsettled(db, tenant, m, today)
    ensures now == map m | m in db.memberships ::
                     if Unsettled(db, tenant, m, today) then SettledRow(db, m, today) else db.memberships[m]
    ensures EndedIn(db.(memberships := now), tenant, today) == EndedIn(db, tenant, today)
  {
    hide SettledRow, Unsettled, EndedIn;
    SettledRowsKeep(db, today);
    EndedInSame(db, db.(memberships := now), tenant, today);
  }

  /** Settling, changing the setting, then recalculating, as the specification states it. */
  lemma SetAll(db: Db, account: AccountId, months: RetentionMonths, own: set<MembershipId>,
               settled: map<MembershipId, Membership>, mid: Db, stamped: set<MembershipId>,
               now: map<MembershipId, Membership>, today: Day)
    requires Linked(db) && SettledSoFar(db, settled, own, today)
    requires own == set m | m in db.memberships && db.memberships[m].account == account
                            && !db.memberships[m].erased && db.memberships[m].HasFields()
    requires mid.memberships == settled && mid.assignments == db.assignments
    requires stamped == set m | m in mid.memberships && mid.memberships[m].account == account
                                && mid.memberships[m].keptUntil.Some? && Ended(mid, m, today)
    requires RestampedSoFar(mid, now, months, stamped, today)
    ensures now == map m | m in db.memberships ::
                     Restamped(db, account, months, m, SettledOwn(db, account, m, today), today)
  {
    hide SettledRow, Ended, Restamped, NewStamp;
    forall m | m in db.memberships
      ensures now[m] == Restamped(db, account, months, m, SettledOwn(db, account, m, today), today)
    {
      if m !in own && db.memberships[m].account == account { NothingToSettle(db, m, today); }
      RestampedFrom(db, mid, account, months, m, today);
    }
  }

  /** Some of the sweep's candidates have their grant; the others are still to be looked at. */
  ghost predicate GrantedSoFar(db: Db, tenant: TenantId, today: Day, grants: map<AssignmentId, Grant>,
                               made: set<AssignmentId>, todo: set<AssignmentId>)
  {
    && made <= Candidates(db, tenant, today) <= todo + made
    && made !! todo
    && (forall a :: a in todo ==> EndedAdminRole(db, tenant, a, today))
    && grants == NewGrants(db, made)
  }

  /** What the sweep's query under the lock selects. */
  predicate EndedAdminRole(db: Db, tenant: TenantId, a: AssignmentId, today: Day) {
    && a in db.assignments && UsableIn(db, tenant, db.assignments[a].membership)
    && db.assignments[a].capability.Admin? && !db.assignments[a].Revoked()
    && db.assignments[a].period.ends <= today && a !in db.grants
  }

  lemma GrantNone(db: Db, tenant: TenantId, today: Day, todo: set<AssignmentId>)
    requires todo == set a | a in db.assignments && EndedAdminRole(db, tenant, a, today)
    ensures GrantedSoFar(db, tenant, today, db.grants, {}, todo)
  {
    hide HandoverPeriod;
    NoNewGrants(db);
  }

  lemma GrantOneMore(db: Db, tenant: TenantId, today: Day, grants: map<AssignmentId, Grant>,
                     made: set<AssignmentId>, todo: set<AssignmentId>, a: AssignmentId)
    requires GrantedSoFar(db, tenant, today, grants, made, todo) && a in todo
    ensures a in db.assignments && a !in grants && a !in made
    ensures var window := HandoverPeriod(db.assignments[a].period.ends);
            if window.None? || window.value.HasEndedBy(today)
            then GrantedSoFar(db, tenant, today, grants, made, todo - {a})
            else GrantedSoFar(db, tenant, today, grants[a := Grant(window.value, false)], made + {a}, todo - {a})
  {
    hide HandoverPeriod, NewGrants;
    var window := HandoverPeriod(db.assignments[a].period.ends);
    NotYetGranted(db, made, a);
    if window.Some? && !window.value.HasEndedBy(today) {
      assert a in Candidates(db, tenant, today);
      OneMoreGrant(db, made, a);
    } else {
      assert a !in Candidates(db, tenant, today);
    }
  }

  lemma NotYetGranted(db: Db, made: set<AssignmentId>, a: AssignmentId)
    requires forall x :: x in made ==> x in db.assignments && HandoverPeriod(db.assignments[x].period.ends).Some?
    requires a !in db.grants && a !in made
    ensures a !in NewGrants(db, made)
  {
    hide HandoverPeriod;
  }

  lemma GrantedAll(db: Db, tenant: TenantId, today: Day, grants: map<AssignmentId, Grant>, made: set<AssignmentId>)
    requires GrantedSoFar(db, tenant, today, grants, made, {})
    ensures made == Candidates(db, tenant, today) && grants == NewGrants(db, made)
  {
    hide NewGrants, Candidate;
  }

  lemma NoneSettled(db: Db, today: Day)
    requires Linked(db)
    ensures SettledSoFar(db, db.memberships, {}, today)
  {
    hide SettledRow;
  }

  lemma NoneRestamped(db: Db, months: RetentionMonths, today: Day)
    ensures RestampedSoFar(db, db.memberships, months, {}, today)
  {
    hide NewStamp;
  }

  lemma RestampReads(db: Db, now: map<MembershipId, Membership>, months: RetentionMonths,
                     done: set<MembershipId>, m: MembershipId, today: Day)
    requires RestampedSoFar(db, now, months, done, today) && m in db.memberships && m !in done
    ensures now.Keys == db.memberships.Keys && now[m] == db.memberships[m]
  {
    hide NewStamp;
  }

  // Counting what a sweep clears

  /** The memberships that had a field and have none left. */
  function LostFields(was: map<MembershipId, Membership>, now: map<MembershipId, Membership>): set<MembershipId> {
    set m | m in was && m in now && was[m].HasFields() && !now[m].HasFields()
  }

  /** The same memberships, none with a field it did not have. */
  predicate OnlyLoses(was: map<MembershipId, Membership>, now: map<MembershipId, Membership>) {
    was.Keys == now.Keys && forall m :: m in now && now[m].HasFields() ==> was[m].HasFields()
  }

  lemma NothingLost(rows: map<MembershipId, Membership>)
    ensures OnlyLoses(rows, rows) && LostFields(rows, rows) == {}
  {
  }

  /** What one FAU's visit clears is what loses its fields by it. */
  lemma VisitLoses(db: Db, tenant: TenantId, today: Day)
    requires Linked(db)
    ensures OnlyLoses(db.memberships, Next(db, DoClearEnded(tenant), today).memberships)
    ensures tenant in db.tenants ==>
              LostFields(db.memberships, Next(db, DoClearEnded(tenant), today).memberships)
                == set m | m in db.memberships && Unsettled(db, tenant, m, today) && SettleOutcome(db, m, today).ClearedProfile?
    ensures tenant !in db.tenants ==> Next(db, DoClearEnded(tenant), today) == db
  {
    hide Ended, EffectiveKeepUntil;
  }

  lemma LossesAddUp(was: map<MembershipId, Membership>, mid: map<MembershipId, Membership>, now: map<MembershipId, Membership>)
    requires OnlyLoses(was, mid) && OnlyLoses(mid, now)
    ensures OnlyLoses(was, now)
    ensures |LostFields(was, now)| == |LostFields(was, mid)| + |LostFields(mid, now)|
  {
    assert LostFields(was, now) == LostFields(was, mid) + LostFields(mid, now);
    assert LostFields(was, mid) !! LostFields(mid, now);
  }
}
