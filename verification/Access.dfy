/** What a membership may do on a day, and the last-admin safeguard. */
module Access {
  import opened Base
  import opened Calendar
  import opened Periods

  datatype CapabilityClass = Member | Admin | Guest

  datatype Capability = NoCapability | GuestCapability | MemberCapability | AdminCapability {
    function Rank(): nat {
      match this
      case NoCapability => 0
      case GuestCapability => 1
      case MemberCapability => 2
      case AdminCapability => 3
    }
  }

  datatype AssignmentView = AssignmentView(capability: CapabilityClass, period: Period, revoked: bool) {
    predicate ValidOn(day: Day) { !revoked && period.Contains(day) }
  }

  datatype GrantView = GrantView(period: Period, revoked: bool) {
    predicate ValidOn(day: Day) { !revoked && period.Contains(day) }
  }

  datatype Standing = Standing(tenantActive: bool, accountUsable: bool, membershipActive: bool)

  datatype AccessResult = AccessResult(capability: Capability, handover: bool, nextStart: Option<Day>)

  const NO_ACCESS := AccessResult(NoCapability, false, None)

  function CapabilityOf(c: CapabilityClass): Capability {
    match c
    case Guest => GuestCapability
    case Member => MemberCapability
    case Admin => AdminCapability
  }

  /** The highest capability among the assignments valid on `today`. */
  function HighestCapability(assignments: seq<AssignmentView>, today: Day): (c: Capability)
    ensures forall a :: a in assignments && a.ValidOn(today) ==> CapabilityOf(a.capability).Rank() <= c.Rank()
    ensures c == NoCapability || exists a :: a in assignments && a.ValidOn(today) && CapabilityOf(a.capability) == c
  {
    if assignments == [] then NoCapability
    else
      var rest := HighestCapability(assignments[1..], today);
      var here := CapabilityOf(assignments[0].capability);
      if assignments[0].ValidOn(today) && rest.Rank() < here.Rank() then here else rest
  }

  /** The earliest start, after `today`, of an assignment that is not revoked. */
  function EarliestStart(assignments: seq<AssignmentView>, today: Day): (d: Option<Day>)
    ensures forall a :: a in assignments && !a.revoked && a.period.starts > today ==>
                          d.Some? && d.value <= a.period.starts
    ensures d.Some? ==> exists a :: a in assignments && !a.revoked && a.period.starts == d.value > today
  {
    if assignments == [] then None
    else
      var rest := EarliestStart(assignments[1..], today);
      var first := assignments[0];
      if !first.revoked && first.period.starts > today && (rest.None? || first.period.starts < rest.value)
      then Some(first.period.starts) else rest
  }

  function EvaluateAccess(standing: Standing, assignments: seq<AssignmentView>, grants: seq<GrantView>,
                          today: Day): AccessResult
  {
    if !(standing.tenantActive && standing.accountUsable && standing.membershipActive) then
      NO_ACCESS
    else
      var capability := HighestCapability(assignments, today);
      AccessResult(capability,
                   exists g :: g in grants && g.ValidOn(today),
                   if capability.NoCapability? then EarliestStart(assignments, today) else None)
  }

  /**
   Standing needs the FAU, the account and the membership; with it the capability is the highest of the
   roles valid today, the handover authority any valid grant's, and, when there is no capability, the
   next start is told. Without standing there is nothing.
   */
  lemma EvaluateAccessExactly(standing: Standing, assignments: seq<AssignmentView>, grants: seq<GrantView>, today: Day)
    ensures var r := EvaluateAccess(standing, assignments, grants, today);
            var stands := standing.tenantActive && standing.accountUsable && standing.membershipActive;
            && (r.capability == AdminCapability <==>
                  stands && exists a :: a in assignments && a.ValidOn(today) && a.capability == Admin)
            && (r.capability == NoCapability <==> stands ==> forall a :: a in assignments ==> !a.ValidOn(today))
            && (r.capability == GuestCapability <==>
                  && stands && (exists a :: a in assignments && a.ValidOn(today))
                  && forall a :: a in assignments && a.ValidOn(today) ==> a.capability == Guest)
            && (r.handover <==> stands && exists g :: g in grants && g.ValidOn(today))
            && (r.nextStart.Some? <==>
                  stands && r.capability == NoCapability
                  && exists a :: a in assignments && !a.revoked && today < a.period.starts)
            && (r.nextStart.Some? ==>
                  && (exists a :: a in assignments && !a.revoked && a.period.starts == r.nextStart.value)
                  && forall a :: a in assignments && !a.revoked && today < a.period.starts ==> r.nextStart.value <= a.period.starts)
  {
    var c := HighestCapability(assignments, today);
    if c == NoCapability {
      forall a | a in assignments ensures !a.ValidOn(today) {
        assert a.ValidOn(today) ==> CapabilityOf(a.capability).Rank() <= c.Rank();
      }
    }
  }

  function TenantHasAdmin(assignments: seq<AssignmentView>, grants: seq<GrantView>, today: Day): bool {
    || (exists a :: a in assignments && a.capability.Admin? && a.ValidOn(today))
    || (exists g :: g in grants && g.ValidOn(today))
  }

  /** Periods through which a set of rows can give the FAU an administrator. */
  function AdminPeriods(assignments: seq<AssignmentView>): (ps: seq<Period>)
    ensures forall p :: p in ps <==> exists a :: a in assignments && !a.revoked && a.capability.Admin? && a.period == p
  {
    if assignments == [] then []
    else
      var a := assignments[0];
      (if !a.revoked && a.capability.Admin? then [a.period] else []) + AdminPeriods(assignments[1..])
  }

  function GrantPeriods(grants: seq<GrantView>): (ps: seq<Period>)
    ensures forall p :: p in ps <==> exists g :: g in grants && !g.revoked && g.period == p
  {
    if grants == [] then []
    else
      var g := grants[0];
      (if !g.revoked then [g.period] else []) + GrantPeriods(grants[1..])
  }

  /**
   The last-admin safeguard: only the first remaining day of each removed period, and each
   remaining end inside it, is looked at.
   */
  predicate RemovalLeavesNoAdmin(keptAssignments: seq<AssignmentView>, keptGrants: seq<GrantView>,
                                 goneAssignments: seq<AssignmentView>, goneGrants: seq<GrantView>, today: Day)
  {
    var ends := AdminPeriods(keptAssignments) + GrantPeriods(keptGrants);
    var removed := AdminPeriods(goneAssignments) + GrantPeriods(goneGrants);
    exists p :: p in removed && !p.HasEndedBy(today) && LeavesGapIn(p, keptAssignments, keptGrants, ends, today)
  }

  predicate LeavesGapIn(p: Period, assignments: seq<AssignmentView>, grants: seq<GrantView>,
                        others: seq<Period>, today: Day)
  {
    var first := Max(p.starts, today);
    || !TenantHasAdmin(assignments, grants, first)
    || (exists q :: q in others && first < q.ends < p.ends && !TenantHasAdmin(assignments, grants, q.ends))
  }

  lemma CoverageByPeriods(assignments: seq<AssignmentView>, grants: seq<GrantView>, day: Day)
    ensures TenantHasAdmin(assignments, grants, day)
       <==> exists p :: p in AdminPeriods(assignments) + GrantPeriods(grants) && p.Contains(day)
  {
    if TenantHasAdmin(assignments, grants, day) {
      if a :| a in assignments && a.capability.Admin? && a.ValidOn(day) {
        assert a.period in AdminPeriods(assignments);
      } else {
        var g :| g in grants && g.ValidOn(day);
        assert g.period in GrantPeriods(grants);
      }
    }
  }

  /** Coverage is lost only where a covering period ends: the least uncovered day is such an end. */
  lemma {:induction false} LeastUncoveredDay(assignments: seq<AssignmentView>, grants: seq<GrantView>,
                                             first: Day, day: Day)
    requires first <= day && TenantHasAdmin(assignments, grants, first) && !TenantHasAdmin(assignments, grants, day)
    ensures exists q :: q in AdminPeriods(assignments) + GrantPeriods(grants)
                     && first < q.ends <= day && !TenantHasAdmin(assignments, grants, q.ends)
    decreases day - first
  {
    var next := first + 1;
    if TenantHasAdmin(assignments, grants, next) {
      LeastUncoveredDay(assignments, grants, next, day);
    } else {
      CoverageByPeriods(assignments, grants, first);
      CoverageByPeriods(assignments, grants, next);
      var q :| q in AdminPeriods(assignments) + GrantPeriods(grants) && q.Contains(first);
      assert q.ends == next;
    }
  }

  /**
   The safeguard is exact: it refuses if and only if some day from today on has an
   administrator through the removed rows and none through the rows that remain.
   */
  lemma SafeguardIsExact(keptAssignments: seq<AssignmentView>, keptGrants: seq<GrantView>,
                         goneAssignments: seq<AssignmentView>, goneGrants: seq<GrantView>, today: Day)
    ensures RemovalLeavesNoAdmin(keptAssignments, keptGrants, goneAssignments, goneGrants, today)
       <==> exists day: Day :: today <= day && TenantHasAdmin(goneAssignments, goneGrants, day)
                            && !TenantHasAdmin(keptAssignments, keptGrants, day)
  {
    var ends := AdminPeriods(keptAssignments) + GrantPeriods(keptGrants);
    var removed := AdminPeriods(goneAssignments) + GrantPeriods(goneGrants);
    if p :| p in removed && !p.HasEndedBy(today) && LeavesGapIn(p, keptAssignments, keptGrants, ends, today) {
      var first := Max(p.starts, today);
      if TenantHasAdmin(keptAssignments, keptGrants, first) {
        var q :| q in ends && first < q.ends < p.ends && !TenantHasAdmin(keptAssignments, keptGrants, q.ends);
        CoverageByPeriods(goneAssignments, goneGrants, q.ends);
      } else {
        CoverageByPeriods(goneAssignments, goneGrants, first);
      }
    }
    if day: Day :| today <= day && TenantHasAdmin(goneAssignments, goneGrants, day)
                   && !TenantHasAdmin(keptAssignments, keptGrants, day) {
      CoverageByPeriods(goneAssignments, goneGrants, day);
      var p :| p in removed && p.Contains(day);
      var first := Max(p.starts, today);
      if TenantHasAdmin(keptAssignments, keptGrants, first) {
        LeastUncoveredDay(keptAssignments, keptGrants, first, day);
      }
    }
  }
}
