/** The rows behind the last-admin safeguard, and the check made on them. */
module AdminState {
  import opened Base
  import opened Calendar
  import opened Periods
  import opened Access
  import opened Rows
  import opened Transactions

  datatype AdminAssignment = AdminAssignment(id: AssignmentId, membership: MembershipId, view: AssignmentView)

  datatype AdminGrant = AdminGrant(source: AssignmentId, membership: MembershipId, view: GrantView)

  ghost predicate RowsCover(rows: seq<AdminAssignment>, grants: seq<AdminGrant>, removal: Removal, gone: bool, day: Day) {
    || (exists r :: && r in rows && removal.Removes(r.id, r.membership) == gone
                    && r.view.capability.Admin? && r.view.ValidOn(day))
    || (exists g :: g in grants && removal.Removes(g.source, g.membership) == gone && g.view.ValidOn(day))
  }

  ghost predicate GapInRows(rows: seq<AdminAssignment>, grants: seq<AdminGrant>, removal: Removal, today: Day) {
    exists day: Day :: today <= day && RowsCover(rows, grants, removal, true, day)
                    && !RowsCover(rows, grants, removal, false, day)
  }

  /** `vs` shows exactly the rows the removal ends (`gone`), or exactly the others. */
  ghost predicate Shows(vs: seq<AssignmentView>, rows: seq<AdminAssignment>, removal: Removal, gone: bool) {
    forall v :: v in vs <==> exists r :: r in rows && removal.Removes(r.id, r.membership) == gone && r.view == v
  }

  ghost predicate ShowsGrants(vs: seq<GrantView>, grants: seq<AdminGrant>, removal: Removal, gone: bool) {
    forall v :: v in vs <==> exists g :: g in grants && removal.Removes(g.source, g.membership) == gone && g.view == v
  }

  lemma ShownCoverage(rows: seq<AdminAssignment>, grants: seq<AdminGrant>, removal: Removal, gone: bool,
                      vs: seq<AssignmentView>, gs: seq<GrantView>, day: Day)
    requires Shows(vs, rows, removal, gone) && ShowsGrants(gs, grants, removal, gone)
    ensures TenantHasAdmin(vs, gs, day) <==> RowsCover(rows, grants, removal, gone, day)
  {
    if r :| r in rows && removal.Removes(r.id, r.membership) == gone && r.view.capability.Admin? && r.view.ValidOn(day) {
      assert r.view in vs;
    }
    if g :| g in grants && removal.Removes(g.source, g.membership) == gone && g.view.ValidOn(day) {
      assert g.view in gs;
    }
  }

  method SplitAssignments(rows: seq<AdminAssignment>, removal: Removal)
    returns (kept: seq<AssignmentView>, gone: seq<AssignmentView>)
    ensures Shows(kept, rows, removal, false) && Shows(gone, rows, removal, true)
  {
    kept, gone := [], [];
    for i := 0 to |rows|
      invariant Shows(kept, rows[..i], removal, false) && Shows(gone, rows[..i], removal, true)
    {
      ghost var before := rows[..i];
      if removal.Removes(rows[i].id, rows[i].membership) {
        gone := gone + [rows[i].view];
      } else {
        kept := kept + [rows[i].view];
      }
      assert rows[..i + 1] == before + [rows[i]];
    }
    assert rows[..|rows|] == rows;
  }

  method SplitGrants(grants: seq<AdminGrant>, removal: Removal)
    returns (kept: seq<GrantView>, gone: seq<GrantView>)
    ensures ShowsGrants(kept, grants, removal, false) && ShowsGrants(gone, grants, removal, true)
  {
    kept, gone := [], [];
    for i := 0 to |grants|
      invariant ShowsGrants(kept, grants[..i], removal, false) && ShowsGrants(gone, grants[..i], removal, true)
    {
      ghost var before := grants[..i];
      if removal.Removes(grants[i].source, grants[i].membership) {
        gone := gone + [grants[i].view];
      } else {
        kept := kept + [grants[i].view];
      }
      assert grants[..i + 1] == before + [grants[i]];
    }
    assert grants[..|grants|] == grants;
  }

  /**
   The last-admin safeguard: refuses, unless confirmed, exactly a removal after which some day
   from today on has lost its last administrator.
   */
  method CheckLastAdmin(rows: seq<AdminAssignment>, grants: seq<AdminGrant>, today: Day, confirm: bool, removal: Removal)
    returns (r: Result<bool, Error>)
    ensures r == if GapInRows(rows, grants, removal, today) && !confirm then Err(WouldLeaveNoAdmin)
                 else Ok(GapInRows(rows, grants, removal, today))
  {
    var keptA, goneA := SplitAssignments(rows, removal);
    var keptG, goneG := SplitGrants(grants, removal);
    var leavesNone := RemovalLeavesNoAdmin(keptA, keptG, goneA, goneG, today);
    assert leavesNone <==> GapInRows(rows, grants, removal, today) by {
      SafeguardIsExact(keptA, keptG, goneA, goneG, today);
      forall day: Day
        ensures TenantHasAdmin(goneA, goneG, day) <==> RowsCover(rows, grants, removal, true, day)
        ensures TenantHasAdmin(keptA, keptG, day) <==> RowsCover(rows, grants, removal, false, day)
      {
        ShownCoverage(rows, grants, removal, true, goneA, goneG, day);
        ShownCoverage(rows, grants, removal, false, keptA, keptG, day);
      }
    }
    if leavesNone && !confirm {
      return Err(WouldLeaveNoAdmin);
    }
    return Ok(leavesNone);
  }

  // What the rows are loaded from

  predicate LoadsAssignment(db: Db, tenant: TenantId, a: AssignmentId) {
    && a in db.assignments && db.assignments[a].capability.Admin?
    && UsableIn(db, tenant, db.assignments[a].membership)
  }

  /** Grants of a revoked source are left out, whatever the grant's own row says. */
  predicate LoadsGrant(db: Db, tenant: TenantId, a: AssignmentId) {
    && a in db.grants && a in db.assignments && !db.assignments[a].Revoked()
    && UsableIn(db, tenant, db.assignments[a].membership)
  }

  function AssignmentRow(db: Db, a: AssignmentId): AdminAssignment
    requires a in db.assignments
  {
    var r := db.assignments[a];
    AdminAssignment(a, r.membership, AssignmentView(Admin, r.period, r.Revoked()))
  }

  function GrantRowOf(db: Db, a: AssignmentId): AdminGrant
    requires a in db.grants && a in db.assignments
  {
    AdminGrant(a, db.assignments[a].membership, GrantView(db.grants[a].period, db.grants[a].revoked))
  }

  ghost predicate Loaded(db: Db, tenant: TenantId, rows: seq<AdminAssignment>, grants: seq<AdminGrant>) {
    && (forall a :: LoadsAssignment(db, tenant, a) ==> AssignmentRow(db, a) in rows)
    && (forall r :: r in rows ==> LoadsAssignment(db, tenant, r.id) && r == AssignmentRow(db, r.id))
    && (forall a :: LoadsGrant(db, tenant, a) ==> GrantRowOf(db, a) in grants)
    && (forall g :: g in grants ==> LoadsGrant(db, tenant, g.source) && g == GrantRowOf(db, g.source))
  }

  /** The loaded rows cover exactly the days the database does. */
  lemma LoadedCoverage(db: Db, tenant: TenantId, rows: seq<AdminAssignment>, grants: seq<AdminGrant>,
                       removal: Removal, gone: bool, day: Day)
    requires Loaded(db, tenant, rows, grants)
    ensures RowsCover(rows, grants, removal, gone, day) <==> CoveredBy(db, tenant, removal, gone, day)
  {
    if a :| Covers(db, tenant, a, day) && removal.Removes(a, db.assignments[a].membership) == gone {
      if AdminRow(db, tenant, a, day) {
        assert AssignmentRow(db, a) in rows;
      } else {
        assert GrantRowOf(db, a) in grants;
      }
    }
    if r :| r in rows && removal.Removes(r.id, r.membership) == gone && r.view.capability.Admin? && r.view.ValidOn(day) {
      assert AdminRow(db, tenant, r.id, day);
      assert Covers(db, tenant, r.id, day);
    }
    if g :| g in grants && removal.Removes(g.source, g.membership) == gone && g.view.ValidOn(day) {
      assert GrantRow(db, tenant, g.source, day);
      assert Covers(db, tenant, g.source, day);
    }
  }

  lemma LoadedGap(db: Db, tenant: TenantId, rows: seq<AdminAssignment>, grants: seq<AdminGrant>,
                  removal: Removal, today: Day)
    requires Loaded(db, tenant, rows, grants)
    ensures GapInRows(rows, grants, removal, today) <==> LeavesNoAdmin(db, tenant, removal, today)
  {
    hide RowsCover, CoveredBy, Loaded;
    forall day: Day
      ensures RowsCover(rows, grants, removal, true, day) <==> CoveredBy(db, tenant, removal, true, day)
      ensures RowsCover(rows, grants, removal, false, day) <==> CoveredBy(db, tenant, removal, false, day)
    {
      LoadedCoverage(db, tenant, rows, grants, removal, true, day);
      LoadedCoverage(db, tenant, rows, grants, removal, false, day);
    }
  }

  /** `has_admin` over every loaded row. */
  function HasAdmin(rows: seq<AdminAssignment>, grants: seq<AdminGrant>, today: Day): bool {
    TenantHasAdmin(seq(|rows|, i requires 0 <= i < |rows| => rows[i].view),
                   seq(|grants|, i requires 0 <= i < |grants| => grants[i].view), today)
  }

  /** The loaded rows show an administrator exactly when the database has one. */
  lemma LoadedHasAdmin(db: Db, tenant: TenantId, rows: seq<AdminAssignment>, grants: seq<AdminGrant>, day: Day)
    requires Loaded(db, tenant, rows, grants)
    ensures HasAdmin(rows, grants, day) <==> HasAdminOn(db, tenant, day)
  {
    var vs := seq(|rows|, i requires 0 <= i < |rows| => rows[i].view);
    var gs := seq(|grants|, i requires 0 <= i < |grants| => grants[i].view);
    if v :| v in vs && v.capability.Admin? && v.ValidOn(day) {
      var i :| 0 <= i < |vs| && vs[i] == v;
      assert rows[i] in rows && Covers(db, tenant, rows[i].id, day);
    }
    if g :| g in gs && g.ValidOn(day) {
      var i :| 0 <= i < |gs| && gs[i] == g;
      assert grants[i] in grants && Covers(db, tenant, grants[i].source, day);
    }
    if a :| Covers(db, tenant, a, day) {
      if AdminRow(db, tenant, a, day) {
        var i :| 0 <= i < |rows| && rows[i] == AssignmentRow(db, a);
        assert vs[i] in vs;
      } else {
        var i :| 0 <= i < |grants| && grants[i] == GrantRowOf(db, a);
        assert gs[i] in gs;
      }
    }
  }
}
