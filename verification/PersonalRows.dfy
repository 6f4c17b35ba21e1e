/** What account deletion does to personal rows. */
module PersonalRows {
  import opened Wrappers
  import opened Database
  import opened Cascade
  import opened Inventory
  import opened AccountDeletion
  import opened DeletionPhases
  import opened KeptContent
  import opened DeletionOutcome
  import opened DeletionIntegrity

  /** A row that the workspace it sits in protects from the sweep. */
  predicate SitsInKept(row: Row, scope: Scope, keptTenants: set<string>, keptOrgs: set<string>) {
    match scope
    case ByTenant => row.tenantId.Some? && row.tenantId.value in keptTenants
    case ByOrganization => row.organizationId.Some? && row.organizationId.value in keptOrgs
    case Unscoped => false
  }

  /**
   * The row is in no listed table, or somebody else's, or in a workspace that stays, or its table refused both times.
   */
  predicate Spared(db: Db, table: Table, row: Row, userId: string, keptTenants: set<string>, keptOrgs: set<string>,
                   refusedFirst: set<Table>, refusedSecond: set<Table>, personal: seq<Target>)
  {
    || (table in refusedFirst && table in refusedSecond)
    || forall t :: t in Existing(db, personal) && t.table == table ==>
         row.userId != Some(userId) || SitsInKept(row, t.scope, keptTenants, keptOrgs)
  }

  /**
   * After both passes a row is there, with the keys that set null cleared, exactly when every row a chain of cascading
   * keys leads to, itself included, is one that no listed table sweeps or whose table refused both times; else it is
   * gone.
   */
  lemma SweptExactly(db: Db, userId: string, keptTenants: set<string>, keptOrgs: set<string>, refusedFirst: set<Table>,
                     refusedSecond: set<Table>, personal: seq<Target>, table: Table, row: Row)
    requires table in db.tables && row in db.tables[table]
    ensures var cause := IsSwept(Existing(db, personal), userId, keptTenants, keptOrgs, refusedFirst * refusedSecond);
            var after := SweptTwice(db, userId, keptTenants, keptOrgs, refusedFirst, refusedSecond, personal);
            var spared :=
              forall ref: Ref, other: Row :: RowAt(db, ref, other) && Reaches(db, Ref(table, row.id), {ref}) ==>
                Spared(db, ref.table, other, userId, keptTenants, keptOrgs, refusedFirst, refusedSecond, personal);
            && table in after.tables
            && (Forget(row, SchemaOf(db.schema, table), Taken(db, cause)) in after.tables[table] <==> spared)
            && (!spared ==> forall other :: other in after.tables[table] ==> other.id != row.id)
  {
    SweptByCause(db, userId, keptTenants, keptOrgs, refusedFirst, refusedSecond, personal, table, row);
    SparedOrTaken(db, userId, keptTenants, keptOrgs, refusedFirst, refusedSecond, personal, Ref(table, row.id));
  }

  lemma SweptByCause(db: Db, userId: string, keptTenants: set<string>, keptOrgs: set<string>, refusedFirst: set<Table>,
                     refusedSecond: set<Table>, personal: seq<Target>, table: Table, row: Row)
    requires table in db.tables && row in db.tables[table]
    ensures var cause := IsSwept(Existing(db, personal), userId, keptTenants, keptOrgs, refusedFirst * refusedSecond);
            var after := SweptTwice(db, userId, keptTenants, keptOrgs, refusedFirst, refusedSecond, personal);
            var spared := Ref(table, row.id) !in Taken(db, cause);
            && table in after.tables
            && (Forget(row, SchemaOf(db.schema, table), Taken(db, cause)) in after.tables[table] <==> spared)
            && (!spared ==> forall other :: other in after.tables[table] ==> other.id != row.id)
  {
    SweepsPrune(db, userId, keptTenants, keptOrgs, refusedFirst, refusedSecond, personal);
    var cause := IsSwept(Existing(db, personal), userId, keptTenants, keptOrgs, refusedFirst * refusedSecond);
    LeftOrGone(db, Taken(db, cause), table, row);
  }

  /** A row is there without what is gone, or no row has its key. */
  lemma LeftOrGone(db: Db, gone: set<Ref>, table: Table, row: Row)
    requires table in db.tables && row in db.tables[table]
    ensures var rows := Without(db, gone).tables[table];
            && (Forget(row, SchemaOf(db.schema, table), gone) in rows <==> Ref(table, row.id) !in gone)
            && (Ref(table, row.id) in gone ==> forall other :: other in rows ==> other.id != row.id)
  {
    LeftMeans(db.tables[table], table, SchemaOf(db.schema, table), gone);
    assert Forget(row, SchemaOf(db.schema, table), gone).id == row.id;
  }

  lemma SparedOrTaken(db: Db, userId: string, keptTenants: set<string>, keptOrgs: set<string>, refusedFirst: set<Table>,
                      refusedSecond: set<Table>, personal: seq<Target>, at: Ref)
    ensures var cause := IsSwept(Existing(db, personal), userId, keptTenants, keptOrgs, refusedFirst * refusedSecond);
            at !in Taken(db, cause) <==>
              forall ref: Ref, other: Row :: RowAt(db, ref, other) && Reaches(db, at, {ref}) ==>
                Spared(db, ref.table, other, userId, keptTenants, keptOrgs, refusedFirst, refusedSecond, personal)
  {
    var cause := IsSwept(Existing(db, personal), userId, keptTenants, keptOrgs, refusedFirst * refusedSecond);
    NotTakenMeans(db, cause, at);
    forall ref: Ref, other: Row | RowAt(db, ref, other)
      ensures !cause(ref.table, other) <==>
              Spared(db, ref.table, other, userId, keptTenants, keptOrgs, refusedFirst, refusedSecond, personal)
    {
      SparedMeans(db, ref.table, other, userId, keptTenants, keptOrgs, refusedFirst, refusedSecond, personal);
    }
  }

  /** A row is not taken exactly when none that a chain leads to has a cause to go. */
  lemma NotTakenMeans(db: Db, cause: Cause, ref: Ref)
    ensures ref !in Taken(db, cause) <==>
              forall other: Ref, row: Row :: RowAt(db, other, row) && Reaches(db, ref, {other}) ==>
                !cause(other.table, row)
  {
    DoomedIffReaches(db, Seeds(db, cause), ref);
    var spared: Cause := (t: Table, r: Row) => !cause(t, r);
    if !Reaches(db, ref, Seeds(db, cause)) {
      SparedAncestors(db, ref, cause, spared);
    }
    if AncestorsAll(db, ref, spared) {
      SafeAncestorsSpare(db, ref, cause, spared);
    }
  }

  lemma SweptMeans(row: Row, scope: Scope, userId: string, keptTenants: set<string>, keptOrgs: set<string>)
    ensures Swept(row, scope, userId, keptTenants, keptOrgs) <==>
              row.userId == Some(userId) && !SitsInKept(row, scope, keptTenants, keptOrgs)
  {
  }

  lemma SparedMeans(db: Db, table: Table, row: Row, userId: string, keptTenants: set<string>, keptOrgs: set<string>,
                    refusedFirst: set<Table>, refusedSecond: set<Table>, personal: seq<Target>)
    ensures Spared(db, table, row, userId, keptTenants, keptOrgs, refusedFirst, refusedSecond, personal) <==>
              !IsSwept(Existing(db, personal), userId, keptTenants, keptOrgs, refusedFirst * refusedSecond)(table, row)
  {
    forall scope: Scope
      ensures Swept(row, scope, userId, keptTenants, keptOrgs) <==>
                row.userId == Some(userId) && !SitsInKept(row, scope, keptTenants, keptOrgs)
    {
      SweptMeans(row, scope, userId, keptTenants, keptOrgs);
    }
  }

  /**
   * What the phases before the end delete for its own sake: of the account's rows, Works torn down outside the
   * workspaces that stay, rows of listed tables outside them unless the table refused twice, and sessions.
   */
  lemma SingledMeans(plot: Plot, table: Table, row: Row)
    ensures Singled(plot)(table, row) <==>
              && row.userId == Some(plot.userId)
              && (|| (table == Works && row.id in plot.tornDown
                      && !(row.tenantId.Some? && row.tenantId.value in plot.kept))
                  || (table !in plot.refusedTwice
                      && exists t :: t in plot.personal && t.table == table
                           && !SitsInKept(row, t.scope, plot.kept, plot.keptOrgs))
                  || table == AuthSessions)
  {
    forall scope: Scope
      ensures Swept(row, scope, plot.userId, plot.kept, plot.keptOrgs) <==>
                row.userId == Some(plot.userId) && !SitsInKept(row, scope, plot.kept, plot.keptOrgs)
    {
      SweptMeans(row, scope, plot.userId, plot.kept, plot.keptOrgs);
    }
  }

  /**
   * Personal rows go. Unless its table refuses both sweeps, a listed personal table holds no row of the account
   * afterwards but those in workspaces that stay.
   */
  lemma PersonalRowsAreGone(db: Db, user: User, world: World, lists: Lists, target: Target)
    requires Valid(db) && target in Existing(db, lists.personal)
    requires target.table !in world.sweepRefusedFirst || target.table !in world.sweepRefusedSecond
    ensures var final, kept := Final(db, user, world, lists), KeptTenants(PlanWorkspaces(db, user));
            && target.table in final.tables
            && forall row :: row in final.tables[target.table] && row.userId == Some(user.id) ==>
                 SitsInKept(row, target.scope, kept, OrgsOf(db, kept))
  {
    var plot := PlotOf(db, user, world, lists);
    ComesFrom(db, user, world, lists, target.table);
    KeptAreNotGone(db, user, world, lists);
    forall row | row in Final(db, user, world, lists).tables[target.table] && row.userId == Some(user.id)
      ensures SitsInKept(row, target.scope, plot.kept, plot.keptOrgs)
    {
      var before :| IsFrom(db, user, world, lists, target.table, before, row);
      var handed := Handed(db, user, world, lists, target.table, before);
      NotSwept(db, user, world, lists, target.table, before);
      SparedSitsInKept(plot, target, handed);
      StillSits(handed, SchemaOf(db.schema, target.table), Gone(db, user, world, lists), target.scope, plot.kept,
                plot.keptOrgs);
    }
  }

  lemma NotSwept(db: Db, user: User, world: World, lists: Lists, table: Table, row: Row)
    requires table in db.tables && row in db.tables[table] && Ref(table, row.id) !in Gone(db, user, world, lists)
    ensures !Sweeps(PlotOf(db, user, world, lists))(table, Handed(db, user, world, lists, table, row))
  {
    assert GoesBefore(db, user, world, lists)(table, row) ==> Ref(table, row.id) in Going(db, user, world, lists);
    SweepsMeans(PlotOf(db, user, world, lists), table, Handed(db, user, world, lists, table, row));
  }

  lemma SweepsMeans(plot: Plot, table: Table, row: Row)
    ensures Sweeps(plot)(table, row) ==> GoesBy(plot)(table, row)
  {
  }

  lemma SparedSitsInKept(plot: Plot, target: Target, row: Row)
    requires target in plot.personal && target.table !in plot.refusedTwice && row.userId == Some(plot.userId)
    requires !Sweeps(plot)(target.table, row)
    ensures SitsInKept(row, target.scope, plot.kept, plot.keptOrgs)
  {
    SweptMeans(row, target.scope, plot.userId, plot.kept, plot.keptOrgs);
  }

  /** Nothing of a workspace that stays is gone. */
  lemma KeptAreNotGone(db: Db, user: User, world: World, lists: Lists)
    requires Valid(db)
    ensures var kept, gone := KeptTenants(PlanWorkspaces(db, user)), Gone(db, user, world, lists);
            && (forall t :: t in kept ==> TenantRef(t) !in gone)
            && (forall o :: o in OrgsOf(db, kept) ==> OrganizationRef(o) !in gone)
  {
    var plans, gone := PlanWorkspaces(db, user), Gone(db, user, world, lists);
    forall p | p in plans && p.successorId.Some?
      ensures TenantRef(p.tenant.id) !in gone
      ensures forall o :: o in OrgIdsOf(db, p.tenant.id) ==> OrganizationRef(o) !in gone
    {
      var i :| 0 <= i < |plans| && plans[i] == p;
      KeptIsNotGone(db, user, world, lists, i);
    }
    forall o | o in OrgsOf(db, KeptTenants(plans)) ensures OrganizationRef(o) !in gone {
      var org :| org in db.organizations && org.tenantId in KeptTenants(plans) && org.id == o;
      assert o in OrgIdsOf(db, org.tenantId);
    }
  }

  lemma StillSits(row: Row, schema: TableSchema, gone: set<Ref>, scope: Scope, kept: set<string>, keptOrgs: set<string>)
    requires SitsInKept(row, scope, kept, keptOrgs)
    requires (forall t :: t in kept ==> TenantRef(t) !in gone)
             && (forall o :: o in keptOrgs ==> OrganizationRef(o) !in gone)
    ensures SitsInKept(Forget(row, schema, gone), scope, kept, keptOrgs)
  {
  }
}
