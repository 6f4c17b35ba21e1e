/** What account deletion promises about content: what stays, and whose it is afterwards. */
module KeptContent {
  import opened Wrappers
  import opened Database
  import opened Inventory
  import opened AccountDeletion
  import opened Succession

  // ------------------------------------------------------------ the plan

  /** A successor is another account, and one who takes a Tenant over owns none yet. */
  ghost predicate SoundPlan(db: Db, user: User, plan: Plan) {
    && plan.tenant in db.tenants && (plan.owned <==> plan.tenant.ownerUserId == user.id)
    && (!plan.owned ==> plan.successorId == Some(plan.tenant.ownerUserId))
    && (plan.successorId.Some? ==> plan.successorId.value != user.id && HasUser(db, plan.successorId.value))
    && (plan.owned && plan.successorId.Some? ==>
          forall t :: t in db.tenants ==> t.ownerUserId != plan.successorId.value)
  }

  /** Each plan is sound, no workspace is planned twice, and a Tenant of the account's own is planned. */
  ghost predicate SoundPlans(db: Db, user: User, plans: seq<Plan>) {
    && (forall i :: 0 <= i < |plans| ==> SoundPlan(db, user, plans[i]))
    && (forall i, j :: 0 <= i < j < |plans| ==> plans[i].tenant.id != plans[j].tenant.id)
    && (forall t :: t in db.tenants && t.ownerUserId == user.id ==>
          |plans| > 0 && plans[0].tenant == t && plans[0].owned)
  }

  lemma OwnedPlanIsSound(db: Db, user: User, tenant: Tenant)
    requires ValidTenants(db) && tenant in db.tenants && tenant.ownerUserId == user.id
    ensures SoundPlan(db, user, PlanFor(db, tenant, user, true))
  {
    SuccessorIsEligible(db, tenant, user);
  }

  lemma JoinedPlanIsSound(db: Db, user: User, tenant: Tenant)
    requires ValidTenants(db) && tenant in db.tenants && tenant.ownerUserId != user.id
    ensures SoundPlan(db, user, PlanFor(db, tenant, user, false))
  {
  }

  lemma JoinedIsNotOwned(db: Db, user: User)
    requires UniqueOwners(db.tenants)
    ensures JoinedTenant(db, user).Some? ==> JoinedTenant(db, user).value.ownerUserId != user.id
    ensures forall t :: t in db.tenants && t.ownerUserId == user.id ==> OwnedTenant(db, user) == Some(t)
  {
    var owned, joined := OwnedTenant(db, user), JoinedTenant(db, user);
    if owned.Some? {
      var i :| 0 <= i < |db.tenants| && db.tenants[i] == owned.value;
      forall t | t in db.tenants && t.ownerUserId == user.id ensures t == owned.value {
        var j :| 0 <= j < |db.tenants| && db.tenants[j] == t;
      }
    }
  }

  lemma TwoPlansAreSound(db: Db, user: User, own: seq<Plan>, other: seq<Plan>)
    requires |own| <= 1 && |other| <= 1
    requires own != [] ==> SoundPlan(db, user, own[0]) && own[0].owned
    requires other != [] ==> SoundPlan(db, user, other[0])
    requires own != [] && other != [] ==> own[0].tenant.id != other[0].tenant.id
    requires forall t :: t in db.tenants && t.ownerUserId == user.id ==> own != [] && own[0].tenant == t
    ensures SoundPlans(db, user, own + other)
  {
    var plans := own + other;
    assert forall i :: 0 <= i < |plans| ==> plans[i] == if i < |own| then own[0] else other[0];
  }

  lemma PlansAreSound(db: Db, user: User)
    requires ValidTenants(db)
    ensures SoundPlans(db, user, PlanWorkspaces(db, user))
  {
    var owned, joined := OwnedTenant(db, user), JoinedTenant(db, user);
    JoinedIsNotOwned(db, user);
    var own := if owned.Some? then [PlanFor(db, owned.value, user, true)] else [];
    var other := if joined.Some? then [PlanFor(db, joined.value, user, false)] else [];
    if owned.Some? {
      OwnedPlanIsSound(db, user, owned.value);
    }
    if joined.Some? {
      JoinedPlanIsSound(db, user, joined.value);
    }
    TwoPlansAreSound(db, user, own, other);
  }

  /** The workspaces planned are exactly those the account owns or is a member of. */
  lemma EveryWorkspaceIsPlanned(db: Db, user: User, tenant: Tenant)
    requires ValidTenants(db) && tenant in db.tenants
    ensures (exists p :: p in PlanWorkspaces(db, user) && p.tenant == tenant) <==>
              tenant.ownerUserId == user.id || user.tenantId == Some(tenant.id)
  {
    var owned, joined := OwnedTenant(db, user), JoinedTenant(db, user);
    var own := if owned.Some? then [PlanFor(db, owned.value, user, true)] else [];
    var other := if joined.Some? then [PlanFor(db, joined.value, user, false)] else [];
    assert PlanWorkspaces(db, user) == own + other;
    PlannedTenant(own, other, tenant);
    JoinedIsNotOwned(db, user);
    if user.tenantId == Some(tenant.id) && tenant.ownerUserId != user.id {
      SameIdSameTenant(db, owned, tenant);
      SameIdSameTenant(db, joined, tenant);
    }
  }

  lemma PlannedTenant(own: seq<Plan>, other: seq<Plan>, tenant: Tenant)
    requires |own| <= 1 && |other| <= 1
    ensures (exists p :: p in own + other && p.tenant == tenant) <==>
              (own != [] && own[0].tenant == tenant) || (other != [] && other[0].tenant == tenant)
  {
    if own != [] {
      assert own[0] in own + other;
    }
    if other != [] {
      assert other[0] in own + other;
    }
  }

  lemma SameIdSameTenant(db: Db, found: Option<Tenant>, tenant: Tenant)
    requires UniqueOwners(db.tenants) && tenant in db.tenants && (found.Some? ==> found.value in db.tenants)
    ensures found.Some? && found.value.id == tenant.id ==> found.value == tenant
  {
    if found.Some? {
      var i :| 0 <= i < |db.tenants| && db.tenants[i] == found.value;
      var j :| 0 <= j < |db.tenants| && db.tenants[j] == tenant;
    }
  }

  // ------------------------------------------------------------ hand-over, row by row

  /** A later version of a row: only the creator may differ. */
  predicate SamePlace(before: Row, after: Row) {
    after == before.(userId := after.userId)
  }

  ghost predicate SameRows(before: seq<Row>, after: seq<Row>) {
    |after| == |before| && forall k :: 0 <= k < |before| ==> SamePlace(before[k], after[k])
  }

  /** Everything but the rows' creators and the Tenants' owners is as it was. */
  ghost predicate SamePlaces(before: Db, after: Db) {
    && after.users == before.users && after.organizations == before.organizations && after.members == before.members
    && after.schema == before.schema && after.tables.Keys == before.tables.Keys
    && forall table :: table in before.tables ==> SameRows(before.tables[table], after.tables[table])
  }

  lemma SamePlacesTrans(a: Db, b: Db, c: Db)
    requires SamePlaces(a, b) && SamePlaces(b, c)
    ensures SamePlaces(a, c)
  {
    forall table | table in a.tables ensures SameRows(a.tables[table], c.tables[table]) {
      assert SameRows(a.tables[table], b.tables[table]) && SameRows(b.tables[table], c.tables[table]);
    }
  }

  lemma {:induction false} StatementsKeepPlaces(db: Db, targets: seq<Target>, plan: Plan, orgIds: set<string>,
                                                userId: string, refused: set<Table>)
    requires plan.successorId.Some?
    ensures SamePlaces(db, Statements(db, targets, plan, orgIds, userId, refused))
    ensures Statements(db, targets, plan, orgIds, userId, refused).tenants == db.tenants
  {
    if targets != [] {
      var n := |targets| - 1;
      StatementsKeepPlaces(db, targets[..n], plan, orgIds, userId, refused);
      var now := Statements(db, targets[..n], plan, orgIds, userId, refused);
      assert SamePlaces(now, Statement(now, targets[n], plan, orgIds, userId, refused));
      SamePlacesTrans(db, now, Statement(now, targets[n], plan, orgIds, userId, refused));
    }
  }

  lemma HandOverKeepsPlaces(db: Db, plan: Plan, userId: string, refused: set<Table>, content: seq<Target>)
    requires plan.successorId.Some?
    ensures SamePlaces(db, HandedOver(db, plan, userId, refused, content))
    ensures HandedOver(db, plan, userId, refused, content).tenants ==
            if plan.owned then NewOwner(db.tenants, plan.tenant.id, plan.successorId.value) else db.tenants
  {
    var moved := if plan.owned then Reassign(db, plan.tenant.id, plan.successorId.value) else db;
    StatementsKeepPlaces(moved, Existing(moved, content), plan, OrgIdsOf(moved, plan.tenant.id), userId, refused);
    assert SamePlaces(db, moved);
    SamePlacesTrans(db, moved, HandedOver(db, plan, userId, refused, content));
  }

  lemma {:induction false} AllHandOversKeepPlaces(db: Db, plans: seq<Plan>, userId: string,
                                                  refused: set<(string, Table)>, content: seq<Target>)
    ensures SamePlaces(db, AllHandedOver(db, plans, userId, refused, content))
  {
    if plans != [] {
      var n := |plans| - 1;
      AllHandOversKeepPlaces(db, plans[..n], userId, refused, content);
      if plans[n].successorId.Some? {
        var now := AllHandedOver(db, plans[..n], userId, refused, content);
        HandOverKeepsPlaces(now, plans[n], userId, RefusedIn(refused, plans[n].tenant.id), content);
        SamePlacesTrans(db, now, AllHandedOver(db, plans, userId, refused, content));
      }
    }
  }

  /** Some statement of the list reaches the row. */
  ghost predicate ReachedBy(row: Row, table: Table, targets: seq<Target>, tenantId: string, orgIds: set<string>) {
    exists t :: t in targets && t.table == table && InScope(row, t.scope, tenantId, orgIds)
  }

  /**
   * A row belongs to the successor after the statements exactly when it was the account's and one of them reaches it.
   */
  lemma {:induction false} StatementsRow(db: Db, targets: seq<Target>, plan: Plan, orgIds: set<string>, userId: string,
                                         refused: set<Table>, table: Table, k: nat)
    requires plan.successorId.Some? && plan.successorId.value != userId
    requires table in db.tables && k < |db.tables[table]| && table !in refused
    ensures var after := Statements(db, targets, plan, orgIds, userId, refused); var row := db.tables[table][k];
            && table in after.tables && k < |after.tables[table]|
            && after.tables[table][k] ==
               if row.userId == Some(userId) && ReachedBy(row, table, targets, plan.tenant.id, orgIds)
               then row.(userId := plan.successorId) else row
  {
    if targets != [] {
      var n := |targets| - 1;
      StatementsRow(db, targets[..n], plan, orgIds, userId, refused, table, k);
      ReachedBySnoc(db.tables[table][k], table, targets, plan.tenant.id, orgIds);
    }
  }

  lemma ReachedBySnoc(row: Row, table: Table, targets: seq<Target>, tenantId: string, orgIds: set<string>)
    requires targets != []
    ensures var n := |targets| - 1;
            ReachedBy(row, table, targets, tenantId, orgIds) <==>
            ReachedBy(row, table, targets[..n], tenantId, orgIds)
            || (targets[n].table == table && InScope(row, targets[n].scope, tenantId, orgIds))
  {
    var n := |targets| - 1;
    assert forall t :: t in targets <==> t in targets[..n] || t == targets[n];
  }

  /** The row sits in the content a workspace keeps. */
  ghost predicate Covered(db: Db, row: Row, table: Table, tenantId: string, content: seq<Target>) {
    ReachedBy(row, table, Existing(db, content), tenantId, OrgIdsOf(db, tenantId))
  }

  /** The table has the column, and the column names the Tenant or an Organization of it. */
  ghost predicate PlacedBy(db: Db, row: Row, target: Target, tenantId: string) {
    && target.table in db.schema && target.scope in db.schema[target.table].scopes
    && ((target.scope == ByTenant && row.tenantId == Some(tenantId))
        || (target.scope == ByOrganization
            && exists o :: o in db.organizations && o.tenantId == tenantId && row.organizationId == Some(o.id)))
  }

  lemma ScopeMeans(db: Db, row: Row, scope: Scope, tenantId: string)
    ensures InScope(row, scope, tenantId, OrgIdsOf(db, tenantId)) <==>
              || (scope == ByTenant && row.tenantId == Some(tenantId))
              || (scope == ByOrganization
                  && exists o :: o in db.organizations && o.tenantId == tenantId && row.organizationId == Some(o.id))
  {
  }

  lemma PlacedMeans(db: Db, row: Row, target: Target, tenantId: string)
    ensures IsPresent(db)(target) && InScope(row, target.scope, tenantId, OrgIdsOf(db, tenantId)) <==>
              target.table in db.tables && PlacedBy(db, row, target, tenantId)
  {
    ScopeMeans(db, row, target.scope, tenantId);
  }

  /**
   * Which rows are content of a workspace: those of a listed table this database has, with the workspace column the
   * list names, that this column places in the Tenant or in one of its Organizations.
   */
  lemma CoveredMeans(db: Db, row: Row, table: Table, tenantId: string, content: seq<Target>)
    ensures Covered(db, row, table, tenantId, content) <==>
              table in db.tables && exists t :: t in content && t.table == table && PlacedBy(db, row, t, tenantId)
  {
    var targets := Existing(db, content);
    forall t: Target
      ensures t in targets && InScope(row, t.scope, tenantId, OrgIdsOf(db, tenantId)) <==>
                t in content && t.table in db.tables && PlacedBy(db, row, t, tenantId)
    {
      PlacedMeans(db, row, t, tenantId);
    }
  }

  /** What one hand-over does to one row. */
  lemma HandOverRow(db: Db, now: Db, plan: Plan, userId: string, refused: set<Table>, table: Table, k: nat,
                    content: seq<Target>)
    requires plan.successorId.Some? && plan.successorId.value != userId && SamePlaces(db, now)
    requires table in db.tables && table in now.tables && k < |now.tables[table]| && table !in refused
    ensures var row, after := now.tables[table][k], HandedOver(now, plan, userId, refused, content);
            && table in after.tables && k < |after.tables[table]|
            && after.tables[table][k] ==
               if row.userId == Some(userId) && Covered(db, row, table, plan.tenant.id, content)
               then row.(userId := plan.successorId) else row
  {
    var moved := if plan.owned then Reassign(now, plan.tenant.id, plan.successorId.value) else now;
    StatementsRow(moved, Existing(moved, content), plan, OrgIdsOf(moved, plan.tenant.id), userId, refused, table, k);
    assert OrgIdsOf(moved, plan.tenant.id) == OrgIdsOf(db, plan.tenant.id);
    SameExisting(db, moved, content);
  }

  /** Two workspaces never cover the same row. */
  lemma CoveredOnce(db: Db, row: Row, table: Table, a: string, b: string, content: seq<Target>)
    requires ValidOrganizations(db) && DistinctTables(content)
    requires Covered(db, row, table, a, content) && Covered(db, row, table, b, content)
    ensures a == b
  {
    var targets := Existing(db, content);
    WhereKeepsDistinct(content, IsPresent(db));
    var s :| s in targets && s.table == table && InScope(row, s.scope, a, OrgIdsOf(db, a));
    var t :| t in targets && t.table == table && InScope(row, t.scope, b, OrgIdsOf(db, b));
    var i :| 0 <= i < |targets| && targets[i] == s;
    var j :| 0 <= j < |targets| && targets[j] == t;
    assert i == j;
  }

  /** The statements of a table the database refuses leave it alone. */
  lemma {:induction false} RefusedStatements(db: Db, targets: seq<Target>, plan: Plan, orgIds: set<string>,
                                             userId: string,
                                             refused: set<Table>, table: Table)
    requires plan.successorId.Some? && table in refused && table in db.tables
    ensures var after := Statements(db, targets, plan, orgIds, userId, refused);
            table in after.tables && after.tables[table] == db.tables[table]
  {
    if targets != [] {
      RefusedStatements(db, targets[..|targets| - 1], plan, orgIds, userId, refused, table);
    }
  }

  /** The hand-over of this plan takes the account's rows at this place. */
  ghost predicate Takes(db: Db, plan: Plan, refused: set<(string, Table)>, content: seq<Target>, table: Table,
                        row: Row) {
    plan.successorId.Some? && (plan.tenant.id, table) !in refused && Covered(db, row, table, plan.tenant.id, content)
  }

  /** What the hand-overs make of a row. */
  ghost function HandedBy(db: Db, plans: seq<Plan>, userId: string, refused: set<(string, Table)>, content: seq<Target>,
                          table: Table, row: Row): Row
  {
    if plans == [] then row
    else
      var n := |plans| - 1;
      var before := HandedBy(db, plans[..n], userId, refused, content, table, row);
      if before.userId == Some(userId) && Takes(db, plans[n], refused, content, table, row)
      then before.(userId := plans[n].successorId) else before
  }

  lemma {:induction false} HandedKeepsPlace(db: Db, plans: seq<Plan>, userId: string, refused: set<(string, Table)>,
                                            content: seq<Target>,
                                            table: Table, row: Row)
    ensures SamePlace(row, HandedBy(db, plans, userId, refused, content, table, row))
  {
    if plans != [] {
      HandedKeepsPlace(db, plans[..|plans| - 1], userId, refused, content, table, row);
    }
  }

  lemma HandedStep(db: Db, now: Db, plan: Plan, userId: string, refused: set<(string, Table)>, content: seq<Target>,
                   table: Table, k: nat, row: Row)
    requires plan.successorId.Some? && plan.successorId.value != userId && SamePlaces(db, now)
    requires table in now.tables && k < |now.tables[table]| && SamePlace(row, now.tables[table][k])
    ensures var at := now.tables[table][k];
            var after := HandedOver(now, plan, userId, RefusedIn(refused, plan.tenant.id), content);
            && table in after.tables && k < |after.tables[table]|
            && after.tables[table][k] ==
               if at.userId == Some(userId) && Takes(db, plan, refused, content, table, row)
               then at.(userId := plan.successorId) else at
  {
    var tables := RefusedIn(refused, plan.tenant.id);
    SameCover(db, row, now.tables[table][k], table, plan.tenant.id, content);
    if table in tables {
      var moved := if plan.owned then Reassign(now, plan.tenant.id, plan.successorId.value) else now;
      RefusedStatements(moved, Existing(moved, content), plan, OrgIdsOf(moved, plan.tenant.id), userId, tables, table);
    } else {
      assert (plan.tenant.id, table) !in refused;
      HandOverRow(db, now, plan, userId, tables, table, k, content);
    }
  }

  /** No plan hands anything to the account itself. */
  ghost predicate OtherHands(plans: seq<Plan>, userId: string) {
    forall i :: 0 <= i < |plans| && plans[i].successorId.Some? ==> plans[i].successorId.value != userId
  }

  lemma SoundPlansUseOtherHands(db: Db, user: User, plans: seq<Plan>)
    requires SoundPlans(db, user, plans)
    ensures OtherHands(plans, user.id)
  {
    forall i | 0 <= i < |plans| && plans[i].successorId.Some? ensures plans[i].successorId.value != user.id {
      assert SoundPlan(db, user, plans[i]);
    }
  }

  lemma HandedNext(db: Db, now: Db, plan: Plan, userId: string, refused: set<(string, Table)>, content: seq<Target>,
                   table: Table, k: nat, row: Row)
    requires (plan.successorId.Some? ==> plan.successorId.value != userId) && SamePlaces(db, now)
    requires table in now.tables && k < |now.tables[table]| && SamePlace(row, now.tables[table][k])
    ensures var after := if plan.successorId.None? then now
                         else HandedOver(now, plan, userId, RefusedIn(refused, plan.tenant.id), content);
            && table in after.tables && k < |after.tables[table]|
            && after.tables[table][k] ==
               if now.tables[table][k].userId == Some(userId) && Takes(db, plan, refused, content, table, row)
               then now.tables[table][k].(userId := plan.successorId) else now.tables[table][k]
  {
    if plan.successorId.Some? {
      HandedStep(db, now, plan, userId, refused, content, table, k, row);
    }
  }

  /** After the hand-overs every row is what those hand-overs make of it, in its place. */
  lemma {:induction false} AllHandOversRow(db: Db, plans: seq<Plan>, userId: string, refused: set<(string, Table)>,
                                           content: seq<Target>, table: Table, k: nat)
    requires OtherHands(plans, userId) && table in db.tables && k < |db.tables[table]|
    ensures var after := AllHandedOver(db, plans, userId, refused, content);
            && table in after.tables && k < |after.tables[table]|
            && after.tables[table][k] == HandedBy(db, plans, userId, refused, content, table, db.tables[table][k])
  {
    if plans != [] {
      var n, row := |plans| - 1, db.tables[table][k];
      AllHandOversRow(db, plans[..n], userId, refused, content, table, k);
      AllHandOversKeepPlaces(db, plans[..n], userId, refused, content);
      HandedKeepsPlace(db, plans[..n], userId, refused, content, table, row);
      HandedNext(db, AllHandedOver(db, plans[..n], userId, refused, content), plans[n], userId, refused, content, table,
                 k, row);
    }
  }

  /** The first n hand-overs give a row of the account to the one plan that takes it, once its turn has come. */
  lemma {:induction false} HandedToSuccessor(db: Db, user: User, plans: seq<Plan>, n: nat,
                                             refused: set<(string, Table)>,
                                             content: seq<Target>, table: Table, row: Row, i: nat)
    requires ValidOrganizations(db) && DistinctTables(content) && SoundPlans(db, user, plans)
    requires n <= |plans| && i < |plans| && row.userId == Some(user.id)
             && Takes(db, plans[i], refused, content, table, row)
    ensures HandedBy(db, plans[..n], user.id, refused, content, table, row) ==
            if i < n then row.(userId := plans[i].successorId) else row
  {
    if n > 0 {
      HandedToSuccessor(db, user, plans, n - 1, refused, content, table, row, i);
      assert plans[..n][..n - 1] == plans[..n - 1];
      assert SoundPlan(db, user, plans[i]);
      if i != n - 1 && Takes(db, plans[n - 1], refused, content, table, row) {
        CoveredOnce(db, row, table, plans[n - 1].tenant.id, plans[i].tenant.id, content);
      }
    } else {
      assert plans[..0] == [];
    }
  }

  /** Nothing takes other people's rows, nor those no plan reaches. */
  lemma {:induction false} HandedToNobody(db: Db, plans: seq<Plan>, userId: string, refused: set<(string, Table)>,
                                          content: seq<Target>,
                                          table: Table, row: Row)
    requires || row.userId != Some(userId)
             || forall i :: 0 <= i < |plans| ==> !Takes(db, plans[i], refused, content, table, row)
    ensures HandedBy(db, plans, userId, refused, content, table, row) == row
  {
    if plans != [] {
      HandedToNobody(db, plans[..|plans| - 1], userId, refused, content, table, row);
    }
  }

  lemma SameCover(db: Db, a: Row, b: Row, table: Table, tenantId: string, content: seq<Target>)
    requires SamePlace(a, b)
    ensures Covered(db, a, table, tenantId, content) == Covered(db, b, table, tenantId, content)
  {
    assert forall scope, orgIds :: InScope(a, scope, tenantId, orgIds) == InScope(b, scope, tenantId, orgIds);
  }
}
