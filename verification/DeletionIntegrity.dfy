/** What is left after a deletion is a database again: nothing in it names what is gone. */
module DeletionIntegrity {
  import opened Wrappers
  import opened Database
  import opened Cascade
  import opened Inventory
  import opened AccountDeletion
  import opened DeletionPhases
  import opened KeptContent
  import opened DeletionOutcome

  // ------------------------------------------------------------ referential integrity

  ghost predicate HasTenant(db: Db, id: string) {
    exists t :: t in db.tenants && t.id == id
  }

  ghost predicate HasOrganization(db: Db, id: string) {
    exists o :: o in db.organizations && o.id == id
  }

  ghost predicate Exists(db: Db, ref: Ref) {
    match ref
    case Ref(table, id) => exists row :: RowAt(db, ref, row)
    case UserRef(id) => HasUser(db, id)
    case TenantRef(id) => HasTenant(db, id)
    case OrganizationRef(id) => HasOrganization(db, id)
  }

  /** Everything a row names by a foreign key. */
  function Keys(row: Row, schema: TableSchema): set<Ref> {
    CascadeKeys(row, schema) + NullKeys(row, schema)
  }

  /** Whatever a row of these tables names by a foreign key is there. */
  ghost predicate RowsIntact(db: Db) {
    forall table, row, ref ::
      table in db.tables && row in db.tables[table] && ref in Keys(row, SchemaOf(db.schema, table)) ==> Exists(db, ref)
  }

  /** The keys of the users, Organizations and memberships name what is there; Tenant owners are in `ValidTenants`. */
  ghost predicate FrameIntact(db: Db) {
    && (forall u :: u in db.users && u.tenantId.Some? ==> HasTenant(db, u.tenantId.value))
    && (forall o :: o in db.organizations ==> HasTenant(db, o.tenantId))
    && (forall m :: m in db.members ==>
          HasUser(db, m.userId) && HasOrganization(db, m.organizationId) && HasTenant(db, m.tenantId))
  }

  ghost predicate Intact(db: Db) {
    RowsIntact(db) && FrameIntact(db)
  }

  // ------------------------------------------------------------ beside the tables

  /** Users, Tenants, Organizations and memberships in the end. */
  lemma FinalBeside(db: Db, user: User, world: World, lists: Lists)
    requires ValidTenants(db)
    ensures var final, plans := Final(db, user, world, lists), PlanWorkspaces(db, user);
            var handed, going := AllHandedOver(db, plans, user.id, world.refused, lists.content), GoingTenants(plans);
            var orgs := OrgsOf(db, going);
            && final.users == WithoutTenant(Where(db.users, (u: User) => u.id != user.id), going)
            && final.tenants == Where(handed.tenants, (t: Tenant) => t.id !in going)
            && final.organizations == Where(db.organizations, (o: Organization) => o.tenantId !in going)
            && final.members == Where(db.members, (m: Member) =>
                 m.userId != user.id && m.organizationId !in orgs && m.tenantId !in going)
            && final.schema == db.schema
  {
    BeforeCommitFrame(db, user, world, lists);
    OnlyPlannedTenantsGo(db, user, world, lists);
  }

  lemma OwnersTail(tenants: seq<Tenant>)
    requires UniqueOwners(tenants) && tenants != []
    ensures UniqueOwners(tenants[1..])
    ensures forall t :: t in tenants[1..] ==> t.id != tenants[0].id && t.ownerUserId != tenants[0].ownerUserId
  {
    forall i, j | 0 <= i < j < |tenants[1..]|
      ensures tenants[1..][i].id != tenants[1..][j].id && tenants[1..][i].ownerUserId != tenants[1..][j].ownerUserId
    {
      assert tenants[1..][i] == tenants[i + 1] && tenants[1..][j] == tenants[j + 1];
    }
  }

  lemma OwnersCons(head: Tenant, tail: seq<Tenant>)
    requires UniqueOwners(tail) && forall t :: t in tail ==> t.id != head.id && t.ownerUserId != head.ownerUserId
    ensures UniqueOwners([head] + tail)
  {
    assert forall i :: 0 <= i < |tail| ==> tail[i] in tail;
  }

  lemma {:induction false} WhereKeepsOwners(tenants: seq<Tenant>, p: Tenant -> bool)
    requires UniqueOwners(tenants)
    ensures UniqueOwners(Where(tenants, p))
  {
    if tenants != [] {
      OwnersTail(tenants);
      WhereKeepsOwners(tenants[1..], p);
      OwnersCons(tenants[0], Where(tenants[1..], p));
    }
  }

  // ------------------------------------------------------------ the account is gone

  ghost predicate NoRowNames(db: Db, schema: map<Table, TableSchema>, gone: set<Ref>) {
    forall table, row :: table in db.tables && row in db.tables[table] ==>
      Keys(row, SchemaOf(schema, table)) * gone == {}
  }

  /**
   * The account is gone, and nothing names it: no user row, no membership and no Tenant of its own is left, and no
   * foreign key of any row, whether it cascades or sets null, names anything that is gone. Tenant owners stay unique.
   */
  lemma AccountIsGone(db: Db, user: User, world: World, lists: Lists)
    requires Valid(db)
    ensures var final := Final(db, user, world, lists);
            && !HasUser(final, user.id)
            && (forall m :: m in final.members ==> m.userId != user.id)
            && (forall t :: t in final.tenants ==> t.ownerUserId != user.id)
            && UniqueOwners(final.tenants)
    ensures UserRef(user.id) in Gone(db, user, world, lists)
    ensures NoRowNames(Final(db, user, world, lists), db.schema, Gone(db, user, world, lists))
  {
    var plans := PlanWorkspaces(db, user);
    var going := GoingTenants(plans);
    FinalBeside(db, user, world, lists);
    OwnersAfterHandOver(db, user, world.refused, lists.content);
    var handed := AllHandedOver(db, plans, user.id, world.refused, lists.content);
    WhereKeepsOwners(handed.tenants, (t: Tenant) => t.id !in going);
    UsersLeft(db, user.id, going);
    NoKeyNamesTheGone(db, user, world, lists);
  }

  /** The same user, without a Tenant that goes. */
  predicate WithoutGoing(before: User, after: User, going: set<string>) {
    && after.id == before.id
    && after.tenantId == if before.tenantId.Some? && before.tenantId.value in going then None else before.tenantId
  }

  lemma UsersLeft(db: Db, userId: string, going: set<string>)
    ensures var left := WithoutTenant(Where(db.users, (u: User) => u.id != userId), going);
            && (forall u :: u in left ==> u.id != userId)
            && (forall u :: u in db.users && u.id != userId ==> exists v :: v in left && v.id == u.id)
            && (forall v :: v in left ==> exists u :: u in db.users && WithoutGoing(u, v, going))
  {
    var others := Where(db.users, (u: User) => u.id != userId);
    var left := WithoutTenant(others, going);
    forall u | u in db.users && u.id != userId ensures exists v :: v in left && v.id == u.id {
      var k :| 0 <= k < |others| && others[k] == u;
      assert left[k] in left && left[k].id == u.id;
    }
    forall v | v in left
      ensures v.id != userId
      ensures exists u :: u in db.users && WithoutGoing(u, v, going)
    {
      var k :| 0 <= k < |left| && left[k] == v;
      assert others[k] in others && others[k] in db.users && WithoutGoing(others[k], v, going);
    }
  }

  lemma NoKeyLeft(handed: Db, plot: Plot, going: set<string>, orgs: set<string>)
    requires plot.schema == handed.schema && plot.removed == Removed(plot.userId, going, orgs)
    ensures var gone := Taken(handed, GoesBy(plot)) + plot.removed;
            NoRowNames(Without(handed, gone), handed.schema, gone)
  {
    var gone := Taken(handed, GoesBy(plot)) + plot.removed;
    forall table, row | table in handed.tables && row in Without(handed, gone).tables[table]
      ensures Keys(row, SchemaOf(handed.schema, table)) * gone == {}
    {
      TableLeft(handed, gone, table);
      NothingNamesTheGone(handed, GoesBy(plot), plot.removed, table, row);
    }
  }

  lemma NoKeyNamesTheGone(db: Db, user: User, world: World, lists: Lists)
    requires Valid(db)
    ensures NoRowNames(Final(db, user, world, lists), db.schema, Gone(db, user, world, lists))
  {
    var plans := PlanWorkspaces(db, user);
    var going := GoingTenants(plans);
    AllHandOversKeepPlaces(db, plans, user.id, world.refused, lists.content);
    GoneFromHanded(db, user, world, lists);
    FinalTables(db, user, world, lists);
    NoKeyLeft(AllHandedOver(db, plans, user.id, world.refused, lists.content), PlotOf(db, user, world, lists), going,
              OrgsOf(db, going));
  }

  lemma GoneFromHanded(db: Db, user: User, world: World, lists: Lists)
    requires ValidTenants(db)
    ensures var handed := AllHandedOver(db, PlanWorkspaces(db, user), user.id, world.refused, lists.content);
            Gone(db, user, world, lists) ==
            Taken(handed, GoesBy(PlotOf(db, user, world, lists))) + RemovedBy(db, user)
  {
    var plans := PlanWorkspaces(db, user);
    AllHandOversKeepPlaces(db, plans, user.id, world.refused, lists.content);
    GoingMeans(db, user, world, lists);
    SameDoomed(db, AllHandedOver(db, plans, user.id, world.refused, lists.content), Going(db, user, world, lists));
  }

  // ------------------------------------------------------------ nothing dangles

  /** After the hand-overs a row's creator is the one it was, or a successor. */
  lemma {:induction false} HandedCreator(db: Db, plans: seq<Plan>, userId: string, refused: set<(string, Table)>,
                                         content: seq<Target>, table: Table, row: Row)
    ensures var after := HandedBy(db, plans, userId, refused, content, table, row);
            || after.userId == row.userId
            || exists i :: 0 <= i < |plans| && plans[i].successorId.Some? && after.userId == plans[i].successorId
  {
    if plans != [] {
      var n := |plans| - 1;
      HandedCreator(db, plans[..n], userId, refused, content, table, row);
      assert forall i :: 0 <= i < n ==> plans[..n][i] == plans[i];
    }
  }

  /** What a row names after the hand-overs is a user, or what it named before. */
  lemma HandedKeys(db: Db, user: User, world: World, lists: Lists, table: Table, row: Row, ref: Ref)
    requires ValidTenants(db)
    requires forall r :: r in Keys(row, SchemaOf(db.schema, table)) ==> Exists(db, r)
    requires ref in Keys(Handed(db, user, world, lists, table, row), SchemaOf(db.schema, table))
    ensures Exists(db, ref)
  {
    var plans, after := PlanWorkspaces(db, user), Handed(db, user, world, lists, table, row);
    HandedKeepsPlace(db, plans, user.id, world.refused, lists.content, table, row);
    HandedCreator(db, plans, user.id, world.refused, lists.content, table, row);
    KeysMoved(row, after, SchemaOf(db.schema, table), ref);
    PlansAreSound(db, user);
    if ref !in Keys(row, SchemaOf(db.schema, table)) {
      var i :| 0 <= i < |plans| && plans[i].successorId.Some? && after.userId == plans[i].successorId;
      assert SoundPlan(db, user, plans[i]);
    }
  }

  lemma KeysMoved(row: Row, after: Row, schema: TableSchema, ref: Ref)
    requires SamePlace(row, after) && ref in Keys(after, schema)
    ensures ref in Keys(row, schema)
            || (after.userId != row.userId && after.userId.Some? && ref == UserRef(after.userId.value))
  {
  }

  /** What is there and is not gone is there in the end. */
  lemma StaysThere(db: Db, user: User, world: World, lists: Lists, ref: Ref)
    requires Valid(db) && Exists(db, ref) && ref !in Gone(db, user, world, lists)
    ensures Exists(Final(db, user, world, lists), ref)
  {
    var going := GoingTenants(PlanWorkspaces(db, user));
    GoneMeans(db, user, world, lists, ref);
    FinalBeside(db, user, world, lists);
    match ref
    case Ref(table, id) => RowStaysThere(db, user, world, lists, ref);
    case UserRef(id) => OthersKeepTheirAccount(db, user, world, lists, id);
    case TenantRef(id) => TenantStays(db, user, world, lists, id);
    case OrganizationRef(id) =>
      var o :| o in db.organizations && o.id == id;
      assert o in Final(db, user, world, lists).organizations;
  }

  lemma RowStaysThere(db: Db, user: User, world: World, lists: Lists, ref: Ref)
    requires Valid(db) && ref.Ref? && Exists(db, ref) && ref !in Gone(db, user, world, lists)
    ensures Exists(Final(db, user, world, lists), ref)
  {
    var row :| RowAt(db, ref, row);
    var k: nat :| k < |db.tables[ref.table]| && db.tables[ref.table][k] == row;
    GoneMeans(db, user, world, lists, ref);
    RowStaysIff(db, user, world, lists, ref.table, k);
    HandedInPlace(db, user, world, lists, ref.table, k);
    assert RowAt(Final(db, user, world, lists), ref, Afterwards(db, user, world, lists, ref.table, row));
  }

  /** The planned change of owner keeps the Tenants, and gives them to people who are there. */
  lemma PlannedTenants(db: Db, user: User, plans: seq<Plan>)
    requires ValidTenants(db) && SoundPlans(db, user, plans)
    ensures var after := TenantsOf(db, plans, |plans|);
            && |after| == |db.tenants|
            && forall k :: 0 <= k < |after| ==> after[k].id == db.tenants[k].id && HasUser(db, after[k].ownerUserId)
  {
    if |plans| > 0 {
      assert SoundPlan(db, user, plans[0]);
    }
    assert forall k :: 0 <= k < |db.tenants| ==> db.tenants[k] in db.tenants;
  }

  lemma HandedTenants(db: Db, user: User, world: World, lists: Lists)
    requires ValidTenants(db)
    ensures var after := AllHandedOver(db, PlanWorkspaces(db, user), user.id, world.refused, lists.content).tenants;
            && |after| == |db.tenants|
            && forall k :: 0 <= k < |after| ==> after[k].id == db.tenants[k].id && HasUser(db, after[k].ownerUserId)
  {
    var plans := PlanWorkspaces(db, user);
    PlansAreSound(db, user);
    TenantsAfter(db, user, plans, |plans|, world.refused, lists.content);
    assert plans[..|plans|] == plans;
    PlannedTenants(db, user, plans);
  }

  lemma TenantLeft(before: seq<Tenant>, handed: seq<Tenant>, going: set<string>, id: string)
    requires |handed| == |before| && forall k :: 0 <= k < |before| ==> handed[k].id == before[k].id
    requires id !in going && exists t :: t in before && t.id == id
    ensures exists t :: t in Where(handed, (t: Tenant) => t.id !in going) && t.id == id
  {
    var k :| 0 <= k < |before| && before[k].id == id;
    assert handed[k] in Where(handed, (t: Tenant) => t.id !in going);
  }

  lemma TenantStays(db: Db, user: User, world: World, lists: Lists, id: string)
    requires ValidTenants(db) && HasTenant(db, id) && id !in GoingTenants(PlanWorkspaces(db, user))
    ensures HasTenant(Final(db, user, world, lists), id)
  {
    FinalBeside(db, user, world, lists);
    HandedTenants(db, user, world, lists);
    TenantLeft(db.tenants, AllHandedOver(db, PlanWorkspaces(db, user), user.id, world.refused, lists.content).tenants,
               GoingTenants(PlanWorkspaces(db, user)), id);
  }

  /** A row in the end comes from one before that is not gone. */
  lemma ComesFrom(db: Db, user: User, world: World, lists: Lists, table: Table)
    requires Valid(db) && table in db.tables
    ensures table in Final(db, user, world, lists).tables
    ensures forall after :: after in Final(db, user, world, lists).tables[table] ==>
              exists row :: IsFrom(db, user, world, lists, table, row, after)
  {
    var plans, gone := PlanWorkspaces(db, user), Gone(db, user, world, lists);
    var handed := AllHandedOver(db, plans, user.id, world.refused, lists.content);
    FinalTables(db, user, world, lists);
    AllHandOversKeepPlaces(db, plans, user.id, world.refused, lists.content);
    TableLeft(handed, gone, table);
    LeftFrom(handed.tables[table], table, SchemaOf(db.schema, table), gone);
    forall after | after in Final(db, user, world, lists).tables[table]
      ensures exists row :: IsFrom(db, user, world, lists, table, row, after)
    {
      var k: nat :| LeftFromAt(handed.tables[table], table, SchemaOf(db.schema, table), gone, k, after);
      assert SameRows(db.tables[table], handed.tables[table]);
      HandedAt(db, user, world, lists, table, k);
      assert IsFrom(db, user, world, lists, table, db.tables[table][k], after);
    }
  }

  /** The row is the k-th without what is gone. */
  predicate LeftFromAt(rows: seq<Row>, table: Table, schema: TableSchema, gone: set<Ref>, k: nat, after: Row) {
    k < |rows| && Ref(table, rows[k].id) !in gone && after == Forget(rows[k], schema, gone)
  }

  lemma LeftFrom(rows: seq<Row>, table: Table, schema: TableSchema, gone: set<Ref>)
    ensures forall after :: after in Left(rows, table, schema, gone) ==>
              exists k: nat :: LeftFromAt(rows, table, schema, gone, k, after)
  {
    LeftMeans(rows, table, schema, gone);
    forall after | after in Left(rows, table, schema, gone)
      ensures exists k: nat :: LeftFromAt(rows, table, schema, gone, k, after)
    {
      var row :| row in rows && Ref(table, row.id) !in gone && after == Forget(row, schema, gone);
      var k: nat :| k < |rows| && rows[k] == row;
      assert LeftFromAt(rows, table, schema, gone, k, after);
    }
  }

  lemma HandedAt(db: Db, user: User, world: World, lists: Lists, table: Table, k: nat)
    requires ValidTenants(db) && table in db.tables && k < |db.tables[table]|
    ensures var handed := AllHandedOver(db, PlanWorkspaces(db, user), user.id, world.refused, lists.content);
            && table in handed.tables && k < |handed.tables[table]|
            && handed.tables[table][k] == Handed(db, user, world, lists, table, db.tables[table][k])
            && handed.tables[table][k].id == db.tables[table][k].id
  {
    var plans := PlanWorkspaces(db, user);
    PlansAreSound(db, user);
    SoundPlansUseOtherHands(db, user, plans);
    AllHandOversRow(db, plans, user.id, world.refused, lists.content, table, k);
    HandedKeepsPlace(db, plans, user.id, world.refused, lists.content, table, db.tables[table][k]);
  }

  ghost predicate IsFrom(db: Db, user: User, world: World, lists: Lists, table: Table, row: Row, after: Row) {
    && table in db.tables && row in db.tables[table] && after == Afterwards(db, user, world, lists, table, row)
    && Ref(table, row.id) !in Gone(db, user, world, lists)
  }

  lemma NamedBefore(db: Db, user: User, world: World, lists: Lists, table: Table, row: Row, ref: Ref)
    requires ValidTenants(db) && forall r :: r in Keys(row, SchemaOf(db.schema, table)) ==> Exists(db, r)
    requires ref in Keys(Afterwards(db, user, world, lists, table, row), SchemaOf(db.schema, table))
    ensures Exists(db, ref)
  {
    var schema := SchemaOf(db.schema, table);
    ForgetLosesNothingElse(Handed(db, user, world, lists, table, row), schema, Gone(db, user, world, lists));
    HandedKeys(db, user, world, lists, table, row, ref);
  }

  lemma RowsStayIntact(db: Db, user: User, world: World, lists: Lists)
    requires Valid(db) && RowsIntact(db)
    ensures RowsIntact(Final(db, user, world, lists))
  {
    var final, gone := Final(db, user, world, lists), Gone(db, user, world, lists);
    FinalBeside(db, user, world, lists);
    NoKeyNamesTheGone(db, user, world, lists);
    FinalTables(db, user, world, lists);
    AllHandOversKeepPlaces(db, PlanWorkspaces(db, user), user.id, world.refused, lists.content);
    forall table, after, ref | table in final.tables && after in final.tables[table]
                               && ref in Keys(after, SchemaOf(final.schema, table))
      ensures Exists(final, ref)
    {
      ComesFrom(db, user, world, lists, table);
      var row :| IsFrom(db, user, world, lists, table, row, after);
      NamedBefore(db, user, world, lists, table, row, ref);
      assert ref in gone ==> ref in Keys(after, SchemaOf(db.schema, table)) * gone;
      StaysThere(db, user, world, lists, ref);
    }
  }

  /** Users, Organizations and memberships that are left name what is left. */
  lemma FrameLeft(db: Db, final: Db, userId: string, going: set<string>)
    requires FrameIntact(db)
    requires final.users == WithoutTenant(Where(db.users, (u: User) => u.id != userId), going)
    requires final.organizations == Where(db.organizations, (o: Organization) => o.tenantId !in going)
    requires forall m :: m in final.members ==>
               m in db.members && m.userId != userId && m.organizationId !in OrgsOf(db, going) && m.tenantId !in going
    requires forall id :: HasTenant(db, id) && id !in going ==> HasTenant(final, id)
    ensures FrameIntact(final)
  {
    UsersLeft(db, userId, going);
    forall u | u in final.users && u.tenantId.Some? ensures HasTenant(final, u.tenantId.value) {
      var before :| before in db.users && WithoutGoing(before, u, going);
    }
    forall m | m in final.members
      ensures HasUser(final, m.userId) && HasOrganization(final, m.organizationId) && HasTenant(final, m.tenantId)
    {
      OrganizationLeft(db, final, going, m.organizationId);
      assert HasUser(db, m.userId) && HasTenant(db, m.tenantId);
    }
  }

  lemma OrganizationLeft(db: Db, final: Db, going: set<string>, id: string)
    requires final.organizations == Where(db.organizations, (o: Organization) => o.tenantId !in going)
    requires HasOrganization(db, id) && id !in OrgsOf(db, going)
    ensures HasOrganization(final, id)
  {
    var o :| o in db.organizations && o.id == id;
    assert o.tenantId !in going && o in final.organizations;
  }

  lemma FrameStaysIntact(db: Db, user: User, world: World, lists: Lists)
    requires Valid(db) && FrameIntact(db)
    ensures FrameIntact(Final(db, user, world, lists))
  {
    var final, going := Final(db, user, world, lists), GoingTenants(PlanWorkspaces(db, user));
    FinalBeside(db, user, world, lists);
    forall id | HasTenant(db, id) && id !in going ensures HasTenant(final, id) {
      TenantStays(db, user, world, lists, id);
    }
    FrameLeft(db, final, user.id, going);
  }

  lemma TablesStayValid(db: Db, user: User, world: World, lists: Lists)
    requires Valid(db)
    ensures Valid(Final(db, user, world, lists))
  {
    var final, plans := Final(db, user, world, lists), PlanWorkspaces(db, user);
    FinalBeside(db, user, world, lists);
    AccountIsGone(db, user, world, lists);
    forall t | t in final.tenants ensures HasUser(final, t.ownerUserId) {
      OwnerIsThere(db, user, world, lists, t);
      OthersKeepTheirAccount(db, user, world, lists, t.ownerUserId);
    }
    FinalIds(db, user, world, lists);
  }

  lemma OwnerIsThere(db: Db, user: User, world: World, lists: Lists, tenant: Tenant)
    requires Valid(db) && tenant in Final(db, user, world, lists).tenants
    ensures HasUser(db, tenant.ownerUserId)
  {
    FinalBeside(db, user, world, lists);
    HandedTenants(db, user, world, lists);
    var handed := AllHandedOver(db, PlanWorkspaces(db, user), user.id, world.refused, lists.content).tenants;
    assert tenant in handed;
    var k :| 0 <= k < |handed| && handed[k] == tenant;
  }

  /**
   * Nothing dangles. A database with its primary keys unique and every foreign key naming something that is there is
   * such a database again after a deletion, whatever was refused on the way.
   */
  lemma NothingDangles(db: Db, user: User, world: World, lists: Lists)
    requires Valid(db) && Intact(db)
    ensures Valid(Final(db, user, world, lists)) && Intact(Final(db, user, world, lists))
  {
    TablesStayValid(db, user, world, lists);
    RowsStayIntact(db, user, world, lists);
    FrameStaysIntact(db, user, world, lists);
  }
}
