/** Deletions worked out with the service's own lists: what stays, and what a cascading key takes along. */
module KeptExample {
  import opened Wrappers
  import opened Database
  import opened Cascade
  import opened Inventory
  import opened AccountDeletion
  import opened KeptContent
  import opened DeletionOutcome

  const LEAVER := User("leaver", "l", Some("t"), false, 1)
  const OWNER := User("owner", "o", Some("t"), false, 0)
  const HOME := Tenant("t", "owner")

  function Service(): Lists {
    Lists(CONTENT, PERSONAL)
  }

  /** A member of a workspace somebody else owns, and these rows. */
  function Before(tables: map<Table, seq<Row>>, schema: map<Table, TableSchema>): Db {
    Db([LEAVER, OWNER], [HOME], [], [], tables, schema)
  }

  lemma BeforeIsValid(tables: map<Table, seq<Row>>, schema: map<Table, TableSchema>)
    requires forall table :: table in tables ==> UniqueIds(tables[table])
    ensures Valid(Before(tables, schema))
  {
    assert OWNER in Before(tables, schema).users && OWNER.id == "owner";
  }

  lemma ThePlan(tables: map<Table, seq<Row>>, schema: map<Table, TableSchema>)
    ensures var plans := PlanWorkspaces(Before(tables, schema), LEAVER);
            |plans| == 1 && plans[0].successorId == Some("owner") && plans[0].tenant == HOME
    ensures KeptTenants(PlanWorkspaces(Before(tables, schema), LEAVER)) == {"t"}
    ensures GoingTenants(PlanWorkspaces(Before(tables, schema), LEAVER)) == {}
  {
    var db := Before(tables, schema);
    assert OwnedTenant(db, LEAVER).None?;
    var joined := JoinedTenant(db, LEAVER);
    assert HOME in db.tenants && HOME.id == "t";
    assert joined == Some(HOME);
    assert PlanWorkspaces(db, LEAVER)[0] in PlanWorkspaces(db, LEAVER);
  }

  lemma NotListed(db: Db, user: User, world: World, lists: Lists, table: Table, row: Row)
    requires forall t :: t in lists.content ==> t.table != table
    ensures !TakenOver(db, user, world, lists, table, row)
  {
  }

  /** What hangs on a row of the account that goes, goes. */
  lemma GoesWith(db: Db, user: User, world: World, lists: Lists, table: Table, k: nat, parent: Ref, row: Row)
    requires Valid(db) && DistinctTables(lists.content) && table in db.tables && k < |db.tables[table]|
    requires parent in db.tables[table][k].parents && RowAt(db, parent, row) && row.userId == Some(user.id)
    requires !TakenOver(db, user, world, lists, parent.table, row) && SchemaOf(db.schema, parent.table).creator.Cascade?
    ensures NoneLeft(Final(db, user, world, lists), table, db.tables[table][k].id)
  {
    var child := db.tables[table][k];
    UntakenGoes(db, user, world, lists, parent.table, row);
    assert RowAt(db, Ref(table, child.id), child) && parent == Ref(parent.table, row.id);
    ReachesStep(db, Ref(table, child.id), parent, Going(db, user, world, lists));
    RowStaysIff(db, user, world, lists, table, k);
  }

  /** No row of the table has this key. */
  ghost predicate NoneLeft(db: Db, table: Table, id: string) {
    table in db.tables && forall row :: row in db.tables[table] ==> row.id != id
  }

  /** A row that goes takes nothing with it that is not there: its key is free in the end. */
  lemma NamerGoes(db: Db, user: User, world: World, lists: Lists, table: Table, k: nat)
    requires Valid(db) && DistinctTables(lists.content) && table in db.tables && k < |db.tables[table]|
    requires UserRef(user.id) in db.tables[table][k].parents
    ensures NoneLeft(Final(db, user, world, lists), table, db.tables[table][k].id)
  {
    NamingTheAccountGoes(db, user, world, lists, table, db.tables[table][k]);
    RowStaysIff(db, user, world, lists, table, k);
  }

  // ------------------------------------------------------------ an agent stays

  const AGENT := Row("agent", Some("leaver"), Some("t"), None, {}, {})

  /** The usual keys: a row goes with its creator and forgets its workspace. */
  const USUAL := TableSchema({ByTenant}, Cascade, SetNull, SetNull)

  function WithAgent(): Db {
    Before(map[Agents := [AGENT]], map[Agents := USUAL])
  }

  lemma TheAgentIsTaken(plan: Plan)
    requires plan.successorId.Some? && plan.tenant.id == "t"
    ensures Takes(WithAgent(), plan, {}, CONTENT, Agents, AGENT)
  {
    var target := WORK_TABLES[5];
    assert target == Target(Agents, ByTenant) && target in WORK_TABLES && target in CONTENT
           && IsPresent(WithAgent())(target);
    assert target in Existing(WithAgent(), CONTENT);
  }

  /** Nothing of the leaver's home is gone. */
  lemma HomeIsNotGone(tables: map<Table, seq<Row>>, schema: map<Table, TableSchema>, world: World, lists: Lists)
    ensures RemovedBy(Before(tables, schema), LEAVER) == {UserRef("leaver")}
    ensures TenantRef("t") !in Gone(Before(tables, schema), LEAVER, world, lists)
  {
    ThePlan(tables, schema);
    GoneMeans(Before(tables, schema), LEAVER, world, lists, TenantRef("t"));
  }

  /** A row that is taken over, hangs on nothing and names nothing that is gone is the successor's afterwards. */
  lemma LoneContentStays(db: Db, user: User, world: World, lists: Lists, i: nat, table: Table, k: nat)
    requires Valid(db) && DistinctTables(lists.content) && i < |PlanWorkspaces(db, user)|
    requires table in db.tables && k < |db.tables[table]| && db.tables[table][k].userId == Some(user.id)
    requires Takes(db, PlanWorkspaces(db, user)[i], world.refused, lists.content, table, db.tables[table][k])
    requires db.tables[table][k].parents == {}
    requires OtherKeys(db.tables[table][k], SchemaOf(db.schema, table)) * RemovedBy(db, user) == {}
    requires NullKeys(db.tables[table][k].(userId := PlanWorkspaces(db, user)[i].successorId),
                      SchemaOf(db.schema, table))
             * Gone(db, user, world, lists) == {}
    ensures var successorId, final := PlanWorkspaces(db, user)[i].successorId, Final(db, user, world, lists);
            && HasUser(final, successorId.value) && table in final.tables
            && db.tables[table][k].(userId := successorId) in final.tables[table]
  {
    assert TakenOver(db, user, world, lists, table, db.tables[table][k]);
    LoneRowStays(db, user, world, lists, table, k);
    ContentStays(db, user, world, lists, i, table, k);
    ForgetMeans(db.tables[table][k].(userId := PlanWorkspaces(db, user)[i].successorId), SchemaOf(db.schema, table),
                Gone(db, user, world, lists));
  }

  lemma AgentFacts(world: World, lists: Lists)
    requires DistinctTables(lists.content)
    ensures var db, gone := WithAgent(), Gone(WithAgent(), LEAVER, world, lists);
            && Valid(db) && OtherKeys(AGENT, USUAL) * RemovedBy(db, LEAVER) == {}
            && NullKeys(AGENT.(userId := Some("owner")), USUAL) * gone == {}
  {
    BeforeIsValid(WithAgent().tables, WithAgent().schema);
    HomeIsNotGone(WithAgent().tables, WithAgent().schema, world, lists);
    assert OtherKeys(AGENT, USUAL) == {} && NullKeys(AGENT.(userId := Some("owner")), USUAL) == {TenantRef("t")};
  }

  /** The leaver's agent is the owner's afterwards. */
  lemma TheAgentStays(world: World)
    requires world.refused == {}
    ensures var final := Final(WithAgent(), LEAVER, world, Service());
            HasUser(final, "owner") && Agents in final.tables && AGENT.(userId := Some("owner")) in final.tables[Agents]
  {
    ThePlan(WithAgent().tables, WithAgent().schema);
    TheAgentIsTaken(PlanWorkspaces(WithAgent(), LEAVER)[0]);
    ContentTablesAreDistinct();
    AgentOfThePlan(world, Service());
  }

  lemma AgentOfThePlan(world: World, lists: Lists)
    requires DistinctTables(lists.content) && |PlanWorkspaces(WithAgent(), LEAVER)| == 1
    requires PlanWorkspaces(WithAgent(), LEAVER)[0].successorId == Some("owner")
    requires Takes(WithAgent(), PlanWorkspaces(WithAgent(), LEAVER)[0], world.refused, lists.content, Agents, AGENT)
    ensures var final := Final(WithAgent(), LEAVER, world, lists);
            HasUser(final, "owner") && Agents in final.tables && AGENT.(userId := Some("owner")) in final.tables[Agents]
  {
    AgentFacts(world, lists);
    LoneContentStays(WithAgent(), LEAVER, world, lists, 0, Agents, 0);
  }

  // ------------------------------------------------------------ a model account goes with the person it belongs to

  const MODEL_ACCOUNT := Row("account", Some("leaver"), Some("t"), None, {UserRef("leaver")}, {})

  function WithModelAccount(): Db {
    Before(map[ModelAccounts := [MODEL_ACCOUNT]],
           map[ModelAccounts := TableSchema({ByTenant}, SetNull, NoKey, Cascade)])
  }

  lemma TheModelAccountIsTaken(plan: Plan)
    requires plan.successorId.Some? && plan.tenant.id == "t"
    ensures Takes(WithModelAccount(), plan, {}, CONTENT, ModelAccounts, MODEL_ACCOUNT)
  {
    var target := KEYLESS_TABLES[5];
    assert target == Target(ModelAccounts, ByTenant) && target in KEYLESS_TABLES && target in CONTENT
           && IsPresent(WithModelAccount())(target);
    assert target in Existing(WithModelAccount(), CONTENT);
  }

  /**
   * A content row that goes by a second key to the account. The leaver's personal model account is handed over, every
   * statement accepted, and goes with the leaver all the same, because `ownerUserId` cascades.
   */
  lemma TheModelAccountGoes(world: World)
    requires world.refused == {}
    ensures TakenOver(WithModelAccount(), LEAVER, world, Service(), ModelAccounts, MODEL_ACCOUNT)
    ensures NoneLeft(Final(WithModelAccount(), LEAVER, world, Service()), ModelAccounts, "account")
  {
    var db := WithModelAccount();
    BeforeIsValid(db.tables, db.schema);
    ThePlan(db.tables, db.schema);
    ContentTablesAreDistinct();
    TheModelAccountIsTaken(PlanWorkspaces(db, LEAVER)[0]);
    assert Takes(db, PlanWorkspaces(db, LEAVER)[0], world.refused, Service().content, ModelAccounts, MODEL_ACCOUNT);
    NamerGoes(db, LEAVER, world, Service(), ModelAccounts, 0);
  }

  // ------------------------------------------------------------ a binding goes with its connection

  const CONNECTIONS := Other("mcp_server_connections")
  const CONNECTION := Row("connection", Some("leaver"), Some("t"), None, {}, {})
  const BINDING := Row("binding", Some("leaver"), Some("t"), None, {Ref(CONNECTIONS, "connection")}, {})

  /** Columns without keys but the creator's. */
  const CREATOR_ONLY := TableSchema({ByTenant}, Cascade, NoKey, NoKey)

  function WithBinding(): Db {
    Before(map[AgentMcpServerBindings := [BINDING], CONNECTIONS := [CONNECTION]],
           map[AgentMcpServerBindings := CREATOR_ONLY, CONNECTIONS := CREATOR_ONLY])
  }

  lemma TheBindingIsTaken(plan: Plan)
    requires plan.successorId.Some? && plan.tenant.id == "t"
    ensures Takes(WithBinding(), plan, {}, CONTENT, AgentMcpServerBindings, BINDING)
  {
    var target := WORK_TABLES[6];
    assert target == Target(AgentMcpServerBindings, ByTenant) && target in WORK_TABLES
           && target in CONTENT && IsPresent(WithBinding())(target);
    assert target in Existing(WithBinding(), CONTENT);
  }

  /**
   * A content row that does not stay. The leaver's MCP connection is not handed over and goes with the account; the
   * binding to it is handed over, every statement accepted, and goes with the connection.
   */
  lemma TheBindingGoesWithItsConnection(world: World)
    requires world.refused == {}
    ensures TakenOver(WithBinding(), LEAVER, world, Service(), AgentMcpServerBindings, BINDING)
    ensures NoneLeft(Final(WithBinding(), LEAVER, world, Service()), AgentMcpServerBindings, "binding")
  {
    var db, parent := WithBinding(), Ref(CONNECTIONS, "connection");
    ThePlan(db.tables, db.schema);
    ContentTablesAreDistinct();
    TheBindingIsTaken(PlanWorkspaces(db, LEAVER)[0]);
    assert Takes(db, PlanWorkspaces(db, LEAVER)[0], world.refused, Service().content, AgentMcpServerBindings, BINDING);
    BindingFacts(world, Service());
    GoesWith(db, LEAVER, world, Service(), AgentMcpServerBindings, 0, parent, CONNECTION);
  }

  lemma BindingFacts(world: World, lists: Lists)
    requires forall t :: t in lists.content ==> !t.table.Other?
    ensures var db, parent := WithBinding(), Ref(CONNECTIONS, "connection");
            && Valid(db) && AgentMcpServerBindings in db.tables && db.tables[AgentMcpServerBindings] == [BINDING]
            && RowAt(db, parent, CONNECTION) && SchemaOf(db.schema, CONNECTIONS).creator.Cascade?
            && !TakenOver(db, LEAVER, world, lists, CONNECTIONS, CONNECTION)
  {
    BeforeIsValid(WithBinding().tables, WithBinding().schema);
    NotListed(WithBinding(), LEAVER, world, lists, CONNECTIONS, CONNECTION);
  }

  // ------------------------------------------------------------ a seat goes with the Work, a view with who made it

  const SEATS := Other("work_members")
  const WORK := Row("work", Some("leaver"), None, None, {}, {})
  const SEAT := Row("seat", Some("owner"), None, None, {Ref(Works, "work")}, {})

  function WithSeat(): Db {
    Before(map[Works := [WORK], SEATS := [SEAT]], map[Works := USUAL, SEATS := CREATOR_ONLY])
  }

  lemma TheWorkIsNotTaken(world: World, lists: Lists)
    requires WorksByTenant(lists.content)
    ensures !TakenOver(WithSeat(), LEAVER, world, lists, Works, WORK)
  {
  }

  lemma SeatFacts(world: World, lists: Lists)
    requires WorksByTenant(lists.content)
    ensures var db := WithSeat();
            && Valid(db) && SEATS in db.tables && db.tables[SEATS] == [SEAT]
            && RowAt(db, Ref(Works, "work"), WORK) && SchemaOf(db.schema, Works).creator.Cascade?
            && !TakenOver(db, LEAVER, world, lists, Works, WORK)
  {
    BeforeIsValid(WithSeat().tables, WithSeat().schema);
    TheWorkIsNotTaken(world, lists);
  }

  /** Somebody else's row that does not stay: a collaborator's seat on a personal Work goes with the Work. */
  lemma TheSeatGoesWithTheWork(world: World)
    ensures NoneLeft(Final(WithSeat(), LEAVER, world, Service()), SEATS, "seat")
  {
    ContentTablesAreDistinct();
    SeatFacts(world, Service());
    GoesWith(WithSeat(), LEAVER, world, Service(), SEATS, 0, Ref(Works, "work"), WORK);
  }

  const VIEWS := Other("shared_views")
  const VIEW := Row("view", Some("owner"), None, None, {UserRef("leaver")}, {})

  function WithView(): Db {
    Before(map[VIEWS := [VIEW]], map[VIEWS := TableSchema({}, Cascade, NoKey, Cascade)])
  }

  /** Another: a view the owner has and the leaver made goes with the leaver, because both of its user keys cascade. */
  lemma TheViewGoesWithItsMaker(world: World)
    ensures NoneLeft(Final(WithView(), LEAVER, world, Service()), VIEWS, "view")
  {
    ContentTablesAreDistinct();
    ViewGoes(world, Service());
  }

  lemma ViewGoes(world: World, lists: Lists)
    requires DistinctTables(lists.content)
    ensures NoneLeft(Final(WithView(), LEAVER, world, lists), VIEWS, "view")
  {
    BeforeIsValid(WithView().tables, WithView().schema);
    NamerGoes(WithView(), LEAVER, world, lists, VIEWS, 0);
  }

  // ------------------------------------------------------------ a Work is announced as deleted and stays

  const SOLE := User("leaver", "l", Some("t"), false, 1)
  const FORMER := User("former", "f", None, false, 0)
  const OTHERS_WORK := Row("work", Some("former"), Some("t"), None, {}, {})

  /** A workspace of one, and in it the Work of someone who is no longer a member. */
  function WithOthersWork(): Db {
    Db([SOLE, FORMER], [Tenant("t", "leaver")], [], [], map[Works := [OTHERS_WORK]], map[Works := USUAL])
  }

  lemma ThePlanOfOne()
    ensures var plan := PlanFor(WithOthersWork(), Tenant("t", "leaver"), SOLE, true);
            && PlanWorkspaces(WithOthersWork(), SOLE) == [plan]
            && plan.tenant.id == "t" && plan.successorId.None? && plan.owned
  {
    var db, tenant := WithOthersWork(), Tenant("t", "leaver");
    assert tenant in db.tenants && OwnedTenant(db, SOLE) == Some(tenant) && JoinedTenant(db, SOLE).None?;
    assert OthersOf(db, tenant, SOLE) == [];
  }

  lemma OnePlanGoes(plan: Plan)
    requires plan.successorId.None? && plan.owned
    ensures GoingTenants([plan]) == {plan.tenant.id} == UnplacedTenants([plan]) && KeptTenants([plan]) == {}
  {
    assert plan in [plan];
  }

  lemma TheWorkspaceGoes()
    ensures var plans := PlanWorkspaces(WithOthersWork(), SOLE);
            GoingTenants(plans) == {"t"} && KeptTenants(plans) == {} && UnplacedTenants(plans) == {"t"}
  {
    ThePlanOfOne();
    OnePlanGoes(PlanFor(WithOthersWork(), Tenant("t", "leaver"), SOLE, true));
  }

  lemma OthersWorkIsValid()
    ensures Valid(WithOthersWork())
  {
    assert SOLE in WithOthersWork().users && SOLE.id == "leaver";
  }

  /** Somebody else's row without a key that cascades, but the creator's, is safe. */
  lemma UnkeyedIsSafe(db: Db, user: User, world: World, lists: Lists, table: Table, row: Row)
    requires row.userId != Some(user.id) && OtherKeys(row, SchemaOf(db.schema, table)) == {}
    ensures Safe(db, user, world, lists, table, row)
  {
  }

  lemma OneTenantRemoved(db: Db, user: User, tenantId: string)
    requires GoingTenants(PlanWorkspaces(db, user)) == {tenantId} && db.organizations == []
    ensures RemovedBy(db, user) == {UserRef(user.id), TenantRef(tenantId)}
  {
    assert OrgsOf(db, {tenantId}) == {};
    assert (set t | t in {tenantId} :: TenantRef(t)) == {TenantRef(tenantId)};
  }

  lemma OthersWorkIsSafe(world: World, lists: Lists)
    ensures Safe(WithOthersWork(), SOLE, world, lists, Works, OTHERS_WORK)
  {
    assert OtherKeys(OTHERS_WORK, USUAL) == {};
    UnkeyedIsSafe(WithOthersWork(), SOLE, world, lists, Works, OTHERS_WORK);
  }

  lemma TheTenantIsGone(world: World, lists: Lists)
    ensures TenantRef("t") in Gone(WithOthersWork(), SOLE, world, lists)
  {
    TheWorkspaceGoes();
    OneTenantRemoved(WithOthersWork(), SOLE, "t");
  }

  lemma OthersWorkForgets(gone: set<Ref>)
    requires TenantRef("t") in gone
    ensures Forget(OTHERS_WORK, USUAL, gone) == OTHERS_WORK.(tenantId := None)
  {
    assert {} - gone == {};
  }

  lemma OthersWorkStays(world: World, lists: Lists)
    requires DistinctTables(lists.content)
    ensures var final := Final(WithOthersWork(), SOLE, world, lists);
            Works in final.tables && OTHERS_WORK.(tenantId := None) in final.tables[Works]
  {
    OthersWorkIsValid();
    OthersWorkIsSafe(world, lists);
    TheTenantIsGone(world, lists);
    OthersWorkForgets(Gone(WithOthersWork(), SOLE, world, lists));
    LoneRowStays(WithOthersWork(), SOLE, world, lists, Works, 0);
    OthersStay(WithOthersWork(), SOLE, world, lists, Works, 0);
  }

  lemma OneWorkIsAnnounced()
    ensures PreviewOf(WithOthersWork(), SOLE).worksDeleted == 1
  {
    TheWorkspaceGoes();
    PreviewCounts(WithOthersWork(), SOLE);
    assert IsAnnounced(WithOthersWork(), SOLE)(OTHERS_WORK);
    WhereSnoc([], OTHERS_WORK, IsAnnounced(WithOthersWork(), SOLE));
    assert [] + [OTHERS_WORK] == WorkRows(WithOthersWork());
  }

  /**
   * The preview announces one Work as deleted, somebody else's in the workspace that goes. The Work stays: its Tenant
   * column is set to null.
   */
  lemma TheAnnouncedWorkStays(world: World)
    ensures PreviewOf(WithOthersWork(), SOLE).worksDeleted == 1
    ensures var final := Final(WithOthersWork(), SOLE, world, Service());
            Works in final.tables && OTHERS_WORK.(tenantId := None) in final.tables[Works]
  {
    OneWorkIsAnnounced();
    ContentTablesAreDistinct();
    OthersWorkStays(world, Service());
  }
}
