/** The tables account deletion works on, and the statements it runs, on values. */
module Database {
  import opened Wrappers

  datatype User = User(id: string, username: string, tenantId: Option<string>, isAnonymous: bool, createdAt: int)
  datatype Tenant = Tenant(id: string, ownerUserId: string)
  datatype Organization = Organization(id: string, tenantId: string, createdAt: int)
  datatype Member = Member(organizationId: string, tenantId: string, userId: string, isAdmin: bool, joinedAt: int)

  /** What a foreign key can name: a row of a table by its key, or one of the things kept apart above. */
  datatype Ref =
    | Ref(table: Table, id: string) | UserRef(id: string) | TenantRef(id: string) | OrganizationRef(id: string)

  /**
   * A row of any other table: its `userId` column, the workspace columns, and what its other foreign keys name, those
   * that cascade and those that set null.
   */
  datatype Row = Row(id: string, userId: Option<string>, tenantId: Option<string>, organizationId: Option<string>,
                     parents: set<Ref>, mentions: set<Ref>)

  /** The tables the routine names; every other table is an `Other`. */
  datatype Table =
    | Works | WorkProposals | WorkSchedules | IdeaWorks | UpstreamPullRequests | Agents
    | AgentMcpServerBindings | Missions | MissionWorks | MissionGoals | Goals | Tasks | TaskTemplates | Teams
    | Skills | SkillFiles | SkillTags | SkillBindings | TemplateCustomizations | TenantEmailAddresses
    | MemoryFolders | UsageLedgerEntries | PluginUsageEvents | Workflows | Environments | InboundTriggers
    | MemoryFacts | Meetings | ModelAccounts | ModelPolicies | RepoConnections | ToolGrants | AutonomyGrants
    | UserPlugins | UserSyncConfigs | UserTaskCounter | UserTemplatePreferences | ProductChangelogReads
    | TermsAcceptance | Account | OnboardingChecklists | KnowledgeDocumentReaderStates | InboxItems
    | GithubAppUserLinks | WorkspaceBackups | FleetExecutionPreferences | FleetAgentNodeAffinities
    | NodeAgentProfiles | AuthSessions | ApiKeys | Other(name: string)

  datatype Scope = ByTenant | ByOrganization | Unscoped

  /** What a foreign key does when the thing it names is deleted; a column may also be no key at all. */
  datatype OnDelete = Cascade | SetNull | NoKey

  /** A table's workspace columns, and the foreign keys of its `userId` column and of these. */
  datatype TableSchema = TableSchema(scopes: set<Scope>, creator: OnDelete, tenant: OnDelete, organization: OnDelete)

  datatype Db = Db(
    users: seq<User>, tenants: seq<Tenant>, organizations: seq<Organization>, members: seq<Member>,
    tables: map<Table, seq<Row>>, schema: map<Table, TableSchema>)

  // ------------------------------------------------------------ queries

  /** `WHERE`. */
  function Where<T(!new)>(s: seq<T>, p: T -> bool): (r: seq<T>)
    ensures forall x :: x in r <==> x in s && p(x)
    ensures |r| <= |s|
  {
    if s == [] then []
    else
      var rest := Where(s[1..], p);
      assert forall x :: x in s <==> x == s[0] || x in s[1..];
      if p(s[0]) then [s[0]] + rest else rest
  }

  /** `ORDER BY key ASC`, keeping the stored order among equals. */
  function OrderBy<T(!new)>(s: seq<T>, key: T -> int): (r: seq<T>)
    ensures forall x :: x in r <==> x in s
    ensures |r| == |s|
    ensures Ordered(r, key)
  {
    if s == [] then []
    else
      assert forall x :: x in s <==> x == s[0] || x in s[1..];
      InsertBy(s[0], OrderBy(s[1..], key), key)
  }

  predicate Ordered<T>(s: seq<T>, key: T -> int) {
    forall i, j :: 0 <= i < j < |s| ==> key(s[i]) <= key(s[j])
  }

  function InsertBy<T(!new)>(x: T, s: seq<T>, key: T -> int): (r: seq<T>)
    requires Ordered(s, key)
    ensures forall y :: y in r <==> y == x || y in s
    ensures |r| == |s| + 1
    ensures Ordered(r, key)
  {
    if s == [] || key(x) <= key(s[0]) then [x] + s
    else
      assert forall y :: y in s <==> y == s[0] || y in s[1..];
      var rest := InsertBy(x, s[1..], key);
      assert forall i :: 0 <= i < |rest| ==> rest[i] in rest;
      assert forall y :: y in s[1..] ==> key(s[0]) <= key(y);
      [s[0]] + rest
  }

  /** `find`: the first that matches. */
  function First<T(!new)>(s: seq<T>, p: T -> bool): (r: Option<T>)
    ensures r.None? <==> forall x :: x in s ==> !p(x)
    ensures r.Some? ==> r.value in s && p(r.value)
  {
    if s == [] then None
    else if p(s[0]) then Some(s[0])
    else
      assert forall x :: x in s <==> x == s[0] || x in s[1..];
      First(s[1..], p)
  }

  /** The first match of an ordered list is the least match. */
  lemma {:induction false} FirstIsLeast<T(!new)>(s: seq<T>, p: T -> bool, key: T -> int)
    requires Ordered(s, key) && First(s, p).Some?
    ensures forall x :: x in s && p(x) ==> key(First(s, p).value) <= key(x)
  {
    if !p(s[0]) {
      assert forall i, j :: 0 <= i < j < |s[1..]| ==> s[1..][i] == s[i + 1] && s[1..][j] == s[j + 1];
      FirstIsLeast(s[1..], p, key);
      assert forall x :: x in s <==> x == s[0] || x in s[1..];
    }
  }

  // ------------------------------------------------------------ statements

  predicate InScope(row: Row, scope: Scope, tenantId: string, orgIds: set<string>) {
    match scope
    case ByTenant => row.tenantId == Some(tenantId)
    case ByOrganization => row.organizationId.Some? && row.organizationId.value in orgIds
    case Unscoped => false
  }

  function OrgIdsOf(db: Db, tenantId: string): set<string> {
    set o | o in db.organizations && o.tenantId == tenantId :: o.id
  }

  /** What the hand-over statement makes of one row. */
  function HandRow(row: Row, scope: Scope, tenantId: string, orgIds: set<string>, userId: string,
                   successorId: string): Row {
    if row.userId == Some(userId) && InScope(row, scope, tenantId, orgIds) then row.(userId := Some(successorId))
    else row
  }

  function HandRows(rows: seq<Row>, scope: Scope, tenantId: string, orgIds: set<string>, userId: string,
                    successorId: string): seq<Row> {
    seq(|rows|, k requires 0 <= k < |rows| => HandRow(rows[k], scope, tenantId, orgIds, userId, successorId))
  }

  /** The rows a personal-data statement removes. */
  predicate Swept(row: Row, scope: Scope, userId: string, keptTenants: set<string>, keptOrgs: set<string>) {
    && row.userId == Some(userId)
    && match scope
       case ByTenant => row.tenantId.None? || row.tenantId.value !in keptTenants
       case ByOrganization => row.organizationId.None? || row.organizationId.value !in keptOrgs
       case Unscoped => true
  }

  /** One Tenant changes hands. */
  function NewOwner(tenants: seq<Tenant>, tenantId: string, ownerId: string): seq<Tenant> {
    seq(|tenants|, k requires 0 <= k < |tenants| =>
      if tenants[k].id == tenantId then tenants[k].(ownerUserId := ownerId) else tenants[k])
  }

  function Reassign(db: Db, tenantId: string, ownerId: string): Db {
    db.(tenants := NewOwner(db.tenants, tenantId, ownerId))
  }

  // ------------------------------------------------------------ deletes, their cascades and their nulls

  function SchemaOf(schema: map<Table, TableSchema>, table: Table): TableSchema {
    if table in schema then schema[table] else TableSchema({}, NoKey, NoKey, NoKey)
  }

  /** What the `userId` and workspace columns name by keys that do this on delete. */
  function ColumnRefs(row: Row, schema: TableSchema, action: OnDelete): set<Ref> {
    (if schema.creator == action && row.userId.Some? then {UserRef(row.userId.value)} else {})
    + (if schema.tenant == action && row.tenantId.Some? then {TenantRef(row.tenantId.value)} else {})
    + (if schema.organization == action && row.organizationId.Some? then {OrganizationRef(row.organizationId.value)}
       else {})
  }

  /** Everything a row names by a key that cascades. */
  function CascadeKeys(row: Row, schema: TableSchema): set<Ref> {
    ColumnRefs(row, schema, Cascade) + row.parents
  }

  /** Everything it names by a key that sets null. */
  function NullKeys(row: Row, schema: TableSchema): set<Ref> {
    ColumnRefs(row, schema, SetNull) + row.mentions
  }

  /** A row that outlives what it named: its keys that set null have forgotten it. */
  function Forget(row: Row, schema: TableSchema, gone: set<Ref>): (after: Row)
    ensures after.id == row.id && after.parents == row.parents
  {
    row.(
      userId := if schema.creator.SetNull? && row.userId.Some? && UserRef(row.userId.value) in gone then None
                else row.userId,
      tenantId := if schema.tenant.SetNull? && row.tenantId.Some? && TenantRef(row.tenantId.value) in gone then None
                  else row.tenantId,
      organizationId := if schema.organization.SetNull? && row.organizationId.Some?
                           && OrganizationRef(row.organizationId.value) in gone then None else row.organizationId,
      mentions := row.mentions - gone)
  }

  function Refs(db: Db): set<Ref> {
    set table, row | table in db.tables && row in db.tables[table] :: Ref(table, row.id)
  }

  /** The row has a cascading key to one of these rows. */
  predicate HangsOn(db: Db, child: Ref, gone: set<Ref>) {
    && child.Ref? && child.table in db.tables
    && exists row :: row in db.tables[child.table] && row.id == child.id && row.parents * gone != {}
  }

  /** What goes when these rows go: they, the rows that hang on them, the rows that hang on those, and so on. */
  function Doomed(db: Db, gone: set<Ref>): (all: set<Ref>)
    ensures gone <= all <= gone + Refs(db)
    ensures forall child :: child in Refs(db) && HangsOn(db, child, all) ==> child in all
    decreases Refs(db) - gone
  {
    var more := set child | child in Refs(db) && child !in gone && HangsOn(db, child, gone);
    assert forall child :: child in Refs(db) && child !in gone && HangsOn(db, child, gone) ==> child in more;
    if more == {} then gone else Doomed(db, gone + more)
  }

  /** The rows of a table that are not gone, with their nulls set. */
  function Left(rows: seq<Row>, table: Table, schema: TableSchema, gone: set<Ref>): seq<Row> {
    if rows == [] then []
    else if Ref(table, rows[0].id) in gone then Left(rows[1..], table, schema, gone)
    else [Forget(rows[0], schema, gone)] + Left(rows[1..], table, schema, gone)
  }

  /** These are gone: their rows, and what other rows name of them by keys that set null. */
  function Without(db: Db, gone: set<Ref>): Db {
    db.(tables := map table | table in db.tables :: Left(db.tables[table], table, SchemaOf(db.schema, table), gone))
  }

  /** What a delete statement selects rows by. */
  type Cause = (Table, Row) -> bool

  function Seeds(db: Db, cause: Cause): set<Ref> {
    set table, row | table in db.tables && row in db.tables[table] && cause(table, row) :: Ref(table, row.id)
  }

  function DeleteWhere(db: Db, cause: Cause): Db {
    Without(db, Doomed(db, Seeds(db, cause)))
  }

  /** Rows with a cascading key to something removed from outside the tables. */
  function CascadesFrom(schema: map<Table, TableSchema>, removed: set<Ref>): Cause {
    (table: Table, row: Row) => CascadeKeys(row, SchemaOf(schema, table)) * removed != {}
  }

  /** Organizations of these Tenants. */
  function OrgsOf(db: Db, tenants: set<string>): set<string> {
    set o | o in db.organizations && o.tenantId in tenants :: o.id
  }

  /** The Tenants the closing transaction takes: the given ones and whatever the user still owns. */
  function TenantsGoing(db: Db, goingTenants: set<string>, userId: string): set<string> {
    goingTenants + set t | t in db.tenants && t.ownerUserId == userId :: t.id
  }

  /** An account, Tenants and Organizations, as foreign keys name them. */
  function Removed(userId: string, tenants: set<string>, orgs: set<string>): set<Ref> {
    {UserRef(userId)} + (set t | t in tenants :: TenantRef(t)) + (set o | o in orgs :: OrganizationRef(o))
  }

  /** A user whose Tenant goes has none. */
  function WithoutTenant(users: seq<User>, tenants: set<string>): seq<User> {
    seq(|users|, k requires 0 <= k < |users| =>
      if users[k].tenantId.Some? && users[k].tenantId.value in tenants then users[k].(tenantId := None) else users[k])
  }

  /**
   * The closing transaction: the given Tenants with their Organizations, then the user, then everything the foreign
   * keys take along: Tenants the user owned with their Organizations, memberships, every row with a cascading key to
   * one of these, and the rows that hang on those. What is left has the keys that set null cleared.
   */
  function Remove(db: Db, goingTenants: set<string>, userId: string): Db {
    var tenants := TenantsGoing(db, goingTenants, userId);
    var orgs := OrgsOf(db, tenants);
    var removed := Removed(userId, tenants, orgs);
    Without(db, Doomed(db, Seeds(db, CascadesFrom(db.schema, removed))) + removed).(
      users := WithoutTenant(Where(db.users, (u: User) => u.id != userId), tenants),
      tenants := Where(db.tenants, (t: Tenant) => t.id !in tenants),
      organizations := Where(db.organizations, (o: Organization) => o.tenantId !in tenants),
      members := Where(db.members, (m: Member) =>
        m.userId != userId && m.organizationId !in orgs && m.tenantId !in tenants))
  }

  // ------------------------------------------------------------ what the schema guarantees

  ghost predicate UniqueOwners(tenants: seq<Tenant>) {
    forall i, j :: 0 <= i < j < |tenants| ==>
      tenants[i].id != tenants[j].id && tenants[i].ownerUserId != tenants[j].ownerUserId
  }

  ghost predicate UniqueIds(rows: seq<Row>) {
    forall i, j :: 0 <= i < j < |rows| ==> rows[i].id != rows[j].id
  }

  /** A Tenant's owner is an account, and owns no other Tenant. */
  ghost predicate ValidTenants(db: Db) {
    && UniqueOwners(db.tenants)
    && (forall t :: t in db.tenants ==> HasUser(db, t.ownerUserId))
  }

  ghost predicate HasUser(db: Db, id: string) {
    exists u :: u in db.users && u.id == id
  }

  ghost predicate ValidOrganizations(db: Db) {
    forall a, b :: a in db.organizations && b in db.organizations && a.id == b.id ==> a == b
  }

  /** What the schema guarantees: primary keys, and the unique Tenant owner with its foreign key. */
  ghost predicate Valid(db: Db) {
    ValidTenants(db) && ValidOrganizations(db) && forall table :: table in db.tables ==> UniqueIds(db.tables[table])
  }
}
