/** Which tables hold content that stays with a workspace, and which hold personal rows no foreign key removes. */
module Inventory {
  import opened Database

  /** A table whose `userId` column names the creator, and the column that places its rows in a workspace. */
  datatype Target = Target(table: Table, scope: Scope)

  const WORK_TABLES: seq<Target> := [
    Target(Works, ByTenant), Target(WorkProposals, ByTenant), Target(WorkSchedules, ByTenant),
    Target(IdeaWorks, ByTenant), Target(UpstreamPullRequests, ByTenant), Target(Agents, ByTenant),
    Target(AgentMcpServerBindings, ByTenant),
    Target(Missions, ByTenant), Target(MissionWorks, ByTenant), Target(MissionGoals, ByTenant), Target(Goals, ByTenant)
  ]

  const TEAM_TABLES: seq<Target> := [
    Target(Tasks, ByTenant), Target(TaskTemplates, ByTenant), Target(Teams, ByTenant), Target(Skills, ByTenant),
    Target(SkillFiles, ByTenant), Target(SkillTags, ByTenant), Target(SkillBindings, ByTenant),
    Target(TemplateCustomizations, ByTenant), Target(TenantEmailAddresses, ByTenant),
    Target(MemoryFolders, ByOrganization), Target(UsageLedgerEntries, ByTenant), Target(PluginUsageEvents, ByTenant)
  ]

  /** Content without a foreign key to its creator. */
  const KEYLESS_TABLES: seq<Target> := [
    Target(Workflows, ByTenant), Target(Environments, ByTenant), Target(InboundTriggers, ByTenant),
    Target(MemoryFacts, ByTenant), Target(Meetings, ByOrganization), Target(ModelAccounts, ByTenant),
    Target(ModelPolicies, ByTenant), Target(RepoConnections, ByTenant), Target(ToolGrants, ByTenant),
    Target(AutonomyGrants, ByTenant)
  ]

  const CONTENT: seq<Target> := WORK_TABLES + TEAM_TABLES + KEYLESS_TABLES

  const SETTING_TABLES: seq<Target> := [
    Target(UserPlugins, Unscoped), Target(UserSyncConfigs, Unscoped), Target(UserTaskCounter, Unscoped),
    Target(UserTemplatePreferences, Unscoped), Target(ProductChangelogReads, Unscoped),
    Target(TermsAcceptance, Unscoped), Target(Account, Unscoped)
  ]

  const PERSON_TABLES: seq<Target> := [
    Target(OnboardingChecklists, ByOrganization), Target(KnowledgeDocumentReaderStates, ByTenant),
    Target(InboxItems, ByTenant), Target(GithubAppUserLinks, ByTenant), Target(WorkspaceBackups, ByTenant),
    Target(FleetExecutionPreferences, ByOrganization), Target(FleetAgentNodeAffinities, ByOrganization),
    Target(NodeAgentProfiles, ByOrganization)
  ]

  /** Content nobody took over. */
  const LEFTOVER_TABLES: seq<Target> := [
    Target(ModelAccounts, ByTenant), Target(ModelPolicies, ByTenant), Target(RepoConnections, ByTenant),
    Target(Workflows, ByTenant), Target(Environments, ByTenant), Target(InboundTriggers, ByTenant),
    Target(MemoryFacts, ByTenant), Target(MemoryFolders, ByTenant), Target(Meetings, ByOrganization),
    Target(ToolGrants, ByTenant), Target(AutonomyGrants, ByTenant)
  ]

  const PERSONAL: seq<Target> := SETTING_TABLES + PERSON_TABLES + LEFTOVER_TABLES

  ghost predicate DistinctTables(targets: seq<Target>) {
    forall i, j :: 0 <= i < j < |targets| ==> targets[i].table != targets[j].table
  }

  /** Works are found by their Tenant. */
  ghost predicate WorksByTenant(targets: seq<Target>) {
    forall t :: t in targets && t.table == Works ==> t.scope == ByTenant
  }

  function IsPresent(db: Db): Target -> bool {
    (t: Target) => t.table in db.tables && (t.scope.Unscoped? || t.scope in SchemaOf(db.schema, t.table).scopes)
  }

  /** The targets this database actually has. */
  function Existing(db: Db, targets: seq<Target>): (present: seq<Target>)
    ensures forall t :: t in present <==> t in targets && IsPresent(db)(t)
  {
    Where(targets, IsPresent(db))
  }

  lemma {:induction false} WhereKeepsDistinct(targets: seq<Target>, p: Target -> bool)
    requires DistinctTables(targets)
    ensures DistinctTables(Where(targets, p))
  {
    if targets != [] {
      assert forall i, j :: 0 <= i < j < |targets[1..]| ==>
        targets[1..][i] == targets[i + 1] && targets[1..][j] == targets[j + 1];
      WhereKeepsDistinct(targets[1..], p);
      var rest := Where(targets[1..], p);
      assert forall i :: 0 <= i < |rest| ==> rest[i] in rest;
      assert forall t :: t in rest ==> t in targets[1..];
      assert forall t :: t in targets[1..] ==> t.table != targets[0].table;
    }
  }

  /** Position of a content table in the list. */
  function Rank(table: Table): int {
    match table
    case Works => 0
    case WorkProposals => 1
    case WorkSchedules => 2
    case IdeaWorks => 3
    case UpstreamPullRequests => 4
    case Agents => 5
    case AgentMcpServerBindings => 6
    case Missions => 7
    case MissionWorks => 8
    case MissionGoals => 9
    case Goals => 10
    case Tasks => 11
    case TaskTemplates => 12
    case Teams => 13
    case Skills => 14
    case SkillFiles => 15
    case SkillTags => 16
    case SkillBindings => 17
    case TemplateCustomizations => 18
    case TenantEmailAddresses => 19
    case MemoryFolders => 20
    case UsageLedgerEntries => 21
    case PluginUsageEvents => 22
    case Workflows => 23
    case Environments => 24
    case InboundTriggers => 25
    case MemoryFacts => 26
    case Meetings => 27
    case ModelAccounts => 28
    case ModelPolicies => 29
    case RepoConnections => 30
    case ToolGrants => 31
    case AutonomyGrants => 32
    case _ => -1
  }

  /** The places of a part of a list, counted from `start`. */
  ghost predicate RankedFrom(targets: seq<Target>, start: nat, rank: Table -> int) {
    forall i :: 0 <= i < |targets| ==> rank(targets[i].table) == start + i
  }

  lemma RankedTogether(a: seq<Target>, b: seq<Target>, start: nat, rank: Table -> int)
    requires RankedFrom(a, start, rank) && RankedFrom(b, start + |a|, rank)
    ensures RankedFrom(a + b, start, rank)
  {
  }

  lemma RankedIsDistinct(targets: seq<Target>, rank: Table -> int)
    requires RankedFrom(targets, 0, rank)
    ensures DistinctTables(targets)
    ensures forall t :: t in targets ==> 0 <= rank(t.table)
  {
  }

  lemma WorkTablesRanked()
    ensures RankedFrom(WORK_TABLES, 0, Rank)
  {
  }

  lemma TeamTablesRanked()
    ensures RankedFrom(TEAM_TABLES, |WORK_TABLES|, Rank)
  {
  }

  lemma KeylessTablesRanked()
    ensures RankedFrom(KEYLESS_TABLES, |WORK_TABLES| + |TEAM_TABLES|, Rank)
  {
  }

  lemma ContentRanked()
    ensures RankedFrom(CONTENT, 0, Rank)
  {
    WorkTablesRanked();
    TeamTablesRanked();
    KeylessTablesRanked();
    RankedTogether(WORK_TABLES, TEAM_TABLES, 0, Rank);
    RankedTogether(WORK_TABLES + TEAM_TABLES, KEYLESS_TABLES, 0, Rank);
  }

  lemma WorksComeFirst()
    ensures CONTENT != [] && CONTENT[0] == Target(Works, ByTenant)
  {
    assert (WORK_TABLES + TEAM_TABLES)[0] == WORK_TABLES[0];
  }

  lemma RankedMeans(targets: seq<Target>)
    requires RankedFrom(targets, 0, Rank) && targets != [] && targets[0] == Target(Works, ByTenant)
    ensures DistinctTables(targets) && WorksByTenant(targets) && forall t :: t in targets ==> !t.table.Other?
  {
    RankedIsDistinct(targets, Rank);
    assert Rank(Works) == 0;
  }

  /**
   * No content table is listed twice, so one statement decides each row; Works go by Tenant, and only named tables are
   * listed.
   */
  lemma ContentTablesAreDistinct()
    ensures DistinctTables(CONTENT) && WorksByTenant(CONTENT) && forall t :: t in CONTENT ==> !t.table.Other?
  {
    ContentRanked();
    WorksComeFirst();
    RankedMeans(CONTENT);
  }

  /** Position of a personal table in the list. */
  function PersonalRank(table: Table): int {
    match table
    case UserPlugins => 0
    case UserSyncConfigs => 1
    case UserTaskCounter => 2
    case UserTemplatePreferences => 3
    case ProductChangelogReads => 4
    case TermsAcceptance => 5
    case Account => 6
    case OnboardingChecklists => 7
    case KnowledgeDocumentReaderStates => 8
    case InboxItems => 9
    case GithubAppUserLinks => 10
    case WorkspaceBackups => 11
    case FleetExecutionPreferences => 12
    case FleetAgentNodeAffinities => 13
    case NodeAgentProfiles => 14
    case ModelAccounts => 15
    case ModelPolicies => 16
    case RepoConnections => 17
    case Workflows => 18
    case Environments => 19
    case InboundTriggers => 20
    case MemoryFacts => 21
    case MemoryFolders => 22
    case Meetings => 23
    case ToolGrants => 24
    case AutonomyGrants => 25
    case _ => -1
  }

  lemma SettingTablesRanked()
    ensures RankedFrom(SETTING_TABLES, 0, PersonalRank)
  {
  }

  lemma PersonTablesRanked()
    ensures RankedFrom(PERSON_TABLES, |SETTING_TABLES|, PersonalRank)
  {
  }

  lemma LeftoverTablesRanked()
    ensures RankedFrom(LEFTOVER_TABLES, |SETTING_TABLES| + |PERSON_TABLES|, PersonalRank)
  {
  }

  lemma PersonalRanked()
    ensures RankedFrom(PERSONAL, 0, PersonalRank)
  {
    SettingTablesRanked();
    PersonTablesRanked();
    LeftoverTablesRanked();
    RankedTogether(SETTING_TABLES, PERSON_TABLES, 0, PersonalRank);
    RankedTogether(SETTING_TABLES + PERSON_TABLES, LEFTOVER_TABLES, 0, PersonalRank);
  }

  /** No personal table is listed twice. */
  lemma PersonalTablesAreDistinct()
    ensures DistinctTables(PERSONAL)
  {
    PersonalRanked();
    RankedIsDistinct(PERSONAL, PersonalRank);
  }

  lemma RankedLists(targets: seq<Target>, rank: Table -> int, table: Table)
    requires RankedFrom(targets, 0, rank) && rank(table) < 0
    ensures forall t :: t in targets ==> t.table != table
  {
    RankedIsDistinct(targets, rank);
  }

  /** A table in neither list, such as that of the sessions or of the API keys, which go with the account. */
  lemma UnlistedTable(table: Table)
    requires Rank(table) < 0 && PersonalRank(table) < 0
    ensures forall t :: t in CONTENT ==> t.table != table
    ensures forall t :: t in PERSONAL ==> t.table != table
  {
    ContentRanked();
    RankedLists(CONTENT, Rank, table);
    PersonalRanked();
    RankedLists(PERSONAL, PersonalRank, table);
  }

  // ------------------------------------------------------------ by which column

  /** The content that is placed by its Organization; all other content is placed by its Tenant. */
  const CONTENT_BY_ORGANIZATION: set<Table> := {MemoryFolders, Meetings}

  /** The personal rows that are placed by their Organization, and those that are nobody's workspace's. */
  const PERSONAL_BY_ORGANIZATION: set<Table> := {
    OnboardingChecklists, FleetExecutionPreferences, FleetAgentNodeAffinities, NodeAgentProfiles, Meetings
  }
  const PERSONAL_UNSCOPED: set<Table> := {
    UserPlugins, UserSyncConfigs, UserTaskCounter, UserTemplatePreferences, ProductChangelogReads, TermsAcceptance,
    Account
  }

  ghost predicate ScopedBy(targets: seq<Target>, byOrganization: set<Table>, unscoped: set<Table>) {
    forall i :: 0 <= i < |targets| ==>
      targets[i].scope == if targets[i].table in byOrganization then ByOrganization
                          else if targets[i].table in unscoped then Unscoped else ByTenant
  }

  lemma ScopedTogether(a: seq<Target>, b: seq<Target>, byOrganization: set<Table>, unscoped: set<Table>)
    requires ScopedBy(a, byOrganization, unscoped) && ScopedBy(b, byOrganization, unscoped)
    ensures ScopedBy(a + b, byOrganization, unscoped)
  {
  }

  lemma ContentPartsScoped()
    ensures ScopedBy(WORK_TABLES, CONTENT_BY_ORGANIZATION, {}) && ScopedBy(TEAM_TABLES, CONTENT_BY_ORGANIZATION, {})
    ensures ScopedBy(KEYLESS_TABLES, CONTENT_BY_ORGANIZATION, {})
  {
  }

  /** By which column each content table places its rows. */
  lemma ContentScoped()
    ensures ScopedBy(CONTENT, CONTENT_BY_ORGANIZATION, {})
  {
    ContentPartsScoped();
    ScopedTogether(WORK_TABLES, TEAM_TABLES, CONTENT_BY_ORGANIZATION, {});
    ScopedTogether(WORK_TABLES + TEAM_TABLES, KEYLESS_TABLES, CONTENT_BY_ORGANIZATION, {});
  }

  lemma PersonalPartsScoped()
    ensures ScopedBy(SETTING_TABLES, PERSONAL_BY_ORGANIZATION, PERSONAL_UNSCOPED)
    ensures ScopedBy(PERSON_TABLES, PERSONAL_BY_ORGANIZATION, PERSONAL_UNSCOPED)
    ensures ScopedBy(LEFTOVER_TABLES, PERSONAL_BY_ORGANIZATION, PERSONAL_UNSCOPED)
  {
  }

  /** And each personal table. */
  lemma PersonalScoped()
    ensures ScopedBy(PERSONAL, PERSONAL_BY_ORGANIZATION, PERSONAL_UNSCOPED)
  {
    PersonalPartsScoped();
    ScopedTogether(SETTING_TABLES, PERSON_TABLES, PERSONAL_BY_ORGANIZATION, PERSONAL_UNSCOPED);
    ScopedTogether(SETTING_TABLES + PERSON_TABLES, LEFTOVER_TABLES, PERSONAL_BY_ORGANIZATION, PERSONAL_UNSCOPED);
  }
}
