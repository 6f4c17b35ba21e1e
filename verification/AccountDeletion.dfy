/** The deletion routine: the workspace plan, what it announces, and the statements it runs in order. */
module AccountDeletion {
  import opened Wrappers
  import opened Database
  import opened Inventory

  datatype Role = Owner | Admin | OrdinaryMember

  datatype Plan = Plan(
    tenant: Tenant, organizations: seq<Organization>, owned: bool, otherMemberIds: seq<string>,
    successorId: Option<string>, role: Role)

  // ------------------------------------------------------------ plan

  function ByCreation(): User -> int { (u: User) => u.createdAt }
  function ByJoining(): Member -> int { (m: Member) => m.joinedAt }
  function AdminAmong(ids: set<string>): Member -> bool { (m: Member) => m.isAdmin && m.userId in ids }
  function MemberAmong(ids: set<string>): Member -> bool { (m: Member) => m.userId in ids }
  function UserAmong(ids: set<string>): User -> bool { (u: User) => u.id in ids }
  function IsNamed(): User -> bool { (u: User) => !u.isAnonymous }

  function OthersOf(db: Db, tenant: Tenant, user: User): (others: seq<User>)
    ensures Ordered(others, ByCreation())
    ensures forall u :: u in others <==> u in db.users && u.tenantId == Some(tenant.id) && u.id != user.id
  {
    OrderBy(Where(db.users, (u: User) => u.tenantId == Some(tenant.id) && u.id != user.id), ByCreation())
  }

  function RosterOf(db: Db, tenant: Tenant): (roster: seq<Member>)
    ensures Ordered(roster, ByJoining())
    ensures forall m :: m in roster <==> m in db.members && m.tenantId == tenant.id
  {
    OrderBy(Where(db.members, (m: Member) => m.tenantId == tenant.id), ByJoining())
  }

  /** Ids among `others` of people who own no Tenant yet. */
  function EligibleIds(db: Db, others: seq<User>): set<string> {
    var ids := set o | o in others :: o.id;
    var owners := set t | t in db.tenants && t.ownerUserId in ids :: t.ownerUserId;
    ids - owners
  }

  /** Longest-standing admin, else longest-standing member, else a named user, else any; never a Tenant owner. */
  function ChooseSuccessor(others: seq<User>, roster: seq<Member>, otherIds: set<string>): Option<string> {
    var admin := First(roster, AdminAmong(otherIds));
    var member := First(roster, MemberAmong(otherIds));
    var eligible := Where(others, UserAmong(otherIds));
    var named := First(eligible, IsNamed());
    if admin.Some? then Some(admin.value.userId)
    else if member.Some? then Some(member.value.userId)
    else if named.Some? then Some(named.value.id)
    else if eligible != [] then Some(eligible[0].id)
    else None
  }

  /** Who receives what the account created in a workspace; None when the workspace goes. */
  function SuccessorOf(db: Db, tenant: Tenant, user: User, owned: bool): Option<string> {
    var others := OthersOf(db, tenant, user);
    if owned && others != [] then ChooseSuccessor(others, RosterOf(db, tenant), EligibleIds(db, others))
    else if !owned then Some(tenant.ownerUserId)
    else None
  }

  function PlanFor(db: Db, tenant: Tenant, user: User, owned: bool): Plan {
    var organizations := OrderBy(Where(db.organizations, (o: Organization) => o.tenantId == tenant.id),
                                 (o: Organization) => o.createdAt);
    var others := OthersOf(db, tenant, user);
    var own := Where(RosterOf(db, tenant), (r: Member) => r.userId == user.id);
    var memberOrgIds := set r | r in own :: r.organizationId;
    Plan(
      tenant,
      if owned then organizations else Where(organizations, (o: Organization) => o.id in memberOrgIds),
      owned,
      if owned then seq(|others|, i requires 0 <= i < |others| => others[i].id) else [],
      SuccessorOf(db, tenant, user, owned),
      if owned then Owner else if First(own, (r: Member) => r.isAdmin).Some? then Admin else OrdinaryMember)
  }

  /** The Tenant the account owns. */
  function OwnedTenant(db: Db, user: User): (owned: Option<Tenant>)
    ensures owned.Some? ==> owned.value in db.tenants && owned.value.ownerUserId == user.id
    ensures owned.None? ==> forall t :: t in db.tenants ==> t.ownerUserId != user.id
  {
    First(db.tenants, (t: Tenant) => t.ownerUserId == user.id)
  }

  /** The Tenant the account is a member of, when that is not its own. */
  function JoinedTenant(db: Db, user: User): (joined: Option<Tenant>)
    ensures joined.Some? ==> joined.value in db.tenants && user.tenantId == Some(joined.value.id)
    ensures joined.Some? && OwnedTenant(db, user).Some? ==> joined.value.id != OwnedTenant(db, user).value.id
  {
    var owned := OwnedTenant(db, user);
    if user.tenantId.Some? && (owned.None? || user.tenantId.value != owned.value.id)
    then First(db.tenants, (t: Tenant) => t.id == user.tenantId.value)
    else None
  }

  function PlanWorkspaces(db: Db, user: User): seq<Plan> {
    var owned, joined := OwnedTenant(db, user), JoinedTenant(db, user);
    (if owned.Some? then [PlanFor(db, owned.value, user, true)] else [])
    + (if joined.Some? then [PlanFor(db, joined.value, user, false)] else [])
  }

  function KeptTenants(plans: seq<Plan>): set<string> {
    set p | p in plans && p.successorId.Some? :: p.tenant.id
  }

  function GoingTenants(plans: seq<Plan>): set<string> {
    set p | p in plans && p.successorId.None? && p.owned :: p.tenant.id
  }

  // ------------------------------------------------------------ preview

  datatype Preview = Preview(worksDeleted: int, worksKept: nat, apiKeys: nat)

  function RowsIn(db: Db, table: Table): seq<Row> {
    if table in db.tables then db.tables[table] else []
  }

  function WorkRows(db: Db): seq<Row> {
    RowsIn(db, Works)
  }

  predicate StaysWith(work: Row, kept: set<string>) {
    work.tenantId.Some? && work.tenantId.value in kept
  }

  function OwnedBy(userId: string): Row -> bool { (w: Row) => w.userId == Some(userId) }
  function StaysIn(kept: set<string>): Row -> bool { (w: Row) => StaysWith(w, kept) }
  function GoesFrom(kept: set<string>): Row -> bool { (w: Row) => !StaysWith(w, kept) }

  function OwnWorks(db: Db, userId: string): seq<Row> {
    Where(WorkRows(db), OwnedBy(userId))
  }

  /** Workspaces nobody takes over. */
  function UnplacedTenants(plans: seq<Plan>): set<string> {
    set p | p in plans && p.successorId.None? :: p.tenant.id
  }

  /** A Work of somebody else's in one of these workspaces. */
  function OthersIn(userId: string, tenants: set<string>): Row -> bool {
    (w: Row) => w.userId.Some? && w.userId.value != userId && StaysWith(w, tenants)
  }

  /** Other people's Works in workspaces that go. */
  function WorkspaceWorks(db: Db, userId: string, plans: seq<Plan>): nat {
    |Where(WorkRows(db), OthersIn(userId, UnplacedTenants(plans)))|
  }

  function ApiKeysOf(db: Db, userId: string): nat {
    |Where(RowsIn(db, ApiKeys), OwnedBy(userId))|
  }

  function PreviewOf(db: Db, user: User): Preview {
    var plans := PlanWorkspaces(db, user);
    var works := OwnWorks(db, user.id);
    var worksKept := |Where(works, StaysIn(KeptTenants(plans)))|;
    Preview(|works| - worksKept + WorkspaceWorks(db, user.id, plans), worksKept, ApiKeysOf(db, user.id))
  }

  /** A Work the preview announces as deleted: the account's outside what stays, or another's in what goes. */
  function IsAnnounced(db: Db, user: User): Row -> bool {
    var plans := PlanWorkspaces(db, user);
    (w: Row) =>
      || (w.userId == Some(user.id) && !StaysWith(w, KeptTenants(plans)))
      || (w.userId.Some? && w.userId.value != user.id && StaysWith(w, UnplacedTenants(plans)))
  }

  function IsAnnouncedKept(db: Db, user: User): Row -> bool {
    (w: Row) => w.userId == Some(user.id) && StaysWith(w, KeptTenants(PlanWorkspaces(db, user)))
  }

  lemma {:induction false} WhereSnoc<T(!new)>(s: seq<T>, x: T, p: T -> bool)
    ensures Where(s + [x], p) == Where(s, p) + if p(x) then [x] else []
  {
    if s != [] {
      assert (s + [x])[1..] == s[1..] + [x];
      WhereSnoc(s[1..], x, p);
    }
  }

  lemma {:induction false} NoneOf<T(!new)>(s: seq<T>, p: T -> bool)
    requires forall x :: !p(x)
    ensures Where(s, p) == []
  {
    if s != [] {
      NoneOf(s[1..], p);
    }
  }

  /** Rows that satisfy one of two conditions that exclude each other. */
  lemma {:induction false} CountEither<T(!new)>(s: seq<T>, p: T -> bool, q: T -> bool, either: T -> bool)
    requires forall x :: either(x) <==> p(x) || q(x)
    requires forall x :: !(p(x) && q(x))
    ensures |Where(s, either)| == |Where(s, p)| + |Where(s, q)|
  {
    if s != [] {
      CountEither(s[1..], p, q, either);
    }
  }

  lemma {:induction false} WhereOfWhere<T(!new)>(s: seq<T>, p: T -> bool, q: T -> bool, both: T -> bool)
    requires forall x :: both(x) <==> p(x) && q(x)
    ensures Where(Where(s, p), q) == Where(s, both)
  {
    if s != [] {
      WhereOfWhere(s[1..], p, q, both);
      assert p(s[0]) ==> Where(s, p)[1..] == Where(s[1..], p);
    }
  }

  /** The announced numbers count the announced Works. */
  lemma PreviewCounts(db: Db, user: User)
    ensures PreviewOf(db, user).worksDeleted == |Where(WorkRows(db), IsAnnounced(db, user))|
    ensures PreviewOf(db, user).worksKept == |Where(WorkRows(db), IsAnnouncedKept(db, user))|
  {
    var plans, works := PlanWorkspaces(db, user), WorkRows(db);
    var kept := KeptTenants(plans);
    var goes: Row -> bool := (w: Row) => w.userId == Some(user.id) && !StaysWith(w, kept);
    WhereOfWhere(works, OwnedBy(user.id), StaysIn(kept), IsAnnouncedKept(db, user));
    CountEither(works, IsAnnouncedKept(db, user), goes, OwnedBy(user.id));
    CountEither(works, goes, OthersIn(user.id, UnplacedTenants(plans)), IsAnnounced(db, user));
  }

  // ------------------------------------------------------------ the phases of execute, on values

  /** One hand-over statement; a refused one changes nothing. */
  function Statement(db: Db, target: Target, plan: Plan, orgIds: set<string>, userId: string, refused: set<Table>): Db
    requires plan.successorId.Some?
  {
    if target.table !in db.tables || target.table in refused || (target.scope.ByOrganization? && orgIds == {}) then db
    else db.(tables := db.tables[target.table :=
               HandRows(db.tables[target.table], target.scope, plan.tenant.id, orgIds, userId, plan.successorId.value)])
  }

  /** Rows the statement reaches. */
  function Reached(db: Db, target: Target, plan: Plan, orgIds: set<string>, userId: string, refused: set<Table>): nat {
    if target.table !in db.tables || target.table in refused || (target.scope.ByOrganization? && orgIds == {}) then 0
    else |Where(db.tables[target.table], (r: Row) =>
                  r.userId == Some(userId) && InScope(r, target.scope, plan.tenant.id, orgIds))|
  }

  function Statements(db: Db, targets: seq<Target>, plan: Plan, orgIds: set<string>, userId: string,
                      refused: set<Table>): Db
    requires plan.successorId.Some?
  {
    if targets == [] then db
    else
      var n := |targets| - 1;
      Statement(Statements(db, targets[..n], plan, orgIds, userId, refused), targets[n], plan, orgIds, userId, refused)
  }

  /** Rows reached by a list of statements, each counted on the rows as they were before the first. */
  function ReachedInAll(db: Db, targets: seq<Target>, plan: Plan, orgIds: set<string>, userId: string,
                        refused: set<Table>): nat {
    if targets == [] then 0
    else
      var n := |targets| - 1;
      ReachedInAll(db, targets[..n], plan, orgIds, userId, refused)
        + Reached(db, targets[n], plan, orgIds, userId, refused)
  }

  function HandedOver(db: Db, plan: Plan, userId: string, refused: set<Table>, content: seq<Target>): Db
    requires plan.successorId.Some?
  {
    var moved := if plan.owned then Reassign(db, plan.tenant.id, plan.successorId.value) else db;
    Statements(moved, Existing(moved, content), plan, OrgIdsOf(moved, plan.tenant.id), userId, refused)
  }

  /** The refusals that concern one workspace. */
  function RefusedIn(refused: set<(string, Table)>, tenantId: string): set<Table> {
    set r | r in refused && r.0 == tenantId :: r.1
  }

  function AllHandedOver(db: Db, plans: seq<Plan>, userId: string, refused: set<(string, Table)>,
                         content: seq<Target>): Db {
    if plans == [] then db
    else
      var n := |plans| - 1;
      var before := AllHandedOver(db, plans[..n], userId, refused, content);
      if plans[n].successorId.None? then before
      else HandedOver(before, plans[n], userId, RefusedIn(refused, plans[n].tenant.id), content)
  }

  /** The account's Works outside the workspaces that stay. */
  function GoingWorks(db: Db, userId: string, kept: set<string>): seq<Row> {
    Where(OwnWorks(db, userId), GoesFrom(kept))
  }

  function IsWork(id: string): Cause {
    (table: Table, row: Row) => table == Table.Works && row.id == id
  }

  /** Works whose teardown goes through are deleted one by one; the others wait for the cascade. */
  function WorksTornDown(db: Db, going: seq<Row>, tornDown: set<string>): Db {
    if going == [] then db
    else
      var n := |going| - 1;
      var before := WorksTornDown(db, going[..n], tornDown);
      if going[n].id in tornDown then DeleteWhere(before, IsWork(going[n].id)) else before
  }

  function SweepsFrom(target: Target, userId: string, keptTenants: set<string>, keptOrgs: set<string>): Cause {
    (table: Table, row: Row) => table == target.table && Swept(row, target.scope, userId, keptTenants, keptOrgs)
  }

  function SweepStatement(db: Db, target: Target, userId: string, keptTenants: set<string>, keptOrgs: set<string>): Db {
    DeleteWhere(db, SweepsFrom(target, userId, keptTenants, keptOrgs))
  }

  /** One pass over the personal tables: the database after it, and the targets that refused. */
  function SweepPass(db: Db, targets: seq<Target>, userId: string, keptTenants: set<string>, keptOrgs: set<string>,
                     refused: set<Table>): (Db, seq<Target>)
  {
    if targets == [] then (db, [])
    else
      var n := |targets| - 1;
      var (before, failed) := SweepPass(db, targets[..n], userId, keptTenants, keptOrgs, refused);
      if targets[n].table in refused then (before, failed + [targets[n]])
      else (SweepStatement(before, targets[n], userId, keptTenants, keptOrgs), failed)
  }

  /** Both passes: what refuses in the first is tried once more. */
  function SweptTwice(db: Db, userId: string, keptTenants: set<string>, keptOrgs: set<string>,
                      refusedFirst: set<Table>, refusedSecond: set<Table>, personal: seq<Target>): Db
  {
    var (first, failed) := SweepPass(db, Existing(db, personal), userId, keptTenants, keptOrgs, refusedFirst);
    SweepPass(first, failed, userId, keptTenants, keptOrgs, refusedSecond).0
  }

  /** Content and personal tables the routine goes through. */
  datatype Lists = Lists(content: seq<Target>, personal: seq<Target>)

  function IsSession(userId: string): Cause {
    (table: Table, row: Row) => table == AuthSessions && row.userId == Some(userId)
  }

  /** Where an error that is not caught on the way stops the routine. */
  datatype Phase =
    | Planning
    | Billing
    | HandingOver(plan: nat, ownerMoved: bool)  // before the statements of this plan, its Tenant moved or not
    | TearingDown | Sweeping | Revoking | Counting | Committing

  /** What the world answers while the routine runs. */
  datatype World = World(
    canceled: nat,                       // subscriptions canceled
    refused: set<(string, Table)>,       // (tenant, table) of hand-over statements the database refuses
    tornDown: set<string>,               // Works whose teardown goes through
    files: nat,                          // files the storage backend removed
    sweepRefusedFirst: set<Table>,       // tables refusing the first sweep
    sweepRefusedSecond: set<Table>,      // tables refusing the second
    sessionsCounted: bool,               // the sessions could be counted
    halts: Option<Phase>)                // the step that throws, if one does

  function TornDown(db: Db, user: User, world: World, lists: Lists): Db {
    var plans := PlanWorkspaces(db, user);
    var handed := AllHandedOver(db, plans, user.id, world.refused, lists.content);
    WorksTornDown(handed, GoingWorks(handed, user.id, KeptTenants(plans)), world.tornDown)
  }

  /** The database after the sweeps. */
  function CleanedUp(db: Db, user: User, world: World, lists: Lists): Db {
    var kept := KeptTenants(PlanWorkspaces(db, user));
    var torn := TornDown(db, user, world, lists);
    SweptTwice(torn, user.id, kept, OrgsOf(torn, kept), world.sweepRefusedFirst, world.sweepRefusedSecond,
               lists.personal)
  }

  /** The database when the closing transaction begins: the sessions are gone as well. */
  function BeforeCommit(db: Db, user: User, world: World, lists: Lists): Db {
    DeleteWhere(CleanedUp(db, user, world, lists), IsSession(user.id))
  }

  function Final(db: Db, user: User, world: World, lists: Lists): Db {
    Remove(BeforeCommit(db, user, world, lists), GoingTenants(PlanWorkspaces(db, user)), user.id)
  }

  /** The step that throws, if the plan comes to it. */
  function HaltOf(plans: seq<Plan>, world: World): Option<Phase> {
    if world.halts.Some? && world.halts.value.HandingOver?
       && (world.halts.value.plan >= |plans| || plans[world.halts.value.plan].successorId.None?)
    then None else world.halts
  }

  /** The hand-overs before one that throws, and its Tenant's new owner if that came first. */
  function HandedUntil(db: Db, plans: seq<Plan>, n: nat, ownerMoved: bool, userId: string,
                       refused: set<(string, Table)>, content: seq<Target>): Db
    requires n < |plans| && plans[n].successorId.Some?
  {
    var before := AllHandedOver(db, plans[..n], userId, refused, content);
    if ownerMoved && plans[n].owned then Reassign(before, plans[n].tenant.id, plans[n].successorId.value) else before
  }

  /** What an error thrown before the tear-down leaves behind. */
  function HaltedEarly(db: Db, plans: seq<Plan>, phase: Phase, userId: string, refused: set<(string, Table)>,
                       content: seq<Target>): Db {
    match phase
    case HandingOver(n, ownerMoved) =>
      if n >= |plans| || plans[n].successorId.None? then db
      else HandedUntil(db, plans, n, ownerMoved, userId, refused, content)
    case TearingDown => AllHandedOver(db, plans, userId, refused, content)
    case _ => db
  }

  /** What a thrown error leaves behind: the phases before it have taken effect. */
  function AtHalt(db: Db, user: User, world: World, lists: Lists, phase: Phase): Db {
    match phase
    case Sweeping => TornDown(db, user, world, lists)
    case Revoking => CleanedUp(db, user, world, lists)
    case Counting => BeforeCommit(db, user, world, lists)
    case Committing => BeforeCommit(db, user, world, lists)
    case _ => HaltedEarly(db, PlanWorkspaces(db, user), phase, user.id, world.refused, lists.content)
  }

  datatype Summary = Summary(
    subscriptionsCanceled: nat, contentReassigned: nat, workspaceTransferred: bool, worksDeleted: nat,
    filesDeleted: nat, sessionsRevoked: nat, apiKeysRevoked: nat, membershipsRemoved: nat,
    organizationsDeleted: nat, workspaceDeleted: bool)

  /** No such account, a step that threw, or everything done. */
  datatype Result = NotFound | DeletionFailed(phase: Phase) | Deleted(summary: Summary)

  /** The code a failed deletion is recorded with. */
  function CodeOf(phase: Phase): string {
    if phase.Billing? then "billing_cancel_failed" else "deletion_failed"
  }

  function OrganizationsOf(plans: seq<Plan>): nat {
    if plans == [] then 0
    else
      var n := |plans| - 1;
      OrganizationsOf(plans[..n]) + if plans[n].successorId.None? && plans[n].owned then |plans[n].organizations| else 0
  }

  predicate Transferred(plan: Plan) {
    plan.successorId.Some? && plan.owned
  }

  predicate Transfers(plans: seq<Plan>) {
    plans != [] && (Transfers(plans[..|plans| - 1]) || Transferred(plans[|plans| - 1]))
  }

  predicate Deletes(plans: seq<Plan>) {
    GoingTenants(plans) != {}
  }

  function UserOf(db: Db, userId: string): (user: Option<User>)
    ensures user.Some? ==> user.value in db.users && user.value.id == userId
    ensures user.None? ==> forall u :: u in db.users ==> u.id != userId
  {
    First(db.users, (u: User) => u.id == userId)
  }

  function MembershipsOf(db: Db, userId: string): nat {
    |Where(db.members, (m: Member) => m.userId == userId)|
  }

  /** How many Works the tear-down goes through. */
  function GoingCount(db: Db, user: User, world: World, lists: Lists): nat {
    var plans := PlanWorkspaces(db, user);
    |GoingWorks(AllHandedOver(db, plans, user.id, world.refused, lists.content), user.id, KeptTenants(plans))|
  }

  function SummaryOf(db: Db, user: User, world: World, lists: Lists): Summary {
    var plans := PlanWorkspaces(db, user);
    var cleaned, closing := CleanedUp(db, user, world, lists), BeforeCommit(db, user, world, lists);
    Summary(world.canceled, Reassigned(db, plans, user.id, world.refused, lists.content), Transfers(plans),
            GoingCount(db, user, world, lists), world.files,
            if world.sessionsCounted then |Where(RowsIn(cleaned, AuthSessions), OwnedBy(user.id))| else 0,
            ApiKeysOf(closing, user.id), MembershipsOf(closing, user.id), OrganizationsOf(plans), Deletes(plans))
  }

  /** What the deletion answers and leaves in the database, stopped at a step or not. */
  function OutcomeAt(db: Db, user: User, world: World, lists: Lists, halt: Option<Phase>): (Db, Result) {
    if halt.Some? then (AtHalt(db, user, world, lists, halt.value), DeletionFailed(halt.value))
    else (Final(db, user, world, lists), Deleted(SummaryOf(db, user, world, lists)))
  }

  function Outcome(db: Db, user: User, world: World, lists: Lists): (Db, Result) {
    OutcomeAt(db, user, world, lists, HaltOf(PlanWorkspaces(db, user), world))
  }

  /** Rows each hand-over reaches, counted on the database that hand-over starts from. */
  function Reassigned(db: Db, plans: seq<Plan>, userId: string, refused: set<(string, Table)>,
                      content: seq<Target>): nat {
    if plans == [] then 0
    else
      var n := |plans| - 1;
      var plan := plans[n];
      Reassigned(db, plans[..n], userId, refused, content)
      + if plan.successorId.None? then 0
        else
          var before := AllHandedOver(db, plans[..n], userId, refused, content);
          ReachedInAll(before, Existing(before, content), plan, OrgIdsOf(before, plan.tenant.id), userId,
                       RefusedIn(refused, plan.tenant.id))
  }

  // ------------------------------------------------------------ one step after another

  lemma {:induction false} StatementsLeaveOtherTables(db: Db, targets: seq<Target>, plan: Plan, orgIds: set<string>,
                                                      userId: string,
                                     refused: set<Table>, table: Table)
    requires plan.successorId.Some?
    requires forall t :: t in targets ==> t.table != table
    ensures var after := Statements(db, targets, plan, orgIds, userId, refused);
            && after.tables.Keys == db.tables.Keys && after == db.(tables := after.tables)
            && (table in db.tables ==> after.tables[table] == db.tables[table])
  {
    if targets != [] {
      StatementsLeaveOtherTables(db, targets[..|targets| - 1], plan, orgIds, userId, refused, table);
    }
  }

  /** The next statement of a list finds its table as it was before the first. */
  lemma StatementsStep(db: Db, targets: seq<Target>, i: nat, plan: Plan, orgIds: set<string>, userId: string,
                       refused: set<Table>)
    requires plan.successorId.Some? && i < |targets| && DistinctTables(targets)
    ensures var now := Statements(db, targets[..i], plan, orgIds, userId, refused);
            && Statements(db, targets[..i + 1], plan, orgIds, userId, refused) ==
               Statement(now, targets[i], plan, orgIds, userId, refused)
            && ReachedInAll(db, targets[..i + 1], plan, orgIds, userId, refused) ==
               ReachedInAll(db, targets[..i], plan, orgIds, userId, refused)
               + Reached(now, targets[i], plan, orgIds, userId, refused)
  {
    assert targets[..i + 1][..i] == targets[..i];
    StatementsLeaveOtherTables(db, targets[..i], plan, orgIds, userId, refused, targets[i].table);
  }

  lemma PlansStep(db: Db, plans: seq<Plan>, i: nat, userId: string, refused: set<(string, Table)>, content: seq<Target>)
    requires i < |plans|
    ensures var now, plan, tables := AllHandedOver(db, plans[..i], userId, refused, content), plans[i],
                                      RefusedIn(refused, plans[i].tenant.id);
            && AllHandedOver(db, plans[..i + 1], userId, refused, content) ==
               (if plan.successorId.None? then now else HandedOver(now, plan, userId, tables, content))
            && Reassigned(db, plans[..i + 1], userId, refused, content) ==
               Reassigned(db, plans[..i], userId, refused, content)
               + (if plan.successorId.None? then 0
                  else ReachedInAll(now, Existing(now, content), plan, OrgIdsOf(now, plan.tenant.id), userId, tables))
            && Transfers(plans[..i + 1]) == (Transfers(plans[..i]) || Transferred(plan))
  {
    assert plans[..i + 1][..i] == plans[..i];
  }

  /** Moving a Tenant to its new owner changes nothing the content statements look at. */
  lemma SameContent(before: Db, after: Db, plan: Plan, orgIds: set<string>, userId: string, refused: set<Table>,
                    targets: seq<Target>, content: seq<Target>)
    requires plan.successorId.Some?
    requires after == before || after == Reassign(before, plan.tenant.id, plan.successorId.value)
    ensures OrgIdsOf(before, plan.tenant.id) == OrgIdsOf(after, plan.tenant.id)
    ensures Existing(before, content) == Existing(after, content)
    ensures ReachedInAll(before, targets, plan, orgIds, userId, refused) ==
            ReachedInAll(after, targets, plan, orgIds, userId, refused)
  {
    SameExisting(before, after, content);
    SameReached(before, after, plan, orgIds, userId, refused, targets);
  }

  lemma {:induction false} SameReached(before: Db, after: Db, plan: Plan, orgIds: set<string>, userId: string,
                                       refused: set<Table>, targets: seq<Target>)
    requires after.tables == before.tables
    ensures ReachedInAll(before, targets, plan, orgIds, userId, refused) ==
            ReachedInAll(after, targets, plan, orgIds, userId, refused)
  {
    if targets != [] {
      SameReached(before, after, plan, orgIds, userId, refused, targets[..|targets| - 1]);
    }
  }

  lemma SameExisting(before: Db, after: Db, targets: seq<Target>)
    requires after.tables.Keys == before.tables.Keys && after.schema == before.schema
    ensures Existing(before, targets) == Existing(after, targets)
  {
    WhereSame(targets, IsPresent(before), IsPresent(after));
  }

  lemma {:induction false} WhereSame<T(!new)>(s: seq<T>, p: T -> bool, q: T -> bool)
    requires forall x :: x in s ==> p(x) == q(x)
    ensures Where(s, p) == Where(s, q)
  {
    if s != [] {
      WhereSame(s[1..], p, q);
    }
  }
}
