/**
 * The numbers a deletion reports, against the rows they speak of in the database before it, in what the hand-overs made
 * of it and in what is left.
 */
module DeletionCounts {
  import opened Wrappers
  import opened Database
  import opened Cascade
  import opened Inventory
  import opened AccountDeletion
  import opened DeletionPhases
  import opened KeptContent
  import opened DeletionOutcome
  import opened DeletionIntegrity
  import opened DeletionFailure
  import opened PreviewOutcome
  import opened Succession

  /** A place in the database: a table, and the index of one of its rows. */
  type Place = (Table, nat)

  // ------------------------------------------------------------ counting places

  /** The indices at which a list satisfies a condition. */
  ghost function Indices<T(!new)>(s: seq<T>, p: T -> bool): set<nat> {
    set k: nat | k < |s| && p(s[k])
  }

  lemma IndicesSnoc<T(!new)>(s: seq<T>, n: nat, p: T -> bool)
    requires n < |s|
    ensures Indices(s[..n + 1], p) == Indices(s[..n], p) + if p(s[n]) then {n} else {}
    ensures n !in Indices(s[..n], p)
  {
  }

  /** A query counts what satisfies its condition, each once. */
  lemma {:induction false} WhereCounts<T(!new)>(s: seq<T>, n: nat, p: T -> bool)
    requires n <= |s|
    ensures |Where(s[..n], p)| == |Indices(s[..n], p)|
  {
    if n == 0 {
      assert Indices(s[..0], p) == {};
    } else {
      WhereCounts(s, n - 1, p);
      assert s[..n] == s[..n - 1] + [s[n - 1]];
      WhereSnoc(s[..n - 1], s[n - 1], p);
      IndicesSnoc(s, n - 1, p);
    }
  }

  lemma WhereCountsAll<T(!new)>(s: seq<T>, p: T -> bool)
    ensures |Where(s, p)| == |Indices(s, p)|
  {
    WhereCounts(s, |s|, p);
    assert s[..|s|] == s;
  }

  ghost function PlacesAt(table: Table, indices: set<nat>): set<Place> {
    set k | k in indices :: (table, k)
  }

  lemma {:induction false} AsManyPlaces(table: Table, indices: set<nat>)
    ensures |PlacesAt(table, indices)| == |indices|
  {
    if indices == {} {
      assert PlacesAt(table, indices) == {};
    } else {
      var k :| k in indices;
      AsManyPlaces(table, indices - {k});
      assert PlacesAt(table, indices) == PlacesAt(table, indices - {k}) + {(table, k)};
    }
  }

  // ------------------------------------------------------------ rows that change hands

  /** The places of the account's rows that some statement of the list reaches. */
  ghost function ReachedPlaces(db: Db, targets: seq<Target>, tenantId: string, orgIds: set<string>, userId: string,
                               refused: set<Table>): set<Place> {
    set table, k: nat | table in db.tables && table !in refused && k < |db.tables[table]|
                        && db.tables[table][k].userId == Some(userId)
                        && ReachedBy(db.tables[table][k], table, targets, tenantId, orgIds) :: (table, k)
  }

  /** What one statement reaches. */
  lemma ReachedByOne(db: Db, target: Target, plan: Plan, orgIds: set<string>, userId: string, refused: set<Table>)
    ensures Reached(db, target, plan, orgIds, userId, refused) ==
            |ReachedPlaces(db, [target], plan.tenant.id, orgIds, userId, refused)|
  {
    var table, places := target.table, ReachedPlaces(db, [target], plan.tenant.id, orgIds, userId, refused);
    if table in db.tables && table !in refused && !(target.scope.ByOrganization? && orgIds == {}) {
      var p: Row -> bool := (r: Row) => r.userId == Some(userId) && InScope(r, target.scope, plan.tenant.id, orgIds);
      WhereCountsAll(db.tables[table], p);
      AsManyPlaces(table, Indices(db.tables[table], p));
      assert places == PlacesAt(table, Indices(db.tables[table], p)) by {
        forall k: nat | k < |db.tables[table]|
          ensures ReachedBy(db.tables[table][k], table, [target], plan.tenant.id, orgIds) <==>
                    InScope(db.tables[table][k], target.scope, plan.tenant.id, orgIds)
        {
          ReachedBySnoc(db.tables[table][k], table, [target], plan.tenant.id, orgIds);
        }
      }
    } else {
      assert places == {};
    }
  }

  /** The statements count each row of the account they reach, once. */
  lemma {:induction false} ReachedInAllCounts(db: Db, targets: seq<Target>, plan: Plan, orgIds: set<string>,
                                              userId: string, refused: set<Table>)
    requires DistinctTables(targets)
    ensures ReachedInAll(db, targets, plan, orgIds, userId, refused) ==
            |ReachedPlaces(db, targets, plan.tenant.id, orgIds, userId, refused)|
  {
    if targets == [] {
      assert ReachedPlaces(db, targets, plan.tenant.id, orgIds, userId, refused) == {};
    } else {
      var n := |targets| - 1;
      ReachedInAllCounts(db, targets[..n], plan, orgIds, userId, refused);
      ReachedByOne(db, targets[n], plan, orgIds, userId, refused);
      ReachedPlacesSnoc(db, targets, plan.tenant.id, orgIds, userId, refused);
    }
  }

  lemma ReachedPlacesSnoc(db: Db, targets: seq<Target>, tenantId: string, orgIds: set<string>, userId: string,
                          refused: set<Table>)
    requires targets != [] && DistinctTables(targets)
    ensures var n := |targets| - 1;
            var before := ReachedPlaces(db, targets[..n], tenantId, orgIds, userId, refused);
            var last := ReachedPlaces(db, [targets[n]], tenantId, orgIds, userId, refused);
            ReachedPlaces(db, targets, tenantId, orgIds, userId, refused) == before + last && before !! last
  {
    var n := |targets| - 1;
    forall table, k: nat | table in db.tables && k < |db.tables[table]|
      ensures ReachedBy(db.tables[table][k], table, targets, tenantId, orgIds) <==>
              || ReachedBy(db.tables[table][k], table, targets[..n], tenantId, orgIds)
              || ReachedBy(db.tables[table][k], table, [targets[n]], tenantId, orgIds)
    {
      ReachedBySnoc(db.tables[table][k], table, targets, tenantId, orgIds);
      ReachedBySnoc(db.tables[table][k], table, [targets[n]], tenantId, orgIds);
    }
    assert forall t :: t in targets[..n] ==> t.table != targets[n].table;
  }

  /** The places of the account's rows that one of the first n plans takes. */
  ghost function TakenPlaces(db: Db, plans: seq<Plan>, n: nat, userId: string, refused: set<(string, Table)>,
                             content: seq<Target>): set<Place>
    requires n <= |plans|
  {
    set table, k: nat | table in db.tables && k < |db.tables[table]| && db.tables[table][k].userId == Some(userId)
                        && TakenBefore(db, plans, n, refused, content, table, db.tables[table][k]) :: (table, k)
  }

  ghost predicate TakenBefore(db: Db, plans: seq<Plan>, n: nat, refused: set<(string, Table)>, content: seq<Target>,
                              table: Table, row: Row)
    requires n <= |plans|
  {
    exists i :: 0 <= i < n && Takes(db, plans[i], refused, content, table, row)
  }

  lemma GoneToSuccessor(db: Db, user: User, plans: seq<Plan>, n: nat, refused: set<(string, Table)>,
                        content: seq<Target>, table: Table, row: Row, i: nat)
    requires ValidOrganizations(db) && DistinctTables(content) && SoundPlans(db, user, plans) && i < n <= |plans|
    requires row.userId == Some(user.id) && Takes(db, plans[i], refused, content, table, row)
    ensures HandedBy(db, plans[..n], user.id, refused, content, table, row).userId != Some(user.id)
  {
    assert SoundPlan(db, user, plans[i]);
    HandedToSuccessor(db, user, plans, n, refused, content, table, row, i);
  }

  lemma StaysTheAccounts(db: Db, plans: seq<Plan>, n: nat, userId: string, refused: set<(string, Table)>,
                         content: seq<Target>, table: Table, row: Row)
    requires n <= |plans|
    requires row.userId != Some(userId) || !TakenBefore(db, plans, n, refused, content, table, row)
    ensures HandedBy(db, plans[..n], userId, refused, content, table, row) == row
  {
    HandedToNobody(db, plans[..n], userId, refused, content, table, row);
  }

  /** What the first n hand-overs make of a row is still the account's if it was and none of them takes it. */
  lemma StillTheAccounts(db: Db, user: User, plans: seq<Plan>, n: nat, refused: set<(string, Table)>,
                         content: seq<Target>, table: Table, row: Row)
    requires ValidOrganizations(db) && DistinctTables(content) && SoundPlans(db, user, plans) && n <= |plans|
    ensures var now := HandedBy(db, plans[..n], user.id, refused, content, table, row);
            && (now.userId == Some(user.id) <==>
                  row.userId == Some(user.id) && !TakenBefore(db, plans, n, refused, content, table, row))
            && (now.userId == Some(user.id) || row.userId != Some(user.id) ==> now == row)
  {
    if row.userId == Some(user.id) && TakenBefore(db, plans, n, refused, content, table, row) {
      var i :| 0 <= i < n && Takes(db, plans[i], refused, content, table, row);
      GoneToSuccessor(db, user, plans, n, refused, content, table, row, i);
    } else {
      StaysTheAccounts(db, plans, n, user.id, refused, content, table, row);
    }
  }

  /** What the n-th hand-over finds at a place. */
  lemma FoundAtPlace(db: Db, user: User, plans: seq<Plan>, n: nat, refused: set<(string, Table)>,
                     content: seq<Target>, table: Table, k: nat)
    requires ValidOrganizations(db) && DistinctTables(content) && SoundPlans(db, user, plans) && n <= |plans|
    requires table in db.tables && k < |db.tables[table]|
    ensures var now := AllHandedOver(db, plans[..n], user.id, refused, content); var row := db.tables[table][k];
            && table in now.tables && k < |now.tables[table]|
            && SamePlace(row, now.tables[table][k])
            && (now.tables[table][k].userId == Some(user.id) <==>
                  row.userId == Some(user.id) && !TakenBefore(db, plans, n, refused, content, table, row))
            && (now.tables[table][k].userId == Some(user.id) || row.userId != Some(user.id) ==>
                  now.tables[table][k] == row)
  {
    RowHandedUntil(db, user, plans, n, refused, content, table, k);
    HandedKeepsPlace(db, plans[..n], user.id, refused, content, table, db.tables[table][k]);
    StillTheAccounts(db, user, plans, n, refused, content, table, db.tables[table][k]);
  }

  /** A hand-over reaches the account's rows its plan takes, and finds all of them still the account's. */
  lemma HandOverReaches(db: Db, user: User, plans: seq<Plan>, n: nat, refused: set<(string, Table)>,
                        content: seq<Target>)
    requires ValidOrganizations(db) && DistinctTables(content) && SoundPlans(db, user, plans) && n < |plans|
    requires plans[n].successorId.Some?
    ensures var now, plan := AllHandedOver(db, plans[..n], user.id, refused, content), plans[n];
            var step := ReachedPlaces(now, Existing(now, content), plan.tenant.id, OrgIdsOf(now, plan.tenant.id),
                                      user.id, RefusedIn(refused, plan.tenant.id));
            && TakenPlaces(db, plans, n + 1, user.id, refused, content) ==
               TakenPlaces(db, plans, n, user.id, refused, content) + step
            && TakenPlaces(db, plans, n, user.id, refused, content) !! step
  {
    var now, plan := AllHandedOver(db, plans[..n], user.id, refused, content), plans[n];
    var tables := RefusedIn(refused, plan.tenant.id);
    var targets, orgIds := Existing(now, content), OrgIdsOf(now, plan.tenant.id);
    AllHandOversKeepPlaces(db, plans[..n], user.id, refused, content);
    SameExisting(db, now, content);
    forall table, k: nat | table in db.tables && k < |db.tables[table]|
      ensures (table, k) in ReachedPlaces(now, targets, plan.tenant.id, orgIds, user.id, tables) <==>
              && db.tables[table][k].userId == Some(user.id)
              && Takes(db, plan, refused, content, table, db.tables[table][k])
              && !TakenBefore(db, plans, n, refused, content, table, db.tables[table][k])
    {
      FoundAtPlace(db, user, plans, n, refused, content, table, k);
      SameCover(db, db.tables[table][k], now.tables[table][k], table, plan.tenant.id, content);
      assert (plan.tenant.id, table) in refused <==> table in tables;
    }
    assert SameTables(db, now);
  }

  ghost predicate SameTables(before: Db, after: Db) {
    && after.tables.Keys == before.tables.Keys
    && forall table :: table in before.tables ==> |after.tables[table]| == |before.tables[table]|
  }

  /** What one hand-over adds to the count. */
  lemma HandOverCounts(db: Db, user: User, plans: seq<Plan>, n: nat, refused: set<(string, Table)>,
                       content: seq<Target>)
    requires ValidOrganizations(db) && DistinctTables(content) && SoundPlans(db, user, plans) && n < |plans|
    requires plans[n].successorId.Some?
    ensures var now, plan := AllHandedOver(db, plans[..n], user.id, refused, content), plans[n];
            |TakenPlaces(db, plans, n + 1, user.id, refused, content)| ==
            |TakenPlaces(db, plans, n, user.id, refused, content)|
            + ReachedInAll(now, Existing(now, content), plan, OrgIdsOf(now, plan.tenant.id), user.id,
                           RefusedIn(refused, plan.tenant.id))
  {
    var now, plan := AllHandedOver(db, plans[..n], user.id, refused, content), plans[n];
    HandOverReaches(db, user, plans, n, refused, content);
    WhereKeepsDistinct(content, IsPresent(now));
    ReachedInAllCounts(now, Existing(now, content), plan, OrgIdsOf(now, plan.tenant.id), user.id,
                       RefusedIn(refused, plan.tenant.id));
  }

  lemma NoHandOverCounts(db: Db, plans: seq<Plan>, n: nat, userId: string, refused: set<(string, Table)>,
                         content: seq<Target>)
    requires n < |plans| && plans[n].successorId.None?
    ensures TakenPlaces(db, plans, n + 1, userId, refused, content) ==
            TakenPlaces(db, plans, n, userId, refused, content)
  {
  }

  lemma NothingTaken(db: Db, plans: seq<Plan>, userId: string, refused: set<(string, Table)>, content: seq<Target>)
    ensures TakenPlaces(db, plans, 0, userId, refused, content) == {}
  {
  }

  /** One plan more adds to the count what it adds to the places taken. */
  lemma NextPlanCounts(db: Db, user: User, plans: seq<Plan>, n: nat, refused: set<(string, Table)>,
                       content: seq<Target>)
    requires ValidOrganizations(db) && DistinctTables(content) && SoundPlans(db, user, plans) && n < |plans|
    requires Reassigned(db, plans[..n], user.id, refused, content) ==
             |TakenPlaces(db, plans, n, user.id, refused, content)|
    ensures Reassigned(db, plans[..n + 1], user.id, refused, content) ==
            |TakenPlaces(db, plans, n + 1, user.id, refused, content)|
  {
    PlansStep(db, plans, n, user.id, refused, content);
    if plans[n].successorId.Some? {
      HandOverCounts(db, user, plans, n, refused, content);
    } else {
      NoHandOverCounts(db, plans, n, user.id, refused, content);
    }
  }

  lemma NothingReassigned(db: Db, plans: seq<Plan>, userId: string, refused: set<(string, Table)>, content: seq<Target>)
    ensures Reassigned(db, plans[..0], userId, refused, content) == 0
  {
    assert plans[..0] == [];
  }

  /** The hand-overs count the account's rows that some plan takes, each once. */
  lemma {:induction false} ReassignedCounts(db: Db, user: User, plans: seq<Plan>, n: nat, refused: set<(string, Table)>,
                                            content: seq<Target>)
    requires ValidOrganizations(db) && DistinctTables(content) && SoundPlans(db, user, plans) && n <= |plans|
    ensures Reassigned(db, plans[..n], user.id, refused, content) ==
            |TakenPlaces(db, plans, n, user.id, refused, content)|
  {
    if n == 0 {
      NothingReassigned(db, plans, user.id, refused, content);
      NothingTaken(db, plans, user.id, refused, content);
    } else {
      ReassignedCounts(db, user, plans, n - 1, refused, content);
      NextPlanCounts(db, user, plans, n - 1, refused, content);
    }
  }

  /** The places whose row has another creator. */
  ghost function Moved(before: Db, after: Db): set<Place> {
    set table, k: nat | table in before.tables && table in after.tables && k < |before.tables[table]|
                        && k < |after.tables[table]|
                        && after.tables[table][k].userId != before.tables[table][k].userId :: (table, k)
  }

  /** The places of the account's rows some plan takes over. */
  ghost function TakenOverPlaces(db: Db, user: User, world: World, lists: Lists): set<Place> {
    set table, k: nat | table in db.tables && k < |db.tables[table]| && db.tables[table][k].userId == Some(user.id)
                        && TakenOver(db, user, world, lists, table, db.tables[table][k]) :: (table, k)
  }

  ghost predicate IsPlace(db: Db, place: Place) {
    place.0 in db.tables && place.1 < |db.tables[place.0]|
  }

  lemma MovedIsTaken(db: Db, user: User, plans: seq<Plan>, refused: set<(string, Table)>, content: seq<Target>,
                     place: Place)
    requires ValidOrganizations(db) && DistinctTables(content) && SoundPlans(db, user, plans) && IsPlace(db, place)
    ensures place in Moved(db, AllHandedOver(db, plans, user.id, refused, content)) <==>
              place in TakenPlaces(db, plans, |plans|, user.id, refused, content)
  {
    FoundAtPlace(db, user, plans, |plans|, refused, content, place.0, place.1);
    assert plans[..|plans|] == plans;
  }

  lemma MovedAreTaken(db: Db, user: User, plans: seq<Plan>, refused: set<(string, Table)>, content: seq<Target>)
    requires ValidOrganizations(db) && DistinctTables(content) && SoundPlans(db, user, plans)
    ensures Moved(db, AllHandedOver(db, plans, user.id, refused, content)) ==
            TakenPlaces(db, plans, |plans|, user.id, refused, content)
  {
    var moved := Moved(db, AllHandedOver(db, plans, user.id, refused, content));
    var taken := TakenPlaces(db, plans, |plans|, user.id, refused, content);
    assert forall place :: place in moved || place in taken ==> IsPlace(db, place);
    forall place: Place | IsPlace(db, place) ensures place in moved <==> place in taken {
      MovedIsTaken(db, user, plans, refused, content, place);
    }
  }

  /** The hand-overs of sound plans count the rows that have another creator after them, each once. */
  lemma HandOversCountMoved(db: Db, user: User, plans: seq<Plan>, refused: set<(string, Table)>, content: seq<Target>)
    requires ValidOrganizations(db) && DistinctTables(content) && SoundPlans(db, user, plans)
    ensures Reassigned(db, plans, user.id, refused, content) ==
            |Moved(db, AllHandedOver(db, plans, user.id, refused, content))|
  {
    ReassignedCounts(db, user, plans, |plans|, refused, content);
    assert plans[..|plans|] == plans;
    MovedAreTaken(db, user, plans, refused, content);
  }

  lemma TakenBeforeTheEnd(db: Db, user: User, world: World, lists: Lists)
    ensures var plans := PlanWorkspaces(db, user);
            TakenPlaces(db, plans, |plans|, user.id, world.refused, lists.content) ==
            TakenOverPlaces(db, user, world, lists)
  {
  }

  /**
   * The rows reported as handed over are the rows that have another creator after the hand-overs, each counted once;
   * these are the account's rows that some plan takes over.
   */
  lemma ContentReassignedCounts(db: Db, user: User, world: World, lists: Lists)
    requires ValidTenants(db) && ValidOrganizations(db) && DistinctTables(lists.content)
    ensures var handed := AllHandedOver(db, PlanWorkspaces(db, user), user.id, world.refused, lists.content);
            && SummaryOf(db, user, world, lists).contentReassigned == |Moved(db, handed)|
            && Moved(db, handed) == TakenOverPlaces(db, user, world, lists)
  {
    var plans := PlanWorkspaces(db, user);
    PlansAreSound(db, user);
    HandOversCountMoved(db, user, plans, world.refused, lists.content);
    MovedAreTaken(db, user, plans, world.refused, lists.content);
    TakenBeforeTheEnd(db, user, world, lists);
  }

  // ------------------------------------------------------------ Organizations, Tenants and memberships

  /** A plan by which its Tenant goes. */
  predicate Abandons(plan: Plan) {
    plan.successorId.None? && plan.owned
  }

  lemma OnePlanMore(plans: seq<Plan>, plan: Plan)
    ensures OrganizationsOf(plans + [plan]) ==
            OrganizationsOf(plans) + if Abandons(plan) then |plan.organizations| else 0
    ensures Transfers(plans + [plan]) <==> Transfers(plans) || Transferred(plan)
    ensures GoingTenants(plans + [plan]) == GoingTenants(plans) + if Abandons(plan) then {plan.tenant.id} else {}
  {
    assert (plans + [plan])[..|plans|] == plans;
    assert forall p :: p in plans + [plan] <==> p in plans || p == plan;
  }

  lemma OnePlanCounts(own: seq<Plan>)
    requires |own| <= 1
    ensures OrganizationsOf(own) == if own != [] && Abandons(own[0]) then |own[0].organizations| else 0
    ensures GoingTenants(own) == if own != [] && Abandons(own[0]) then {own[0].tenant.id} else {}
    ensures Transfers(own) <==> own != [] && Transferred(own[0])
  {
    if own != [] {
      OnePlanMore([], own[0]);
      assert [] + [own[0]] == own;
    }
  }

  /** Of two plans only the first speaks of a Tenant of the account's own. */
  lemma TwoPlansCount(own: seq<Plan>, other: seq<Plan>)
    requires |own| <= 1 && |other| <= 1 && (other != [] ==> !other[0].owned)
    ensures OrganizationsOf(own + other) == OrganizationsOf(own)
    ensures GoingTenants(own + other) == GoingTenants(own)
    ensures Transfers(own + other) <==> Transfers(own)
  {
    if other != [] {
      OnePlanMore(own, other[0]);
      assert own + [other[0]] == own + other;
    } else {
      assert own + other == own;
    }
  }

  /** What the plans say of the account's own Tenant, if it has one. */
  lemma OwnTenantPlanned(db: Db, user: User)
    ensures var plans, owned := PlanWorkspaces(db, user), OwnedTenant(db, user);
            var goes := owned.Some? && SuccessorOf(db, owned.value, user, true).None?;
            && GoingTenants(plans) == (if goes then {owned.value.id} else {})
            && (Transfers(plans) <==> owned.Some? && !goes)
            && OrganizationsOf(plans) ==
               if goes then |Where(db.organizations, (o: Organization) => o.tenantId == owned.value.id)| else 0
  {
    var owned, joined := OwnedTenant(db, user), JoinedTenant(db, user);
    var own := if owned.Some? then [PlanFor(db, owned.value, user, true)] else [];
    var other := if joined.Some? then [PlanFor(db, joined.value, user, false)] else [];
    OnePlanCounts(own);
    TwoPlansCount(own, other);
  }

  /** Organizations of a Tenant that goes. */
  function OrganizationGoes(going: set<string>): Organization -> bool {
    (o: Organization) => o.tenantId in going
  }

  lemma OrganizationsPlanned(db: Db, user: User)
    ensures OrganizationsOf(PlanWorkspaces(db, user)) ==
            |Where(db.organizations, OrganizationGoes(GoingTenants(PlanWorkspaces(db, user))))|
  {
    var owned := OwnedTenant(db, user);
    var going := GoingTenants(PlanWorkspaces(db, user));
    OwnTenantPlanned(db, user);
    if going == {} {
      NoneOf(db.organizations, OrganizationGoes(going));
    } else {
      WhereSame(db.organizations, (o: Organization) => o.tenantId == owned.value.id, OrganizationGoes(going));
    }
  }

  /** An Organization there was and is not. */
  function IsGoneFrom(final: Db): Organization -> bool {
    (o: Organization) => o !in final.organizations
  }

  /** The Organizations reported as deleted are those of the database before that are not there afterwards. */
  lemma OrganizationsDeletedCounts(db: Db, user: User, world: World, lists: Lists)
    requires ValidTenants(db)
    ensures SummaryOf(db, user, world, lists).organizationsDeleted ==
            |Indices(db.organizations, IsGoneFrom(Final(db, user, world, lists)))|
  {
    var going, final := GoingTenants(PlanWorkspaces(db, user)), Final(db, user, world, lists);
    OrganizationsPlanned(db, user);
    FinalBeside(db, user, world, lists);
    WhereSame(db.organizations, OrganizationGoes(going), IsGoneFrom(final));
    WhereCountsAll(db.organizations, IsGoneFrom(final));
  }

  function IsMemberOf(userId: string): Member -> bool {
    (m: Member) => m.userId == userId
  }

  /** The memberships reported as removed are all the account had, and none of them is there afterwards. */
  lemma MembershipsRemovedCounts(db: Db, user: User, world: World, lists: Lists)
    requires Valid(db)
    ensures SummaryOf(db, user, world, lists).membershipsRemoved == |Indices(db.members, IsMemberOf(user.id))|
    ensures forall k :: k in Indices(db.members, IsMemberOf(user.id)) ==>
              db.members[k] !in Final(db, user, world, lists).members
  {
    BeforeCommitFrame(db, user, world, lists);
    WhereSame(db.members, (m: Member) => m.userId == user.id, IsMemberOf(user.id));
    WhereCountsAll(db.members, IsMemberOf(user.id));
    AccountIsGone(db, user, world, lists);
  }

  /** The account owns the Tenant, and there is somebody in it who can take it over. */
  ghost predicate HasHeir(db: Db, user: User, tenant: Tenant) {
    tenant in db.tenants && tenant.ownerUserId == user.id && exists u :: Eligible(db, tenant, user, u)
  }

  ghost predicate HasNoHeir(db: Db, user: User, tenant: Tenant) {
    tenant in db.tenants && tenant.ownerUserId == user.id && forall u :: !Eligible(db, tenant, user, u)
  }

  /** The Tenant has another owner afterwards. */
  ghost predicate ChangesHands(db: Db, final: Db, tenant: Tenant) {
    && tenant in db.tenants
    && exists after :: after in final.tenants && after.id == tenant.id && after.ownerUserId != tenant.ownerUserId
  }

  lemma HeirMeans(db: Db, user: User)
    requires ValidTenants(db)
    ensures var plans := PlanWorkspaces(db, user);
            && (Transfers(plans) <==> exists t :: HasHeir(db, user, t))
            && (Deletes(plans) <==> exists t :: HasNoHeir(db, user, t))
            && (forall t :: HasHeir(db, user, t) || HasNoHeir(db, user, t) ==>
                  OwnedTenant(db, user) == Some(t)
                  && (HasNoHeir(db, user, t) <==> t.id in GoingTenants(PlanWorkspaces(db, user))))
  {
    OwnTenantPlanned(db, user);
    JoinedIsNotOwned(db, user);
    var owned := OwnedTenant(db, user);
    if owned.Some? {
      SuccessorIsEligible(db, owned.value, user);
      assert HasHeir(db, user, owned.value) || HasNoHeir(db, user, owned.value);
    }
  }

  /** Where a Tenant of the database before is after the hand-overs. */
  lemma TenantAfter(db: Db, user: User, plans: seq<Plan>, tenant: Tenant, k: nat)
    requires ValidTenants(db) && SoundPlans(db, user, plans) && k < |db.tenants| && db.tenants[k] == tenant
    ensures var after := TenantsOf(db, plans, |plans|);
            && |after| == |db.tenants| && after[k].id == tenant.id
            && (forall j :: 0 <= j < |after| && after[j].id == tenant.id ==> j == k)
            && (after[k].ownerUserId != tenant.ownerUserId <==>
                  |plans| > 0 && Transferred(plans[0]) && plans[0].tenant == tenant)
  {
    if |plans| > 0 {
      assert SoundPlan(db, user, plans[0]);
      if Transferred(plans[0]) && plans[0].tenant.id == tenant.id {
        var i :| 0 <= i < |db.tenants| && db.tenants[i] == plans[0].tenant;
      }
    }
  }

  lemma FirstTransfers(db: Db, user: User)
    ensures var plans, owned := PlanWorkspaces(db, user), OwnedTenant(db, user);
            && (|plans| > 0 && Transferred(plans[0]) <==> Transfers(plans))
            && (Transfers(plans) ==> owned.Some? && plans[0].tenant == owned.value)
  {
    OwnTenantPlanned(db, user);
  }

  lemma TenantsAfterAll(db: Db, user: User, plans: seq<Plan>, refused: set<(string, Table)>, content: seq<Target>)
    requires SoundPlans(db, user, plans)
    ensures AllHandedOver(db, plans, user.id, refused, content).tenants == TenantsOf(db, plans, |plans|)
  {
    TenantsAfter(db, user, plans, |plans|, refused, content);
    assert plans[..|plans|] == plans;
  }

  lemma FinalTenants(db: Db, user: User, world: World, lists: Lists)
    requires ValidTenants(db)
    ensures var plans := PlanWorkspaces(db, user);
            && SoundPlans(db, user, plans)
            && Final(db, user, world, lists).tenants ==
               Where(TenantsOf(db, plans, |plans|), (t: Tenant) => t.id !in GoingTenants(plans))
  {
    PlansAreSound(db, user);
    FinalBeside(db, user, world, lists);
    TenantsAfterAll(db, user, PlanWorkspaces(db, user), world.refused, lists.content);
  }

  /** What becomes of one Tenant, by the plans. */
  lemma TenantFate(db: Db, user: User, plans: seq<Plan>, final: Db, tenant: Tenant)
    requires ValidTenants(db) && SoundPlans(db, user, plans) && tenant in db.tenants
    requires final.tenants == Where(TenantsOf(db, plans, |plans|), (t: Tenant) => t.id !in GoingTenants(plans))
    ensures HasTenant(final, tenant.id) <==> tenant.id !in GoingTenants(plans)
    ensures ChangesHands(db, final, tenant) <==>
              && tenant.id !in GoingTenants(plans)
              && |plans| > 0 && Transferred(plans[0]) && plans[0].tenant == tenant
  {
    var k :| 0 <= k < |db.tenants| && db.tenants[k] == tenant;
    TenantAfter(db, user, plans, tenant, k);
    var after := TenantsOf(db, plans, |plans|);
    assert after[k] in after;
    forall t | t in final.tenants && t.id == tenant.id ensures t == after[k] {
      var j :| 0 <= j < |after| && after[j] == t;
    }
  }

  lemma OwnTenantFate(db: Db, user: User, world: World, lists: Lists, tenant: Tenant)
    requires ValidTenants(db) && tenant in db.tenants
    ensures var final := Final(db, user, world, lists);
            && (ChangesHands(db, final, tenant) <==> HasHeir(db, user, tenant))
            && (!HasTenant(final, tenant.id) <==> HasNoHeir(db, user, tenant))
  {
    var plans, final := PlanWorkspaces(db, user), Final(db, user, world, lists);
    FinalTenants(db, user, world, lists);
    TenantFate(db, user, plans, final, tenant);
    FirstTransfers(db, user);
    HeirMeans(db, user);
    GoingIsOwn(db, user, tenant);
  }

  lemma GoingIsOwn(db: Db, user: User, tenant: Tenant)
    requires ValidTenants(db) && tenant in db.tenants
    ensures tenant.id in GoingTenants(PlanWorkspaces(db, user)) <==> HasNoHeir(db, user, tenant)
  {
    HeirMeans(db, user);
    OwnTenantPlanned(db, user);
    if tenant.id in GoingTenants(PlanWorkspaces(db, user)) {
      SameIdSameTenant(db, OwnedTenant(db, user), tenant);
      assert HasHeir(db, user, tenant) || HasNoHeir(db, user, tenant);
    }
  }

  /**
   * A workspace is reported as transferred exactly when some Tenant has another owner afterwards, and as deleted
   * exactly when some Tenant is not there. These are the Tenants of the account's own in which there is somebody, or
   * nobody, who can take them over.
   */
  lemma WorkspaceReported(db: Db, user: User, world: World, lists: Lists)
    requires ValidTenants(db)
    ensures var summary, final := SummaryOf(db, user, world, lists), Final(db, user, world, lists);
            && (summary.workspaceTransferred <==> exists t :: ChangesHands(db, final, t))
            && (summary.workspaceDeleted <==> exists t :: t in db.tenants && !HasTenant(final, t.id))
            && (forall t :: t in db.tenants ==>
                  && (ChangesHands(db, final, t) <==> HasHeir(db, user, t))
                  && (!HasTenant(final, t.id) <==> HasNoHeir(db, user, t)))
  {
    var final := Final(db, user, world, lists);
    forall t | t in db.tenants
      ensures ChangesHands(db, final, t) <==> HasHeir(db, user, t)
      ensures !HasTenant(final, t.id) <==> HasNoHeir(db, user, t)
    {
      OwnTenantFate(db, user, world, lists, t);
    }
    HeirMeans(db, user);
  }

  // ------------------------------------------------------------ sessions and API keys

  /** The account's rows among those that are left after a delete that leaves the account. */
  lemma {:induction false} OwnedLeft(rows: seq<Row>, table: Table, schema: TableSchema, gone: set<Ref>, userId: string,
                                     left: Row -> bool)
    requires UserRef(userId) !in gone
    requires forall r :: left(r) <==> r.userId == Some(userId) && Ref(table, r.id) !in gone
    ensures |Where(Left(rows, table, schema, gone), OwnedBy(userId))| == |Where(rows, left)|
  {
    if rows != [] {
      OwnedLeft(rows[1..], table, schema, gone, userId, left);
      var rest := Left(rows[1..], table, schema, gone);
      if Ref(table, rows[0].id) !in gone {
        var after := Forget(rows[0], schema, gone);
        assert ([after] + rest)[1..] == rest;
        assert OwnedBy(userId)(after) <==> left(rows[0]);
      }
    }
  }

  /**
   * The account's rows of a table that are there when a phase begins: nobody takes them over, and no chain of cascading
   * keys leads from them to a row an earlier phase wanted.
   */
  ghost predicate OwnStill(db: Db, user: User, world: World, lists: Lists, phase: Phase, table: Table, row: Row) {
    && row.userId == Some(user.id) && !TakenOver(db, user, world, lists, table, row)
    && !Reaches(db, Ref(table, row.id), Seeds(db, WantedBefore(db, user, world, lists, phase)))
  }

  ghost function IsOwnStill(db: Db, user: User, world: World, lists: Lists, phase: Phase, table: Table): Row -> bool {
    (row: Row) => OwnStill(db, user, world, lists, phase, table, row)
  }

  lemma {:induction false} SameCount(a: seq<Row>, b: seq<Row>, p: Row -> bool, q: Row -> bool)
    requires |a| == |b| && forall k :: 0 <= k < |a| ==> p(a[k]) == q(b[k])
    ensures |Where(a, p)| == |Where(b, q)|
  {
    if a != [] {
      assert forall k :: 0 <= k < |a[1..]| ==> a[1..][k] == a[k + 1] && b[1..][k] == b[k + 1];
      SameCount(a[1..], b[1..], p, q);
    }
  }

  /** The account's row, as the hand-overs left it, is not among what the earlier phases took. */
  function IsOwnBeside(table: Table, userId: string, gone: set<Ref>): Row -> bool {
    (row: Row) => row.userId == Some(userId) && Ref(table, row.id) !in gone
  }

  lemma OwnStillMeans(db: Db, user: User, world: World, lists: Lists, phase: Phase, table: Table, k: nat)
    requires Valid(db) && DistinctTables(lists.content) && table in db.tables && k < |db.tables[table]|
    ensures var handed := AllHandedOver(db, PlanWorkspaces(db, user), user.id, world.refused, lists.content);
            var gone := Taken(db, WantedBefore(db, user, world, lists, phase));
            && table in handed.tables && k < |handed.tables[table]|
            && (IsOwnBeside(table, user.id, gone)(handed.tables[table][k]) <==>
                  IsOwnStill(db, user, world, lists, phase, table)(db.tables[table][k]))
  {
    HandedAt(db, user, world, lists, table, k);
    HandedMeans(db, user, world, lists, table, db.tables[table][k]);
    DoomedIffReaches(db, Seeds(db, WantedBefore(db, user, world, lists, phase)), Ref(table, db.tables[table][k].id));
  }

  lemma OwnRowsOf(db: Db, user: User, world: World, lists: Lists, phase: Phase, table: Table, handed: Db)
    requires Valid(db) && DistinctTables(lists.content) && table in db.tables && SamePlaces(db, handed)
    requires handed == AllHandedOver(db, PlanWorkspaces(db, user), user.id, world.refused, lists.content)
    ensures var gone := Taken(db, WantedBefore(db, user, world, lists, phase));
            |Where(Without(handed, gone).tables[table], OwnedBy(user.id))| ==
            |Where(db.tables[table], IsOwnStill(db, user, world, lists, phase, table))|
  {
    var gone := Taken(db, WantedBefore(db, user, world, lists, phase));
    DoomedAreRows(db, WantedBefore(db, user, world, lists, phase));
    TableLeft(handed, gone, table);
    OwnedLeft(handed.tables[table], table, SchemaOf(db.schema, table), gone, user.id,
              IsOwnBeside(table, user.id, gone));
    assert SameRows(db.tables[table], handed.tables[table]);
    forall k: nat | k < |db.tables[table]|
      ensures IsOwnBeside(table, user.id, gone)(handed.tables[table][k]) ==
              IsOwnStill(db, user, world, lists, phase, table)(db.tables[table][k])
    {
      OwnStillMeans(db, user, world, lists, phase, table, k);
    }
    SameCount(handed.tables[table], db.tables[table], IsOwnBeside(table, user.id, gone),
              IsOwnStill(db, user, world, lists, phase, table));
  }

  /** What a query for the account's rows counts when a phase begins. */
  lemma OwnRowsCount(db: Db, user: User, world: World, lists: Lists, phase: Phase, table: Table)
    requires Valid(db) && DistinctTables(lists.content) && AfterHandOvers(phase)
    ensures |Where(RowsIn(AtHalt(db, user, world, lists, phase), table), OwnedBy(user.id))| ==
            |Indices(RowsIn(db, table), IsOwnStill(db, user, world, lists, phase, table))|
  {
    HaltPrunes(db, user, world, lists, phase);
    TakenBeforeMeans(db, user, world, lists, phase);
    WhereCountsAll(RowsIn(db, table), IsOwnStill(db, user, world, lists, phase, table));
    if table in db.tables {
      OwnRowsOf(db, user, world, lists, phase, table,
                AllHandedOver(db, PlanWorkspaces(db, user), user.id, world.refused, lists.content));
    }
  }

  /** The sessions reported, if they could be counted, and the API keys: the account's that are there at that point. */
  lemma SessionsAndKeysCount(db: Db, user: User, world: World, lists: Lists)
    requires Valid(db) && DistinctTables(lists.content)
    ensures var summary := SummaryOf(db, user, world, lists);
            && summary.sessionsRevoked ==
               (if !world.sessionsCounted then 0
                else |Indices(RowsIn(db, AuthSessions), IsOwnStill(db, user, world, lists, Revoking, AuthSessions))|)
            && summary.apiKeysRevoked ==
               |Indices(RowsIn(db, ApiKeys), IsOwnStill(db, user, world, lists, Counting, ApiKeys))|
  {
    OwnRowsCount(db, user, world, lists, Revoking, AuthSessions);
    OwnRowsCount(db, user, world, lists, Counting, ApiKeys);
  }

  /** A table the hand-overs, the tear-down and the sweeps have nothing to do with, and whose rows hang on nothing. */
  ghost predicate Apart(db: Db, lists: Lists, table: Table) {
    && table != Works && (forall t :: t in lists.content || t in lists.personal ==> t.table != table)
    && forall row :: row in RowsIn(db, table) ==> row.parents == {}
  }

  lemma ApartIsUnwanted(plot: Plot, phase: Phase, table: Table, row: Row)
    requires table != Works && forall t :: t in plot.personal ==> t.table != table
    requires phase == Revoking || (phase == Counting && table != AuthSessions)
    ensures !DoneBefore(plot, phase)(table, row)
  {
  }

  lemma ApartIsUntouched(db: Db, user: User, world: World, lists: Lists, phase: Phase, table: Table, row: Row)
    requires Apart(db, lists, table) && row in RowsIn(db, table) && row.userId == Some(user.id)
    requires phase == Revoking || (phase == Counting && table != AuthSessions)
    ensures OwnStill(db, user, world, lists, phase, table, row)
  {
    var wanted := Seeds(db, WantedBefore(db, user, world, lists, phase));
    NoParents(db, Ref(table, row.id), wanted);
    forall other: Row ensures !WantedBefore(db, user, world, lists, phase)(table, other) {
      ApartIsUnwanted(PlotOf(db, user, world, lists), phase, table, Handed(db, user, world, lists, table, other));
    }
  }

  /**
   * With sessions and API keys in tables of their own, the sessions reported are all the account had, and the API keys
   * reported are all it had, as many as announced.
   */
  lemma SessionsAndKeysAsAnnounced(db: Db, user: User, world: World, lists: Lists)
    requires Valid(db) && DistinctTables(lists.content) && Apart(db, lists, AuthSessions) && Apart(db, lists, ApiKeys)
    ensures var summary := SummaryOf(db, user, world, lists);
            && summary.apiKeysRevoked == PreviewOf(db, user).apiKeys ==
               |Indices(RowsIn(db, ApiKeys), OwnedBy(user.id))|
            && (world.sessionsCounted ==>
                  summary.sessionsRevoked == |Indices(RowsIn(db, AuthSessions), OwnedBy(user.id))|)
  {
    SessionsAndKeysCount(db, user, world, lists);
    WhereCountsAll(RowsIn(db, ApiKeys), OwnedBy(user.id));
    AllApart(db, user, world, lists, Counting, ApiKeys);
    AllApart(db, user, world, lists, Revoking, AuthSessions);
  }

  lemma SameIndices(rows: seq<Row>, p: Row -> bool, q: Row -> bool)
    requires forall r :: r in rows ==> p(r) == q(r)
    ensures Indices(rows, p) == Indices(rows, q)
  {
    assert forall k :: 0 <= k < |rows| ==> rows[k] in rows;
  }

  lemma AllApart(db: Db, user: User, world: World, lists: Lists, phase: Phase, table: Table)
    requires Apart(db, lists, table) && (phase == Revoking || (phase == Counting && table != AuthSessions))
    ensures Indices(RowsIn(db, table), IsOwnStill(db, user, world, lists, phase, table)) ==
            Indices(RowsIn(db, table), OwnedBy(user.id))
  {
    forall row | row in RowsIn(db, table)
      ensures IsOwnStill(db, user, world, lists, phase, table)(row) == OwnedBy(user.id)(row)
    {
      if row.userId == Some(user.id) {
        ApartIsUntouched(db, user, world, lists, phase, table, row);
      }
    }
    SameIndices(RowsIn(db, table), IsOwnStill(db, user, world, lists, phase, table), OwnedBy(user.id));
  }

  // ------------------------------------------------------------ the whole summary

  /** A Work of the account's outside the workspaces that stay. */
  function IsOwnGoing(userId: string, kept: set<string>): Row -> bool {
    (w: Row) => w.userId == Some(userId) && !StaysWith(w, kept)
  }

  lemma WorksDeletedCounts(db: Db, user: User, world: World, lists: Lists)
    requires ValidTenants(db) && WorksByTenant(lists.content)
    ensures SummaryOf(db, user, world, lists).worksDeleted ==
            |Indices(WorkRows(db), IsOwnGoing(user.id, KeptTenants(PlanWorkspaces(db, user))))|
  {
    var kept := KeptTenants(PlanWorkspaces(db, user));
    PreviewMatchesExecute(db, user, world, lists);
    WhereOfWhere(WorkRows(db), OwnedBy(user.id), GoesFrom(kept), IsOwnGoing(user.id, kept));
    WhereCountsAll(WorkRows(db), IsOwnGoing(user.id, kept));
  }

  /** Every number of the summary is the number of what it speaks of. */
  ghost predicate ReportsTruly(db: Db, user: User, world: World, lists: Lists, final: Db, summary: Summary) {
    && summary.subscriptionsCanceled == world.canceled && summary.filesDeleted == world.files
    && summary.contentReassigned == |TakenOverPlaces(db, user, world, lists)|
    && summary.worksDeleted == |Indices(WorkRows(db), IsOwnGoing(user.id, KeptTenants(PlanWorkspaces(db, user))))|
    && summary.sessionsRevoked ==
       (if !world.sessionsCounted then 0
        else |Indices(RowsIn(db, AuthSessions), IsOwnStill(db, user, world, lists, Revoking, AuthSessions))|)
    && summary.apiKeysRevoked == |Indices(RowsIn(db, ApiKeys), IsOwnStill(db, user, world, lists, Counting, ApiKeys))|
    && summary.membershipsRemoved == |Indices(db.members, IsMemberOf(user.id))|
    && summary.organizationsDeleted == |Indices(db.organizations, IsGoneFrom(final))|
    && (summary.workspaceTransferred <==> exists t :: ChangesHands(db, final, t))
    && (summary.workspaceDeleted <==> exists t :: t in db.tenants && !HasTenant(final, t.id))
  }

  /** The summary of a deletion is true of the database before it and after it. */
  lemma SummaryReportsTruly(db: Db, user: User, world: World, lists: Lists)
    requires Valid(db) && DistinctTables(lists.content) && WorksByTenant(lists.content)
    ensures ReportsTruly(db, user, world, lists, Final(db, user, world, lists), SummaryOf(db, user, world, lists))
  {
    ContentReassignedCounts(db, user, world, lists);
    WorksDeletedCounts(db, user, world, lists);
    SessionsAndKeysCount(db, user, world, lists);
    MembershipsRemovedCounts(db, user, world, lists);
    OrganizationsDeletedCounts(db, user, world, lists);
    WorkspaceReported(db, user, world, lists);
  }
}
