/** What the preview of a deletion announces, against what the deletion reports and what is there afterwards. */
module PreviewOutcome {
  import opened Wrappers
  import opened Database
  import opened Cascade
  import opened Inventory
  import opened AccountDeletion
  import opened KeptContent
  import opened DeletionOutcome

  // ------------------------------------------------------------ preview and execute agree

  /** A change of creators that touches only Works that stay. */
  ghost predicate MovesOnlyKept(before: seq<Row>, after: seq<Row>, userId: string, kept: set<string>) {
    && |after| == |before|
    && forall k :: 0 <= k < |before| ==>
         SamePlace(before[k], after[k])
         && (after[k] == before[k] || (StaysWith(before[k], kept) && after[k].userId != Some(userId)))
  }

  lemma MovesTwice(a: seq<Row>, b: seq<Row>, c: seq<Row>, userId: string, kept: set<string>)
    requires MovesOnlyKept(a, b, userId, kept) && MovesOnlyKept(b, c, userId, kept)
    ensures MovesOnlyKept(a, c, userId, kept)
  {
    forall k | 0 <= k < |a|
      ensures SamePlace(a[k], c[k]) && (c[k] == a[k] || (StaysWith(a[k], kept) && c[k].userId != Some(userId)))
    {
      assert SamePlace(a[k], b[k]) && SamePlace(b[k], c[k]);
    }
  }

  lemma {:induction false} StatementsMoveOnlyKept(db: Db, targets: seq<Target>, plan: Plan, orgIds: set<string>,
                                                  userId: string,
                                                   refused: set<Table>, kept: set<string>)
    requires plan.successorId.Some? && plan.successorId.value != userId && plan.tenant.id in kept
    requires WorksByTenant(targets)
    ensures MovesOnlyKept(WorkRows(db), WorkRows(Statements(db, targets, plan, orgIds, userId, refused)), userId, kept)
  {
    if targets != [] {
      var n := |targets| - 1;
      StatementsMoveOnlyKept(db, targets[..n], plan, orgIds, userId, refused, kept);
      var now := Statements(db, targets[..n], plan, orgIds, userId, refused);
      assert targets[n] in targets;
      assert MovesOnlyKept(WorkRows(now), WorkRows(Statement(now, targets[n], plan, orgIds, userId, refused)), userId,
                           kept);
      MovesTwice(WorkRows(db), WorkRows(now), WorkRows(Statement(now, targets[n], plan, orgIds, userId, refused)),
                 userId, kept);
    }
  }

  lemma HandOverMovesOnlyKept(now: Db, plan: Plan, userId: string, refused: set<Table>, content: seq<Target>,
                              kept: set<string>)
    requires plan.successorId.Some? && plan.successorId.value != userId && plan.tenant.id in kept
             && WorksByTenant(content)
    ensures MovesOnlyKept(WorkRows(now), WorkRows(HandedOver(now, plan, userId, refused, content)), userId, kept)
  {
    var moved := if plan.owned then Reassign(now, plan.tenant.id, plan.successorId.value) else now;
    StatementsMoveOnlyKept(moved, Existing(moved, content), plan, OrgIdsOf(moved, plan.tenant.id), userId, refused,
                           kept);
  }

  /** The hand-overs move only Works that stay. */
  lemma {:induction false} HandOversMoveOnlyKept(db: Db, plans: seq<Plan>, userId: string,
                                                 refused: set<(string, Table)>, content: seq<Target>,
                                                 kept: set<string>)
    requires OtherHands(plans, userId) && WorksByTenant(content) && KeptTenants(plans) <= kept
    ensures MovesOnlyKept(WorkRows(db), WorkRows(AllHandedOver(db, plans, userId, refused, content)), userId, kept)
  {
    if plans != [] {
      var n := |plans| - 1;
      var plan, now := plans[n], AllHandedOver(db, plans[..n], userId, refused, content);
      KeptOfMore(plans, n);
      HandOversMoveOnlyKept(db, plans[..n], userId, refused, content, kept);
      if plan.successorId.Some? {
        HandOverMovesOnlyKept(now, plan, userId, RefusedIn(refused, plan.tenant.id), content, kept);
        MovesTwice(WorkRows(db), WorkRows(now), WorkRows(AllHandedOver(db, plans, userId, refused, content)), userId,
                   kept);
      }
    }
  }

  lemma KeptOfMore(plans: seq<Plan>, n: nat)
    requires n < |plans|
    ensures KeptTenants(plans[..n]) <= KeptTenants(plans)
    ensures plans[n].successorId.Some? ==> plans[n].tenant.id in KeptTenants(plans)
  {
    assert plans[n] in plans;
  }

  lemma {:induction false} SameGoing(before: seq<Row>, after: seq<Row>, userId: string, kept: set<string>)
    requires MovesOnlyKept(before, after, userId, kept)
    ensures Where(Where(after, OwnedBy(userId)), GoesFrom(kept)) ==
            Where(Where(before, OwnedBy(userId)), GoesFrom(kept))
  {
    if before != [] {
      assert forall k :: 0 <= k < |before[1..]| ==> before[1..][k] == before[k + 1] && after[1..][k] == after[k + 1];
      SameGoing(before[1..], after[1..], userId, kept);
      assert SamePlace(before[0], after[0]);
    }
  }

  lemma {:induction false} CountSplits(s: seq<Row>, p: Row -> bool, q: Row -> bool)
    requires forall r :: r in s ==> p(r) != q(r)
    ensures |Where(s, p)| + |Where(s, q)| == |s|
  {
    if s != [] {
      CountSplits(s[1..], p, q);
      assert s[0] in s;
    }
  }

  /**
   * The preview is honest. The hand-overs leave the Works that go as they were; the count reported is the
   * announced one without other people's Works, and with the Works kept it makes up all the account's Works.
   */
  lemma PreviewMatchesExecute(db: Db, user: User, world: World, lists: Lists)
    requires ValidTenants(db) && WorksByTenant(lists.content)
    ensures var plans := PlanWorkspaces(db, user); var kept := KeptTenants(plans);
            var handed := AllHandedOver(db, plans, user.id, world.refused, lists.content);
            var preview, summary := PreviewOf(db, user), SummaryOf(db, user, world, lists);
            && GoingWorks(handed, user.id, kept) == GoingWorks(db, user.id, kept)
            && summary.worksDeleted == preview.worksDeleted - WorkspaceWorks(db, user.id, plans)
            && preview.worksKept + summary.worksDeleted == |OwnWorks(db, user.id)|
  {
    var plans := PlanWorkspaces(db, user);
    var kept := KeptTenants(plans);
    PlansAreSound(db, user);
    SoundPlansUseOtherHands(db, user, plans);
    HandOversMoveOnlyKept(db, plans, user.id, world.refused, lists.content, kept);
    SameGoing(WorkRows(db), WorkRows(AllHandedOver(db, plans, user.id, world.refused, lists.content)), user.id, kept);
    CountSplits(OwnWorks(db, user.id), StaysIn(kept), GoesFrom(kept));
  }

  // ------------------------------------------------------------ preview and what is left

  /** No row with the Work's key is there. */
  predicate IsMissing(final: Db, work: Row) {
    forall other :: other in WorkRows(final) ==> other.id != work.id
  }

  function Missing(final: Db): Row -> bool {
    (w: Row) => IsMissing(final, w)
  }

  ghost predicate WorkGoes(db: Db, user: User, world: World, lists: Lists, work: Row) {
    Reaches(db, Ref(Works, work.id), Going(db, user, world, lists))
  }

  /** Announced as deleted, and there afterwards. */
  ghost function AnnouncedStaying(db: Db, user: User, world: World, lists: Lists): Row -> bool {
    (w: Row) => IsAnnounced(db, user)(w) && !WorkGoes(db, user, world, lists, w)
  }

  /** Not announced as deleted, and gone afterwards. */
  ghost function GoingUnannounced(db: Db, user: User, world: World, lists: Lists): Row -> bool {
    (w: Row) => !IsAnnounced(db, user)(w) && WorkGoes(db, user, world, lists, w)
  }

  lemma MissingMeans(db: Db, user: User, world: World, lists: Lists, work: Row)
    requires Valid(db) && work in WorkRows(db)
    ensures IsMissing(Final(db, user, world, lists), work) <==> WorkGoes(db, user, world, lists, work)
  {
    var k: nat :| k < |db.tables[Works]| && db.tables[Works][k] == work;
    RowStaysIff(db, user, world, lists, Works, k);
    HandedInPlace(db, user, world, lists, Works, k);
    assert Afterwards(db, user, world, lists, Works, work).id == work.id;
  }

  lemma {:induction false} CountExchange(s: seq<Row>, a: Row -> bool, b: Row -> bool, c: Row -> bool,
                                         aNotC: Row -> bool, cNotA: Row -> bool)
    requires forall r :: r in s ==> b(r) == c(r) && aNotC(r) == (a(r) && !c(r)) && cNotA(r) == (!a(r) && c(r))
    ensures |Where(s, b)| + |Where(s, aNotC)| == |Where(s, a)| + |Where(s, cNotA)|
  {
    if s != [] {
      assert s[0] in s && forall r :: r in s[1..] ==> r in s;
      CountExchange(s[1..], a, b, c, aNotC, cNotA);
    }
  }

  /** A Work the hand-overs take over sits in a workspace that stays. */
  lemma TakenWorkStays(db: Db, user: User, world: World, lists: Lists, work: Row)
    requires WorksByTenant(lists.content) && TakenOver(db, user, world, lists, Works, work)
    ensures StaysWith(work, KeptTenants(PlanWorkspaces(db, user)))
  {
    var plans := PlanWorkspaces(db, user);
    var i :| 0 <= i < |plans| && Takes(db, plans[i], world.refused, lists.content, Works, work);
    var t :| t in Existing(db, lists.content) && t.table == Works
             && InScope(work, t.scope, plans[i].tenant.id, OrgIdsOf(db, plans[i].tenant.id));
    assert t in lists.content;
    assert plans[i] in plans;
  }

  /** Where Works go with their creator, the account's announced Works do go. */
  lemma OwnAnnouncedGo(db: Db, user: User, world: World, lists: Lists, work: Row)
    requires Valid(db) && DistinctTables(lists.content) && WorksByTenant(lists.content) && work in WorkRows(db)
    requires SchemaOf(db.schema, Works).creator.Cascade?
    requires IsAnnounced(db, user)(work) && work.userId == Some(user.id)
    ensures WorkGoes(db, user, world, lists, work)
  {
    assert !TakenOver(db, user, world, lists, Works, work) by {
      if TakenOver(db, user, world, lists, Works, work) {
        TakenWorkStays(db, user, world, lists, work);
      }
    }
    UntakenGoes(db, user, world, lists, Works, work);
  }

  /**
   * The announced number, against the Works that are missing afterwards. The two differ by the announced Works that
   * stay and the others that go: they are equal if and only if these are as many as those. Where Works go with their
   * creator, the announced Works that stay are other people's.
   */
  lemma AnnouncedAgainstMissing(db: Db, user: User, world: World, lists: Lists)
    requires Valid(db) && DistinctTables(lists.content) && WorksByTenant(lists.content)
    ensures var works, preview := WorkRows(db), PreviewOf(db, user);
            var missing := |Where(works, Missing(Final(db, user, world, lists)))|;
            var staying := |Where(works, AnnouncedStaying(db, user, world, lists))|;
            var unannounced := |Where(works, GoingUnannounced(db, user, world, lists))|;
            && missing + staying == preview.worksDeleted + unannounced
            && (missing == preview.worksDeleted <==> staying == unannounced)
    ensures SchemaOf(db.schema, Works).creator.Cascade? ==>
              forall w :: w in WorkRows(db) && AnnouncedStaying(db, user, world, lists)(w) ==> w.userId != Some(user.id)
  {
    var works, final := WorkRows(db), Final(db, user, world, lists);
    ghost var goes: Row -> bool := (w: Row) => WorkGoes(db, user, world, lists, w);
    forall w | w in works ensures Missing(final)(w) == goes(w) {
      MissingMeans(db, user, world, lists, w);
    }
    PreviewCounts(db, user);
    CountExchange(works, IsAnnounced(db, user), Missing(final), goes, AnnouncedStaying(db, user, world, lists),
                  GoingUnannounced(db, user, world, lists));
    if SchemaOf(db.schema, Works).creator.Cascade? {
      forall w | w in works && AnnouncedStaying(db, user, world, lists)(w) ensures w.userId != Some(user.id) {
        if w.userId == Some(user.id) {
          OwnAnnouncedGo(db, user, world, lists, w);
        }
      }
    }
  }

  // ------------------------------------------------------------ with the keys Works have

  /**
   * Works as the migrations leave them: they are content by Tenant, go with their creator, forget a Tenant or an
   * Organization that goes, and hang on nothing else.
   */
  ghost predicate UsualWorks(db: Db, lists: Lists) {
    var keys := SchemaOf(db.schema, Works);
    && Target(Works, ByTenant) in lists.content && WorksByTenant(lists.content)
    && Works in db.tables && ByTenant in keys.scopes
    && keys.creator.Cascade? && !keys.tenant.Cascade? && !keys.organization.Cascade?
    && forall w :: w in db.tables[Works] ==> w.parents == {}
  }

  lemma WorkIsTakenIff(db: Db, user: User, world: World, lists: Lists, work: Row)
    requires UsualWorks(db, lists)
    ensures TakenOver(db, user, world, lists, Works, work) <==>
              && StaysWith(work, KeptTenants(PlanWorkspaces(db, user)))
              && (work.tenantId.value, Works) !in world.refused
  {
    if TakenOver(db, user, world, lists, Works, work) {
      TakenWorkStays(db, user, world, lists, work);
      TakenWorkIsNotRefused(db, user, world, lists, work);
    }
    if StaysWith(work, KeptTenants(PlanWorkspaces(db, user))) && (work.tenantId.value, Works) !in world.refused {
      KeptWorkIsTaken(db, user, world, lists, work);
    }
  }

  lemma WorkIsCovered(db: Db, lists: Lists, work: Row)
    requires UsualWorks(db, lists) && work.tenantId.Some?
    ensures Covered(db, work, Works, work.tenantId.value, lists.content)
  {
    var target := Target(Works, ByTenant);
    assert IsPresent(db)(target) && target in Existing(db, lists.content);
    assert InScope(work, target.scope, work.tenantId.value, OrgIdsOf(db, work.tenantId.value));
  }

  lemma KeptWorkIsTaken(db: Db, user: User, world: World, lists: Lists, work: Row)
    requires UsualWorks(db, lists) && StaysWith(work, KeptTenants(PlanWorkspaces(db, user)))
    requires (work.tenantId.value, Works) !in world.refused
    ensures TakenOver(db, user, world, lists, Works, work)
  {
    var plans := PlanWorkspaces(db, user);
    WorkIsCovered(db, lists, work);
    var plan :| plan in plans && plan.successorId.Some? && plan.tenant.id == work.tenantId.value;
    var i :| 0 <= i < |plans| && plans[i] == plan;
    assert Takes(db, plans[i], world.refused, lists.content, Works, work);
  }

  lemma TakenWorkIsNotRefused(db: Db, user: User, world: World, lists: Lists, work: Row)
    requires WorksByTenant(lists.content) && TakenOver(db, user, world, lists, Works, work)
    ensures work.tenantId.Some? && (work.tenantId.value, Works) !in world.refused
  {
    var plans := PlanWorkspaces(db, user);
    var i :| 0 <= i < |plans| && Takes(db, plans[i], world.refused, lists.content, Works, work);
    var t :| t in Existing(db, lists.content) && t.table == Works
             && InScope(work, t.scope, plans[i].tenant.id, OrgIdsOf(db, plans[i].tenant.id));
    assert t in lists.content;
  }

  /** Such a Work goes exactly when it is the account's and nobody takes it over. */
  lemma UsualWorkGoes(db: Db, user: User, world: World, lists: Lists, work: Row)
    requires Valid(db) && DistinctTables(lists.content) && UsualWorks(db, lists) && work in WorkRows(db)
    ensures WorkGoes(db, user, world, lists, work) <==>
              work.userId == Some(user.id) && !TakenOver(db, user, world, lists, Works, work)
  {
    var k: nat :| k < |db.tables[Works]| && db.tables[Works][k] == work;
    LoneRowStays(db, user, world, lists, Works, k);
    SafeAncestors(db, user, world, lists, Ref(Works, work.id));
    assert OtherKeys(work, SchemaOf(db.schema, Works)) == {};
  }

  /** The account's Works in workspaces that stay, whose hand-over statement was refused. */
  function RefusedOwnWorks(db: Db, user: User, world: World): Row -> bool {
    var kept := KeptTenants(PlanWorkspaces(db, user));
    (w: Row) => w.userId == Some(user.id) && StaysWith(w, kept) && (w.tenantId.value, Works) in world.refused
  }

  /** Which Works the preview gets wrong. */
  lemma UsualExceptions(db: Db, user: User, world: World, lists: Lists, work: Row)
    requires Valid(db) && DistinctTables(lists.content) && UsualWorks(db, lists) && work in WorkRows(db)
    ensures AnnouncedStaying(db, user, world, lists)(work) <==>
              OthersIn(user.id, UnplacedTenants(PlanWorkspaces(db, user)))(work)
    ensures GoingUnannounced(db, user, world, lists)(work) <==> RefusedOwnWorks(db, user, world)(work)
  {
    var plans := PlanWorkspaces(db, user);
    var kept, unplaced := KeptTenants(plans), UnplacedTenants(plans);
    UsualWorkGoes(db, user, world, lists, work);
    WorkIsTakenIff(db, user, world, lists, work);
    assert IsAnnounced(db, user)(work) <==>
      || (work.userId == Some(user.id) && !StaysWith(work, kept)) || OthersIn(user.id, unplaced)(work);
    assert WorkGoes(db, user, world, lists, work) <==>
      work.userId == Some(user.id) && !(StaysWith(work, kept) && (work.tenantId.value, Works) !in world.refused);
  }

  /**
   * The preview against what is missing, with the keys Works have. Announced and there afterwards are exactly other
   * people's Works in workspaces that go; gone unannounced are exactly the account's Works in workspaces that stay,
   * where the statement was refused. So the announced number is that of the missing Works if and only if these are as
   * many as those, and what the deletion reports is that number but for the refused.
   */
  lemma AnnouncedUnderUsualKeys(db: Db, user: User, world: World, lists: Lists)
    requires Valid(db) && DistinctTables(lists.content) && UsualWorks(db, lists)
    ensures var works, plans, preview := WorkRows(db), PlanWorkspaces(db, user), PreviewOf(db, user);
            var missing := |Where(works, Missing(Final(db, user, world, lists)))|;
            var refused := |Where(works, RefusedOwnWorks(db, user, world))|;
            && missing + WorkspaceWorks(db, user.id, plans) == preview.worksDeleted + refused
            && (missing == preview.worksDeleted <==> WorkspaceWorks(db, user.id, plans) == refused)
            && missing == SummaryOf(db, user, world, lists).worksDeleted + refused
  {
    var works, plans := WorkRows(db), PlanWorkspaces(db, user);
    forall w | w in works
      ensures AnnouncedStaying(db, user, world, lists)(w) == OthersIn(user.id, UnplacedTenants(plans))(w)
      ensures GoingUnannounced(db, user, world, lists)(w) == RefusedOwnWorks(db, user, world)(w)
    {
      UsualExceptions(db, user, world, lists, w);
    }
    AnnouncedAgainstMissing(db, user, world, lists);
    WhereSame(works, AnnouncedStaying(db, user, world, lists), OthersIn(user.id, UnplacedTenants(plans)));
    WhereSame(works, GoingUnannounced(db, user, world, lists), RefusedOwnWorks(db, user, world));
    PreviewMatchesExecute(db, user, world, lists);
  }
}
