/** What a deletion that fails on the way leaves in the database: the effect of the phases before the failure. */
module DeletionFailure {
  import opened Wrappers
  import opened Database
  import opened Cascade
  import opened Inventory
  import opened AccountDeletion
  import opened DeletionPhases
  import opened KeptContent
  import opened DeletionOutcome
  import opened DeletionIntegrity

  // ------------------------------------------------------------ the phases that are done

  /** What the phases after the hand-overs and before this one delete for its own sake. */
  function DoneBefore(plot: Plot, phase: Phase): Cause {
    match phase
    case Sweeping => TearsDown(plot)
    case Revoking => Either(TearsDown(plot), Sweeps(plot))
    case Counting => Singled(plot)
    case Committing => Singled(plot)
    case _ => Never()
  }

  /** The phases that come after the hand-overs. */
  predicate AfterHandOvers(phase: Phase) {
    phase.TearingDown? || phase.Sweeping? || phase.Revoking? || phase.Counting? || phase.Committing?
  }

  lemma TornDownAlike(handed: Db, plot: Plot)
    requires forall table :: table in handed.tables ==> UniqueIds(handed.tables[table])
    ensures SameCauses(handed, IsTornDown(GoingWorks(handed, plot.userId, plot.kept), plot.tornDown), TearsDown(plot))
  {
    forall table, row | table in handed.tables && row in handed.tables[table]
      ensures IsTornDown(GoingWorks(handed, plot.userId, plot.kept), plot.tornDown)(table, row) ==
              TearsDown(plot)(table, row)
    {
      TornDownMeans(handed, plot, table, row);
    }
  }

  lemma EitherAlike(db: Db, a: Cause, b: Cause, more: Cause)
    requires SameCauses(db, a, b)
    ensures SameCauses(db, Either(a, more), Either(b, more))
  {
  }

  lemma HaltAtSweeping(db: Db, user: User, world: World, lists: Lists)
    requires Valid(db)
    ensures var handed := AllHandedOver(db, PlanWorkspaces(db, user), user.id, world.refused, lists.content);
            AtHalt(db, user, world, lists, Sweeping) ==
            DeleteWhere(handed, DoneBefore(PlotOf(db, user, world, lists), Sweeping))
  {
    var plans, plot := PlanWorkspaces(db, user), PlotOf(db, user, world, lists);
    var handed := AllHandedOver(db, plans, user.id, world.refused, lists.content);
    AllHandOversKeepPlaces(db, plans, user.id, world.refused, lists.content);
    IdsStayUnique(db, handed);
    TornDownAlike(handed, plot);
    var going := GoingWorks(handed, user.id, plot.kept);
    TearDownPrunes(handed, going, world.tornDown);
    TakenAlike(handed, IsTornDown(going, world.tornDown), TearsDown(plot));
  }

  lemma HaltAtRevoking(db: Db, user: User, world: World, lists: Lists)
    requires Valid(db)
    ensures var handed := AllHandedOver(db, PlanWorkspaces(db, user), user.id, world.refused, lists.content);
            AtHalt(db, user, world, lists, Revoking) ==
            DeleteWhere(handed, DoneBefore(PlotOf(db, user, world, lists), Revoking))
  {
    var plans, plot := PlanWorkspaces(db, user), PlotOf(db, user, world, lists);
    var handed := AllHandedOver(db, plans, user.id, world.refused, lists.content);
    AllHandOversKeepPlaces(db, plans, user.id, world.refused, lists.content);
    IdsStayUnique(db, handed);
    SameExisting(db, handed, lists.personal);
    TornDownAlike(handed, plot);
    var going := GoingWorks(handed, user.id, plot.kept);
    var torn := TornDown(db, user, world, lists);
    TearDownPrunes(handed, going, world.tornDown);
    assert OrgsOf(torn, plot.kept) == plot.keptOrgs;
    TearDownAndSweepsPrune(handed, going, world.tornDown, user.id, plot.kept, plot.keptOrgs, world.sweepRefusedFirst,
                           world.sweepRefusedSecond, lists.personal);
    EitherAlike(handed, IsTornDown(going, world.tornDown), TearsDown(plot), Sweeps(plot));
    TakenAlike(handed, Either(IsTornDown(going, world.tornDown), Sweeps(plot)), Either(TearsDown(plot), Sweeps(plot)));
  }

  lemma BeforeCommitPrunes(db: Db, user: User, world: World, lists: Lists)
    requires Valid(db)
    ensures var handed := AllHandedOver(db, PlanWorkspaces(db, user), user.id, world.refused, lists.content);
            BeforeCommit(db, user, world, lists) == DeleteWhere(handed, Singled(PlotOf(db, user, world, lists)))
  {
    var plans, plot := PlanWorkspaces(db, user), PlotOf(db, user, world, lists);
    var handed := AllHandedOver(db, plans, user.id, world.refused, lists.content);
    BeforeCommitFrame(db, user, world, lists);
    IdsStayUnique(db, handed);
    TornDownAlike(handed, plot);
    var torn := IsTornDown(GoingWorks(handed, user.id, plot.kept), world.tornDown);
    EitherAlike(handed, torn, TearsDown(plot), Sweeps(plot));
    EitherAlike(handed, Either(torn, Sweeps(plot)), Either(TearsDown(plot), Sweeps(plot)), IsSession(user.id));
    TakenAlike(handed, NamedBy(handed, plot), Singled(plot));
  }

  lemma HaltAtTheEnd(db: Db, user: User, world: World, lists: Lists, phase: Phase)
    requires Valid(db) && (phase == Counting || phase == Committing)
    ensures var handed := AllHandedOver(db, PlanWorkspaces(db, user), user.id, world.refused, lists.content);
            AtHalt(db, user, world, lists, phase) ==
            DeleteWhere(handed, DoneBefore(PlotOf(db, user, world, lists), phase))
  {
    BeforeCommitPrunes(db, user, world, lists);
  }

  lemma NothingIsDoneBefore(handed: Db, plot: Plot)
    ensures DeleteWhere(handed, DoneBefore(plot, TearingDown)) == handed
  {
    NothingGoes(handed);
  }

  lemma HaltAtTearingDown(db: Db, user: User, world: World, lists: Lists)
    ensures AtHalt(db, user, world, lists, TearingDown) ==
            AllHandedOver(db, PlanWorkspaces(db, user), user.id, world.refused, lists.content)
  {
  }

  /** What each of the phases after the hand-overs finds is the database after one delete. */
  lemma HaltPrunes(db: Db, user: User, world: World, lists: Lists, phase: Phase)
    requires Valid(db) && AfterHandOvers(phase)
    ensures var handed := AllHandedOver(db, PlanWorkspaces(db, user), user.id, world.refused, lists.content);
            && SamePlaces(db, handed)
            && AtHalt(db, user, world, lists, phase) ==
               DeleteWhere(handed, DoneBefore(PlotOf(db, user, world, lists), phase))
  {
    AllHandOversKeepPlaces(db, PlanWorkspaces(db, user), user.id, world.refused, lists.content);
    if phase == TearingDown {
      HaltAtTearingDown(db, user, world, lists);
      NothingIsDoneBefore(AtHalt(db, user, world, lists, phase), PlotOf(db, user, world, lists));
    } else if phase == Sweeping {
      HaltAtSweeping(db, user, world, lists);
    } else if phase == Revoking {
      HaltAtRevoking(db, user, world, lists);
    } else {
      HaltAtTheEnd(db, user, world, lists, phase);
    }
  }

  // ------------------------------------------------------------ what a failure leaves

  /** At most the account's own Tenant has changed hands; owners are accounts and own one Tenant each. */
  ghost predicate TenantsKept(db: Db, user: User, tenants: seq<Tenant>) {
    && UniqueOwners(tenants) && |tenants| == |db.tenants|
    && forall k :: 0 <= k < |tenants| ==>
         && tenants[k].id == db.tenants[k].id && HasUser(db, tenants[k].ownerUserId)
         && (db.tenants[k].ownerUserId != user.id ==> tenants[k] == db.tenants[k])
  }

  lemma PlannedTenantsKept(db: Db, user: User, plans: seq<Plan>, n: nat)
    requires ValidTenants(db) && SoundPlans(db, user, plans) && n <= |plans|
    ensures TenantsKept(db, user, TenantsOf(db, plans, n))
  {
    assert forall k :: 0 <= k < |db.tenants| ==> db.tenants[k] in db.tenants;
    if n > 0 && Transferred(plans[0]) {
      assert SoundPlan(db, user, plans[0]);
      NewOwnerKeepsOwnersUnique(db.tenants, plans[0].tenant.id, plans[0].successorId.value);
      var i :| 0 <= i < |db.tenants| && db.tenants[i] == plans[0].tenant;
    }
  }

  lemma HandOversKeepTenants(db: Db, user: User, plans: seq<Plan>, n: nat, refused: set<(string, Table)>,
                             content: seq<Target>)
    requires ValidTenants(db) && SoundPlans(db, user, plans) && n <= |plans|
    ensures var now := AllHandedOver(db, plans[..n], user.id, refused, content);
            SamePlaces(db, now) && TenantsKept(db, user, now.tenants)
  {
    AllHandOversKeepPlaces(db, plans[..n], user.id, refused, content);
    TenantsAfter(db, user, plans, n, refused, content);
    PlannedTenantsKept(db, user, plans, n);
  }

  lemma HandedUntilKeepsTenants(db: Db, user: User, plans: seq<Plan>, n: nat, ownerMoved: bool,
                                refused: set<(string, Table)>, content: seq<Target>)
    requires ValidTenants(db) && SoundPlans(db, user, plans) && n < |plans| && plans[n].successorId.Some?
    ensures var left := HandedUntil(db, plans, n, ownerMoved, user.id, refused, content);
            SamePlaces(db, left) && TenantsKept(db, user, left.tenants)
  {
    HandOversKeepTenants(db, user, plans, n, refused, content);
    if ownerMoved && plans[n].owned {
      OwnedPlanIsFirst(db, user, plans, n);
      TenantsAfter(db, user, plans, n, refused, content);
      PlannedTenantsKept(db, user, plans, n + 1);
    }
  }

  lemma NothingChangedKeepsTenants(db: Db, user: User)
    requires ValidTenants(db)
    ensures TenantsKept(db, user, db.tenants)
  {
    assert forall k :: 0 <= k < |db.tenants| ==> db.tenants[k] in db.tenants;
  }

  /** Everything beside the rows is as it was, but for the Tenants that changed hands. */
  ghost predicate FrameKept(db: Db, user: User, left: Db) {
    && left.users == db.users && left.organizations == db.organizations && left.members == db.members
    && left.schema == db.schema && left.tables.Keys == db.tables.Keys && TenantsKept(db, user, left.tenants)
  }

  lemma EarlyFailureKeepsTheFrame(db: Db, user: User, plans: seq<Plan>, phase: Phase, refused: set<(string, Table)>,
                                  content: seq<Target>)
    requires ValidTenants(db) && SoundPlans(db, user, plans)
    ensures FrameKept(db, user, HaltedEarly(db, plans, phase, user.id, refused, content))
    ensures phase.Planning? || phase.Billing? ==> HaltedEarly(db, plans, phase, user.id, refused, content) == db
  {
    NothingChangedKeepsTenants(db, user);
    if phase.TearingDown? {
      HandOversKeepTenants(db, user, plans, |plans|, refused, content);
      assert plans[..|plans|] == plans;
    } else if phase.HandingOver? && phase.plan < |plans| && plans[phase.plan].successorId.Some? {
      HandedUntilKeepsTenants(db, user, plans, phase.plan, phase.ownerMoved, refused, content);
    }
  }

  lemma LateFailureKeepsTheFrame(db: Db, user: User, plans: seq<Plan>, left: Db, cause: Cause,
                                 refused: set<(string, Table)>, content: seq<Target>)
    requires ValidTenants(db) && SoundPlans(db, user, plans)
    requires left == DeleteWhere(AllHandedOver(db, plans, user.id, refused, content), cause)
    ensures FrameKept(db, user, left)
  {
    HandOversKeepTenants(db, user, plans, |plans|, refused, content);
    assert plans[..|plans|] == plans;
  }

  /**
   * A failure leaves everybody their account, their membership, their Organization and their Tenant. At most the
   * account's own Tenant has changed hands, so owners are still accounts and own one Tenant each. While planning, or
   * when billing fails, nothing has changed at all.
   */
  lemma FailureKeepsTheFrame(db: Db, user: User, world: World, lists: Lists, phase: Phase)
    requires Valid(db)
    ensures FrameKept(db, user, AtHalt(db, user, world, lists, phase))
    ensures phase.Planning? || phase.Billing? ==> AtHalt(db, user, world, lists, phase) == db
  {
    PlansAreSound(db, user);
    if AfterHandOvers(phase) && !phase.TearingDown? {
      HaltPrunes(db, user, world, lists, phase);
      LateFailureKeepsTheFrame(db, user, PlanWorkspaces(db, user), AtHalt(db, user, world, lists, phase),
                               DoneBefore(PlotOf(db, user, world, lists), phase), world.refused, lists.content);
    } else {
      EarlyFailureKeepsTheFrame(db, user, PlanWorkspaces(db, user), phase, world.refused, lists.content);
    }
  }

  /** How many hand-overs are done when this phase throws. */
  function HandedBefore(plans: seq<Plan>, phase: Phase): (n: nat)
    ensures n <= |plans|
  {
    if AfterHandOvers(phase) then |plans|
    else if phase.HandingOver? && phase.plan < |plans| && plans[phase.plan].successorId.Some? then phase.plan
    else 0
  }

  /** A failure before the tear-down leaves the rows as the hand-overs that were done made them. */
  lemma HaltTables(db: Db, plans: seq<Plan>, phase: Phase, userId: string, refused: set<(string, Table)>,
                   content: seq<Target>)
    requires !AfterHandOvers(phase) || phase.TearingDown?
    ensures HaltedEarly(db, plans, phase, userId, refused, content).tables ==
            AllHandedOver(db, plans[..HandedBefore(plans, phase)], userId, refused, content).tables
  {
    assert plans[..0] == [] && plans[..|plans|] == plans;
  }

  /** A failure before the tear-down leaves every row in place, as the hand-overs that were done made it. */
  lemma FailureBeforeTearDown(db: Db, user: User, world: World, lists: Lists, phase: Phase, table: Table, k: nat)
    requires Valid(db) && (!AfterHandOvers(phase) || phase.TearingDown?)
    requires table in db.tables && k < |db.tables[table]|
    ensures var plans, left := PlanWorkspaces(db, user), AtHalt(db, user, world, lists, phase);
            && table in left.tables && |left.tables[table]| == |db.tables[table]|
            && left.tables[table][k] == HandedBy(db, plans[..HandedBefore(plans, phase)], user.id, world.refused,
                                                 lists.content, table, db.tables[table][k])
  {
    HaltTables(db, PlanWorkspaces(db, user), phase, user.id, world.refused, lists.content);
    PlansAreSound(db, user);
    RowHandedUntil(db, user, PlanWorkspaces(db, user), HandedBefore(PlanWorkspaces(db, user), phase), world.refused,
                   lists.content, table, k);
  }

  lemma RowHandedUntil(db: Db, user: User, plans: seq<Plan>, n: nat, refused: set<(string, Table)>,
                       content: seq<Target>, table: Table, k: nat)
    requires SoundPlans(db, user, plans) && n <= |plans| && table in db.tables && k < |db.tables[table]|
    ensures var now := AllHandedOver(db, plans[..n], user.id, refused, content);
            && table in now.tables && |now.tables[table]| == |db.tables[table]|
            && now.tables[table][k] == HandedBy(db, plans[..n], user.id, refused, content, table, db.tables[table][k])
  {
    SoundPlansUseOtherHands(db, user, plans);
    AllHandOversRow(db, plans[..n], user.id, refused, content, table, k);
    AllHandOversKeepPlaces(db, plans[..n], user.id, refused, content);
    assert SameRows(db.tables[table], AllHandedOver(db, plans[..n], user.id, refused, content).tables[table]);
  }

  /** A row, as the hand-overs make it, that a phase before this one wants for its own sake. */
  ghost function WantedBefore(db: Db, user: User, world: World, lists: Lists, phase: Phase): Cause {
    (table: Table, row: Row) =>
      DoneBefore(PlotOf(db, user, world, lists), phase)(table, Handed(db, user, world, lists, table, row))
  }

  lemma DoneAreOwn(plot: Plot, phase: Phase, table: Table, row: Row)
    requires DoneBefore(plot, phase)(table, row)
    ensures row.userId == Some(plot.userId)
  {
  }

  /** Whatever is wanted before the closing transaction is the account's, and nobody takes it over. */
  lemma WantedAreOwn(db: Db, user: User, world: World, lists: Lists, phase: Phase, table: Table, row: Row)
    requires ValidTenants(db) && ValidOrganizations(db) && DistinctTables(lists.content)
    requires WantedBefore(db, user, world, lists, phase)(table, row)
    ensures row.userId == Some(user.id) && !TakenOver(db, user, world, lists, table, row)
  {
    HandedMeans(db, user, world, lists, table, row);
    DoneAreOwn(PlotOf(db, user, world, lists), phase, table, Handed(db, user, world, lists, table, row));
  }

  /** What the phases before this one took from the database. */
  lemma TakenBeforeMeans(db: Db, user: User, world: World, lists: Lists, phase: Phase)
    requires Valid(db)
    ensures var handed := AllHandedOver(db, PlanWorkspaces(db, user), user.id, world.refused, lists.content);
            Taken(handed, DoneBefore(PlotOf(db, user, world, lists), phase)) ==
            Taken(db, WantedBefore(db, user, world, lists, phase))
  {
    var plans := PlanWorkspaces(db, user);
    var handed := AllHandedOver(db, plans, user.id, world.refused, lists.content);
    var later := DoneBefore(PlotOf(db, user, world, lists), phase);
    var earlier := WantedBefore(db, user, world, lists, phase);
    AllHandOversKeepPlaces(db, plans, user.id, world.refused, lists.content);
    forall table: Table, k: nat | table in db.tables && k < |db.tables[table]|
      ensures later(table, handed.tables[table][k]) == earlier(table, db.tables[table][k])
    {
      HandedAt(db, user, world, lists, table, k);
    }
    SeedsAlike(db, handed, earlier, later);
    SameDoomed(db, handed, Seeds(db, earlier));
  }

  /**
   * A failure after the hand-overs. A row is there, as the hand-overs made it and with the keys that set null cleared,
   * exactly when no chain of cascading keys leads from it to a row that a phase before the failure wanted; else no row
   * with its key is there.
   */
  lemma FailedRowStaysIff(db: Db, user: User, world: World, lists: Lists, phase: Phase, table: Table, k: nat)
    requires Valid(db) && AfterHandOvers(phase) && table in db.tables && k < |db.tables[table]|
    ensures var row, left := db.tables[table][k], AtHalt(db, user, world, lists, phase);
            var wanted := Seeds(db, WantedBefore(db, user, world, lists, phase));
            var goes := Reaches(db, Ref(table, row.id), wanted);
            var after := Forget(Handed(db, user, world, lists, table, row), SchemaOf(db.schema, table),
                                Doomed(db, wanted));
            && table in left.tables && (after in left.tables[table] <==> !goes)
            && (goes ==> forall other :: other in left.tables[table] ==> other.id != row.id)
  {
    var row, wanted := db.tables[table][k], Seeds(db, WantedBefore(db, user, world, lists, phase));
    var handed := AllHandedOver(db, PlanWorkspaces(db, user), user.id, world.refused, lists.content);
    HaltPrunes(db, user, world, lists, phase);
    TakenBeforeMeans(db, user, world, lists, phase);
    HandedInPlace(db, user, world, lists, table, k);
    DoomedIffReaches(db, wanted, Ref(table, row.id));
    LeftMeans(handed.tables[table], table, SchemaOf(db.schema, table), Doomed(db, wanted));
    TableLeft(handed, Doomed(db, wanted), table);
  }
}
