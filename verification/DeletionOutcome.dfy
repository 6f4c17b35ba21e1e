/** The database after an account deletion, against the database before it and the preview. */
module DeletionOutcome {
  import opened Wrappers
  import opened Database
  import opened Inventory
  import opened AccountDeletion
  import opened Cascade
  import opened DeletionPhases
  import opened KeptContent

  // ------------------------------------------------------------ Tenants

  lemma OwnedPlanIsFirst(db: Db, user: User, plans: seq<Plan>, i: nat)
    requires SoundPlans(db, user, plans) && i < |plans| && plans[i].owned
    ensures i == 0
  {
    assert SoundPlan(db, user, plans[i]);
  }

  /** What the first hand-over makes of the Tenants. */
  function TenantsOf(db: Db, plans: seq<Plan>, n: nat): seq<Tenant>
    requires n <= |plans|
  {
    if n > 0 && Transferred(plans[0]) then NewOwner(db.tenants, plans[0].tenant.id, plans[0].successorId.value)
    else db.tenants
  }

  lemma TenantsStep(db: Db, plans: seq<Plan>, n: nat, userId: string, refused: set<(string, Table)>,
                    content: seq<Target>)
    requires 0 < n <= |plans|
    ensures var before, plan := AllHandedOver(db, plans[..n - 1], userId, refused, content).tenants, plans[n - 1];
            AllHandedOver(db, plans[..n], userId, refused, content).tenants ==
            if Transferred(plan) then NewOwner(before, plan.tenant.id, plan.successorId.value) else before
  {
    var plan, now := plans[n - 1], AllHandedOver(db, plans[..n - 1], userId, refused, content);
    assert plans[..n][..n - 1] == plans[..n - 1];
    if plan.successorId.Some? {
      HandOverKeepsPlaces(now, plan, userId, RefusedIn(refused, plan.tenant.id), content);
    }
  }

  /** Of all Tenants, only the account's own may change hands, and only in the first hand-over. */
  lemma {:induction false} TenantsAfter(db: Db, user: User, plans: seq<Plan>, n: nat, refused: set<(string, Table)>,
                                        content: seq<Target>)
    requires SoundPlans(db, user, plans) && n <= |plans|
    ensures AllHandedOver(db, plans[..n], user.id, refused, content).tenants == TenantsOf(db, plans, n)
  {
    if n > 0 {
      TenantsAfter(db, user, plans, n - 1, refused, content);
      TenantsStep(db, plans, n, user.id, refused, content);
      if plans[n - 1].owned {
        OwnedPlanIsFirst(db, user, plans, n - 1);
      }
    } else {
      assert plans[..0] == [];
    }
  }

  lemma NewOwnerKeepsOwnersUnique(tenants: seq<Tenant>, tenantId: string, ownerId: string)
    requires UniqueOwners(tenants) && forall t :: t in tenants ==> t.ownerUserId != ownerId
    ensures UniqueOwners(NewOwner(tenants, tenantId, ownerId))
  {
  }

  /** The planned change of owner keeps owners unique, and leaves the account only Tenants that go. */
  lemma OwnersOfPlans(db: Db, user: User, plans: seq<Plan>)
    requires UniqueOwners(db.tenants) && SoundPlans(db, user, plans)
    ensures UniqueOwners(TenantsOf(db, plans, |plans|))
    ensures forall t :: t in TenantsOf(db, plans, |plans|) && t.ownerUserId == user.id ==> t.id in GoingTenants(plans)
  {
    if |plans| > 0 {
      assert SoundPlan(db, user, plans[0]) && plans[0] in plans;
      if Transferred(plans[0]) {
        NewOwnerKeepsOwnersUnique(db.tenants, plans[0].tenant.id, plans[0].successorId.value);
      }
    }
  }

  /** Hand-overs keep the Tenant owner unique, and leave the account only Tenants that go. */
  lemma OwnersAfterHandOver(db: Db, user: User, refused: set<(string, Table)>, content: seq<Target>)
    requires ValidTenants(db)
    ensures var plans := PlanWorkspaces(db, user);
            var tenants := AllHandedOver(db, plans, user.id, refused, content).tenants;
            && UniqueOwners(tenants)
            && forall t :: t in tenants && t.ownerUserId == user.id ==> t.id in GoingTenants(plans)
  {
    var plans := PlanWorkspaces(db, user);
    PlansAreSound(db, user);
    TenantsAfter(db, user, plans, |plans|, refused, content);
    assert plans[..|plans|] == plans;
    OwnersOfPlans(db, user, plans);
  }

  // ------------------------------------------------------------ which rows go on their own

  /** What the hand-overs make of a row of the database before the deletion. */
  ghost function Handed(db: Db, user: User, world: World, lists: Lists, table: Table, row: Row): Row {
    HandedBy(db, PlanWorkspaces(db, user), user.id, world.refused, lists.content, table, row)
  }

  /** Everything the later phases go by. */
  datatype Plot = Plot(
    userId: string, kept: set<string>, keptOrgs: set<string>, removed: set<Ref>, schema: map<Table, TableSchema>,
    tornDown: set<string>, personal: seq<Target>, refusedTwice: set<Table>)

  /** The account, the Tenants that go and their Organizations. */
  function RemovedBy(db: Db, user: User): set<Ref> {
    var going := GoingTenants(PlanWorkspaces(db, user));
    Removed(user.id, going, OrgsOf(db, going))
  }

  function PlotOf(db: Db, user: User, world: World, lists: Lists): Plot {
    var kept := KeptTenants(PlanWorkspaces(db, user));
    Plot(user.id, kept, OrgsOf(db, kept), RemovedBy(db, user), db.schema, world.tornDown, Existing(db, lists.personal),
         world.sweepRefusedFirst * world.sweepRefusedSecond)
  }

  function TearsDown(plot: Plot): Cause {
    (table: Table, row: Row) =>
      table == Table.Works && row.userId == Some(plot.userId) && !StaysWith(row, plot.kept) && row.id in plot.tornDown
  }

  function Sweeps(plot: Plot): Cause {
    IsSwept(plot.personal, plot.userId, plot.kept, plot.keptOrgs, plot.refusedTwice)
  }

  /** Deleted for its own sake before the closing transaction: a Work torn down, a personal row swept, a session. */
  function Singled(plot: Plot): Cause {
    Either(Either(TearsDown(plot), Sweeps(plot)), IsSession(plot.userId))
  }

  /**
   * A row, as the hand-overs left it, that some phase deletes for its own sake, or that has a cascading key, its
   * creator or any other, to the account, a Tenant that goes or one of its Organizations.
   */
  function GoesBy(plot: Plot): Cause {
    Either(Singled(plot), CascadesFrom(plot.schema, plot.removed))
  }

  /** The same of a row before the deletion. */
  ghost predicate Goes(db: Db, user: User, world: World, lists: Lists, table: Table, row: Row) {
    GoesBy(PlotOf(db, user, world, lists))(table, Handed(db, user, world, lists, table, row))
  }

  ghost function GoesBefore(db: Db, user: User, world: World, lists: Lists): Cause {
    (table: Table, row: Row) => Goes(db, user, world, lists, table, row)
  }

  /** The rows that go on their own. */
  ghost function Going(db: Db, user: User, world: World, lists: Lists): set<Ref> {
    Seeds(db, GoesBefore(db, user, world, lists))
  }

  /** Everything that is gone in the end: these, what hangs on them, the account, its Tenants and Organizations. */
  ghost function Gone(db: Db, user: User, world: World, lists: Lists): set<Ref> {
    Doomed(db, Going(db, user, world, lists)) + RemovedBy(db, user)
  }

  // ------------------------------------------------------------ the phases after the hand-overs

  function NamedBy(handed: Db, plot: Plot): Cause {
    BeforeTheEnd(GoingWorks(handed, plot.userId, plot.kept), plot.tornDown, plot.personal, plot.userId, plot.kept,
                 plot.keptOrgs, plot.refusedTwice)
  }

  /** Before the closing transaction there has been one delete after the hand-overs. */
  lemma BeforeCommitFrame(db: Db, user: User, world: World, lists: Lists)
    ensures var handed := AllHandedOver(db, PlanWorkspaces(db, user), user.id, world.refused, lists.content);
            && SamePlaces(db, handed)
            && BeforeCommit(db, user, world, lists) ==
               DeleteWhere(handed, NamedBy(handed, PlotOf(db, user, world, lists)))
  {
    var plans := PlanWorkspaces(db, user);
    var kept, handed := KeptTenants(plans), AllHandedOver(db, plans, user.id, world.refused, lists.content);
    AllHandOversKeepPlaces(db, plans, user.id, world.refused, lists.content);
    SameExisting(db, handed, lists.personal);
    var torn := TornDown(db, user, world, lists);
    TearDownPrunes(handed, GoingWorks(handed, user.id, kept), world.tornDown);
    assert OrgsOf(torn, kept) == OrgsOf(db, kept);
    PhasesPrune(handed, GoingWorks(handed, user.id, kept), world.tornDown, user.id, kept, OrgsOf(db, kept),
                world.sweepRefusedFirst, world.sweepRefusedSecond, lists.personal);
  }

  lemma UniqueIdsKept(before: seq<Row>, after: seq<Row>)
    requires UniqueIds(before) && SameRows(before, after)
    ensures UniqueIds(after)
  {
    forall i, j | 0 <= i < j < |after| ensures after[i].id != after[j].id {
      assert SamePlace(before[i], after[i]) && SamePlace(before[j], after[j]);
    }
  }

  lemma IdsStayUnique(before: Db, after: Db)
    requires SamePlaces(before, after) && forall table :: table in before.tables ==> UniqueIds(before.tables[table])
    ensures forall table :: table in after.tables ==> UniqueIds(after.tables[table])
  {
    forall table | table in after.tables ensures UniqueIds(after.tables[table]) {
      assert SameRows(before.tables[table], after.tables[table]);
      UniqueIdsKept(before.tables[table], after.tables[table]);
    }
  }

  lemma SameIdSameRow(rows: seq<Row>, a: Row, b: Row)
    requires UniqueIds(rows) && a in rows && b in rows && a.id == b.id
    ensures a == b
  {
    var i :| 0 <= i < |rows| && rows[i] == a;
    var j :| 0 <= j < |rows| && rows[j] == b;
  }

  /** The Works the tear-down names are those of the account outside the workspaces that stay. */
  lemma TornDownMeans(handed: Db, plot: Plot, table: Table, row: Row)
    requires table in handed.tables && row in handed.tables[table] && UniqueIds(handed.tables[table])
    ensures IsTornDown(GoingWorks(handed, plot.userId, plot.kept), plot.tornDown)(table, row) <==>
              TearsDown(plot)(table, row)
  {
    if table == Table.Works {
      var going := GoingWorks(handed, plot.userId, plot.kept);
      assert forall w :: w in going <==>
        w in handed.tables[Table.Works] && w.userId == Some(plot.userId) && !StaysWith(w, plot.kept);
      forall w | w in going && w.id == row.id ensures w == row {
        SameIdSameRow(handed.tables[table], w, row);
      }
    }
  }

  lemma NamedMeans(handed: Db, plot: Plot, removed: set<Ref>)
    requires forall table :: table in handed.tables ==> UniqueIds(handed.tables[table])
    ensures Taken(handed, Either(NamedBy(handed, plot), CascadesFrom(plot.schema, removed))) ==
            Taken(handed, Either(Singled(plot), CascadesFrom(plot.schema, removed)))
  {
    var named, singled := NamedBy(handed, plot), Singled(plot);
    forall table, row | table in handed.tables && row in handed.tables[table]
      ensures Either(named, CascadesFrom(plot.schema, removed))(table, row) ==
              Either(singled, CascadesFrom(plot.schema, removed))(table, row)
    {
      TornDownMeans(handed, plot, table, row);
    }
    TakenAlike(handed, Either(named, CascadesFrom(plot.schema, removed)),
               Either(singled, CascadesFrom(plot.schema, removed)));
  }

  /** The Tenants the closing transaction takes are those the plan gives up, with their Organizations. */
  lemma OnlyPlannedTenantsGo(db: Db, user: User, world: World, lists: Lists)
    requires ValidTenants(db)
    ensures var before, going := BeforeCommit(db, user, world, lists), GoingTenants(PlanWorkspaces(db, user));
            && TenantsGoing(before, going, user.id) == going && OrgsOf(before, going) == OrgsOf(db, going)
  {
    BeforeCommitFrame(db, user, world, lists);
    OwnersAfterHandOver(db, user, world.refused, lists.content);
  }

  /** The tables in the end, against those after the hand-overs. */
  lemma FinalFromHanded(db: Db, user: User, world: World, lists: Lists)
    requires Valid(db)
    ensures var handed := AllHandedOver(db, PlanWorkspaces(db, user), user.id, world.refused, lists.content);
            Final(db, user, world, lists).tables ==
            Without(handed, Taken(handed, GoesBy(PlotOf(db, user, world, lists))) + RemovedBy(db, user)).tables
  {
    var plans, plot := PlanWorkspaces(db, user), PlotOf(db, user, world, lists);
    var handed := AllHandedOver(db, plans, user.id, world.refused, lists.content);
    BeforeCommitFrame(db, user, world, lists);
    IdsStayUnique(db, handed);
    OnlyPlannedTenantsGo(db, user, world, lists);
    RemovePrunes(handed, NamedBy(handed, plot), GoingTenants(plans), user.id);
    NamedMeans(handed, plot, RemovedBy(db, user));
  }

  // ------------------------------------------------------------ chains before and after the hand-overs

  lemma SameLinks(before: Db, after: Db, child: Ref, parent: Ref)
    requires SamePlaces(before, after)
    ensures Link(before, child, parent) <==> Link(after, child, parent)
  {
    if child.Ref? && child.table in before.tables {
      var old_, new_ := before.tables[child.table], after.tables[child.table];
      assert SameRows(old_, new_);
      if row :| RowAt(before, child, row) && parent in row.parents {
        var k :| 0 <= k < |old_| && old_[k] == row;
        assert SamePlace(old_[k], new_[k]) && RowAt(after, child, new_[k]);
      }
      if row :| RowAt(after, child, row) && parent in row.parents {
        var k :| 0 <= k < |new_| && new_[k] == row;
        assert SamePlace(old_[k], new_[k]) && RowAt(before, child, old_[k]);
      }
    }
  }

  /** Hand-overs change no chain. */
  lemma SameReaches(before: Db, after: Db, from: Ref, goal: set<Ref>)
    requires SamePlaces(before, after)
    ensures Reaches(before, from, goal) <==> Reaches(after, from, goal)
  {
    forall c: seq<Ref> ensures Chain(before, c) <==> Chain(after, c) {
      forall i | 0 <= i < |c| - 1 ensures Link(before, c[i], c[i + 1]) <==> Link(after, c[i], c[i + 1]) {
        SameLinks(before, after, c[i], c[i + 1]);
      }
    }
    forall c ensures ChainTo(before, from, goal, c) <==> ChainTo(after, from, goal, c) {
    }
  }

  lemma SameDoomed(before: Db, after: Db, seeds: set<Ref>)
    requires SamePlaces(before, after)
    ensures Doomed(before, seeds) == Doomed(after, seeds)
  {
    forall ref ensures ref in Doomed(before, seeds) <==> ref in Doomed(after, seeds) {
      DoomedIffReaches(before, seeds, ref);
      DoomedIffReaches(after, seeds, ref);
      SameReaches(before, after, ref, seeds);
    }
  }

  /** Row by row the same causes, row by row the same seeds. */
  lemma SeedsAlike(before: Db, after: Db, earlier: Cause, later: Cause)
    requires SamePlaces(before, after)
    requires forall table: Table, k: nat :: table in before.tables && k < |before.tables[table]| ==>
               later(table, after.tables[table][k]) == earlier(table, before.tables[table][k])
    ensures Seeds(after, later) == Seeds(before, earlier)
  {
    forall ref ensures ref in Seeds(after, later) <==> ref in Seeds(before, earlier) {
      if ref.Ref? && ref.table in before.tables {
        SeedsAlikeIn(before.tables[ref.table], after.tables[ref.table], ref, earlier, later);
      }
    }
  }

  lemma SeedsAlikeIn(before: seq<Row>, after: seq<Row>, ref: Ref, earlier: Cause, later: Cause)
    requires ref.Ref? && SameRows(before, after)
    requires forall k: nat :: k < |before| ==> later(ref.table, after[k]) == earlier(ref.table, before[k])
    ensures (exists row :: row in after && later(ref.table, row) && row.id == ref.id) <==>
            (exists row :: row in before && earlier(ref.table, row) && row.id == ref.id)
  {
    if row :| row in after && later(ref.table, row) && row.id == ref.id {
      var k: nat :| k < |after| && after[k] == row;
      assert SamePlace(before[k], after[k]) && before[k] in before && earlier(ref.table, before[k]);
    }
    if row :| row in before && earlier(ref.table, row) && row.id == ref.id {
      var k: nat :| k < |before| && before[k] == row;
      assert SamePlace(before[k], after[k]) && after[k] in after && later(ref.table, after[k]);
    }
  }

  /** The rows that go on their own, seen before the deletion and seen after the hand-overs. */
  lemma GoingMeans(db: Db, user: User, world: World, lists: Lists)
    requires ValidTenants(db)
    ensures var handed := AllHandedOver(db, PlanWorkspaces(db, user), user.id, world.refused, lists.content);
            Seeds(handed, GoesBy(PlotOf(db, user, world, lists))) == Going(db, user, world, lists)
  {
    var plans := PlanWorkspaces(db, user);
    PlansAreSound(db, user);
    SoundPlansUseOtherHands(db, user, plans);
    AllHandOversKeepPlaces(db, plans, user.id, world.refused, lists.content);
    var handed := AllHandedOver(db, plans, user.id, world.refused, lists.content);
    var plot := PlotOf(db, user, world, lists);
    forall table: Table, k: nat | table in db.tables && k < |db.tables[table]|
      ensures GoesBy(plot)(table, handed.tables[table][k]) ==
              GoesBefore(db, user, world, lists)(table, db.tables[table][k])
    {
      GoesInPlace(db, user, world, lists, handed, plot, table, k);
    }
    SeedsAlike(db, handed, GoesBefore(db, user, world, lists), GoesBy(plot));
  }

  lemma GoesInPlace(db: Db, user: User, world: World, lists: Lists, handed: Db, plot: Plot, table: Table, k: nat)
    requires OtherHands(PlanWorkspaces(db, user), user.id) && table in db.tables && k < |db.tables[table]|
    requires handed == AllHandedOver(db, PlanWorkspaces(db, user), user.id, world.refused, lists.content)
    requires plot == PlotOf(db, user, world, lists)
    ensures table in handed.tables && k < |handed.tables[table]|
    ensures GoesBy(plot)(table, handed.tables[table][k]) == Goes(db, user, world, lists, table, db.tables[table][k])
  {
    AllHandOversRow(db, PlanWorkspaces(db, user), user.id, world.refused, lists.content, table, k);
  }

  // ------------------------------------------------------------ the fate of every row

  /** The tables in the end: what the hand-overs made of them, without what is gone. */
  lemma FinalTables(db: Db, user: User, world: World, lists: Lists)
    requires Valid(db)
    ensures var handed := AllHandedOver(db, PlanWorkspaces(db, user), user.id, world.refused, lists.content);
            Final(db, user, world, lists).tables == Without(handed, Gone(db, user, world, lists)).tables
  {
    var plans := PlanWorkspaces(db, user);
    AllHandOversKeepPlaces(db, plans, user.id, world.refused, lists.content);
    FinalFromHanded(db, user, world, lists);
    GoingMeans(db, user, world, lists);
    SameDoomed(db, AllHandedOver(db, plans, user.id, world.refused, lists.content), Going(db, user, world, lists));
  }

  /** What is gone of the tables is what a chain leads from; beside the tables it is what is removed. */
  lemma GoneMeans(db: Db, user: User, world: World, lists: Lists, ref: Ref)
    ensures ref.Ref? ==> (ref in Gone(db, user, world, lists) <==> Reaches(db, ref, Going(db, user, world, lists)))
    ensures !ref.Ref? ==> (ref in Gone(db, user, world, lists) <==> ref in RemovedBy(db, user))
  {
    DoomedIffReaches(db, Going(db, user, world, lists), ref);
    DoomedAreRows(db, GoesBefore(db, user, world, lists));
  }

  /** Beside the tables. */
  lemma GoneBesideRows(db: Db, user: User, world: World, lists: Lists)
    ensures forall ref: Ref :: !ref.Ref? ==> (ref in Gone(db, user, world, lists) <==> ref in RemovedBy(db, user))
  {
    forall ref: Ref | !ref.Ref? ensures ref in Gone(db, user, world, lists) <==> ref in RemovedBy(db, user) {
      GoneMeans(db, user, world, lists, ref);
    }
  }

  /** A row in the end, as it was but for the hand-overs and the keys that set null. */
  ghost function Afterwards(db: Db, user: User, world: World, lists: Lists, table: Table, row: Row): Row {
    Forget(Handed(db, user, world, lists, table, row), SchemaOf(db.schema, table), Gone(db, user, world, lists))
  }

  /** A row keeps all its columns exactly when no key of its that sets null names anything gone. */
  lemma ForgetMeans(row: Row, schema: TableSchema, gone: set<Ref>)
    ensures Forget(row, schema, gone) == row <==> NullKeys(row, schema) * gone == {}
  {
    if Forget(row, schema, gone) == row {
      forall ref | ref in NullKeys(row, schema) ensures ref !in gone {
        if ref in row.mentions {
          assert ref in Forget(row, schema, gone).mentions;
        }
      }
    } else if NullKeys(row, schema) * gone == {} {
      NothingToForget(row, schema, gone);
    }
  }

  lemma NothingToForget(row: Row, schema: TableSchema, gone: set<Ref>)
    requires NullKeys(row, schema) * gone == {}
    ensures Forget(row, schema, gone) == row
  {
    forall ref | ref in NullKeys(row, schema) ensures ref !in gone {
      assert ref in gone ==> ref in NullKeys(row, schema) * gone;
    }
    assert row.mentions - gone == row.mentions;
  }

  /**
   * The fate of every row. After a deletion that went through, a row of the database is there, as the hand-overs made
   * it and with the keys that set null cleared, exactly when no chain of cascading keys leads from it, or from itself,
   * to a row that goes on its own; else no row with its key is there.
   */
  lemma RowStaysIff(db: Db, user: User, world: World, lists: Lists, table: Table, k: nat)
    requires Valid(db) && table in db.tables && k < |db.tables[table]|
    ensures var row, final := db.tables[table][k], Final(db, user, world, lists);
            var goes := Reaches(db, Ref(table, row.id), Going(db, user, world, lists));
            && table in final.tables
            && (Afterwards(db, user, world, lists, table, row) in final.tables[table] <==> !goes)
            && (goes ==> forall other :: other in final.tables[table] ==> other.id != row.id)
  {
    var plans, row, gone := PlanWorkspaces(db, user), db.tables[table][k], Gone(db, user, world, lists);
    var handed := AllHandedOver(db, plans, user.id, world.refused, lists.content);
    FinalTables(db, user, world, lists);
    HandedInPlace(db, user, world, lists, table, k);
    GoneMeans(db, user, world, lists, Ref(table, row.id));
    LeftMeans(handed.tables[table], table, SchemaOf(db.schema, table), gone);
    assert Left(handed.tables[table], table, SchemaOf(db.schema, table), gone) ==
           Final(db, user, world, lists).tables[table];
  }

  lemma HandedInPlace(db: Db, user: User, world: World, lists: Lists, table: Table, k: nat)
    requires ValidTenants(db) && table in db.tables && k < |db.tables[table]|
    ensures var handed := AllHandedOver(db, PlanWorkspaces(db, user), user.id, world.refused, lists.content);
            && SamePlaces(db, handed) && table in handed.tables
            && Handed(db, user, world, lists, table, db.tables[table][k]) in handed.tables[table]
            && SamePlace(db.tables[table][k], Handed(db, user, world, lists, table, db.tables[table][k]))
  {
    var plans := PlanWorkspaces(db, user);
    PlansAreSound(db, user);
    SoundPlansUseOtherHands(db, user, plans);
    AllHandOversKeepPlaces(db, plans, user.id, world.refused, lists.content);
    AllHandOversRow(db, plans, user.id, world.refused, lists.content, table, k);
    HandedKeepsPlace(db, plans, user.id, world.refused, lists.content, table, db.tables[table][k]);
  }

  // ------------------------------------------------------------ which rows are safe

  /** Some plan takes the row over. */
  ghost predicate TakenOver(db: Db, user: User, world: World, lists: Lists, table: Table, row: Row) {
    exists i :: 0 <= i < |PlanWorkspaces(db, user)| &&
      Takes(db, PlanWorkspaces(db, user)[i], world.refused, lists.content, table, row)
  }

  /** What a row names by cascading keys other than its creator. */
  function OtherKeys(row: Row, schema: TableSchema): set<Ref> {
    CascadeKeys(row.(userId := None), schema)
  }

  /**
   * None of its cascading keys but the creator names the account, a Tenant that goes or one of its Organizations; and
   * the row is somebody else's, or taken over, or in a table where the creator does not cascade and no phase wants it.
   */
  ghost predicate Safe(db: Db, user: User, world: World, lists: Lists, table: Table, row: Row) {
    && OtherKeys(row, SchemaOf(db.schema, table)) * RemovedBy(db, user) == {}
    && (row.userId == Some(user.id) ==>
          || TakenOver(db, user, world, lists, table, row)
          || (!SchemaOf(db.schema, table).creator.Cascade? && !Singled(PlotOf(db, user, world, lists))(table, row)))
  }

  lemma HandedToPlan(db: Db, user: User, world: World, lists: Lists, table: Table, row: Row, i: nat)
    requires ValidTenants(db) && ValidOrganizations(db) && DistinctTables(lists.content)
    requires i < |PlanWorkspaces(db, user)| && row.userId == Some(user.id)
    requires Takes(db, PlanWorkspaces(db, user)[i], world.refused, lists.content, table, row)
    ensures var plan := PlanWorkspaces(db, user)[i];
            && plan.successorId.value != user.id && HasUser(db, plan.successorId.value)
            && Handed(db, user, world, lists, table, row) == row.(userId := plan.successorId)
  {
    var plans := PlanWorkspaces(db, user);
    PlansAreSound(db, user);
    assert SoundPlan(db, user, plans[i]);
    HandedToSuccessor(db, user, plans, |plans|, world.refused, lists.content, table, row, i);
    assert plans[..|plans|] == plans;
  }

  /** After the hand-overs the account has the rows nobody took over, unchanged. */
  lemma HandedMeans(db: Db, user: User, world: World, lists: Lists, table: Table, row: Row)
    requires ValidTenants(db) && ValidOrganizations(db) && DistinctTables(lists.content)
    ensures var after := Handed(db, user, world, lists, table, row);
            && SamePlace(row, after)
            && (after.userId == Some(user.id) <==>
                  row.userId == Some(user.id) && !TakenOver(db, user, world, lists, table, row))
            && (after.userId == Some(user.id) ==> after == row)
  {
    var plans := PlanWorkspaces(db, user);
    HandedKeepsPlace(db, plans, user.id, world.refused, lists.content, table, row);
    if row.userId == Some(user.id) && TakenOver(db, user, world, lists, table, row) {
      var i :| 0 <= i < |plans| && Takes(db, plans[i], world.refused, lists.content, table, row);
      HandedToPlan(db, user, world, lists, table, row, i);
    } else {
      HandedToNobody(db, plans, user.id, world.refused, lists.content, table, row);
    }
  }

  lemma KeysTaken(row: Row, after: Row, schema: TableSchema, userId: string, tenants: set<string>, orgs: set<string>)
    requires SamePlace(row, after)
    ensures var removed := Removed(userId, tenants, orgs);
            CascadeKeys(after, schema) * removed != {} <==>
              OtherKeys(row, schema) * removed != {} || (schema.creator.Cascade? && after.userId == Some(userId))
  {
    var removed := Removed(userId, tenants, orgs);
    var own := if schema.creator.Cascade? && after.userId.Some? then {UserRef(after.userId.value)} else {};
    assert CascadeKeys(after, schema) == OtherKeys(row, schema) + own;
    assert own * removed != {} <==> UserRef(userId) in own;
  }

  /** What the phases before the end want is the account's. */
  lemma SingledAreOwn(plot: Plot, table: Table, row: Row)
    requires Singled(plot)(table, row)
    ensures row.userId == Some(plot.userId)
  {
  }

  lemma GoesByMeans(plot: Plot, table: Table, row: Row, after: Row, taken: bool, tenants: set<string>,
                    orgs: set<string>)
    requires plot.removed == Removed(plot.userId, tenants, orgs) && SamePlace(row, after)
    requires after.userId == Some(plot.userId) <==> row.userId == Some(plot.userId) && !taken
    requires after.userId == Some(plot.userId) ==> after == row
    ensures var schema := SchemaOf(plot.schema, table);
            GoesBy(plot)(table, after) <==>
              || OtherKeys(row, schema) * plot.removed != {}
              || (row.userId == Some(plot.userId) && !taken && (schema.creator.Cascade? || Singled(plot)(table, row)))
  {
    KeysTaken(row, after, SchemaOf(plot.schema, table), plot.userId, tenants, orgs);
    if Singled(plot)(table, after) {
      SingledAreOwn(plot, table, after);
    }
  }

  /** A row is safe exactly when it does not go on its own. */
  lemma SafeIff(db: Db, user: User, world: World, lists: Lists, table: Table, row: Row)
    requires ValidTenants(db) && ValidOrganizations(db) && DistinctTables(lists.content)
    ensures Safe(db, user, world, lists, table, row) <==> !Goes(db, user, world, lists, table, row)
  {
    var going := GoingTenants(PlanWorkspaces(db, user));
    HandedMeans(db, user, world, lists, table, row);
    GoesByMeans(PlotOf(db, user, world, lists), table, row, Handed(db, user, world, lists, table, row),
                TakenOver(db, user, world, lists, table, row), going, OrgsOf(db, going));
  }

  ghost function IsSafe(db: Db, user: User, world: World, lists: Lists): Cause {
    (table: Table, row: Row) => Safe(db, user, world, lists, table, row)
  }

  /** Every row the chains from here lead to, this one included, is safe. */
  ghost predicate AncestorsSafe(db: Db, user: User, world: World, lists: Lists, from: Ref) {
    AncestorsAll(db, from, IsSafe(db, user, world, lists))
  }

  /** No chain leads to a row that goes if and only if every row one leads to is safe. */
  lemma SafeAncestors(db: Db, user: User, world: World, lists: Lists, from: Ref)
    requires ValidTenants(db) && ValidOrganizations(db) && DistinctTables(lists.content)
    ensures AncestorsSafe(db, user, world, lists, from) <==> !Reaches(db, from, Going(db, user, world, lists))
  {
    var goes, safe := GoesBefore(db, user, world, lists), IsSafe(db, user, world, lists);
    forall table: Table, row: Row ensures safe(table, row) <==> !goes(table, row) {
      SafeIff(db, user, world, lists, table, row);
    }
    SafeAncestorsBy(db, from, goes, safe);
  }

  lemma SafeAncestorsBy(db: Db, from: Ref, goes: Cause, safe: Cause)
    requires forall table: Table, row: Row :: safe(table, row) <==> !goes(table, row)
    ensures AncestorsAll(db, from, safe) <==> !Reaches(db, from, Seeds(db, goes))
  {
    if AncestorsAll(db, from, safe) {
      SafeAncestorsSpare(db, from, goes, safe);
    }
    if !Reaches(db, from, Seeds(db, goes)) {
      SparedAncestors(db, from, goes, safe);
    }
  }

  // ------------------------------------------------------------ content, and other people's rows

  lemma StaysInScope(row: Row, schema: TableSchema, gone: set<Ref>, scope: Scope, tenantId: string, orgIds: set<string>)
    requires InScope(row, scope, tenantId, orgIds)
    requires TenantRef(tenantId) !in gone && forall o :: o in orgIds ==> OrganizationRef(o) !in gone
    ensures InScope(Forget(row, schema, gone), scope, tenantId, orgIds)
  {
  }

  /** A row in reach of a workspace that stays is in its reach afterwards. */
  lemma StaysInReach(db: Db, user: User, world: World, lists: Lists, i: nat, table: Table, row: Row)
    requires ValidTenants(db) && ValidOrganizations(db) && i < |PlanWorkspaces(db, user)|
    requires PlanWorkspaces(db, user)[i].successorId.Some?
    requires Covered(db, row, table, PlanWorkspaces(db, user)[i].tenant.id, lists.content)
    ensures Covered(db, Forget(row, SchemaOf(db.schema, table), Gone(db, user, world, lists)), table,
                    PlanWorkspaces(db, user)[i].tenant.id, lists.content)
  {
    var gone, tenantId := Gone(db, user, world, lists), PlanWorkspaces(db, user)[i].tenant.id;
    KeptIsNotGone(db, user, world, lists, i);
    var orgIds := OrgIdsOf(db, tenantId);
    var t :| t in Existing(db, lists.content) && t.table == table && InScope(row, t.scope, tenantId, orgIds);
    StaysInScope(row, SchemaOf(db.schema, table), gone, t.scope, tenantId, orgIds);
  }

  lemma KeptIsNotGone(db: Db, user: User, world: World, lists: Lists, i: nat)
    requires ValidTenants(db) && ValidOrganizations(db) && i < |PlanWorkspaces(db, user)|
    requires PlanWorkspaces(db, user)[i].successorId.Some?
    ensures var tenantId, gone := PlanWorkspaces(db, user)[i].tenant.id, Gone(db, user, world, lists);
            TenantRef(tenantId) !in gone && forall o :: o in OrgIdsOf(db, tenantId) ==> OrganizationRef(o) !in gone
  {
    PlansAreSound(db, user);
    KeptIsNotGoing(db, user, PlanWorkspaces(db, user), i);
    GoneBesideRows(db, user, world, lists);
  }

  lemma KeptIsNotGoing(db: Db, user: User, plans: seq<Plan>, i: nat)
    requires SoundPlans(db, user, plans) && ValidOrganizations(db) && i < |plans| && plans[i].successorId.Some?
    ensures var removed := Removed(user.id, GoingTenants(plans), OrgsOf(db, GoingTenants(plans)));
            && TenantRef(plans[i].tenant.id) !in removed
            && forall o :: o in OrgIdsOf(db, plans[i].tenant.id) ==> OrganizationRef(o) !in removed
  {
    forall p | p in plans && p.successorId.None? && p.owned ensures p.tenant.id != plans[i].tenant.id {
      var j :| 0 <= j < |plans| && plans[j] == p;
    }
  }

  /** The successor is not among what is gone. */
  lemma OthersAreNotGone(db: Db, user: User, world: World, lists: Lists, other: string)
    requires other != user.id
    ensures UserRef(other) !in Gone(db, user, world, lists)
  {
    GoneMeans(db, user, world, lists, UserRef(other));
  }

  /**
   * Content stays. A row the account created in a workspace that stays, whose hand-over statement is not refused, names
   * the successor afterwards, another account that is still there, and sits in that workspace, if and only if no chain
   * of cascading keys leads from it to a row that goes; that is, if and only if every row one leads to, itself
   * included, is safe. Else it is gone. Its other columns are as they were but for keys that set null.
   */
  lemma ContentStays(db: Db, user: User, world: World, lists: Lists, i: nat, table: Table, k: nat)
    requires Valid(db) && DistinctTables(lists.content)
    requires i < |PlanWorkspaces(db, user)| && table in db.tables && k < |db.tables[table]|
    requires db.tables[table][k].userId == Some(user.id)
    requires Takes(db, PlanWorkspaces(db, user)[i], world.refused, lists.content, table, db.tables[table][k])
    ensures var plan, row, final := PlanWorkspaces(db, user)[i], db.tables[table][k], Final(db, user, world, lists);
            var schema, ref := SchemaOf(db.schema, table), Ref(table, row.id);
            var after := Forget(row.(userId := plan.successorId), schema, Gone(db, user, world, lists));
            && plan.successorId.value != user.id && HasUser(final, plan.successorId.value)
            && after.userId == plan.successorId && Covered(db, after, table, plan.tenant.id, lists.content)
            && table in final.tables
            && (after in final.tables[table] <==> !Reaches(db, ref, Going(db, user, world, lists)))
            && (after in final.tables[table] <==> AncestorsSafe(db, user, world, lists, ref))
            && (after !in final.tables[table] ==> forall other :: other in final.tables[table] ==> other.id != row.id)
  {
    var row, plan := db.tables[table][k], PlanWorkspaces(db, user)[i];
    HandedToPlan(db, user, world, lists, table, row, i);
    RowStaysIff(db, user, world, lists, table, k);
    SafeAncestors(db, user, world, lists, Ref(table, row.id));
    OthersKeepTheirAccount(db, user, world, lists, plan.successorId.value);
    OthersAreNotGone(db, user, world, lists, plan.successorId.value);
    SameCover(db, row, row.(userId := plan.successorId), table, plan.tenant.id, lists.content);
    StaysInReach(db, user, world, lists, i, table, row.(userId := plan.successorId));
  }

  lemma UserLeft(users: seq<User>, userId: string, tenants: set<string>, other: string)
    requires other != userId && exists u :: u in users && u.id == other
    ensures exists v :: v in WithoutTenant(Where(users, (u: User) => u.id != userId), tenants) && v.id == other
  {
    var left := Where(users, (u: User) => u.id != userId);
    var u :| u in users && u.id == other;
    var k :| 0 <= k < |left| && left[k] == u;
    assert WithoutTenant(left, tenants)[k] in WithoutTenant(left, tenants);
  }

  lemma OthersKeepTheirAccount(db: Db, user: User, world: World, lists: Lists, other: string)
    requires HasUser(db, other) && other != user.id
    ensures HasUser(Final(db, user, world, lists), other)
  {
    BeforeCommitFrame(db, user, world, lists);
    var before, going := BeforeCommit(db, user, world, lists), GoingTenants(PlanWorkspaces(db, user));
    UserLeft(db.users, user.id, TenantsGoing(before, going, user.id), other);
  }

  /**
   * Other people's rows. One is there afterwards, still its creator's, with the keys that set null cleared where they
   * named something gone, if and only if no chain of cascading keys leads from it to a row that goes, that is, if and
   * only if all the chains lead to is safe; else it is gone. It is there unchanged if and only if, besides, no key of
   * its that sets null names anything gone.
   */
  lemma OthersStay(db: Db, user: User, world: World, lists: Lists, table: Table, k: nat)
    requires Valid(db) && DistinctTables(lists.content)
    requires table in db.tables && k < |db.tables[table]| && db.tables[table][k].userId != Some(user.id)
    ensures var row, final, gone := db.tables[table][k], Final(db, user, world, lists), Gone(db, user, world, lists);
            var schema, ref := SchemaOf(db.schema, table), Ref(table, row.id);
            var after := Forget(row, schema, gone);
            && after.userId == row.userId && table in final.tables
            && (after in final.tables[table] <==> !Reaches(db, ref, Going(db, user, world, lists)))
            && (after in final.tables[table] <==> AncestorsSafe(db, user, world, lists, ref))
            && (after !in final.tables[table] ==> forall other :: other in final.tables[table] ==> other.id != row.id)
            && (row in final.tables[table] <==> after in final.tables[table] && NullKeys(row, schema) * gone == {})
  {
    var row, gone := db.tables[table][k], Gone(db, user, world, lists);
    HandedToNobody(db, PlanWorkspaces(db, user), user.id, world.refused, lists.content, table, row);
    RowStaysIff(db, user, world, lists, table, k);
    SafeAncestors(db, user, world, lists, Ref(table, row.id));
    if row.userId.Some? {
      OthersAreNotGone(db, user, world, lists, row.userId.value);
    }
    UnchangedMeans(db, user, world, lists, table, k);
  }

  /** A row nobody takes over is in the end the row it was exactly when it is there and forgets nothing. */
  lemma UnchangedMeans(db: Db, user: User, world: World, lists: Lists, table: Table, k: nat)
    requires Valid(db) && table in db.tables && k < |db.tables[table]|
    requires Handed(db, user, world, lists, table, db.tables[table][k]) == db.tables[table][k]
    ensures var row, final := db.tables[table][k], Final(db, user, world, lists);
            var schema, gone := SchemaOf(db.schema, table), Gone(db, user, world, lists);
            && table in final.tables
            && (row in final.tables[table] <==>
                  Forget(row, schema, gone) in final.tables[table] && NullKeys(row, schema) * gone == {})
  {
    var row, final := db.tables[table][k], Final(db, user, world, lists);
    var schema, gone := SchemaOf(db.schema, table), Gone(db, user, world, lists);
    RowStaysIff(db, user, world, lists, table, k);
    ForgetMeans(row, schema, gone);
    if row in final.tables[table] {
      FinalIds(db, user, world, lists);
      assert Forget(row, schema, gone).id == row.id;
      SameIdSameRow(final.tables[table], row, Forget(row, schema, gone));
    }
  }

  lemma {:induction false} LeftIds(rows: seq<Row>, table: Table, schema: TableSchema, gone: set<Ref>)
    requires UniqueIds(rows)
    ensures UniqueIds(Left(rows, table, schema, gone))
  {
    if rows != [] {
      assert forall i :: 0 <= i < |rows[1..]| ==> rows[1..][i] == rows[i + 1];
      LeftIds(rows[1..], table, schema, gone);
      LeftMeans(rows[1..], table, schema, gone);
      var rest := Left(rows[1..], table, schema, gone);
      forall i | 0 <= i < |rest| ensures rest[i].id != rows[0].id {
        assert rest[i] in rest;
        var row :| row in rows[1..] && rest[i] == Forget(row, schema, gone);
        assert Forget(row, schema, gone).id == row.id;
      }
    }
  }

  /** Keys are unique in the end. */
  lemma FinalIds(db: Db, user: User, world: World, lists: Lists)
    requires Valid(db)
    ensures var final := Final(db, user, world, lists);
            forall table :: table in final.tables ==> UniqueIds(final.tables[table])
  {
    var plans, gone := PlanWorkspaces(db, user), Gone(db, user, world, lists);
    var handed := AllHandedOver(db, plans, user.id, world.refused, lists.content);
    FinalTables(db, user, world, lists);
    AllHandOversKeepPlaces(db, plans, user.id, world.refused, lists.content);
    IdsStayUnique(db, handed);
    forall table | table in handed.tables ensures UniqueIds(Without(handed, gone).tables[table]) {
      TableLeft(handed, gone, table);
      LeftIds(handed.tables[table], table, SchemaOf(handed.schema, table), gone);
    }
  }

  lemma TableLeft(db: Db, gone: set<Ref>, table: Table)
    requires table in Without(db, gone).tables
    ensures table in db.tables
            && Without(db, gone).tables[table] == Left(db.tables[table], table, SchemaOf(db.schema, table), gone)
  {
  }

  // ------------------------------------------------------------ rows that hang on nothing

  /** A row whose only chain is itself reaches only itself. */
  lemma NoParents(db: Db, ref: Ref, goal: set<Ref>)
    requires forall row :: RowAt(db, ref, row) ==> row.parents == {}
    ensures Reaches(db, ref, goal) <==> ref in goal
  {
    if ref in goal {
      ReachesSelf(db, ref, goal);
    }
    if Reaches(db, ref, goal) {
      var c :| ChainTo(db, ref, goal, c);
      if |c| > 1 {
        ChainTail(db, ref, goal, c);
      }
    }
  }

  /** A row that hangs on nothing goes or stays by itself. */
  lemma LoneRowStays(db: Db, user: User, world: World, lists: Lists, table: Table, k: nat)
    requires Valid(db) && DistinctTables(lists.content) && table in db.tables && k < |db.tables[table]|
    requires db.tables[table][k].parents == {}
    ensures AncestorsSafe(db, user, world, lists, Ref(table, db.tables[table][k].id)) <==>
              Safe(db, user, world, lists, table, db.tables[table][k])
  {
    var row := db.tables[table][k];
    var at := Ref(table, row.id);
    assert RowAt(db, at, row);
    forall other | RowAt(db, at, other) ensures other == row {
      SameIdSameRow(db.tables[table], other, row);
    }
    forall ref: Ref ensures Reaches(db, at, {ref}) <==> ref == at {
      NoParents(db, at, {ref});
    }
    if AncestorsSafe(db, user, world, lists, at) {
      assert IsSafe(db, user, world, lists)(table, row);
    }
  }

  // ------------------------------------------------------------ rows that go

  /** A row of the account nobody takes over goes where the creator cascades. */
  lemma UntakenGoes(db: Db, user: User, world: World, lists: Lists, table: Table, row: Row)
    requires Valid(db) && DistinctTables(lists.content) && table in db.tables && row in db.tables[table]
    requires row.userId == Some(user.id) && !TakenOver(db, user, world, lists, table, row)
    requires SchemaOf(db.schema, table).creator.Cascade?
    ensures Reaches(db, Ref(table, row.id), Going(db, user, world, lists))
  {
    assert !Safe(db, user, world, lists, table, row);
    SafeIff(db, user, world, lists, table, row);
    GoesReaches(db, user, world, lists, table, row);
  }

  lemma GoesReaches(db: Db, user: User, world: World, lists: Lists, table: Table, row: Row)
    requires table in db.tables && row in db.tables[table] && Goes(db, user, world, lists, table, row)
    ensures Reaches(db, Ref(table, row.id), Going(db, user, world, lists))
  {
    assert GoesBefore(db, user, world, lists)(table, row);
    ReachesSelf(db, Ref(table, row.id), Going(db, user, world, lists));
  }

  /** So does any row with a cascading key, other than its creator, to the account. */
  lemma NamingTheAccountGoes(db: Db, user: User, world: World, lists: Lists, table: Table, row: Row)
    requires Valid(db) && DistinctTables(lists.content) && table in db.tables && row in db.tables[table]
    requires UserRef(user.id) in row.parents
    ensures Reaches(db, Ref(table, row.id), Going(db, user, world, lists))
  {
    assert UserRef(user.id) in OtherKeys(row, SchemaOf(db.schema, table)) * RemovedBy(db, user);
    SafeIff(db, user, world, lists, table, row);
    GoesReaches(db, user, world, lists, table, row);
  }
}
