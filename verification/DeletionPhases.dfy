/**
 * What each phase of account deletion takes, as causes to go: the tear-down, the two sweeps, the sessions and the
 * closing transaction. Each phase is one delete with its cause, and the phases together are one delete with all causes.
 */
module DeletionPhases {
  import opened Wrappers
  import opened Database
  import opened Cascade
  import opened Inventory
  import opened AccountDeletion

  function Never(): Cause {
    (table: Table, row: Row) => false
  }

  lemma NothingGoes(db: Db)
    ensures DeleteWhere(db, Never()) == db
  {
    assert Seeds(db, Never()) == {};
    assert Doomed(db, {}) == {};
    WithoutNothing(db);
  }

  // ------------------------------------------------------------ no phase selects by a key that sets null

  lemma CascadesIgnoreMentions(schema: map<Table, TableSchema>, removed: set<Ref>)
    ensures IgnoresMentions(CascadesFrom(schema, removed))
  {
    forall table: Table, row: Row, mentions: set<Ref>
      ensures CascadeKeys(row.(mentions := mentions), SchemaOf(schema, table)) ==
              CascadeKeys(row, SchemaOf(schema, table))
    {
    }
  }

  lemma SweptIgnoresMentions(row: Row, mentions: set<Ref>, scope: Scope, userId: string, keptTenants: set<string>,
                             keptOrgs: set<string>)
    ensures Swept(row.(mentions := mentions), scope, userId, keptTenants, keptOrgs) ==
            Swept(row, scope, userId, keptTenants, keptOrgs)
  {
  }

  lemma SweepsIgnoreMentions(target: Target, userId: string, keptTenants: set<string>, keptOrgs: set<string>)
    ensures IgnoresMentions(SweepsFrom(target, userId, keptTenants, keptOrgs))
  {
    forall row: Row, mentions: set<Ref>
      ensures Swept(row.(mentions := mentions), target.scope, userId, keptTenants, keptOrgs) ==
              Swept(row, target.scope, userId, keptTenants, keptOrgs)
    {
      SweptIgnoresMentions(row, mentions, target.scope, userId, keptTenants, keptOrgs);
    }
  }

  /** Some target that is not refused sweeps the row. */
  function IsSwept(targets: seq<Target>, userId: string, keptTenants: set<string>, keptOrgs: set<string>,
                   refused: set<Table>): Cause {
    (table: Table, row: Row) =>
      && table !in refused
      && exists t :: t in targets && t.table == table && Swept(row, t.scope, userId, keptTenants, keptOrgs)
  }

  lemma IsSweptIgnoresMentions(targets: seq<Target>, userId: string, keptTenants: set<string>, keptOrgs: set<string>,
                               refused: set<Table>)
    ensures IgnoresMentions(IsSwept(targets, userId, keptTenants, keptOrgs, refused))
  {
    var cause := IsSwept(targets, userId, keptTenants, keptOrgs, refused);
    forall table: Table, row: Row, mentions: set<Ref>
      ensures cause(table, row.(mentions := mentions)) == cause(table, row)
    {
      forall t | t in targets
        ensures Swept(row.(mentions := mentions), t.scope, userId, keptTenants, keptOrgs) ==
                Swept(row, t.scope, userId, keptTenants, keptOrgs)
      {
        SweptIgnoresMentions(row, mentions, t.scope, userId, keptTenants, keptOrgs);
      }
    }
  }

  lemma SessionsIgnoreMentions(userId: string)
    ensures IgnoresMentions(IsSession(userId))
  {
  }

  // ------------------------------------------------------------ the tear-down

  function IsTornDown(going: seq<Row>, tornDown: set<string>): Cause {
    (table: Table, row: Row) => table == Table.Works && row.id in tornDown && exists w :: w in going && w.id == row.id
  }

  lemma {:induction false} TearDownPrunes(db: Db, going: seq<Row>, tornDown: set<string>)
    ensures WorksTornDown(db, going, tornDown) == DeleteWhere(db, IsTornDown(going, tornDown))
  {
    if going == [] {
      NothingGoes(db);
      TakenAlike(db, Never(), IsTornDown(going, tornDown));
    } else {
      var n := |going| - 1;
      TearDownPrunes(db, going[..n], tornDown);
      var earlier, all := IsTornDown(going[..n], tornDown), IsTornDown(going, tornDown);
      assert forall w :: w in going <==> w in going[..n] || w == going[n];
      if going[n].id in tornDown {
        TakenTwice(db, earlier, IsWork(going[n].id));
        TakenAlike(db, Either(earlier, IsWork(going[n].id)), all);
      } else {
        TakenAlike(db, earlier, all);
      }
    }
  }

  // ------------------------------------------------------------ the sweeps

  lemma {:induction false} PassPrunes(db: Db, targets: seq<Target>, userId: string, keptTenants: set<string>,
                                      keptOrgs: set<string>, refused: set<Table>)
    ensures SweepPass(db, targets, userId, keptTenants, keptOrgs, refused).0 ==
            DeleteWhere(db, IsSwept(targets, userId, keptTenants, keptOrgs, refused))
    ensures forall t :: t in SweepPass(db, targets, userId, keptTenants, keptOrgs, refused).1 <==>
              t in targets && t.table in refused
  {
    if targets == [] {
      NothingGoes(db);
      TakenAlike(db, Never(), IsSwept(targets, userId, keptTenants, keptOrgs, refused));
    } else {
      var n := |targets| - 1;
      PassPrunes(db, targets[..n], userId, keptTenants, keptOrgs, refused);
      var earlier := IsSwept(targets[..n], userId, keptTenants, keptOrgs, refused);
      var all := IsSwept(targets, userId, keptTenants, keptOrgs, refused);
      assert forall t :: t in targets <==> t in targets[..n] || t == targets[n];
      if targets[n].table in refused {
        TakenAlike(db, earlier, all);
      } else {
        var last := SweepsFrom(targets[n], userId, keptTenants, keptOrgs);
        SweepsIgnoreMentions(targets[n], userId, keptTenants, keptOrgs);
        TakenTwice(db, earlier, last);
        TakenAlike(db, Either(earlier, last), all);
      }
    }
  }

  lemma SweptInTwo(db: Db, present: seq<Target>, failed: seq<Target>, userId: string, keptTenants: set<string>,
                   keptOrgs: set<string>, refusedFirst: set<Table>, refusedSecond: set<Table>)
    requires forall t :: t in failed <==> t in present && t.table in refusedFirst
    ensures DeleteWhere(db, Either(IsSwept(present, userId, keptTenants, keptOrgs, refusedFirst),
                                   IsSwept(failed, userId, keptTenants, keptOrgs, refusedSecond))) ==
            DeleteWhere(db, IsSwept(present, userId, keptTenants, keptOrgs, refusedFirst * refusedSecond))
  {
    TakenAlike(db, Either(IsSwept(present, userId, keptTenants, keptOrgs, refusedFirst),
                          IsSwept(failed, userId, keptTenants, keptOrgs, refusedSecond)),
               IsSwept(present, userId, keptTenants, keptOrgs, refusedFirst * refusedSecond));
  }

  /** Both passes are one delete of what is to sweep in the tables that did not refuse twice. */
  lemma SweepsPrune(db: Db, userId: string, keptTenants: set<string>, keptOrgs: set<string>, refusedFirst: set<Table>,
                    refusedSecond: set<Table>, personal: seq<Target>)
    ensures SweptTwice(db, userId, keptTenants, keptOrgs, refusedFirst, refusedSecond, personal) ==
            DeleteWhere(db, IsSwept(Existing(db, personal), userId, keptTenants, keptOrgs,
                                    refusedFirst * refusedSecond))
  {
    var present := Existing(db, personal);
    var (first, failed) := SweepPass(db, present, userId, keptTenants, keptOrgs, refusedFirst);
    PassPrunes(db, present, userId, keptTenants, keptOrgs, refusedFirst);
    PassPrunes(first, failed, userId, keptTenants, keptOrgs, refusedSecond);
    var one := IsSwept(present, userId, keptTenants, keptOrgs, refusedFirst);
    var two := IsSwept(failed, userId, keptTenants, keptOrgs, refusedSecond);
    IsSweptIgnoresMentions(failed, userId, keptTenants, keptOrgs, refusedSecond);
    TakenTwice(db, one, two);
    SweptInTwo(db, present, failed, userId, keptTenants, keptOrgs, refusedFirst, refusedSecond);
  }

  // ------------------------------------------------------------ from the hand-overs to the end

  /** The tear-down, the sweeps and the sessions together. */
  function BeforeTheEnd(going: seq<Row>, tornDown: set<string>, targets: seq<Target>, userId: string,
                        keptTenants: set<string>, keptOrgs: set<string>, refusedTwice: set<Table>): Cause {
    Either(Either(IsTornDown(going, tornDown), IsSwept(targets, userId, keptTenants, keptOrgs, refusedTwice)),
           IsSession(userId))
  }

  /** The tear-down and the sweeps are one delete. */
  lemma TearDownAndSweepsPrune(handed: Db, going: seq<Row>, tornDown: set<string>, userId: string,
                               keptTenants: set<string>, keptOrgs: set<string>, refusedFirst: set<Table>,
                               refusedSecond: set<Table>, personal: seq<Target>)
    ensures var torn := WorksTornDown(handed, going, tornDown);
            SweptTwice(torn, userId, keptTenants, keptOrgs, refusedFirst, refusedSecond, personal) ==
            DeleteWhere(handed, Either(IsTornDown(going, tornDown),
                                       IsSwept(Existing(handed, personal), userId, keptTenants, keptOrgs,
                                               refusedFirst * refusedSecond)))
  {
    var torn := WorksTornDown(handed, going, tornDown);
    TearDownPrunes(handed, going, tornDown);
    SweepsPrune(torn, userId, keptTenants, keptOrgs, refusedFirst, refusedSecond, personal);
    SameExisting(handed, torn, personal);
    var second := IsSwept(Existing(handed, personal), userId, keptTenants, keptOrgs, refusedFirst * refusedSecond);
    IsSweptIgnoresMentions(Existing(handed, personal), userId, keptTenants, keptOrgs, refusedFirst * refusedSecond);
    TakenTwice(handed, IsTornDown(going, tornDown), second);
  }

  /** What the phases between the hand-overs and the closing transaction do is one delete. */
  lemma PhasesPrune(handed: Db, going: seq<Row>, tornDown: set<string>, userId: string, keptTenants: set<string>,
                    keptOrgs: set<string>, refusedFirst: set<Table>, refusedSecond: set<Table>, personal: seq<Target>)
    ensures var torn := WorksTornDown(handed, going, tornDown);
            var swept := SweptTwice(torn, userId, keptTenants, keptOrgs, refusedFirst, refusedSecond, personal);
            DeleteWhere(swept, IsSession(userId)) ==
            DeleteWhere(handed, BeforeTheEnd(going, tornDown, Existing(handed, personal), userId, keptTenants, keptOrgs,
                                             refusedFirst * refusedSecond))
  {
    TearDownAndSweepsPrune(handed, going, tornDown, userId, keptTenants, keptOrgs, refusedFirst, refusedSecond,
                           personal);
    var first := IsTornDown(going, tornDown);
    var second := IsSwept(Existing(handed, personal), userId, keptTenants, keptOrgs, refusedFirst * refusedSecond);
    SessionsIgnoreMentions(userId);
    TakenTwice(handed, Either(first, second), IsSession(userId));
  }

  /** The closing transaction after a delete, on the tables: both causes at once, and what is removed beside them. */
  lemma RemovePrunes(handed: Db, cause: Cause, goingTenants: set<string>, userId: string)
    ensures var before := DeleteWhere(handed, cause);
            var tenants := TenantsGoing(before, goingTenants, userId);
            var removed := Removed(userId, tenants, OrgsOf(before, tenants));
            Remove(before, goingTenants, userId).tables ==
            Without(handed, Taken(handed, Either(cause, CascadesFrom(handed.schema, removed))) + removed).tables
  {
    var before := DeleteWhere(handed, cause);
    var tenants := TenantsGoing(before, goingTenants, userId);
    var removed := Removed(userId, tenants, OrgsOf(before, tenants));
    var cascades := CascadesFrom(handed.schema, removed);
    CascadesIgnoreMentions(handed.schema, removed);
    TakenTwice(handed, cause, cascades);
    WithoutTwice(handed, Taken(handed, cause), Taken(before, cascades) + removed);
    assert Taken(handed, cause) + (Taken(before, cascades) + removed) ==
           Taken(handed, Either(cause, cascades)) + removed;
  }
}
