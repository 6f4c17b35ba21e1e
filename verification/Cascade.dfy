/**
 * Deletes with their cascades: a row goes exactly when a chain of cascading keys leads from it to a row that is
 * deleted.
 */
module Cascade {
  import opened Wrappers
  import opened Database

  ghost predicate RowAt(db: Db, ref: Ref, row: Row) {
    ref.Ref? && ref.table in db.tables && row in db.tables[ref.table] && row.id == ref.id
  }

  /** The child has a cascading key to the parent. */
  ghost predicate Link(db: Db, child: Ref, parent: Ref) {
    exists row :: RowAt(db, child, row) && parent in row.parents
  }

  ghost predicate Chain(db: Db, c: seq<Ref>) {
    c != [] && forall i :: 0 <= i < |c| - 1 ==> Link(db, c[i], c[i + 1])
  }

  ghost predicate ChainTo(db: Db, from: Ref, goal: set<Ref>, c: seq<Ref>) {
    Chain(db, c) && c[0] == from && c[|c| - 1] in goal
  }

  /** Following cascading keys upwards from the row, one can come to one of these; from each of them at once. */
  ghost predicate Reaches(db: Db, from: Ref, goal: set<Ref>) {
    exists c :: ChainTo(db, from, goal, c)
  }

  lemma ReachesSelf(db: Db, from: Ref, goal: set<Ref>)
    requires from in goal
    ensures Reaches(db, from, goal)
  {
    assert ChainTo(db, from, goal, [from]);
  }

  lemma ReachesStep(db: Db, child: Ref, parent: Ref, goal: set<Ref>)
    requires Link(db, child, parent) && Reaches(db, parent, goal)
    ensures Reaches(db, child, goal)
  {
    var c :| ChainTo(db, parent, goal, c);
    var more := [child] + c;
    assert forall i :: 0 < i < |more| ==> more[i] == c[i - 1];
    assert ChainTo(db, child, goal, more);
  }

  lemma ChainTail(db: Db, from: Ref, goal: set<Ref>, c: seq<Ref>)
    requires ChainTo(db, from, goal, c) && |c| > 1
    ensures Link(db, from, c[1]) && ChainTo(db, c[1], goal, c[1..])
  {
    assert forall i :: 0 <= i < |c[1..]| ==> c[1..][i] == c[i + 1];
    assert Link(db, c[0], c[0 + 1]);
  }

  lemma ReachesMore(db: Db, from: Ref, goal: set<Ref>, more: set<Ref>)
    requires Reaches(db, from, goal) && goal <= more
    ensures Reaches(db, from, more)
  {
    var c :| ChainTo(db, from, goal, c);
    assert ChainTo(db, from, more, c);
  }

  // ------------------------------------------------------------ the closure is reachability

  lemma {:induction false} ChainIsDoomed(db: Db, from: Ref, seeds: set<Ref>, c: seq<Ref>)
    requires ChainTo(db, from, seeds, c)
    ensures from in Doomed(db, seeds)
    decreases |c|
  {
    if |c| > 1 {
      ChainTail(db, from, seeds, c);
      ChainIsDoomed(db, c[1], seeds, c[1..]);
      var row :| RowAt(db, from, row) && c[1] in row.parents;
      assert c[1] in row.parents * Doomed(db, seeds);
      assert from in Refs(db) && HangsOn(db, from, Doomed(db, seeds));
    }
  }

  lemma {:induction false} DoomedReaches(db: Db, seeds: set<Ref>, gone: set<Ref>, ref: Ref)
    requires forall g :: g in gone ==> Reaches(db, g, seeds)
    requires ref in Doomed(db, gone)
    ensures Reaches(db, ref, seeds)
    decreases Refs(db) - gone
  {
    var more := set child | child in Refs(db) && child !in gone && HangsOn(db, child, gone);
    if more != {} {
      forall g | g in more ensures Reaches(db, g, seeds) {
        var row :| row in db.tables[g.table] && row.id == g.id && row.parents * gone != {};
        var parent :| parent in row.parents * gone;
        assert RowAt(db, g, row);
        ReachesStep(db, g, parent, seeds);
      }
      DoomedReaches(db, seeds, gone + more, ref);
    }
  }

  /** The rows a delete takes are exactly those from which a chain of cascading keys leads to a deleted one. */
  lemma DoomedIffReaches(db: Db, seeds: set<Ref>, ref: Ref)
    ensures ref in Doomed(db, seeds) <==> Reaches(db, ref, seeds)
  {
    if ref in Doomed(db, seeds) {
      forall g | g in seeds ensures Reaches(db, g, seeds) {
        ReachesSelf(db, g, seeds);
      }
      DoomedReaches(db, seeds, seeds, ref);
    }
    if Reaches(db, ref, seeds) {
      var c :| ChainTo(db, ref, seeds, c);
      ChainIsDoomed(db, ref, seeds, c);
    }
  }

  /** A delete takes rows and nothing else. */
  lemma DoomedAreRows(db: Db, cause: Cause)
    ensures forall ref :: ref in Doomed(db, Seeds(db, cause)) ==> ref.Ref? && ref in Refs(db)
  {
    assert Seeds(db, cause) <= Refs(db);
  }

  // ------------------------------------------------------------ the rows that are left

  /** A row that is left was there, and is as it was but for its nulls. */
  lemma {:induction false} LeftMeans(rows: seq<Row>, table: Table, schema: TableSchema, gone: set<Ref>)
    ensures forall row :: row in rows && Ref(table, row.id) !in gone ==>
              Forget(row, schema, gone) in Left(rows, table, schema, gone)
    ensures forall after :: after in Left(rows, table, schema, gone) ==>
              exists row :: row in rows && Ref(table, row.id) !in gone && after == Forget(row, schema, gone)
  {
    if rows != [] {
      LeftMeans(rows[1..], table, schema, gone);
      assert forall row :: row in rows <==> row == rows[0] || row in rows[1..];
    }
  }

  lemma {:induction false} LeftWhole(rows: seq<Row>, table: Table, schema: TableSchema)
    ensures Left(rows, table, schema, {}) == rows
  {
    if rows != [] {
      LeftWhole(rows[1..], table, schema);
      assert Forget(rows[0], schema, {}) == rows[0];
    }
  }

  lemma ForgetTwice(row: Row, schema: TableSchema, first: set<Ref>, second: set<Ref>)
    ensures Forget(Forget(row, schema, first), schema, second) == Forget(row, schema, first + second)
  {
  }

  lemma {:induction false} LeftTwice(rows: seq<Row>, table: Table, schema: TableSchema, first: set<Ref>,
                                     second: set<Ref>)
    ensures Left(Left(rows, table, schema, first), table, schema, second) == Left(rows, table, schema, first + second)
  {
    if rows != [] {
      LeftTwice(rows[1..], table, schema, first, second);
      ForgetTwice(rows[0], schema, first, second);
      var now, rest := Forget(rows[0], schema, first), Left(rows[1..], table, schema, first);
      assert ([now] + rest)[1..] == rest;
    }
  }

  /** Two things gone one after the other are gone together. */
  lemma WithoutTwice(db: Db, first: set<Ref>, second: set<Ref>)
    ensures Without(Without(db, first), second) == Without(db, first + second)
  {
    forall table | table in db.tables
      ensures Without(Without(db, first), second).tables[table] == Without(db, first + second).tables[table]
    {
      LeftTwice(db.tables[table], table, SchemaOf(db.schema, table), first, second);
    }
  }

  lemma WithoutNothing(db: Db)
    ensures Without(db, {}) == db
  {
    forall table | table in db.tables ensures Without(db, {}).tables[table] == db.tables[table] {
      LeftWhole(db.tables[table], table, SchemaOf(db.schema, table));
    }
  }

  /** A row is left, and hangs on what it hung on, exactly when it is not gone. */
  lemma RowLeft(db: Db, gone: set<Ref>, ref: Ref)
    ensures forall row :: RowAt(db, ref, row) && ref !in gone ==>
              RowAt(Without(db, gone), ref, Forget(row, SchemaOf(db.schema, ref.table), gone))
    ensures forall after :: RowAt(Without(db, gone), ref, after) ==>
              && ref !in gone
              && exists row :: RowAt(db, ref, row) && after == Forget(row, SchemaOf(db.schema, ref.table), gone)
  {
    if ref.Ref? && ref.table in db.tables {
      LeftMeans(db.tables[ref.table], ref.table, SchemaOf(db.schema, ref.table), gone);
    }
  }

  // ------------------------------------------------------------ one delete after another

  function Either(first: Cause, second: Cause): Cause {
    (table: Table, row: Row) => first(table, row) || second(table, row)
  }

  lemma SeedsOfEither(db: Db, first: Cause, second: Cause)
    ensures Seeds(db, Either(first, second)) == Seeds(db, first) + Seeds(db, second)
  {
  }

  /** What a statement selects by is none of the keys that set null but the columns. */
  ghost predicate IgnoresMentions(cause: Cause) {
    forall table: Table, row: Row, mentions: set<Ref> :: cause(table, row.(mentions := mentions)) == cause(table, row)
  }

  /** What a delete with this cause takes. */
  function Taken(db: Db, cause: Cause): set<Ref> {
    Doomed(db, Seeds(db, cause))
  }

  lemma LinkLeft(db: Db, gone: set<Ref>, child: Ref, parent: Ref)
    ensures Link(Without(db, gone), child, parent) <==> child !in gone && Link(db, child, parent)
  {
    RowLeft(db, gone, child);
    if child !in gone && Link(db, child, parent) {
      var row :| RowAt(db, child, row) && parent in row.parents;
      assert RowAt(Without(db, gone), child, Forget(row, SchemaOf(db.schema, child.table), gone));
    }
  }

  /** A chain in what is left was one before. */
  lemma OlderChain(db: Db, gone: set<Ref>, c: seq<Ref>)
    requires Chain(Without(db, gone), c)
    ensures Chain(db, c)
  {
    forall i | 0 <= i < |c| - 1 ensures Link(db, c[i], c[i + 1]) {
      LinkLeft(db, gone, c[i], c[i + 1]);
    }
  }

  /** A chain from a row that is left is left whole. */
  lemma {:induction false} ChainIsLeft(db: Db, cause: Cause, from: Ref, goal: set<Ref>, c: seq<Ref>)
    requires ChainTo(db, from, goal, c) && from !in Taken(db, cause)
    ensures ChainTo(Without(db, Taken(db, cause)), from, goal, c) && c[|c| - 1] !in Taken(db, cause)
    decreases |c|
  {
    if |c| > 1 {
      var gone := Taken(db, cause);
      ChainTail(db, from, goal, c);
      DoomedIffReaches(db, Seeds(db, cause), from);
      DoomedIffReaches(db, Seeds(db, cause), c[1]);
      if c[1] in gone {
        ReachesStep(db, from, c[1], Seeds(db, cause));
      }
      ChainIsLeft(db, cause, c[1], goal, c[1..]);
      assert forall i :: 0 <= i < |c[1..]| ==> c[1..][i] == c[i + 1];
      forall i | 0 <= i < |c| - 1 ensures Link(Without(db, gone), c[i], c[i + 1]) {
        if i > 0 {
          assert Link(Without(db, gone), c[1..][i - 1], c[1..][i]);
        } else {
          LinkLeft(db, gone, c[0], c[1]);
        }
      }
    }
  }

  /** A cause finds in what is left what it found there before. */
  lemma SeedsLeft(db: Db, first: Cause, second: Cause, ref: Ref)
    requires IgnoresMentions(second)
    ensures ref in Seeds(Without(db, Taken(db, first)), second) <==>
              ref in Seeds(db, second) && ref !in Taken(db, first)
  {
    var gone := Taken(db, first);
    DoomedAreRows(db, first);
    RowLeft(db, gone, ref);
    forall row: Row, schema: TableSchema ensures Forget(row, schema, gone) == row.(mentions := row.mentions - gone) {
    }
    if ref in Seeds(Without(db, gone), second) {
      var after :| RowAt(Without(db, gone), ref, after) && second(ref.table, after);
      var row :| RowAt(db, ref, row) && after == Forget(row, SchemaOf(db.schema, ref.table), gone);
      assert second(ref.table, row);
    }
    if ref in Seeds(db, second) && ref !in gone {
      var row :| RowAt(db, ref, row) && second(ref.table, row);
      var after := Forget(row, SchemaOf(db.schema, ref.table), gone);
      assert RowAt(Without(db, gone), ref, after) && second(ref.table, after);
    }
  }

  lemma TakenInTwo(db: Db, first: Cause, second: Cause, ref: Ref)
    requires IgnoresMentions(second)
    ensures ref in Taken(db, Either(first, second)) <==>
              ref in Taken(db, first) || ref in Taken(Without(db, Taken(db, first)), second)
  {
    var gone := Taken(db, first);
    var after := Without(db, gone);
    var a, b, both := Seeds(db, first), Seeds(after, second), Seeds(db, Either(first, second));
    SeedsOfEither(db, first, second);
    DoomedIffReaches(db, a, ref);
    DoomedIffReaches(after, b, ref);
    DoomedIffReaches(db, both, ref);
    if Reaches(db, ref, a) {
      ReachesMore(db, ref, a, both);
    }
    if Reaches(after, ref, b) {
      var c :| ChainTo(after, ref, b, c);
      OlderChain(db, gone, c);
      SeedsLeft(db, first, second, c[|c| - 1]);
      assert ChainTo(db, ref, both, c);
    }
    if Reaches(db, ref, both) && !Reaches(db, ref, a) {
      var c :| ChainTo(db, ref, both, c);
      ChainIsLeft(db, first, ref, both, c);
      SeedsLeft(db, first, second, c[|c| - 1]);
      assert ChainTo(after, ref, b, c);
    }
  }

  /** Two deletes one after the other do what one delete with both causes does. */
  lemma TakenTwice(db: Db, first: Cause, second: Cause)
    requires IgnoresMentions(second)
    ensures Taken(db, Either(first, second)) == Taken(db, first) + Taken(DeleteWhere(db, first), second)
    ensures DeleteWhere(DeleteWhere(db, first), second) == DeleteWhere(db, Either(first, second))
  {
    var after := DeleteWhere(db, first);
    forall ref ensures ref in Taken(db, Either(first, second)) <==> ref in Taken(db, first) + Taken(after, second) {
      TakenInTwo(db, first, second, ref);
    }
    WithoutTwice(db, Taken(db, first), Taken(after, second));
  }

  /** Causes that agree on the rows there are do the same. */
  lemma TakenAlike(db: Db, first: Cause, second: Cause)
    requires SameCauses(db, first, second)
    ensures Taken(db, first) == Taken(db, second) && DeleteWhere(db, first) == DeleteWhere(db, second)
  {
    assert Seeds(db, first) == Seeds(db, second);
  }

  ghost predicate SameCauses(db: Db, first: Cause, second: Cause) {
    forall table, row :: table in db.tables && row in db.tables[table] ==> first(table, row) == second(table, row)
  }

  // ------------------------------------------------------------ what is left names nothing that is gone

  /** A row that is left has no cascading key to what the delete took, and none to what it took with it. */
  lemma LeftHoldsNothingGone(db: Db, cause: Cause, removed: set<Ref>, table: Table, row: Row)
    requires table in db.tables && row in db.tables[table] && Ref(table, row.id) !in Taken(db, cause)
    requires CascadesFrom(db.schema, removed)(table, row) ==> cause(table, row)
    ensures row.parents * (Taken(db, cause) + removed) == {}
    ensures CascadeKeys(row, SchemaOf(db.schema, table)) * removed == {}
  {
    var ref := Ref(table, row.id);
    assert ref in Refs(db);
    assert cause(table, row) ==> ref in Seeds(db, cause);
    assert !HangsOn(db, ref, Taken(db, cause));
  }

  lemma ForgetLosesNothingElse(row: Row, schema: TableSchema, gone: set<Ref>)
    ensures NullKeys(Forget(row, schema, gone), schema) == NullKeys(row, schema) - gone
    ensures CascadeKeys(Forget(row, schema, gone), schema) == CascadeKeys(row, schema)
  {
  }

  /** After a delete no key, of either kind, names anything that is gone. */
  lemma NothingNamesTheGone(db: Db, cause: Cause, removed: set<Ref>, table: Table, after: Row)
    requires forall t: Table, row: Row :: CascadesFrom(db.schema, removed)(t, row) ==> cause(t, row)
    requires forall ref :: ref in removed ==> !ref.Ref?
    requires table in db.tables
    requires after in Left(db.tables[table], table, SchemaOf(db.schema, table), Taken(db, cause) + removed)
    ensures var schema := SchemaOf(db.schema, table);
            (CascadeKeys(after, schema) + NullKeys(after, schema)) * (Taken(db, cause) + removed) == {}
  {
    var gone, schema := Taken(db, cause) + removed, SchemaOf(db.schema, table);
    LeftMeans(db.tables[table], table, schema, gone);
    var row :| row in db.tables[table] && Ref(table, row.id) !in gone && after == Forget(row, schema, gone);
    ForgetLosesNothingElse(row, schema, gone);
    LeftHoldsNothingGone(db, cause, removed, table, row);
    DoomedAreRows(db, cause);
    forall ref | ref in CascadeKeys(after, schema) ensures ref !in gone {
      if ref in row.parents {
        assert ref in gone ==> ref in row.parents * gone;
      } else {
        assert ref in removed ==> ref in CascadeKeys(row, schema) * removed;
      }
    }
  }

  // ------------------------------------------------------------ what the chains from a row lead to

  /** Every row the chains from here lead to, this one included, is such a row. */
  ghost predicate AncestorsAll(db: Db, from: Ref, p: Cause) {
    forall ref: Ref, row: Row :: RowAt(db, ref, row) && Reaches(db, from, {ref}) ==> p(ref.table, row)
  }

  lemma ReachesOne(db: Db, from: Ref, goal: set<Ref>)
    ensures Reaches(db, from, goal) <==> exists ref :: ref in goal && Reaches(db, from, {ref})
  {
    if Reaches(db, from, goal) {
      var c :| ChainTo(db, from, goal, c);
      assert ChainTo(db, from, {c[|c| - 1]}, c);
      assert Reaches(db, from, {c[|c| - 1]});
    }
    if ref :| ref in goal && Reaches(db, from, {ref}) {
      ReachesMore(db, from, {ref}, goal);
    }
  }

  /** When no chain leads to a row with a cause to go, the rows the chains lead to have none. */
  lemma SparedAncestors(db: Db, from: Ref, cause: Cause, p: Cause)
    requires !Reaches(db, from, Seeds(db, cause))
    requires forall ref: Ref, row: Row :: RowAt(db, ref, row) && Reaches(db, from, {ref}) && !cause(ref.table, row) ==>
               p(ref.table, row)
    ensures AncestorsAll(db, from, p)
  {
    ReachesOne(db, from, Seeds(db, cause));
    forall ref: Ref, row: Row | RowAt(db, ref, row) && Reaches(db, from, {ref}) ensures p(ref.table, row) {
      assert ref == Ref(ref.table, row.id);
      assert ref in Seeds(db, cause) || !cause(ref.table, row);
    }
  }

  /** When the rows the chains lead to have no cause to go, no chain leads to one that has. */
  lemma SafeAncestorsSpare(db: Db, from: Ref, cause: Cause, p: Cause)
    requires AncestorsAll(db, from, p)
    requires forall table, row :: table in db.tables && row in db.tables[table] && p(table, row) ==> !cause(table, row)
    ensures !Reaches(db, from, Seeds(db, cause))
  {
    ReachesOne(db, from, Seeds(db, cause));
    forall ref | ref in Seeds(db, cause) ensures !Reaches(db, from, {ref}) {
      var row :| RowAt(db, ref, row) && cause(ref.table, row);
      assert !p(ref.table, row);
    }
  }
}
