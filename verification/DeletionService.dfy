/** The deletion service: the routine as code, over the database and the table of requests. */
module DeletionService {
  import opened Wrappers
  import opened Database
  import opened Inventory
  import opened AccountDeletion
  import opened DeletionAudit
  import opened DeletionCounts
  import opened DeletionFailure
  import opened KeptContent
  import opened RequestStore

  class AccountDeletionService {
    var db: Db
    const lists: Lists
    const store: Store

    ghost predicate Ready() {
      DistinctTables(lists.content) && WorksByTenant(lists.content)
    }

    constructor (db: Db, store: Store)
      ensures this.db == db && this.store == store && Ready() && lists == Lists(CONTENT, PERSONAL)
    {
      this.db := db;
      this.store := store;
      lists := Lists(CONTENT, PERSONAL);
      ContentTablesAreDistinct();
    }

    method CountKept(works: seq<Database.Row>, keptTenants: set<string>) returns (count: nat)
      ensures count == |Where(works, StaysIn(keptTenants))|
    {
      count := 0;
      for i := 0 to |works|
        invariant count == |Where(works[..i], StaysIn(keptTenants))|
      {
        WhereSnoc(works[..i], works[i], StaysIn(keptTenants));
        assert works[..i + 1] == works[..i] + [works[i]];
        if StaysWith(works[i], keptTenants) {
          count := count + 1;
        }
      }
      assert works[..|works|] == works;
    }

    /** What is announced: the counts are of the Works, the Works kept and the API keys. */
    method PreviewDeletion(userId: string) returns (preview: Option<Preview>)
      ensures preview.None? <==> UserOf(db, userId).None?
      ensures preview.Some? ==>
                var user := UserOf(db, userId).value;
                && preview.value.worksDeleted == |Where(WorkRows(db), IsAnnounced(db, user))|
                && preview.value.worksKept == |Where(WorkRows(db), IsAnnouncedKept(db, user))|
                && preview.value == PreviewOf(db, user)
    {
      var user := UserOf(db, userId);
      if user.None? {
        return None;
      }
      var plans := PlanWorkspaces(db, user.value);
      var works := OwnWorks(db, userId);
      var keptTenants := KeptTenants(plans);
      var worksKept := CountKept(works, keptTenants);
      var deletedTenants := UnplacedTenants(plans);
      var workspaceWorks := 0;
      if deletedTenants == {} {
        NoneOf(WorkRows(db), OthersIn(userId, deletedTenants));
      } else {
        workspaceWorks := |Where(WorkRows(db), OthersIn(userId, deletedTenants))|;
      }
      PreviewCounts(db, user.value);
      return Some(Preview(|works| - worksKept + workspaceWorks, worksKept, ApiKeysOf(db, userId)));
    }

    /** One statement per content table, outside a transaction; returns how many rows moved. */
    method RunStatements(targets: seq<Target>, plan: Plan, orgIds: set<string>, userId: string, refused: set<Table>)
      returns (moved: nat)
      requires plan.successorId.Some? && DistinctTables(targets)
      modifies this
      ensures db == Statements(old(db), targets, plan, orgIds, userId, refused)
      ensures moved == ReachedInAll(old(db), targets, plan, orgIds, userId, refused)
      ensures moved == |ReachedPlaces(old(db), targets, plan.tenant.id, orgIds, userId, refused)|
    {
      moved := 0;
      for i := 0 to |targets|
        invariant db == Statements(old(db), targets[..i], plan, orgIds, userId, refused)
        invariant moved == ReachedInAll(old(db), targets[..i], plan, orgIds, userId, refused)
      {
        StatementsStep(old(db), targets, i, plan, orgIds, userId, refused);
        if targets[i].scope.ByOrganization? && orgIds == {} {
          continue;
        }
        moved := moved + Reached(db, targets[i], plan, orgIds, userId, refused);
        db := Statement(db, targets[i], plan, orgIds, userId, refused);
      }
      assert targets[..|targets|] == targets;
      ReachedInAllCounts(old(db), targets, plan, orgIds, userId, refused);
    }

    /** Hands one workspace over; returns how many rows the statements moved. */
    method HandOver(plan: Plan, userId: string, refused: set<Table>) returns (moved: nat)
      requires plan.successorId.Some? && Ready()
      modifies this
      ensures db == HandedOver(old(db), plan, userId, refused, lists.content)
      ensures moved == ReachedInAll(old(db), Existing(old(db), lists.content), plan,
                                    OrgIdsOf(old(db), plan.tenant.id), userId, refused)
    {
      if plan.owned {
        db := Reassign(db, plan.tenant.id, plan.successorId.value);
      }
      var orgIds := OrgIdsOf(db, plan.tenant.id);
      var targets := Existing(db, lists.content);
      WhereKeepsDistinct(lists.content, IsPresent(db));
      SameContent(old(db), db, plan, orgIds, userId, refused, targets, lists.content);
      moved := RunStatements(targets, plan, orgIds, userId, refused);
    }

    /** Hands over the next workspace of the plan, if it stays. */
    method HandOverNext(plans: seq<Plan>, i: nat, userId: string, refused: set<(string, Table)>, ghost start: Db)
      returns (moved: nat)
      requires Ready() && i < |plans| && db == AllHandedOver(start, plans[..i], userId, refused, lists.content)
      modifies this
      ensures db == AllHandedOver(start, plans[..i + 1], userId, refused, lists.content)
      ensures Reassigned(start, plans[..i], userId, refused, lists.content) + moved ==
              Reassigned(start, plans[..i + 1], userId, refused, lists.content)
      ensures Transfers(plans[..i + 1]) == (Transfers(plans[..i]) || Transferred(plans[i]))
    {
      PlansStep(start, plans, i, userId, refused, lists.content);
      if plans[i].successorId.None? {
        return 0;
      }
      moved := HandOver(plans[i], userId, RefusedIn(refused, plans[i].tenant.id));
    }

    /** Hands over every workspace that stays. */
    method HandOverAll(plans: seq<Plan>, userId: string, refused: set<(string, Table)>) returns (reassigned: nat,
                                                                                                 transferred: bool)
      requires Ready()
      modifies this
      ensures db == AllHandedOver(old(db), plans, userId, refused, lists.content)
      ensures reassigned == Reassigned(old(db), plans, userId, refused, lists.content)
      ensures transferred == Transfers(plans)
      ensures forall user: User ::
                user.id == userId && ValidOrganizations(old(db)) && SoundPlans(old(db), user, plans) ==>
                reassigned == |Moved(old(db), db)|
    {
      reassigned, transferred := 0, false;
      for i := 0 to |plans|
        invariant db == AllHandedOver(old(db), plans[..i], userId, refused, lists.content)
        invariant reassigned == Reassigned(old(db), plans[..i], userId, refused, lists.content)
        invariant transferred == Transfers(plans[..i])
      {
        var moved := HandOverNext(plans, i, userId, refused, old(db));
        reassigned := reassigned + moved;
        transferred := transferred || Transferred(plans[i]);
      }
      assert plans[..|plans|] == plans;
      forall user: User | user.id == userId && ValidOrganizations(old(db)) && SoundPlans(old(db), user, plans)
        ensures reassigned == |Moved(old(db), db)|
      {
        HandOversCountMoved(old(db), user, plans, refused, lists.content);
      }
    }

    /** Tears down the Works that go, one by one; returns how many there are. */
    method DeleteWorks(userId: string, kept: set<string>, tornDown: set<string>) returns (n: nat)
      modifies this
      ensures n == |GoingWorks(old(db), userId, kept)|
      ensures db == WorksTornDown(old(db), GoingWorks(old(db), userId, kept), tornDown)
    {
      var works := OwnWorks(db, userId);
      var going := Where(works, GoesFrom(kept));
      for i := 0 to |going|
        invariant db == WorksTornDown(old(db), going[..i], tornDown)
      {
        assert going[..i + 1][..i] == going[..i];
        if going[i].id in tornDown {
          db := DeleteWhere(db, IsWork(going[i].id));
        }
      }
      assert going[..|going|] == going;
      return |going|;
    }

    /** One pass over the pending personal tables; returns those that refused. */
    method SweepOnce(pending: seq<Target>, userId: string, keptTenants: set<string>, keptOrgs: set<string>,
                     refused: set<Table>)
      returns (failed: seq<Target>)
      modifies this
      ensures (db, failed) == SweepPass(old(db), pending, userId, keptTenants, keptOrgs, refused)
    {
      failed := [];
      for i := 0 to |pending|
        invariant (db, failed) == SweepPass(old(db), pending[..i], userId, keptTenants, keptOrgs, refused)
      {
        assert pending[..i + 1][..i] == pending[..i];
        if pending[i].table in refused {
          failed := failed + [pending[i]];
        } else {
          db := SweepStatement(db, pending[i], userId, keptTenants, keptOrgs);
        }
      }
      assert pending[..|pending|] == pending;
    }

    /** Removes personal rows in two passes; a table that refuses the first is tried again. */
    method DeletePersonalRows(userId: string, keptTenants: set<string>, keptOrgs: set<string>,
                              refusedFirst: set<Table>, refusedSecond: set<Table>)
      modifies this
      ensures db == SweptTwice(old(db), userId, keptTenants, keptOrgs, refusedFirst, refusedSecond, lists.personal)
    {
      var pending := Existing(db, lists.personal);
      pending := SweepOnce(pending, userId, keptTenants, keptOrgs, refusedFirst);
      pending := SweepOnce(pending, userId, keptTenants, keptOrgs, refusedSecond);
    }

    /** Signs the account out everywhere; returns how many sessions there were, 0 when they could not be counted. */
    method RevokeSessions(userId: string, counted: bool) returns (count: nat)
      modifies this
      ensures db == DeleteWhere(old(db), IsSession(userId))
      ensures count == if counted then |Where(RowsIn(old(db), AuthSessions), OwnedBy(userId))| else 0
    {
      count := if counted then |Where(RowsIn(db, AuthSessions), OwnedBy(userId))| else 0;
      db := DeleteWhere(db, IsSession(userId));
    }

    /**
     * Deletes the account. An error that is not caught on the way leaves the phases before it in effect and a failure
     * in the table of requests; a deletion that goes through leaves its completion there and forgets the account.
     */
    method Execute(userId: string, trigger: Trigger, world: World, audit: Audit) returns (result: Result)
      requires Ready() && UniqueTokens(store.rows)
      modifies this, store
      ensures result.NotFound? <==> UserOf(old(db), userId).None?
      ensures result.NotFound? ==> db == old(db) && store.rows == old(store.rows)
      ensures !result.NotFound? ==>
                (result.Deleted? <==> HaltOf(PlanWorkspaces(old(db), UserOf(old(db), userId).value), world).None?)
      ensures result.DeletionFailed? ==>
                && world.halts == Some(result.phase)
                && db == AtHalt(old(db), UserOf(old(db), userId).value, world, lists, result.phase)
                && store.rows == FailureRecorded(old(store.rows), trigger, audit, CodeOf(result.phase))
      ensures result.Deleted? ==>
                && db == Final(old(db), UserOf(old(db), userId).value, world, lists)
                && result.summary == SummaryOf(old(db), UserOf(old(db), userId).value, world, lists)
                && store.rows == Closed(old(store.rows), userId, trigger, audit)
      ensures result.Deleted? && Valid(old(db)) ==>
                ReportsTruly(old(db), UserOf(old(db), userId).value, world, lists, db, result.summary)
      ensures result.DeletionFailed? && Valid(old(db)) ==>
                FrameKept(old(db), UserOf(old(db), userId).value, db)
      ensures result.DeletionFailed? && (result.phase.Planning? || result.phase.Billing?) ==> db == old(db)
      ensures audit.written && trigger.FromTheProduct? && result.DeletionFailed? ==>
                var code := if result.phase.Billing? then "billing_cancel_failed" else "deletion_failed";
                NewRecord(old(store.rows), store.rows, Failed, Some(code), audit)
      ensures audit.written && trigger.FromTheProduct? && result.Deleted? ==>
                NewRecord(old(store.rows), store.rows, Completed, None, audit)
      ensures UniqueTokens(store.rows)
    {
      var found := UserOf(db, userId);
      if found.None? {
        return NotFound;
      }
      var plans := PlanWorkspaces(db, found.value);
      result := CarryOut(found.value, plans, world);
      if result.Deleted? {
        RecordCompletion(trigger, audit);
        Forget(userId, audit.clearing);
        CompletionIsOnRecord(old(store.rows), userId, trigger, audit);
        if Valid(old(db)) {
          SummaryReportsTruly(old(db), found.value, world, lists);
        }
      } else {
        RecordFailure(trigger, audit, CodeOf(result.phase));
        FailureIsOnRecord(old(store.rows), trigger, audit, CodeOf(result.phase));
        if Valid(old(db)) {
          FailureKeepsTheFrame(old(db), found.value, world, lists, result.phase);
        }
      }
    }

    method RecordFailure(trigger: Trigger, audit: Audit, code: string)
      requires UniqueTokens(store.rows)
      modifies store
      ensures store.rows == FailureRecorded(old(store.rows), trigger, audit, code) && UniqueTokens(store.rows)
    {
      if !audit.written {
        return;
      }
      match trigger
      case FromALink(id) => store.Update(id, FailurePatch(code));
      case FromTheProduct => var _ := store.Insert(FailureRow(audit, code));
    }

    method RecordCompletion(trigger: Trigger, audit: Audit)
      requires UniqueTokens(store.rows)
      modifies store
      ensures store.rows == CompletionRecorded(old(store.rows), trigger, audit) && UniqueTokens(store.rows)
    {
      if !audit.written {
        return;
      }
      match trigger
      case FromALink(id) => store.Update(id, CompletionPatch(audit));
      case FromTheProduct => var _ := store.Insert(CompletionRow(audit));
    }

    /** Forgets the account in the table of requests, as far as the database goes along. */
    method Forget(userId: string, clearing: Clearing)
      requires UniqueTokens(store.rows)
      modifies store
      ensures store.rows == Forgotten(old(store.rows), userId, clearing) && UniqueTokens(store.rows)
    {
      match clearing
      case NothingCleared =>
      case LinksRevoked => store.RevokeUser(userId);
      case AllCleared => store.ClearUser(userId);
      assert forall i :: 0 <= i < |store.rows| ==> store.rows[i].tokenHash == old(store.rows)[i].tokenHash;
    }

    /** The phases of the deletion, up to the one that throws. */
    method CarryOut(user: User, plans: seq<Plan>, world: World) returns (result: Result)
      requires Ready() && plans == PlanWorkspaces(db, user)
      modifies this
      ensures (db, result) == Outcome(old(db), user, world, lists)
    {
      var halt := HaltOf(plans, world);
      if halt.Some? && (halt.value.Planning? || halt.value.Billing?) {
        return DeletionFailed(halt.value);
      }
      if halt.Some? && halt.value.HandingOver? {
        HandOverUntil(plans, halt.value.plan, halt.value.ownerMoved, user.id, world.refused);
        return DeletionFailed(halt.value);
      }
      var reassigned, transferred := HandOverAll(plans, user.id, world.refused);
      result := Finish(user, plans, world, halt, reassigned, transferred, old(db));
    }

    /** The phases after the hand-overs. */
    method Finish(user: User, plans: seq<Plan>, world: World, halt: Option<Phase>, reassigned: nat, transferred: bool,
                  ghost start: Db)
      returns (result: Result)
      requires plans == PlanWorkspaces(start, user)
      requires db == AllHandedOver(start, plans, user.id, world.refused, lists.content)
      requires reassigned == Reassigned(start, plans, user.id, world.refused, lists.content)
      requires transferred == Transfers(plans)
      requires halt.Some? ==> !halt.value.Planning? && !halt.value.Billing? && !halt.value.HandingOver?
      modifies this
      ensures (db, result) == OutcomeAt(start, user, world, lists, halt)
    {
      if halt == Some(TearingDown) {
        return DeletionFailed(TearingDown);
      }
      var worksDeleted := CleanUp(user, plans, world, halt, start);
      if halt == Some(Sweeping) || halt == Some(Revoking) {
        return DeletionFailed(halt.value);
      }
      result := Close(user, plans, world, halt, reassigned, transferred, worksDeleted, start);
    }

    /** The sessions, the counts and the closing transaction. */
    method Close(user: User, plans: seq<Plan>, world: World, halt: Option<Phase>, reassigned: nat, transferred: bool,
                 worksDeleted: nat, ghost start: Db)
      returns (result: Result)
      requires plans == PlanWorkspaces(start, user) && db == CleanedUp(start, user, world, lists)
      requires reassigned == Reassigned(start, plans, user.id, world.refused, lists.content)
      requires transferred == Transfers(plans)
      requires worksDeleted == GoingCount(start, user, world, lists)
      requires halt.Some? ==> halt.value.Counting? || halt.value.Committing?
      modifies this
      ensures (db, result) == OutcomeAt(start, user, world, lists, halt)
    {
      var sessionsRevoked := RevokeSessions(user.id, world.sessionsCounted);
      if halt.Some? {
        return DeletionFailed(halt.value);
      }
      var apiKeysRevoked, membershipsRemoved := ApiKeysOf(db, user.id), MembershipsOf(db, user.id);
      db := Remove(db, GoingTenants(plans), user.id);
      return Deleted(Summary(world.canceled, reassigned, transferred, worksDeleted, world.files, sessionsRevoked,
                             apiKeysRevoked, membershipsRemoved, OrganizationsOf(plans), Deletes(plans)));
    }

    /** The tear-down and, unless something throws between, the sweeps. */
    method CleanUp(user: User, plans: seq<Plan>, world: World, halt: Option<Phase>,
                   ghost start: Db) returns (worksDeleted: nat)
      requires plans == PlanWorkspaces(start, user)
      requires db == AllHandedOver(start, plans, user.id, world.refused, lists.content)
      modifies this
      ensures worksDeleted == GoingCount(start, user, world, lists)
      ensures db == if halt == Some(Sweeping) then TornDown(start, user, world, lists)
                    else CleanedUp(start, user, world, lists)
    {
      var kept := KeptTenants(plans);
      worksDeleted := DeleteWorks(user.id, kept, world.tornDown);
      if halt == Some(Sweeping) {
        return;
      }
      DeletePersonalRows(user.id, kept, OrgsOf(db, kept), world.sweepRefusedFirst, world.sweepRefusedSecond);
    }

    /** The hand-overs up to one that throws before its statements. */
    method HandOverUntil(plans: seq<Plan>, n: nat, ownerMoved: bool, userId: string, refused: set<(string, Table)>)
      requires Ready() && n < |plans| && plans[n].successorId.Some?
      modifies this
      ensures db == HandedUntil(old(db), plans, n, ownerMoved, userId, refused, lists.content)
    {
      var _, _ := HandOverAll(plans[..n], userId, refused);
      if ownerMoved && plans[n].owned {
        db := Reassign(db, plans[n].tenant.id, plans[n].successorId.value);
      }
    }
  }
}
