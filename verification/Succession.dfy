/** Who takes a workspace over when its owner's account is deleted. */
module Succession {
  import opened Wrappers
  import opened Database
  import opened Inventory
  import opened AccountDeletion

  // ------------------------------------------------------------ the successor

  ghost predicate Eligible(db: Db, tenant: Tenant, user: User, u: User) {
    && u in db.users && u.tenantId == Some(tenant.id) && u.id != user.id
    && forall t :: t in db.tenants ==> t.ownerUserId != u.id
  }

  ghost predicate EligibleMember(db: Db, tenant: Tenant, user: User, m: Member) {
    m in db.members && m.tenantId == tenant.id && exists u :: Eligible(db, tenant, user, u) && u.id == m.userId
  }

  lemma EligibleIdsMean(db: Db, tenant: Tenant, user: User, id: string)
    ensures id in EligibleIds(db, OthersOf(db, tenant, user)) <==>
              exists u :: Eligible(db, tenant, user, u) && u.id == id
  {
    var others := OthersOf(db, tenant, user);
    if id in EligibleIds(db, others) {
      var o :| o in others && o.id == id;
      assert Eligible(db, tenant, user, o);
    }
    if u :| Eligible(db, tenant, user, u) && u.id == id {
      assert u in others;
    }
  }

  lemma EligibleMembersMean(db: Db, tenant: Tenant, user: User)
    ensures forall m :: EligibleMember(db, tenant, user, m) <==>
              m in RosterOf(db, tenant) && m.userId in EligibleIds(db, OthersOf(db, tenant, user))
  {
    forall m ensures EligibleMember(db, tenant, user, m) <==>
                     m in RosterOf(db, tenant) && m.userId in EligibleIds(db, OthersOf(db, tenant, user)) {
      EligibleIdsMean(db, tenant, user, m.userId);
    }
  }

  lemma {:induction false} WhereOrdered<T(!new)>(s: seq<T>, p: T -> bool, key: T -> int)
    requires Ordered(s, key)
    ensures Ordered(Where(s, p), key)
  {
    if s != [] {
      assert forall i, j :: 0 <= i < j < |s[1..]| ==> s[1..][i] == s[i + 1] && s[1..][j] == s[j + 1];
      WhereOrdered(s[1..], p, key);
      var rest := Where(s[1..], p);
      assert forall i :: 0 <= i < |rest| ==> rest[i] in rest;
    }
  }

  lemma EligibleUsers(db: Db, tenant: Tenant, user: User, u: User)
    ensures Eligible(db, tenant, user, u) <==>
            u in Where(OthersOf(db, tenant, user), UserAmong(EligibleIds(db, OthersOf(db, tenant, user))))
  {
    EligibleIdsMean(db, tenant, user, u.id);
    var others := OthersOf(db, tenant, user);
    if u in others && u.id in EligibleIds(db, others) {
      var v :| Eligible(db, tenant, user, v) && v.id == u.id;
    }
  }

  lemma ChoiceIsAmong(others: seq<User>, roster: seq<Member>, ids: set<string>)
    ensures var s := ChooseSuccessor(others, roster, ids);
            && (s.None? ==> Where(others, UserAmong(ids)) == [])
            && (s.Some? ==> s.value in ids)
  {
    var eligible := Where(others, UserAmong(ids));
    assert eligible != [] ==> eligible[0] in eligible;
  }

  /** There is a successor exactly when somebody is eligible, and the successor is, so owns no Tenant. */
  lemma SuccessorIsEligible(db: Db, tenant: Tenant, user: User)
    ensures var s := SuccessorOf(db, tenant, user, true);
            && (s.None? <==> forall u :: !Eligible(db, tenant, user, u))
            && (s.Some? ==> exists u :: Eligible(db, tenant, user, u) && u.id == s.value)
  {
    var others := OthersOf(db, tenant, user);
    var ids := EligibleIds(db, others);
    var s := SuccessorOf(db, tenant, user, true);
    ChoiceIsAmong(others, RosterOf(db, tenant), ids);
    if s.Some? {
      EligibleIdsMean(db, tenant, user, s.value);
    } else {
      forall u ensures !Eligible(db, tenant, user, u) {
        EligibleUsers(db, tenant, user, u);
      }
    }
  }

  ghost predicate LongestStanding(db: Db, tenant: Tenant, user: User, m: Member, adminsOnly: bool) {
    && EligibleMember(db, tenant, user, m) && (adminsOnly ==> m.isAdmin)
    && forall other :: EligibleMember(db, tenant, user, other) && (adminsOnly ==> other.isAdmin) ==>
         m.joinedAt <= other.joinedAt
  }

  ghost predicate Earliest(db: Db, tenant: Tenant, user: User, u: User, namedOnly: bool) {
    && Eligible(db, tenant, user, u) && (namedOnly ==> !u.isAnonymous)
    && forall other :: Eligible(db, tenant, user, other) && (namedOnly ==> !other.isAnonymous) ==>
         u.createdAt <= other.createdAt
  }

  /** With an eligible admin on the roster, the successor is the one who joined first. */
  lemma AdminSucceeds(db: Db, tenant: Tenant, user: User, someAdmin: Member)
    requires EligibleMember(db, tenant, user, someAdmin) && someAdmin.isAdmin
    ensures exists m ::
              LongestStanding(db, tenant, user, m, true) && SuccessorOf(db, tenant, user, true) == Some(m.userId)
  {
    EligibleMembersMean(db, tenant, user);
    var others, roster := OthersOf(db, tenant, user), RosterOf(db, tenant);
    var ids := EligibleIds(db, others);
    FirstIsLeast(roster, AdminAmong(ids), ByJoining());
    var m := First(roster, AdminAmong(ids)).value;
    assert LongestStanding(db, tenant, user, m, true) by {
      forall other | EligibleMember(db, tenant, user, other) && other.isAdmin ensures m.joinedAt <= other.joinedAt {
        assert AdminAmong(ids)(other) && ByJoining()(m) <= ByJoining()(other);
      }
    }
  }

  /** Without one, it is the eligible member who joined first. */
  lemma MemberSucceeds(db: Db, tenant: Tenant, user: User, someMember: Member)
    requires EligibleMember(db, tenant, user, someMember)
    requires forall m :: EligibleMember(db, tenant, user, m) ==> !m.isAdmin
    ensures exists m ::
              LongestStanding(db, tenant, user, m, false) && SuccessorOf(db, tenant, user, true) == Some(m.userId)
  {
    EligibleMembersMean(db, tenant, user);
    var others, roster := OthersOf(db, tenant, user), RosterOf(db, tenant);
    var ids := EligibleIds(db, others);
    assert First(roster, AdminAmong(ids)).None?;
    FirstIsLeast(roster, MemberAmong(ids), ByJoining());
    var m := First(roster, MemberAmong(ids)).value;
    assert LongestStanding(db, tenant, user, m, false) by {
      forall other | EligibleMember(db, tenant, user, other) ensures m.joinedAt <= other.joinedAt {
        assert MemberAmong(ids)(other) && ByJoining()(m) <= ByJoining()(other);
      }
    }
  }

  /** The earliest of a list in creation order, named ones first. */
  lemma FirstNamed(eligible: seq<User>) returns (u: User)
    requires Ordered(eligible, ByCreation()) && eligible != []
    ensures var named := First(eligible, IsNamed()); u == if named.Some? then named.value else eligible[0]
    ensures u in eligible
    ensures !u.isAnonymous ==> forall v :: v in eligible && !v.isAnonymous ==> u.createdAt <= v.createdAt
    ensures u.isAnonymous ==> forall v :: v in eligible ==> v.isAnonymous && u.createdAt <= v.createdAt
  {
    var named := First(eligible, IsNamed());
    if named.Some? {
      u := named.value;
      FirstIsLeast(eligible, IsNamed(), ByCreation());
      forall v | v in eligible && !v.isAnonymous ensures u.createdAt <= v.createdAt {
        assert IsNamed()(v) && ByCreation()(u) <= ByCreation()(v);
      }
    } else {
      u := eligible[0];
      forall v | v in eligible ensures u.createdAt <= v.createdAt && v.isAnonymous {
        var i :| 0 <= i < |eligible| && eligible[i] == v;
        assert !IsNamed()(v) && ByCreation()(eligible[0]) <= ByCreation()(eligible[i]);
      }
    }
  }

  lemma NobodyOnTheRoster(db: Db, tenant: Tenant, user: User)
    requires forall m :: !EligibleMember(db, tenant, user, m)
    ensures var ids := EligibleIds(db, OthersOf(db, tenant, user));
            First(RosterOf(db, tenant), AdminAmong(ids)).None? && First(RosterOf(db, tenant), MemberAmong(ids)).None?
  {
    EligibleMembersMean(db, tenant, user);
  }

  /** Off the roster it is the eligible user created first, named ones before anonymous ones. */
  lemma UserSucceeds(db: Db, tenant: Tenant, user: User, someone: User)
    requires Eligible(db, tenant, user, someone)
    requires forall m :: !EligibleMember(db, tenant, user, m)
    ensures exists u: User ::
              SuccessorOf(db, tenant, user, true) == Some(u.id) && Earliest(db, tenant, user, u, !u.isAnonymous)
              && (u.isAnonymous ==> forall v :: Eligible(db, tenant, user, v) ==> v.isAnonymous)
  {
    var u := EarliestUser(db, tenant, user, someone);
  }

  lemma EarliestUser(db: Db, tenant: Tenant, user: User, someone: User) returns (u: User)
    requires Eligible(db, tenant, user, someone)
    requires forall m :: !EligibleMember(db, tenant, user, m)
    ensures SuccessorOf(db, tenant, user, true) == Some(u.id) && Earliest(db, tenant, user, u, !u.isAnonymous)
    ensures u.isAnonymous ==> forall v :: Eligible(db, tenant, user, v) ==> v.isAnonymous
  {
    NobodyOnTheRoster(db, tenant, user);
    var others := OthersOf(db, tenant, user);
    var ids := EligibleIds(db, others);
    WhereOrdered(others, UserAmong(ids), ByCreation());
    var eligible := Where(others, UserAmong(ids));
    forall v ensures Eligible(db, tenant, user, v) <==> v in eligible {
      EligibleUsers(db, tenant, user, v);
    }
    u := FirstNamed(eligible);
  }

  // ------------------------------------------------------------ what the plan shows of a workspace

  /** The account is a member of the Organization in this Tenant. */
  ghost predicate BelongsTo(db: Db, tenant: Tenant, user: User, organizationId: string) {
    exists m :: m in db.members && m.tenantId == tenant.id && m.userId == user.id && m.organizationId == organizationId
  }

  ghost predicate IsAdminOf(db: Db, tenant: Tenant, user: User) {
    exists m :: m in db.members && m.tenantId == tenant.id && m.userId == user.id && m.isAdmin
  }

  /**
   * What is shown of a workspace: all its Organizations to the owner, to a member those it belongs to, the oldest
   * first; the owner's other members; and the role, an admin being one in any of the Organizations.
   */
  lemma PlanShows(db: Db, tenant: Tenant, user: User, owned: bool)
    ensures var plan := PlanFor(db, tenant, user, owned);
            && (forall o :: o in plan.organizations <==>
                  o in db.organizations && o.tenantId == tenant.id && (owned || BelongsTo(db, tenant, user, o.id)))
            && (forall i, j :: 0 <= i < j < |plan.organizations| ==>
                  plan.organizations[i].createdAt <= plan.organizations[j].createdAt)
            && (plan.role == Owner <==> owned)
            && (plan.role == Admin <==> !owned && IsAdminOf(db, tenant, user))
            && (!owned ==> plan.otherMemberIds == [])
            && (owned ==> forall id :: id in plan.otherMemberIds <==>
                  exists u :: u in db.users && u.tenantId == Some(tenant.id) && u.id != user.id && u.id == id)
  {
    OrganizationsShown(db, tenant, user, owned);
    RoleShown(db, tenant, user, owned);
    OthersShown(db, tenant, user);
  }

  lemma OwnMemberships(db: Db, tenant: Tenant, user: User, own: seq<Member>)
    requires own == Where(RosterOf(db, tenant), (r: Member) => r.userId == user.id)
    ensures forall m :: m in own <==> m in db.members && m.tenantId == tenant.id && m.userId == user.id
  {
  }

  lemma OrganizationsShown(db: Db, tenant: Tenant, user: User, owned: bool)
    ensures var plan := PlanFor(db, tenant, user, owned);
            && (forall o :: o in plan.organizations <==>
                  o in db.organizations && o.tenantId == tenant.id && (owned || BelongsTo(db, tenant, user, o.id)))
            && (forall i, j :: 0 <= i < j < |plan.organizations| ==>
                  plan.organizations[i].createdAt <= plan.organizations[j].createdAt)
  {
    var byAge := (o: Organization) => o.createdAt;
    var organizations := OrderBy(Where(db.organizations, (o: Organization) => o.tenantId == tenant.id), byAge);
    var own := Where(RosterOf(db, tenant), (r: Member) => r.userId == user.id);
    var ids := set r | r in own :: r.organizationId;
    WhereOrdered(organizations, (o: Organization) => o.id in ids, byAge);
    OwnMemberships(db, tenant, user, own);
    forall o: Organization ensures o.id in ids <==> BelongsTo(db, tenant, user, o.id) {
    }
  }

  lemma RoleShown(db: Db, tenant: Tenant, user: User, owned: bool)
    ensures var plan := PlanFor(db, tenant, user, owned);
            && (plan.role == Owner <==> owned)
            && (plan.role == Admin <==> !owned && IsAdminOf(db, tenant, user))
  {
    OwnMemberships(db, tenant, user, Where(RosterOf(db, tenant), (r: Member) => r.userId == user.id));
  }

  lemma IdsListed(others: seq<User>, ids: seq<string>)
    requires |ids| == |others| && forall i :: 0 <= i < |others| ==> ids[i] == others[i].id
    ensures forall id :: id in ids <==> exists u :: u in others && u.id == id
  {
    forall u | u in others ensures u.id in ids {
      var i :| 0 <= i < |others| && others[i] == u;
      assert ids[i] == u.id;
    }
  }

  lemma OthersShown(db: Db, tenant: Tenant, user: User)
    ensures forall id :: id in PlanFor(db, tenant, user, true).otherMemberIds <==>
              exists u :: u in OthersOf(db, tenant, user) && u.id == id
  {
    IdsListed(OthersOf(db, tenant, user), PlanFor(db, tenant, user, true).otherMemberIds);
  }
}
