/** When each statement and each lifecycle function commits and what it leaves in the tables,
    said of the rows alone. */
module TenancyOutcomes {
  import opened Sql
  import opened Tenancy

  // ----- Who may act -----

  /** Tenant, membership and subject are active, and the subject has a role in the tenant. */
  predicate Acts(db: Tables, t: TenantId, s: SubjectId) {
    && t in db.tenants && db.tenants[t].state == Active
    && (t, s) in db.memberships && db.memberships[(t, s)] == RowActive
    && s in db.subjects && db.subjects[s] == RowActive
    && exists x :: x in db.roles && x.0 == t && x.1 == s
  }

  predicate Administers(db: Tables, t: TenantId, s: SubjectId) {
    Acts(db, t, s) && (t, s, TenantAdmin) in db.roles
  }

  predicate PlatformAdministers(db: Tables, p: SubjectId) {
    p in db.platformAdmins && p in db.subjects && db.subjects[p] == RowActive
  }

  /** What the three actor predicates of the program amount to, unset bindings included. */
  lemma ActorRightsIff(db: Tables, a: Actor)
    ensures ActorIsActive(db, a) <==> a.tenant.Some? && a.subject.Some? && Acts(db, a.tenant.value, a.subject.value)
    ensures ActorIsAdmin(db, a) <==> a.tenant.Some? && a.subject.Some? && Administers(db, a.tenant.value, a.subject.value)
    ensures PlatformActorIsAdmin(db, a.subject) <==> a.subject.Some? && PlatformAdministers(db, a.subject.value)
  {
    if a.tenant.Some? && a.subject.Some? {
      var t, s := a.tenant.value, a.subject.value;
      if x :| x in db.roles && x.0 == t && x.1 == s {
        assert x == (t, s, x.2) && (x.2 == TenantAdmin || x.2 == TenantMember);
      }
    }
  }

  // ----- Statements on memberships and roles -----

  /** The statement commits exactly under the condition, and then leaves these two tables;
      otherwise nothing changes. No other table changes either way. */
  predicate Leaves(db: Tables, a: Actor, e: Edit, condition: bool, memberships: map<(TenantId, SubjectId), RowState>,
                   roles: set<(TenantId, SubjectId, Role)>)
  {
    && EditCommits(db, a, e) == condition
    && ApplyEdit(db, a, e) == if condition then db.(memberships := memberships, roles := roles) else db
  }

  /** An active membership of t with the admin role, of a subject outside the set. */
  predicate SomeAdminOutside(db: Tables, t: TenantId, subjects: set<SubjectId>) {
    exists x :: x in db.roles && x.0 == t && x.2 == TenantAdmin && x.1 !in subjects
                && (t, x.1) in db.memberships && db.memberships[(t, x.1)] == RowActive
  }

  lemma InsertMembershipIff(db: Tables, t: TenantId, author: SubjectId, s: SubjectId, st: RowState)
    ensures Leaves(db, Actor(Some(t), Some(author)), InsertMembership(s, st),
                   Administers(db, t, author) && (t, s) !in db.memberships && s in db.subjects && db.subjects[s] == RowActive,
                   db.memberships[(t, s) := st], db.roles)
  {
    ActorRightsIff(db, Actor(Some(t), Some(author)));
  }

  /** Memberships are suspended in one statement exactly when an administrator remains
      outside the set. */
  lemma SetMembershipStateIff(db: Tables, t: TenantId, author: SubjectId, subjects: set<SubjectId>, st: RowState)
    ensures Leaves(db, Actor(Some(t), Some(author)), SetMembershipState(subjects, st),
                   Administers(db, t, author) && (st == RowActive || SomeAdminOutside(db, t, subjects)),
                   map k | k in db.memberships :: if k.0 == t && k.1 in subjects then st else db.memberships[k], db.roles)
  {
    var a, e := Actor(Some(t), Some(author)), SetMembershipState(subjects, st);
    ActorRightsIff(db, a);
    var after := EditRows(db, t, e).value;
    if HasActiveAdmin(after, t) && st != RowActive {
      var k :| k in after.memberships && k.0 == t && IsActiveAdmin(after, t, k.1);
      assert (t, k.1, TenantAdmin) in db.roles;
    }
    if SomeAdminOutside(db, t, subjects) {
      var x :| x in db.roles && x.0 == t && x.2 == TenantAdmin && x.1 !in subjects
               && (t, x.1) in db.memberships && db.memberships[(t, x.1)] == RowActive;
      assert x == (t, x.1, TenantAdmin) && (t, x.1) in after.memberships && IsActiveAdmin(after, t, x.1);
    }
    if ActorIsAdmin(db, a) && !RemovesActiveAdmin(db, t, e) && st != RowActive {
      assert IsActiveAdmin(db, t, author) && author !in subjects;
      assert (t, author, TenantAdmin) in db.roles;
    }
  }

  /** A subject without active state, a second membership or a role of the old one stops the
      move; a missing row is no error. */
  lemma MoveMembershipIff(db: Tables, t: TenantId, author: SubjectId, s: SubjectId, s': SubjectId)
    ensures var moves := (t, s) in db.memberships && s != s';
            Leaves(db, Actor(Some(t), Some(author)), MoveMembership(s, s'),
                   Administers(db, t, author)
                   && ((t, s) in db.memberships ==> s' in db.subjects && db.subjects[s'] == RowActive)
                   && (moves ==> (t, s') !in db.memberships && forall x :: x in db.roles ==> !(x.0 == t && x.1 == s)),
                   if moves then (db.memberships - {(t, s)})[(t, s') := db.memberships[(t, s)]] else db.memberships,
                   db.roles)
  {
    ActorRightsIff(db, Actor(Some(t), Some(author)));
    RoleIff(db, t, s);
  }

  lemma RoleIff(db: Tables, t: TenantId, s: SubjectId)
    ensures HasRole(db, t, s) <==> exists x :: x in db.roles && x.0 == t && x.1 == s
  {
    if x :| x in db.roles && x.0 == t && x.1 == s {
      assert x == (t, s, x.2) && (x.2 == TenantAdmin || x.2 == TenantMember);
    }
  }

  /** Nobody with a role is deleted, so no administrator is. */
  lemma DeleteMembershipsIff(db: Tables, t: TenantId, author: SubjectId, subjects: set<SubjectId>)
    ensures Leaves(db, Actor(Some(t), Some(author)), DeleteMemberships(subjects),
                   Administers(db, t, author)
                   && (forall x :: x in db.roles && x.0 == t && x.1 in subjects ==> (t, x.1) !in db.memberships),
                   map k | k in db.memberships && !(k.0 == t && k.1 in subjects) :: db.memberships[k], db.roles)
  {
    var a, e := Actor(Some(t), Some(author)), DeleteMemberships(subjects);
    ActorRightsIff(db, a);
    forall s ensures HasRole(db, t, s) <==> exists x :: x in db.roles && x.0 == t && x.1 == s {
      RoleIff(db, t, s);
    }
    if x :| x in db.roles && x.0 == t && x.1 in subjects && (t, x.1) in db.memberships {
      assert HasRole(db, t, x.1);
      assert EditRows(db, t, e).None?;
    }
  }

  lemma InsertRoleIff(db: Tables, t: TenantId, author: SubjectId, s: SubjectId, r: Role)
    ensures Leaves(db, Actor(Some(t), Some(author)), InsertRole(s, r),
                   Administers(db, t, author) && (t, s) in db.memberships && db.memberships[(t, s)] == RowActive
                   && (t, s, r) !in db.roles,
                   db.memberships, db.roles + {(t, s, r)})
  {
    ActorRightsIff(db, Actor(Some(t), Some(author)));
  }

  /** The row moves unless its new subject has no active membership, the new row is there
      already, or the tenant's last administrator would go. */
  lemma UpdateRoleIff(db: Tables, t: TenantId, author: SubjectId, s: SubjectId, r: Role, s': SubjectId, r': Role)
    ensures var present := (t, s, r) in db.roles;
            Leaves(db, Actor(Some(t), Some(author)), UpdateRole(s, r, s', r'),
                   Administers(db, t, author)
                   && (present ==>
                         && (t, s') in db.memberships && db.memberships[(t, s')] == RowActive
                         && ((s', r') == (s, r) || (t, s', r') !in db.roles)
                         && (r == TenantAdmin && r' == TenantMember ==> SomeAdminOutside(db, t, {s}))),
                   db.memberships, if present then db.roles - {(t, s, r)} + {(t, s', r')} else db.roles)
  {
    var a, e := Actor(Some(t), Some(author)), UpdateRole(s, r, s', r');
    ActorRightsIff(db, a);
    if (t, s, r) in db.roles && EditRows(db, t, e).Some? {
      var after := EditRows(db, t, e).value;
      if HasActiveAdmin(after, t) && r == TenantAdmin && r' == TenantMember {
        var k :| k in after.memberships && k.0 == t && IsActiveAdmin(after, t, k.1);
        assert (t, k.1, TenantAdmin) in db.roles;
      }
      if SomeAdminOutside(db, t, {s}) {
        var x :| x in db.roles && x.0 == t && x.2 == TenantAdmin && x.1 !in {s}
                 && (t, x.1) in db.memberships && db.memberships[(t, x.1)] == RowActive;
        assert x == (t, x.1, TenantAdmin) && (t, x.1) in after.memberships && IsActiveAdmin(after, t, x.1);
      }
      if r' == TenantAdmin {
        assert (t, s') in after.memberships && IsActiveAdmin(after, t, s');
      }
    }
  }

  /** Roles are deleted in one statement exactly when an administrator remains. */
  lemma DeleteRolesIff(db: Tables, t: TenantId, author: SubjectId, rows: set<(SubjectId, Role)>)
    ensures Leaves(db, Actor(Some(t), Some(author)), DeleteRoles(rows),
                   Administers(db, t, author) && SomeAdminOutside(db, t, set x | x in rows && x.1 == TenantAdmin :: x.0),
                   db.memberships, set x | x in db.roles && !(x.0 == t && (x.1, x.2) in rows))
  {
    var a, e := Actor(Some(t), Some(author)), DeleteRoles(rows);
    ActorRightsIff(db, a);
    var leaves := set x | x in rows && x.1 == TenantAdmin :: x.0;
    var after := EditRows(db, t, e).value;
    if HasActiveAdmin(after, t) {
      var k :| k in after.memberships && k.0 == t && IsActiveAdmin(after, t, k.1);
      assert (t, k.1, TenantAdmin) in db.roles && k.1 !in leaves;
    }
    if SomeAdminOutside(db, t, leaves) {
      var x :| x in db.roles && x.0 == t && x.2 == TenantAdmin && x.1 !in leaves
               && (t, x.1) in db.memberships && db.memberships[(t, x.1)] == RowActive;
      assert (x.1, TenantAdmin) !in rows;
      assert x == (t, x.1, TenantAdmin) && (t, x.1) in after.memberships && IsActiveAdmin(after, t, x.1);
    }
    if ActorIsAdmin(db, a) && !RemovesActiveAdmin(db, t, e) {
      assert (author, TenantAdmin) !in rows;
      assert (t, author, TenantAdmin) in db.roles && author !in leaves;
    }
  }

  /** Without a binding to an administrator no statement commits. */
  lemma UnboundActorEditsNothing(db: Tables, a: Actor, e: Edit)
    requires a.tenant.None? || a.subject.None?
    ensures !EditCommits(db, a, e) && ApplyEdit(db, a, e) == db
  {
  }

  // ----- Lifecycle functions -----

  /** Who asked, for what reason, and of a known tenant: the checks that the three functions
      share, and the replies when one fails. */
  predicate Requested(db: Tables, p: Option<SubjectId>, t: TenantId, reason: string) {
    p.Some? && PlatformAdministers(db, p.value) && ReasonCodeFormat(reason) && t in db.tenants
  }

  predicate RefusedAlike(db: Tables, p: Option<SubjectId>, t: TenantId, reason: string, outcome: (Tables, Reply)) {
    && (outcome.1 == InvalidReason <==> p.Some? && PlatformAdministers(db, p.value) && !ReasonCodeFormat(reason))
    && (outcome.1 == Denied <==> p.None? || !PlatformAdministers(db, p.value) || (ReasonCodeFormat(reason) && t !in db.tenants))
    && (!outcome.1.Version? ==> outcome.0 == db)
  }

  /** The tenant's row and one event more, nothing else. */
  predicate Recorded(db: Tables, after: Tables, t: TenantId, state: TenantState, e: LifecycleEvent)
    requires t in db.tenants
  {
    after == db.(tenants := db.tenants[t := Tenant(state, db.tenants[t].version + 1, None)], audit := db.audit + [e])
  }

  lemma SuspensionIff(first: map<TenantId, Tenant>, db: Tables, p: Option<SubjectId>, t: TenantId, reason: string, now: int)
    requires LogExplains(first, db)
    ensures var (after, reply) := SuspendTenant(db, p, t, reason, now);
            && (reply.Version? <==> Requested(db, p, t, reason) && db.tenants[t].retiredAt.None?)
            && (reply == RetiredTenant <==> Requested(db, p, t, reason) && db.tenants[t].retiredAt.Some?)
            && RefusedAlike(db, p, t, reason, (after, reply))
            && (reply.Version? ==>
                  if db.tenants[t].state == Suspended then after == db && reply.version == db.tenants[t].version
                  else reply.version == db.tenants[t].version + 1
                       && Recorded(db, after, t, Suspended,
                                   LifecycleEvent(t, SuspendedAction, Active, Suspended, reply.version, reason, p.value, now)))
  {
    ActorRightsIff(db, Actor(None, p));
    if t in db.tenants {
      VersionIsFree(first, db, t);
    }
  }

  lemma ReactivationIff(first: map<TenantId, Tenant>, db: Tables, p: Option<SubjectId>, t: TenantId, reason: string, now: int)
    requires LogExplains(first, db)
    ensures var (after, reply) := ReactivateTenant(db, p, t, reason, now);
            && (reply.Version? <==> Requested(db, p, t, reason) && db.tenants[t].retiredAt.None?)
            && (reply == RetiredTenant <==> Requested(db, p, t, reason) && db.tenants[t].retiredAt.Some?)
            && RefusedAlike(db, p, t, reason, (after, reply))
            && (reply.Version? ==>
                  if db.tenants[t].state == Active then after == db && reply.version == db.tenants[t].version
                  else reply.version == db.tenants[t].version + 1
                       && Recorded(db, after, t, Active,
                                   LifecycleEvent(t, ReactivatedAction, Suspended, Active, reply.version, reason, p.value, now)))
  {
    ActorRightsIff(db, Actor(None, p));
    if t in db.tenants {
      VersionIsFree(first, db, t);
    }
  }

  /** The rows of a tenant after its teardown, one by one; those of other tenants stay. */
  ghost predicate TornDown(db: Tables, after: Tables, t: TenantId, now: int) {
    && t in db.tenants && after.subjects == db.subjects && after.platformAdmins == db.platformAdmins
    && after.tenants == db.tenants[t := Tenant(Suspended, db.tenants[t].version + 1, Some(now))]
    && (forall x :: x in after.roles <==> x in db.roles && x.0 != t)
    && after.memberships.Keys == db.memberships.Keys
    && (forall k :: k in db.memberships ==> after.memberships[k] == if k.0 == t then RowSuspended else db.memberships[k])
    && after.issuers.Keys == db.issuers.Keys
    && (forall k :: k in db.issuers ==> after.issuers[k] == if k.0 == t then CfgRetired else db.issuers[k])
    && after.sources.Keys == db.sources.Keys
    && (forall k :: k in db.sources ==>
          after.sources[k] == if k.0 == t && db.sources[k].state != CfgRetired
                              then db.sources[k].(state := CfgRetired, version := db.sources[k].version + 1)
                              else db.sources[k])
  }

  lemma TeardownIff(first: map<TenantId, Tenant>, db: Tables, p: Option<SubjectId>, t: TenantId, reason: string, now: int)
    requires LogExplains(first, db)
    ensures var (after, reply) := TeardownTenant(db, p, t, reason, now);
            && (reply.Version? <==>
                  Requested(db, p, t, reason) && (db.tenants[t].retiredAt.Some? || db.tenants[t].state == Suspended))
            && (reply == MustSuspendFirst <==>
                  Requested(db, p, t, reason) && db.tenants[t].retiredAt.None? && db.tenants[t].state == Active)
            && RefusedAlike(db, p, t, reason, (after, reply))
            && (reply.Version? ==>
                  if db.tenants[t].retiredAt.Some? then after == db && reply.version == db.tenants[t].version
                  else reply.version == db.tenants[t].version + 1 && TornDown(db, after, t, now)
                       && after.audit == db.audit + [LifecycleEvent(t, TeardownCompleted, Suspended, Suspended,
                                                                    reply.version, reason, p.value, now)])
  {
    ActorRightsIff(db, Actor(None, p));
    if t in db.tenants {
      VersionIsFree(first, db, t);
    }
  }
}
