/** Tenants, subjects, memberships, roles and the tenant-owned issuer and evidence-source
    rows, with the actor predicates and row triggers of migration 004 and the lifecycle
    functions and audit log of migration 006.

    A database function is one atomic step. Its specification is a function from the
    tables before to the tables after and a reply; an exception leaves the tables as
    they were. `TenantStore` runs the same steps table by table. */
module Tenancy {
  import opened Sql

  type TenantId = nat
  type SubjectId = nat
  type IssuerId = nat
  type SourceId = nat

  datatype TenantState = Active | Suspended

  datatype Tenant = Tenant(state: TenantState, version: int, retiredAt: Option<int>)

  datatype RowState = RowActive | RowSuspended

  datatype Role = TenantAdmin | TenantMember

  datatype ConfigState = CfgPlanned | CfgActive | CfgSuspended | CfgRetired

  datatype Algorithm = Ed25519 | EcdsaP256 | RsaPssSha256

  datatype EvidenceType = IdentityEvidence | DeviceEvidence | BehaviourEvidence | CertificateEvidence | ComplianceEvidence

  datatype Source = Source(evidenceType: EvidenceType, state: ConfigState, algorithm: Algorithm,
                           fingerprint: Option<Digest<string>>, maximumAge: int, synthetic: bool, version: int)

  datatype LifecycleAction = SuspendedAction | ReactivatedAction | TeardownCompleted

  datatype LifecycleEvent = LifecycleEvent(tenant: TenantId, action: LifecycleAction, previous: TenantState,
                                           next: TenantState, version: int, reason: string,
                                           requestedBy: SubjectId, recordedAt: int)

  /** The tables. `memberships` and `roles` are keyed by tenant and subject. */
  datatype Tables = Tables(
    tenants: map<TenantId, Tenant>,
    subjects: map<SubjectId, RowState>,
    platformAdmins: set<SubjectId>,
    memberships: map<(TenantId, SubjectId), RowState>,
    roles: set<(TenantId, SubjectId, Role)>,
    issuers: map<(TenantId, IssuerId), ConfigState>,
    sources: map<(TenantId, SourceId), Source>,
    audit: seq<LifecycleEvent>)

  /** The transaction-local binding of tenant and subject; either may be unset. */
  datatype Actor = Actor(tenant: Option<TenantId>, subject: Option<SubjectId>)

  // ----- Who may act -----

  predicate MemberIsActive(db: Tables, t: TenantId, s: SubjectId) {
    && (t, s) in db.memberships && db.memberships[(t, s)] == RowActive
    && s in db.subjects && db.subjects[s] == RowActive
  }

  predicate TenantIsActive(db: Tables, t: TenantId) {
    t in db.tenants && db.tenants[t].state == Active
  }

  predicate HasRole(db: Tables, t: TenantId, s: SubjectId) {
    (t, s, TenantAdmin) in db.roles || (t, s, TenantMember) in db.roles
  }

  /** `current_actor_is_active` */
  predicate ActorIsActive(db: Tables, a: Actor) {
    && a.tenant.Some? && a.subject.Some?
    && TenantIsActive(db, a.tenant.value)
    && MemberIsActive(db, a.tenant.value, a.subject.value)
    && HasRole(db, a.tenant.value, a.subject.value)
  }

  /** `current_actor_is_tenant_admin` */
  predicate ActorIsAdmin(db: Tables, a: Actor) {
    ActorIsActive(db, a) && (a.tenant.value, a.subject.value, TenantAdmin) in db.roles
  }

  /** `current_platform_actor_is_admin` */
  predicate PlatformActorIsAdmin(db: Tables, p: Option<SubjectId>) {
    && p.Some? && p.value in db.subjects && db.subjects[p.value] == RowActive
    && p.value in db.platformAdmins
  }

  predicate IssuerIsActive(db: Tables, t: TenantId, i: IssuerId) {
    (t, i) in db.issuers && db.issuers[(t, i)] == CfgActive
  }

  // ----- Role and membership statements -----

  /** An administrator in the sense of the trigger: an active membership with the
      admin role. The subject's own state is not looked at. */
  predicate IsActiveAdmin(db: Tables, t: TenantId, s: SubjectId) {
    && (t, s) in db.memberships && db.memberships[(t, s)] == RowActive
    && (t, s, TenantAdmin) in db.roles
  }

  predicate HasActiveAdmin(db: Tables, t: TenantId) {
    exists k :: k in db.memberships && k.0 == t && IsActiveAdmin(db, t, k.1)
  }

  /** One SQL statement on the membership or the role table of the bound tenant.
      Multi-row statements name the set of rows that their WHERE clause selects. */
  datatype Edit =
    | InsertMembership(subject: SubjectId, state: RowState)
    | SetMembershipState(subjects: set<SubjectId>, state: RowState)
    | MoveMembership(subject: SubjectId, toSubject: SubjectId)
    | DeleteMemberships(subjects: set<SubjectId>)
    | InsertRole(subject: SubjectId, role: Role)
    | UpdateRole(subject: SubjectId, role: Role, toSubject: SubjectId, toRole: Role)
    | DeleteRoles(rows: set<(SubjectId, Role)>)

  predicate SubjectIsActive(db: Tables, s: SubjectId) {
    s in db.subjects && db.subjects[s] == RowActive
  }

  predicate MembershipIsActive(db: Tables, t: TenantId, s: SubjectId) {
    (t, s) in db.memberships && db.memberships[(t, s)] == RowActive
  }

  /** The rows of the role table, or of the membership table, that the statement deletes
      or changes so that `prevent_last_active_tenant_admin_loss` looks for another
      administrator. */
  predicate RemovesActiveAdmin(before: Tables, t: TenantId, e: Edit) {
    match e
    case SetMembershipState(ss, st) =>
      exists s :: s in ss && IsActiveAdmin(before, t, s) && st != RowActive
    case DeleteMemberships(ss) =>
      exists s :: s in ss && IsActiveAdmin(before, t, s)
    case UpdateRole(s, r, s', r') =>
      r == TenantAdmin && (t, s, r) in before.roles && (r' != TenantAdmin || s' != s)
    case DeleteRoles(rows) =>
      exists row :: row in rows && row.1 == TenantAdmin && (t, row.0, TenantAdmin) in before.roles
    case _ => false
  }

  /** The trigger runs after the statement, once per changed row, and sees the tables
      as the whole statement left them. */
  predicate LastAdminTriggerPasses(removed: bool, after: Tables, t: TenantId) {
    !(removed && TenantIsActive(after, t) && !HasActiveAdmin(after, t))
  }

  /** The statement's effect on the rows, or None when a key, a foreign key or a
      BEFORE trigger rejects it. */
  function EditRows(db: Tables, t: TenantId, e: Edit): Option<Tables> {
    match e
    case InsertMembership(s, st) =>
      if (t, s) in db.memberships || !SubjectIsActive(db, s) then None
      else Some(db.(memberships := db.memberships[(t, s) := st]))
    case SetMembershipState(ss, st) =>
      Some(db.(memberships :=
        map k | k in db.memberships :: if k.0 == t && k.1 in ss then st else db.memberships[k]))
    case MoveMembership(s, s') =>
      if (t, s) !in db.memberships then Some(db)
      else if !SubjectIsActive(db, s') then None
      else if s == s' then Some(db)
      else if (t, s') in db.memberships || HasRole(db, t, s) then None
      else Some(db.(memberships := (db.memberships - {(t, s)})[(t, s') := db.memberships[(t, s)]]))
    case DeleteMemberships(ss) =>
      if exists k :: k in db.memberships && k.0 == t && k.1 in ss && HasRole(db, t, k.1) then None
      else Some(db.(memberships :=
        map k | k in db.memberships && !(k.0 == t && k.1 in ss) :: db.memberships[k]))
    case InsertRole(s, r) =>
      if !MembershipIsActive(db, t, s) || (t, s, r) in db.roles then None
      else Some(db.(roles := db.roles + {(t, s, r)}))
    case UpdateRole(s, r, s', r') =>
      if (t, s, r) !in db.roles then Some(db)
      else if !MembershipIsActive(db, t, s') then None
      else if (t, s', r') in db.roles && (s', r') != (s, r) then None
      else Some(db.(roles := db.roles - {(t, s, r)} + {(t, s', r')}))
    case DeleteRoles(rows) =>
      Some(db.(roles := set x | x in db.roles && !(x.0 == t && (x.1, x.2) in rows)))
  }

  predicate EditCommits(db: Tables, a: Actor, e: Edit) {
    && ActorIsAdmin(db, a)
    && EditRows(db, a.tenant.value, e).Some?
    && LastAdminTriggerPasses(RemovesActiveAdmin(db, a.tenant.value, e),
                              EditRows(db, a.tenant.value, e).value, a.tenant.value)
  }

  /** Row-level security shows an outsider no row to change and no row to insert, so a
      statement that is not the bound tenant's administrator's changes nothing. */
  function ApplyEdit(db: Tables, a: Actor, e: Edit): Tables {
    if EditCommits(db, a, e) then EditRows(db, a.tenant.value, e).value else db
  }

  // ----- Lifecycle functions -----

  datatype Reply = Version(version: int) | Denied | InvalidReason | RetiredTenant | MustSuspendFirst | ConstraintFailed

  /** UNIQUE (tenant_id, tenant_version) on the audit log. */
  predicate AuditVersionIsFree(db: Tables, t: TenantId, v: int) {
    forall i :: 0 <= i < |db.audit| ==> !(db.audit[i].tenant == t && db.audit[i].version == v)
  }

  function Record(db: Tables, t: TenantId, row: Tenant, e: LifecycleEvent): Tables {
    db.(tenants := db.tenants[t := row], audit := db.audit + [e])
  }

  function SuspendTenant(db: Tables, p: Option<SubjectId>, t: TenantId, reason: string, now: int): (Tables, Reply) {
    if !PlatformActorIsAdmin(db, p) then (db, Denied)
    else if !ReasonCodeFormat(reason) then (db, InvalidReason)
    else if t !in db.tenants then (db, Denied)
    else
      var row := db.tenants[t];
      if row.retiredAt.Some? then (db, RetiredTenant)
      else if row.state == Suspended then (db, Version(row.version))
      else if !AuditVersionIsFree(db, t, row.version + 1) then (db, ConstraintFailed)
      else (Record(db, t, Tenant(Suspended, row.version + 1, None),
                   LifecycleEvent(t, SuspendedAction, row.state, Suspended, row.version + 1, reason, p.value, now)),
            Version(row.version + 1))
  }

  function ReactivateTenant(db: Tables, p: Option<SubjectId>, t: TenantId, reason: string, now: int): (Tables, Reply) {
    if !PlatformActorIsAdmin(db, p) then (db, Denied)
    else if !ReasonCodeFormat(reason) then (db, InvalidReason)
    else if t !in db.tenants then (db, Denied)
    else
      var row := db.tenants[t];
      if row.retiredAt.Some? then (db, RetiredTenant)
      else if row.state == Active then (db, Version(row.version))
      else if !AuditVersionIsFree(db, t, row.version + 1) then (db, ConstraintFailed)
      else (Record(db, t, Tenant(Active, row.version + 1, None),
                   LifecycleEvent(t, ReactivatedAction, row.state, Active, row.version + 1, reason, p.value, now)),
            Version(row.version + 1))
  }

  function RetiredSource(source: Source): Source {
    if source.state == CfgRetired then source else source.(state := CfgRetired, version := source.version + 1)
  }

  /** DELETE FROM the role assignments of the tenant */
  function RolesDeleted(roles: set<(TenantId, SubjectId, Role)>, t: TenantId): set<(TenantId, SubjectId, Role)> {
    set x | x in roles && x.0 != t
  }

  /** UPDATE of the memberships, the issuers and the sources of the tenant */
  function MembershipsSuspended(memberships: map<(TenantId, SubjectId), RowState>, t: TenantId): map<(TenantId, SubjectId), RowState> {
    map k | k in memberships :: if k.0 == t then RowSuspended else memberships[k]
  }

  function IssuersRetired(issuers: map<(TenantId, IssuerId), ConfigState>, t: TenantId): map<(TenantId, IssuerId), ConfigState> {
    map k | k in issuers :: if k.0 == t then CfgRetired else issuers[k]
  }

  function SourcesRetired(sources: map<(TenantId, SourceId), Source>, t: TenantId): map<(TenantId, SourceId), Source> {
    map k | k in sources :: if k.0 == t then RetiredSource(sources[k]) else sources[k]
  }

  /** The tenant's roles go, its memberships are suspended, its issuers and sources retire. */
  function Strip(db: Tables, t: TenantId): Tables {
    db.(roles := RolesDeleted(db.roles, t), memberships := MembershipsSuspended(db.memberships, t),
        issuers := IssuersRetired(db.issuers, t), sources := SourcesRetired(db.sources, t))
  }

  function TeardownTenant(db: Tables, p: Option<SubjectId>, t: TenantId, reason: string, now: int): (Tables, Reply) {
    if !PlatformActorIsAdmin(db, p) then (db, Denied)
    else if !ReasonCodeFormat(reason) then (db, InvalidReason)
    else if t !in db.tenants then (db, Denied)
    else
      var row := db.tenants[t];
      if row.retiredAt.Some? then (db, Version(row.version))
      else if row.state != Suspended then (db, MustSuspendFirst)
      else if !LastAdminTriggerPasses(true, Strip(db, t), t) then (db, ConstraintFailed)
      else if !AuditVersionIsFree(db, t, row.version + 1) then (db, ConstraintFailed)
      else (Record(Strip(db, t), t, Tenant(row.state, row.version + 1, Some(now)),
                   LifecycleEvent(t, TeardownCompleted, row.state, Suspended, row.version + 1, reason, p.value, now)),
            Version(row.version + 1))
  }

  // ----- Runs -----

  /** A step of the tenancy tables. `SubjectChanged` is the identity provisioning that
      no function shown here performs: it sets a subject's own state. */
  datatype Step =
    | EditStep(actor: Actor, edit: Edit)
    | SuspendStep(platform: Option<SubjectId>, tenant: TenantId, reason: string, now: int)
    | ReactivateStep(platform: Option<SubjectId>, tenant: TenantId, reason: string, now: int)
    | TeardownStep(platform: Option<SubjectId>, tenant: TenantId, reason: string, now: int)
    | SubjectChanged(subject: SubjectId, state: RowState)

  function Apply(db: Tables, step: Step): Tables {
    match step
    case EditStep(a, e) => ApplyEdit(db, a, e)
    case SuspendStep(p, t, r, now) => SuspendTenant(db, p, t, r, now).0
    case ReactivateStep(p, t, r, now) => ReactivateTenant(db, p, t, r, now).0
    case TeardownStep(p, t, r, now) => TeardownTenant(db, p, t, r, now).0
    case SubjectChanged(s, st) => db.(subjects := db.subjects[s := st])
  }

  function Run(db: Tables, steps: seq<Step>): Tables
    decreases |steps|
  {
    if |steps| == 0 then db else Run(Apply(db, steps[0]), steps[1..])
  }

  // ----- The last administrator -----

  /** What every step keeps: a tenant that is not retired has an administrator. */
  predicate Administered(db: Tables, t: TenantId) {
    t in db.tenants && (db.tenants[t].retiredAt.None? ==> HasActiveAdmin(db, t))
      && (db.tenants[t].retiredAt.Some? ==> db.tenants[t].state == Suspended)
  }

  lemma AdminSurvivesEdit(db: Tables, a: Actor, e: Edit, t: TenantId)
    requires HasActiveAdmin(db, t)
    ensures HasActiveAdmin(ApplyEdit(db, a, e), t)
  {
    var k :| k in db.memberships && k.0 == t && IsActiveAdmin(db, t, k.1);
    assert k == (t, k.1);
    var after := ApplyEdit(db, a, e);
    if EditCommits(db, a, e) {
      if a.tenant.value != t {
        assert k in after.memberships && IsActiveAdmin(after, t, k.1);
      } else if !RemovesActiveAdmin(db, t, e) {
        match e {
          case UpdateRole(s, r, s', r') =>
            assert k in after.memberships && IsActiveAdmin(after, t, k.1);
          case _ =>
            assert k in after.memberships && IsActiveAdmin(after, t, k.1);
        }
      }
    }
  }

  lemma AdminCarriesOver(db: Tables, after: Tables, t: TenantId)
    requires HasActiveAdmin(db, t)
    requires forall k :: k in db.memberships && k.0 == t ==> k in after.memberships && after.memberships[k] == db.memberships[k]
    requires forall x :: x in db.roles && x.0 == t ==> x in after.roles
    ensures HasActiveAdmin(after, t)
  {
    var k :| k in db.memberships && k.0 == t && IsActiveAdmin(db, t, k.1);
    assert k == (t, k.1);
    assert k in after.memberships && IsActiveAdmin(after, t, k.1);
  }

  lemma SuspendKeepsAdministered(db: Tables, p: Option<SubjectId>, t': TenantId, reason: string, now: int, t: TenantId)
    requires Administered(db, t)
    ensures Administered(SuspendTenant(db, p, t', reason, now).0, t)
  {
    if HasActiveAdmin(db, t) {
      AdminCarriesOver(db, SuspendTenant(db, p, t', reason, now).0, t);
    }
  }

  lemma ReactivateKeepsAdministered(db: Tables, p: Option<SubjectId>, t': TenantId, reason: string, now: int, t: TenantId)
    requires Administered(db, t)
    ensures Administered(ReactivateTenant(db, p, t', reason, now).0, t)
  {
    if HasActiveAdmin(db, t) {
      AdminCarriesOver(db, ReactivateTenant(db, p, t', reason, now).0, t);
    }
  }

  lemma TeardownKeepsAdministered(db: Tables, p: Option<SubjectId>, t': TenantId, reason: string, now: int, t: TenantId)
    requires Administered(db, t)
    ensures Administered(TeardownTenant(db, p, t', reason, now).0, t)
  {
    var after := TeardownTenant(db, p, t', reason, now).0;
    if t' != t && db.tenants[t].retiredAt.None? {
      AdminCarriesOver(db, after, t);
    }
  }

  lemma StepKeepsAdministered(db: Tables, step: Step, t: TenantId)
    requires Administered(db, t)
    ensures Administered(Apply(db, step), t)
  {
    match step {
      case EditStep(a, e) =>
        if HasActiveAdmin(db, t) {
          AdminSurvivesEdit(db, a, e, t);
        }
      case SuspendStep(p, t', r, now) => SuspendKeepsAdministered(db, p, t', r, now, t);
      case ReactivateStep(p, t', r, now) => ReactivateKeepsAdministered(db, p, t', r, now, t);
      case TeardownStep(p, t', r, now) => TeardownKeepsAdministered(db, p, t', r, now, t);
      case SubjectChanged(s, st) =>
        if HasActiveAdmin(db, t) {
          AdminCarriesOver(db, Apply(db, step), t);
        }
    }
  }

  /** In every run of role and membership statements, suspensions, reactivations and
      teardowns, a tenant that had an active administrator has one whenever it is active,
      although the trigger does not fire while the tenant is suspended. */
  lemma {:induction false} AdministratorIsNeverLost(db: Tables, steps: seq<Step>, t: TenantId)
    requires Administered(db, t)
    ensures Administered(Run(db, steps), t)
    ensures TenantIsActive(Run(db, steps), t) ==> HasActiveAdmin(Run(db, steps), t)
    decreases |steps|
  {
    if |steps| != 0 {
      StepKeepsAdministered(db, steps[0], t);
      AdministratorIsNeverLost(Apply(db, steps[0]), steps[1..], t);
    }
  }

  /** Nobody edits the rows of a suspended tenant. */
  lemma SuspendedTenantIsFrozen(db: Tables, a: Actor, e: Edit, t: TenantId, s: SubjectId, r: Role)
    requires !TenantIsActive(db, t)
    ensures ((t, s) in ApplyEdit(db, a, e).memberships <==> (t, s) in db.memberships)
    ensures (t, s) in db.memberships ==> ApplyEdit(db, a, e).memberships[(t, s)] == db.memberships[(t, s)]
    ensures (t, s, r) in ApplyEdit(db, a, e).roles <==> (t, s, r) in db.roles
  {
  }

  /** An administrator counted by the trigger may still be unable to act: the trigger looks
      at the membership, `current_actor_is_tenant_admin` also at the subject. One step leads
      from a tenant whose administrator can act to one where nobody can. */
  lemma AdministratorMayBeUnableToAct(t: TenantId, s: SubjectId)
    ensures var db := Tables(map[t := Tenant(Active, 1, None)], map[s := RowActive], {},
                             map[(t, s) := RowActive], {(t, s, TenantAdmin)}, map[], map[], []);
            var after := Run(db, [SubjectChanged(s, RowSuspended)]);
            && Administered(db, t) && ActorIsAdmin(db, Actor(Some(t), Some(s)))
            && TenantIsActive(after, t) && HasActiveAdmin(after, t) && forall a: Actor :: !ActorIsAdmin(after, a)
  {
    var db := Tables(map[t := Tenant(Active, 1, None)], map[s := RowActive], {},
                     map[(t, s) := RowActive], {(t, s, TenantAdmin)}, map[], map[], []);
    var step := SubjectChanged(s, RowSuspended);
    assert [step][1..] == [];
    assert Run(db, [step]) == Apply(db, step);
    assert (t, s) in db.memberships && IsActiveAdmin(db, t, s) && IsActiveAdmin(Apply(db, step), t, s);
  }

  /** Exactly the missing test: a counted administrator of an active tenant can act if and
      only if its own subject is active. */
  lemma CountedAdministratorCanActIff(db: Tables, t: TenantId, s: SubjectId)
    requires TenantIsActive(db, t) && IsActiveAdmin(db, t, s)
    ensures ActorIsAdmin(db, Actor(Some(t), Some(s))) <==> SubjectIsActive(db, s)
  {
  }

  /** A counted administrator of the tenant whose subject is active. */
  predicate HasAbleAdmin(db: Tables, t: TenantId) {
    exists k :: k in db.memberships && k.0 == t && IsActiveAdmin(db, t, k.1) && SubjectIsActive(db, k.1)
  }

  ghost predicate SomeoneAdministers(db: Tables, t: TenantId) {
    exists a: Actor :: a.tenant == Some(t) && ActorIsAdmin(db, a)
  }

  /** For the tenant as a whole: somebody can act as its administrator if and only if it is
      active and some counted administrator's subject is active. */
  lemma SomeoneAdministersIff(db: Tables, t: TenantId)
    ensures SomeoneAdministers(db, t) <==> TenantIsActive(db, t) && HasAbleAdmin(db, t)
  {
    if SomeoneAdministers(db, t) {
      var a: Actor :| a.tenant == Some(t) && ActorIsAdmin(db, a);
      assert (t, a.subject.value) in db.memberships;
    }
    if TenantIsActive(db, t) && HasAbleAdmin(db, t) {
      var k :| k in db.memberships && k.0 == t && IsActiveAdmin(db, t, k.1) && SubjectIsActive(db, k.1);
      CountedAdministratorCanActIff(db, t, k.1);
      assert ActorIsAdmin(db, Actor(Some(t), Some(k.1)));
    }
  }

  // ----- The audit log explains the state -----

  /** The events of one tenant, oldest first. */
  function EventsOf(audit: seq<LifecycleEvent>, t: TenantId): seq<LifecycleEvent> {
    if |audit| == 0 then []
    else
      var rest := EventsOf(audit[..|audit| - 1], t);
      if audit[|audit| - 1].tenant == t then rest + [audit[|audit| - 1]] else rest
  }

  /** An auditor's reading of one event: it must start from the state and version reached
      so far, name the state its action leads to, and not follow a teardown. */
  function ReadEvent(row: Tenant, e: LifecycleEvent): Option<Tenant> {
    if row.retiredAt.Some? || e.previous != row.state || e.version != row.version + 1 then None
    else match e.action
      case SuspendedAction =>
        if e.previous == Active && e.next == Suspended then Some(Tenant(Suspended, e.version, None)) else None
      case ReactivatedAction =>
        if e.previous == Suspended && e.next == Active then Some(Tenant(Active, e.version, None)) else None
      case TeardownCompleted =>
        if e.previous == Suspended && e.next == Suspended then Some(Tenant(Suspended, e.version, Some(e.recordedAt))) else None
  }

  function ReadLog(start: Tenant, events: seq<LifecycleEvent>): Option<Tenant> {
    if |events| == 0 then Some(start)
    else match ReadLog(start, events[..|events| - 1])
      case None => None
      case Some(row) => ReadEvent(row, events[|events| - 1])
  }

  lemma EventsOfAppend(audit: seq<LifecycleEvent>, e: LifecycleEvent, t: TenantId)
    ensures EventsOf(audit + [e], t) == if e.tenant == t then EventsOf(audit, t) + [e] else EventsOf(audit, t)
  {
    assert (audit + [e])[..|audit|] == audit;
  }

  lemma ReadLogAppend(start: Tenant, events: seq<LifecycleEvent>, e: LifecycleEvent)
    requires ReadLog(start, events).Some?
    ensures ReadLog(start, events + [e]) == ReadEvent(ReadLog(start, events).value, e)
  {
    assert (events + [e])[..|events|] == events;
  }

  /** In a log an auditor can read, the versions rise by one per event and only the last
      event can be a teardown. */
  lemma {:induction false} ReadableLogIsNumbered(start: Tenant, events: seq<LifecycleEvent>)
    requires ReadLog(start, events).Some?
    ensures ReadLog(start, events).value.version == start.version + |events|
    ensures forall i :: 0 <= i < |events| ==> events[i].version == start.version + 1 + i
    ensures forall i :: 0 < i < |events| ==> events[i].previous == events[i - 1].next
    ensures |events| > 0 ==> ReadLog(start, events).value.state == events[|events| - 1].next
    ensures forall i :: 0 <= i < |events| - 1 ==> events[i].action != TeardownCompleted
    ensures |events| > 0 && ReadLog(start, events).value.retiredAt.None? ==> events[|events| - 1].action != TeardownCompleted
    decreases |events|
  {
    if |events| != 0 {
      var rest := events[..|events| - 1];
      ReadableLogIsNumbered(start, rest);
      assert forall i :: 0 <= i < |rest| ==> events[i] == rest[i];
    }
  }

  lemma EventOfIsInAudit(audit: seq<LifecycleEvent>, t: TenantId, i: nat)
    requires i < |audit| && audit[i].tenant == t
    ensures audit[i] in EventsOf(audit, t)
  {
    if i < |audit| - 1 {
      EventOfIsInAudit(audit[..|audit| - 1], t, i);
    }
  }

  /** The log read from the tenant's first row gives the tenant's present row. */
  predicate Explained(start: Tenant, db: Tables, t: TenantId) {
    && t in db.tenants
    && ReadLog(start, EventsOf(db.audit, t)) == Some(db.tenants[t])
    && (db.tenants[t].retiredAt.Some? ==> db.tenants[t].state == Suspended)
  }

  lemma NextVersionIsFree(start: Tenant, db: Tables, t: TenantId)
    requires Explained(start, db, t)
    ensures AuditVersionIsFree(db, t, db.tenants[t].version + 1)
  {
    ReadableLogIsNumbered(start, EventsOf(db.audit, t));
    forall i | 0 <= i < |db.audit| && db.audit[i].tenant == t
      ensures db.audit[i].version != db.tenants[t].version + 1
    {
      EventOfIsInAudit(db.audit, t, i);
    }
  }

  /** `after` keeps the log and the tenants, or adds one event that an auditor reads from
      the tenant's old row to its new one. */
  predicate AddsReadableEvent(db: Tables, after: Tables) {
    if after.audit == db.audit then after.tenants == db.tenants
    else
      && |after.audit| == |db.audit| + 1 && after.audit == db.audit + [after.audit[|db.audit|]]
      && var e := after.audit[|db.audit|];
         && e.tenant in db.tenants && e.tenant in after.tenants
         && after.tenants == db.tenants[e.tenant := after.tenants[e.tenant]]
         && ReadEvent(db.tenants[e.tenant], e) == Some(after.tenants[e.tenant])
  }

  lemma EventKeepsExplained(start: Tenant, db: Tables, after: Tables, t: TenantId)
    requires Explained(start, db, t) && AddsReadableEvent(db, after)
    ensures Explained(start, after, t)
  {
    if after.audit != db.audit {
      var e := after.audit[|db.audit|];
      EventsOfAppend(db.audit, e, t);
      if e.tenant == t {
        ReadLogAppend(start, EventsOf(db.audit, t), e);
      }
    }
  }

  lemma EditAddsNoEvent(db: Tables, a: Actor, e: Edit)
    ensures AddsReadableEvent(db, ApplyEdit(db, a, e))
  {
  }

  lemma SuspendAddsReadableEvent(db: Tables, p: Option<SubjectId>, t: TenantId, reason: string, now: int)
    ensures AddsReadableEvent(db, SuspendTenant(db, p, t, reason, now).0)
  {
  }

  lemma ReactivateAddsReadableEvent(db: Tables, p: Option<SubjectId>, t: TenantId, reason: string, now: int)
    ensures AddsReadableEvent(db, ReactivateTenant(db, p, t, reason, now).0)
  {
  }

  lemma TeardownAddsReadableEvent(db: Tables, p: Option<SubjectId>, t: TenantId, reason: string, now: int)
    ensures AddsReadableEvent(db, TeardownTenant(db, p, t, reason, now).0)
  {
  }

  lemma StepAddsReadableEvent(db: Tables, step: Step)
    ensures AddsReadableEvent(db, Apply(db, step))
  {
    match step {
      case EditStep(a, e) => EditAddsNoEvent(db, a, e);
      case SuspendStep(p, t, r, now) => SuspendAddsReadableEvent(db, p, t, r, now);
      case ReactivateStep(p, t, r, now) => ReactivateAddsReadableEvent(db, p, t, r, now);
      case TeardownStep(p, t, r, now) => TeardownAddsReadableEvent(db, p, t, r, now);
      case SubjectChanged(s, st) =>
    }
  }

  /** Over every run that starts with an empty log, reading a tenant's events from its
      first row gives its present state, version and retirement. */
  lemma {:induction false} AuditLogExplainsState(start: Tenant, db: Tables, steps: seq<Step>, t: TenantId)
    requires Explained(start, db, t)
    ensures Explained(start, Run(db, steps), t)
    decreases |steps|
  {
    if |steps| != 0 {
      StepAddsReadableEvent(db, steps[0]);
      EventKeepsExplained(start, db, Apply(db, steps[0]), t);
      AuditLogExplainsState(start, Apply(db, steps[0]), steps[1..], t);
    }
  }

  /** A call either changes nothing or appends one event and raises the version by one. */
  predicate OneVersionPerEvent(db: Tables, after: Tables, t: TenantId)
    requires t in db.tenants
  {
    if after.tenants == db.tenants then after == db
    else |after.audit| == |db.audit| + 1 && t in after.tenants && after.tenants[t].version == db.tenants[t].version + 1
  }

  /** In an explained state suspension never fails on a constraint, does nothing to a
      tenant that is already suspended, and otherwise appends exactly one event. */
  lemma SuspensionAppendsOnlyChanges(start: Tenant, db: Tables, p: Option<SubjectId>, t: TenantId, reason: string, now: int)
    requires Explained(start, db, t)
    ensures !SuspendTenant(db, p, t, reason, now).1.ConstraintFailed?
    ensures OneVersionPerEvent(db, SuspendTenant(db, p, t, reason, now).0, t)
    ensures db.tenants[t].state == Suspended ==> SuspendTenant(db, p, t, reason, now).0 == db
  {
    NextVersionIsFree(start, db, t);
  }

  lemma ReactivationAppendsOnlyChanges(start: Tenant, db: Tables, p: Option<SubjectId>, t: TenantId, reason: string, now: int)
    requires Explained(start, db, t)
    ensures !ReactivateTenant(db, p, t, reason, now).1.ConstraintFailed?
    ensures OneVersionPerEvent(db, ReactivateTenant(db, p, t, reason, now).0, t)
    ensures db.tenants[t].state == Active || db.tenants[t].retiredAt.Some? ==> ReactivateTenant(db, p, t, reason, now).0 == db
  {
    NextVersionIsFree(start, db, t);
  }

  lemma TeardownAppendsOnlyChanges(start: Tenant, db: Tables, p: Option<SubjectId>, t: TenantId, reason: string, now: int)
    requires Explained(start, db, t)
    ensures !TeardownTenant(db, p, t, reason, now).1.ConstraintFailed?
    ensures OneVersionPerEvent(db, TeardownTenant(db, p, t, reason, now).0, t)
    ensures db.tenants[t].state == Active || db.tenants[t].retiredAt.Some? ==> TeardownTenant(db, p, t, reason, now).0 == db
  {
    NextVersionIsFree(start, db, t);
  }

  // ----- What a step leaves alone -----

  /** No row of another tenant is touched. */
  ghost predicate OthersUntouched(db: Tables, after: Tables, t: TenantId) {
    && (forall u :: u in db.tenants && u != t ==> u in after.tenants && after.tenants[u] == db.tenants[u])
    && (forall x: (TenantId, SubjectId, Role) :: x.0 != t ==> (x in after.roles <==> x in db.roles))
    && (forall k: (TenantId, SubjectId) :: k.0 != t ==> (k in after.memberships <==> k in db.memberships))
    && (forall k: (TenantId, SubjectId) :: k.0 != t && k in db.memberships ==> after.memberships[k] == db.memberships[k])
    && (forall k: (TenantId, IssuerId) :: k.0 != t ==> (k in after.issuers <==> k in db.issuers))
    && (forall k: (TenantId, IssuerId) :: k.0 != t && k in db.issuers ==> after.issuers[k] == db.issuers[k])
    && (forall k: (TenantId, SourceId) :: k.0 != t ==> (k in after.sources <==> k in db.sources))
    && (forall k: (TenantId, SourceId) :: k.0 != t && k in db.sources ==> after.sources[k] == db.sources[k])
  }

  /** Every tenant but t that had a counted administrator has one. */
  ghost predicate AdminsSurvive(db: Tables, after: Tables, except: set<TenantId>) {
    forall t :: t !in except && HasActiveAdmin(db, t) ==> HasActiveAdmin(after, t)
  }

  /** What the row statements of a teardown leave of a tenant. */
  predicate Stripped(db: Tables, t: TenantId) {
    && (forall x :: x in db.roles ==> x.0 != t)
    && (forall k :: k in db.memberships && k.0 == t ==> db.memberships[k] == RowSuspended)
    && (forall k :: k in db.issuers && k.0 == t ==> db.issuers[k] == CfgRetired)
    && (forall k :: k in db.sources && k.0 == t ==> db.sources[k].state == CfgRetired)
  }

  lemma EditSparesOthers(db: Tables, a: Actor, e: Edit)
    requires a.tenant.Some?
    ensures OthersUntouched(db, ApplyEdit(db, a, e), a.tenant.value)
  {
    if EditCommits(db, a, e) {
      match e {
        case InsertMembership(s, st) =>
        case SetMembershipState(ss, st) =>
        case MoveMembership(s, s') =>
        case DeleteMemberships(ss) =>
        case InsertRole(s, r) =>
        case UpdateRole(s, r, s', r') =>
        case DeleteRoles(rows) =>
      }
    }
  }

  lemma EditKeepsAdmins(db: Tables, a: Actor, e: Edit)
    ensures AdminsSurvive(db, ApplyEdit(db, a, e), {})
  {
    forall t | HasActiveAdmin(db, t) ensures HasActiveAdmin(ApplyEdit(db, a, e), t) {
      AdminSurvivesEdit(db, a, e, t);
    }
  }

  /** Changing tenant rows and the log keeps every administrator. */
  lemma SameMembersKeepAdmins(db: Tables, after: Tables)
    requires after.memberships == db.memberships && after.roles == db.roles
    ensures AdminsSurvive(db, after, {})
  {
    forall t | HasActiveAdmin(db, t) ensures HasActiveAdmin(after, t) {
      AdminCarriesOver(db, after, t);
    }
  }

  /** The row statements of a teardown leave the tenant no role, no active membership, issuer
      or source, hence no administrator, and touch no other tenant. */
  lemma StripSparesOthers(db: Tables, t: TenantId)
    ensures Stripped(Strip(db, t), t) && !HasActiveAdmin(Strip(db, t), t)
    ensures OthersUntouched(db, Strip(db, t), t) && AdminsSurvive(db, Strip(db, t), {t})
  {
    var after := Strip(db, t);
    forall u | u != t && HasActiveAdmin(db, u) ensures HasActiveAdmin(after, u) {
      AdminCarriesOver(db, after, u);
    }
  }

  /** Changing the tenant's own row and the log afterwards adds nothing to what changed. */
  lemma RecordAfterStrip(db: Tables, t: TenantId, row: Tenant, audit: seq<LifecycleEvent>)
    requires t in db.tenants
    ensures var after := Strip(db, t).(tenants := db.tenants[t := row], audit := audit);
            Stripped(after, t) && OthersUntouched(db, after, t) && AdminsSurvive(db, after, {t})
  {
    StripSparesOthers(db, t);
    var after := Strip(db, t).(tenants := db.tenants[t := row], audit := audit);
    SameMembersKeepAdmins(Strip(db, t), after);
  }

  // ----- What the store keeps -----

  /** Every tenant's row is what an auditor reads from its first row. */
  predicate LogExplains(first: map<TenantId, Tenant>, db: Tables) {
    first.Keys == db.tenants.Keys && forall t :: t in first ==> Explained(first[t], db, t)
  }

  lemma ReadableEventKeepsLog(first: map<TenantId, Tenant>, db: Tables, after: Tables)
    requires LogExplains(first, db) && AddsReadableEvent(db, after)
    ensures LogExplains(first, after)
  {
    forall t | t in first ensures Explained(first[t], after, t) {
      EventKeepsExplained(first[t], db, after, t);
    }
  }

  lemma VersionIsFree(first: map<TenantId, Tenant>, db: Tables, t: TenantId)
    requires LogExplains(first, db) && t in db.tenants
    ensures AuditVersionIsFree(db, t, db.tenants[t].version + 1)
  {
    NextVersionIsFree(first[t], db, t);
  }

  lemma SuspendKeepsLog(first: map<TenantId, Tenant>, db: Tables, p: Option<SubjectId>, t: TenantId, reason: string, now: int)
    requires LogExplains(first, db)
    ensures LogExplains(first, SuspendTenant(db, p, t, reason, now).0)
  {
    SuspendAddsReadableEvent(db, p, t, reason, now);
    ReadableEventKeepsLog(first, db, SuspendTenant(db, p, t, reason, now).0);
  }

  lemma ReactivateKeepsLog(first: map<TenantId, Tenant>, db: Tables, p: Option<SubjectId>, t: TenantId, reason: string, now: int)
    requires LogExplains(first, db)
    ensures LogExplains(first, ReactivateTenant(db, p, t, reason, now).0)
  {
    ReactivateAddsReadableEvent(db, p, t, reason, now);
    ReadableEventKeepsLog(first, db, ReactivateTenant(db, p, t, reason, now).0);
  }

  lemma TeardownKeepsLog(first: map<TenantId, Tenant>, db: Tables, p: Option<SubjectId>, t: TenantId, reason: string, now: int)
    requires LogExplains(first, db)
    ensures LogExplains(first, TeardownTenant(db, p, t, reason, now).0)
  {
    TeardownAddsReadableEvent(db, p, t, reason, now);
    ReadableEventKeepsLog(first, db, TeardownTenant(db, p, t, reason, now).0);
  }

  // ----- The tables in place -----

  class TenantStore {
    var tenants: map<TenantId, Tenant>
    var subjects: map<SubjectId, RowState>
    var platformAdmins: set<SubjectId>
    var memberships: map<(TenantId, SubjectId), RowState>
    var roles: set<(TenantId, SubjectId, Role)>
    var issuers: map<(TenantId, IssuerId), ConfigState>
    var sources: map<(TenantId, SourceId), Source>
    var audit: seq<LifecycleEvent>
    /** The tenants' rows when the log was empty. */
    ghost var first: map<TenantId, Tenant>

    function View(): Tables
      reads this
    {
      Tables(tenants, subjects, platformAdmins, memberships, roles, issuers, sources, audit)
    }

    ghost predicate Valid()
      reads this
    {
      LogExplains(first, View())
    }

    constructor (db: Tables)
      requires db.audit == []
      requires forall t :: t in db.tenants && db.tenants[t].retiredAt.Some? ==> db.tenants[t].state == Suspended
      ensures View() == db && Valid()
    {
      first := db.tenants;
      tenants, subjects, platformAdmins := db.tenants, db.subjects, db.platformAdmins;
      memberships, roles, issuers, sources := db.memberships, db.roles, db.issuers, db.sources;
      audit := db.audit;
    }

    /** One statement of the application role: row-level security first, then the row
        triggers and keys, then the AFTER trigger on the rows it left. */
    method ExecuteStatement(a: Actor, e: Edit) returns (committed: bool)
      requires Valid()
      modifies this`memberships, this`roles
      ensures Valid() && View() == ApplyEdit(old(View()), a, e)
      ensures committed == EditCommits(old(View()), a, e)
      ensures committed ==> ActorIsAdmin(old(View()), a) && OthersUntouched(old(View()), View(), a.tenant.value)
      ensures !committed ==> View() == old(View())
      ensures AdminsSurvive(old(View()), View(), {})
    {
      ghost var before := View();
      if !ActorIsAdmin(View(), a) {
        return false;
      }
      var t := a.tenant.value;
      var removed := RemovesActiveAdmin(View(), t, e);
      var rows := EditRows(View(), t, e);
      if rows.None? || !LastAdminTriggerPasses(removed, rows.value, t) {
        return false;
      }
      memberships, roles := rows.value.memberships, rows.value.roles;
      assert View() == ApplyEdit(before, a, e);
      assert AdminsSurvive(before, View(), {}) && OthersUntouched(before, View(), t) by {
        EditKeepsAdmins(before, a, e);
        EditSparesOthers(before, a, e);
      }
      return true;
    }

    /** `identity.suspend_tenant` */
    method SuspendTenantRow(p: Option<SubjectId>, t: TenantId, reason: string, now: int) returns (reply: Reply)
      requires Valid()
      modifies this`tenants, this`audit
      ensures Valid() && (View(), reply) == SuspendTenant(old(View()), p, t, reason, now)
      ensures reply != ConstraintFailed
      ensures reply.Version? ==> t in tenants && tenants[t] == Tenant(Suspended, reply.version, None)
      ensures |audit| == |old(audit)| + if reply.Version? && old(tenants)[t].state == Active then 1 else 0
      ensures !reply.Version? ==> View() == old(View())
      ensures reply.Version? ==> tenants == old(tenants)[t := tenants[t]]
      ensures forall u :: HasActiveAdmin(View(), u) == old(HasActiveAdmin(View(), u))
    {
      ghost var before := View();
      if !PlatformActorIsAdmin(View(), p) {
        return Denied;
      }
      if !ReasonCodeFormat(reason) {
        return InvalidReason;
      }
      if t !in tenants {
        return Denied;
      }
      var tenant := tenants[t];
      if tenant.retiredAt.Some? {
        return RetiredTenant;
      }
      if tenant.state == Suspended {
        return Version(tenant.version);
      }
      var nextVersion := tenant.version + 1;
      assert AuditVersionIsFree(before, t, nextVersion) by {
        VersionIsFree(first, before, t);
      }
      if !AuditVersionIsFree(View(), t, nextVersion) {
        return ConstraintFailed;
      }
      tenants := tenants[t := tenant.(state := Suspended, version := nextVersion)];
      audit := audit + [LifecycleEvent(t, SuspendedAction, tenant.state, Suspended, nextVersion, reason, p.value, now)];
      assert View() == SuspendTenant(before, p, t, reason, now).0;
      assert LogExplains(first, View()) by {
        SuspendKeepsLog(first, before, p, t, reason, now);
      }
      return Version(nextVersion);
    }

    /** `identity.reactivate_tenant` */
    method ReactivateTenantRow(p: Option<SubjectId>, t: TenantId, reason: string, now: int) returns (reply: Reply)
      requires Valid()
      modifies this`tenants, this`audit
      ensures Valid() && (View(), reply) == ReactivateTenant(old(View()), p, t, reason, now)
      ensures reply != ConstraintFailed
      ensures reply.Version? ==> t in tenants && tenants[t] == Tenant(Active, reply.version, None)
      ensures |audit| == |old(audit)| + if reply.Version? && old(tenants)[t].state == Suspended then 1 else 0
      ensures !reply.Version? ==> View() == old(View())
      ensures reply.Version? ==> tenants == old(tenants)[t := tenants[t]]
      ensures forall u :: HasActiveAdmin(View(), u) == old(HasActiveAdmin(View(), u))
    {
      ghost var before := View();
      if !PlatformActorIsAdmin(View(), p) {
        return Denied;
      }
      if !ReasonCodeFormat(reason) {
        return InvalidReason;
      }
      if t !in tenants {
        return Denied;
      }
      var tenant := tenants[t];
      if tenant.retiredAt.Some? {
        return RetiredTenant;
      }
      if tenant.state == Active {
        return Version(tenant.version);
      }
      var nextVersion := tenant.version + 1;
      assert AuditVersionIsFree(before, t, nextVersion) by {
        VersionIsFree(first, before, t);
      }
      if !AuditVersionIsFree(View(), t, nextVersion) {
        return ConstraintFailed;
      }
      tenants := tenants[t := tenant.(state := Active, version := nextVersion)];
      audit := audit + [LifecycleEvent(t, ReactivatedAction, tenant.state, Active, nextVersion, reason, p.value, now)];
      assert View() == ReactivateTenant(before, p, t, reason, now).0;
      assert LogExplains(first, View()) by {
        ReactivateKeepsLog(first, before, p, t, reason, now);
      }
      return Version(nextVersion);
    }

    /** The row statements of the teardown. */
    method StripRows(t: TenantId)
      modifies this`roles, this`memberships, this`issuers, this`sources
      ensures View() == Strip(old(View()), t)
    {
      roles := RolesDeleted(roles, t);
      memberships := MembershipsSuspended(memberships, t);
      issuers := IssuersRetired(issuers, t);
      sources := SourcesRetired(sources, t);
    }

    /** `identity.teardown_tenant`. While the roles are deleted and the memberships
        suspended the tenant is not active, so the last-administrator trigger lets the
        rows go. */
    method TeardownTenantRows(p: Option<SubjectId>, t: TenantId, reason: string, now: int) returns (reply: Reply)
      requires Valid()
      modifies this
      ensures Valid() && (View(), reply) == TeardownTenant(old(View()), p, t, reason, now)
      ensures reply != ConstraintFailed
      ensures reply.Version? ==> t in tenants && tenants[t].state == Suspended && tenants[t].retiredAt.Some?
                                 && tenants[t].version == reply.version
      ensures reply.Version? && old(tenants)[t].retiredAt.None? ==> Stripped(View(), t) && |audit| == |old(audit)| + 1
      ensures !reply.Version? || old(tenants)[t].retiredAt.Some? ==> View() == old(View())
      ensures OthersUntouched(old(View()), View(), t) && AdminsSurvive(old(View()), View(), {t})
    {
      ghost var before := View();
      if !PlatformActorIsAdmin(View(), p) {
        return Denied;
      }
      if !ReasonCodeFormat(reason) {
        return InvalidReason;
      }
      if t !in tenants {
        return Denied;
      }
      var tenant := tenants[t];
      if tenant.retiredAt.Some? {
        return Version(tenant.version);
      }
      if tenant.state != Suspended {
        return MustSuspendFirst;
      }
      var nextVersion := tenant.version + 1;
      assert AuditVersionIsFree(before, t, nextVersion) by {
        VersionIsFree(first, before, t);
      }
      if !AuditVersionIsFree(View(), t, nextVersion) {
        return ConstraintFailed;
      }
      assert LastAdminTriggerPasses(true, Strip(View(), t), t);
      StripRows(t);
      tenants := tenants[t := tenant.(version := nextVersion, retiredAt := Some(now))];
      audit := audit + [LifecycleEvent(t, TeardownCompleted, tenant.state, Suspended, nextVersion, reason, p.value, now)];
      assert View() == Strip(before, t).(tenants := before.tenants[t := tenants[t]], audit := audit);
      assert Stripped(View(), t) && OthersUntouched(before, View(), t) && AdminsSurvive(before, View(), {t}) by {
        RecordAfterStrip(before, t, tenants[t], audit);
      }
      assert View() == TeardownTenant(before, p, t, reason, now).0;
      assert LogExplains(first, View()) by {
        TeardownKeepsLog(first, before, p, t, reason, now);
      }
      return Version(nextVersion);
    }
  }
}
