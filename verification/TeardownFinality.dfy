/** A torn-down tenant stays as it is, although several functions never look at
    `retired_at`: without roles and with its tenant suspended, it has no actor. */
module TeardownFinality {
  import opened Sql
  import opened Tenancy
  import opened Certificates
  import opened KeyRegistry
  import opened KeyRegistryHistory
  import opened KeyRegistryEpochs
  import opened ReplayGuard
  import opened ReplayGuardRuns
  import opened EvidenceVault
  import opened EvidenceVaultProofs
  import opened Platform

  // ----- What teardown leaves behind -----

  /** The tenant is retired and stripped. */
  ghost predicate Closed(db: Tables, t: TenantId) {
    && t in db.tenants && db.tenants[t].retiredAt.Some? && db.tenants[t].state == Suspended
    && Stripped(db, t)
  }

  /** A teardown that succeeds on a tenant not yet retired closes it. */
  lemma TeardownCloses(db: Tables, p: Option<SubjectId>, t: TenantId, reason: string, now: int)
    requires t in db.tenants && db.tenants[t].retiredAt.None?
    requires TeardownTenant(db, p, t, reason, now).1.Version?
    ensures Closed(TeardownTenant(db, p, t, reason, now).0, t)
  {
  }

  // ----- Tenancy tables -----

  /** The tenant's rows are untouched. */
  ghost predicate SameRows(db: Tables, after: Tables, t: TenantId) {
    && t in db.tenants && t in after.tenants && after.tenants[t] == db.tenants[t]
    && (forall s, r :: (t, s, r) in after.roles <==> (t, s, r) in db.roles)
    && (forall s :: (t, s) in after.memberships <==> (t, s) in db.memberships)
    && (forall s :: (t, s) in db.memberships ==> after.memberships[(t, s)] == db.memberships[(t, s)])
    && (forall i :: (t, i) in after.issuers <==> (t, i) in db.issuers)
    && (forall i :: (t, i) in db.issuers ==> after.issuers[(t, i)] == db.issuers[(t, i)])
    && SameSources(db, after, t)
  }

  ghost predicate SameSources(db: Tables, after: Tables, t: TenantId) {
    && (forall s :: (t, s) in after.sources <==> (t, s) in db.sources)
    && (forall s :: (t, s) in db.sources ==> after.sources[(t, s)] == db.sources[(t, s)])
  }

  lemma ClosedSurvives(db: Tables, after: Tables, t: TenantId)
    requires Closed(db, t) && SameRows(db, after, t)
    ensures Closed(after, t)
  {
    forall x | x in after.roles ensures x.0 != t {
      assert x == (x.0, x.1, x.2);
    }
    forall k | k in after.memberships && k.0 == t ensures after.memberships[k] == RowSuspended {
      assert k == (t, k.1);
    }
    forall k | k in after.issuers && k.0 == t ensures after.issuers[k] == CfgRetired {
      assert k == (t, k.1);
    }
    forall k | k in after.sources && k.0 == t ensures after.sources[k].state == CfgRetired {
      assert k == (t, k.1);
    }
  }

  lemma EditSparesClosed(db: Tables, a: Actor, e: Edit, t: TenantId)
    requires Closed(db, t)
    ensures SameRows(db, ApplyEdit(db, a, e), t)
  {
    if EditCommits(db, a, e) {
      assert a.tenant.value != t;
      match e {
        case InsertMembership(s, st) =>
        case SetMembershipState(ss, st) =>
        case MoveMembership(s, s') =>
        case DeleteMemberships(ss) =>
        case InsertRole(s, r) =>
        case UpdateRole(s, r, s', r') =>
        case DeleteRoles(rows) =>
      }
    }
  }

  lemma SuspendSparesClosed(db: Tables, p: Option<SubjectId>, t': TenantId, reason: string, now: int, t: TenantId)
    requires Closed(db, t)
    ensures SameRows(db, SuspendTenant(db, p, t', reason, now).0, t)
  {
  }

  lemma ReactivateSparesClosed(db: Tables, p: Option<SubjectId>, t': TenantId, reason: string, now: int, t: TenantId)
    requires Closed(db, t)
    ensures SameRows(db, ReactivateTenant(db, p, t', reason, now).0, t)
  {
  }

  lemma TeardownSparesClosed(db: Tables, p: Option<SubjectId>, t': TenantId, reason: string, now: int, t: TenantId)
    requires Closed(db, t)
    ensures SameRows(db, TeardownTenant(db, p, t', reason, now).0, t)
  {
  }

  lemma TenancySparesClosed(db: Tables, step: Step, t: TenantId)
    requires Closed(db, t)
    ensures SameRows(db, Apply(db, step), t)
  {
    match step {
      case EditStep(a, e) => EditSparesClosed(db, a, e, t);
      case SuspendStep(p, t', r, now) => SuspendSparesClosed(db, p, t', r, now, t);
      case ReactivateStep(p, t', r, now) => ReactivateSparesClosed(db, p, t', r, now, t);
      case TeardownStep(p, t', r, now) => TeardownSparesClosed(db, p, t', r, now, t);
      case SubjectChanged(s, st) =>
    }
  }

  // ----- Keys -----

  ghost predicate SameKeys(keys: Keys, after: Keys, t: TenantId) {
    forall s :: KeysOf(after, t, s) == KeysOf(keys, t, s)
  }

  ghost predicate SameRegistry(r: Registry, after: Registry, t: TenantId) {
    SameRows(r.db, after.db, t) && SameKeys(r.keys, after.keys, t)
  }

  lemma CommitElsewhere(r: Registry, t': TenantId, s: SourceId, outcome: (Source, KeyRows, KeyReply), t: TenantId)
    requires t in r.db.tenants && t' != t
    ensures SameRegistry(r, Commit(r, t', s, outcome).0, t)
  {
  }

  lemma EnrollSparesClosed(r: Registry, step: RegistryStep, t: TenantId)
    requires Closed(r.db, t) && step.EnrollStep?
    ensures SameRegistry(r, RegistryNext(r, step), t)
  {
    if ActorIsAdmin(r.db, step.actor) && (step.actor.tenant.value, step.source) in r.db.sources {
      var x := (step.actor.tenant.value, step.source);
      CommitElsewhere(r, x.0, x.1, EnrollRows(r.db.sources[x], KeysOf(r.keys, x.0, x.1), step.key, step.publicKey,
                                              step.actor.subject.value, step.at), t);
    }
  }

  lemma RotateSparesClosed(r: Registry, step: RegistryStep, t: TenantId)
    requires Closed(r.db, t) && step.RotateStep?
    ensures SameRegistry(r, RegistryNext(r, step), t)
  {
    if ActorIsAdmin(r.db, step.actor) && (step.actor.tenant.value, step.source) in r.db.sources {
      var x := (step.actor.tenant.value, step.source);
      CommitElsewhere(r, x.0, x.1, RotateRows(r.db.sources[x], KeysOf(r.keys, x.0, x.1), step.key, step.publicKey,
                                              step.actor.subject.value, step.at), t);
    }
  }

  lemma RevokeSparesClosed(r: Registry, step: RegistryStep, t: TenantId)
    requires Closed(r.db, t) && step.RevokeKeyStep?
    ensures SameRegistry(r, RegistryNext(r, step), t)
  {
    if ActorIsAdmin(r.db, step.actor) && (step.actor.tenant.value, step.source) in r.db.sources {
      var x := (step.actor.tenant.value, step.source);
      CommitElsewhere(r, x.0, x.1, RevokeRows(r.db.sources[x], KeysOf(r.keys, x.0, x.1), step.key, step.reason,
                                              step.actor.subject.value, step.at), t);
    }
  }

  lemma SourceEditSparesClosed(r: Registry, a: Actor, s: SourceId, e: SourceEdit, t: TenantId)
    requires Closed(r.db, t)
    ensures SameRegistry(r, EditSource(r, a, s, e), t)
  {
  }

  lemma SuspensionSparesClosed(r: Registry, step: RegistryStep, t: TenantId)
    requires Closed(r.db, t) && step.SuspensionStep?
    ensures SameRegistry(r, RegistryNext(r, step), t)
  {
  }

  lemma AutoSuspendSparesClosed(r: Registry, t': TenantId, s: SourceId, t: TenantId)
    requires Closed(r.db, t)
    ensures SameRegistry(r, AutoSuspend(r, t', s), t)
  {
  }

  lemma RegistrySparesClosed(r: Registry, step: RegistryStep, t: TenantId)
    requires Closed(r.db, t)
    ensures SameRegistry(r, RegistryNext(r, step), t)
  {
    if step.EnrollStep? {
      EnrollSparesClosed(r, step, t);
    } else if step.RotateStep? {
      RotateSparesClosed(r, step, t);
    } else if step.RevokeKeyStep? {
      RevokeSparesClosed(r, step, t);
    } else if step.TenancyStep? {
      TenancySparesClosed(r.db, step.step, t);
    } else if step.EditSourceStep? {
      SourceEditSparesClosed(r, step.actor, step.source, step.edit, t);
    } else if step.SuspensionStep? {
      SuspensionSparesClosed(r, step, t);
    } else {
      AutoSuspendSparesClosed(r, step.tenant, step.source, t);
    }
  }

  lemma IssuerEditSparesClosed(db: Tables, a: Actor, i: IssuerId, state: Option<ConfigState>, t: TenantId)
    requires Closed(db, t)
    ensures SameRows(db, EditIssuer(db, a, i, state), t)
  {
  }

  // ----- Certificates -----

  predicate OnlyExpires(row: Certificate, later: Certificate) {
    later == row || (later.identity == row.identity && row.state == CertActive && later.state == CertExpired)
  }

  /** No new certificate, and the old ones at most expire. */
  predicate CertificatesOnlyExpire(db: Inventory, after: Inventory, t: TenantId) {
    && (forall c :: c in db.certs && db.certs[c].identity.tenant == t ==>
          c in after.certs && OnlyExpires(db.certs[c], after.certs[c]))
    && (forall c :: c in after.certs && after.certs[c].identity.tenant == t ==>
          c in db.certs && db.certs[c].identity.tenant == t)
  }

  lemma IssueSparesClosed(db: Inventory, id: Tables, a: Actor, c: CertificateId, ev: EventId,
                          correlation: CorrelationId, f: Fields, now: int, t: TenantId)
    requires Closed(id, t)
    ensures CertificatesOnlyExpire(db, Issue(db, id, a, c, ev, correlation, f, now).0, t)
  {
  }

  lemma RenewSparesClosed(db: Inventory, id: Tables, a: Actor, c: CertificateId, ev: EventId, ev': EventId,
                          correlation: CorrelationId, p: Option<CertificateId>, f: Fields, now: int, t: TenantId)
    requires Closed(id, t)
    ensures CertificatesOnlyExpire(db, Renew(db, id, a, c, ev, ev', correlation, p, f, now).0, t)
  {
  }

  lemma RevokeCertSparesClosed(db: Inventory, id: Tables, call: Call, t: TenantId)
    requires Closed(id, t) && call.RevokeCall? && call.id == id
    ensures CertificatesOnlyExpire(db, Serve(db, call), t)
  {
  }

  lemma ExpireOnlyExpires(db: Inventory, call: Call, t: TenantId)
    requires call.ExpireCall?
    ensures CertificatesOnlyExpire(db, Serve(db, call), t)
  {
  }

  lemma CertificatesSpareClosed(db: Inventory, call: Call, id: Tables, t: TenantId)
    requires Closed(id, t)
    ensures CertificatesOnlyExpire(db, Serve(db, BindCall(call, id)), t)
  {
    match BindCall(call, id) {
      case IssueCall(_, a, c, ev, cor, f, now) => IssueSparesClosed(db, id, a, c, ev, cor, f, now, t);
      case RenewCall(_, a, c, ev, ev', cor, p, f, now) => RenewSparesClosed(db, id, a, c, ev, ev', cor, p, f, now, t);
      case RevokeCall(_, a, ev, cor, req, c, r, at, k, conf, now) => RevokeCertSparesClosed(db, id, BindCall(call, id), t);
      case ExpireCall(t', c, ev, cor, at, now) => ExpireOnlyExpires(db, call, t);
    }
  }

  // ----- Evidence -----

  /** The tenant's receipts, state rows and stored records are untouched. */
  ghost predicate SameEvidence(v: Vault, after: Vault, t: TenantId) {
    && OfTenant(after.guard.receipts, t) == OfTenant(v.guard.receipts, t)
    && (forall s, k :: (t, s, k) in after.guard.rows <==> (t, s, k) in v.guard.rows)
    && (forall s, k :: (t, s, k) in v.guard.rows ==> after.guard.rows[(t, s, k)] == v.guard.rows[(t, s, k)])
    && (forall e :: (t, e) in after.records <==> (t, e) in v.records)
    && (forall e :: (t, e) in v.records ==> after.records[(t, e)] == v.records[(t, e)])
  }

  /** Every receipt of the tenant is stored already. */
  predicate AllStored(v: Vault, t: TenantId) {
    forall x :: x in OfTenant(v.guard.receipts, t) ==> ReceiptKey(x) in v.records
  }

  lemma ClosedTenantIsRefused(g: Guard, r: Registry, e: Envelope, now: int)
    requires Closed(r.db, e.tenant)
    ensures Judge(g, r, e, now).0 == g
  {
  }

  lemma ForeignRowsAreSpared(g: Guard, r: Registry, e: Envelope, now: int, t: TenantId)
    requires e.tenant != t
    ensures var after := Judge(g, r, e, now).0;
            && (forall s, k :: (t, s, k) in after.rows <==> (t, s, k) in g.rows)
            && (forall s, k :: (t, s, k) in g.rows ==> after.rows[(t, s, k)] == g.rows[(t, s, k)])
            && (after.receipts == g.receipts || after.receipts == g.receipts + [NewReceipt(e, now)])
  {
  }

  lemma GuardSparesClosed(v: Vault, r: Registry, e: Envelope, now: int, t: TenantId)
    requires Closed(r.db, t)
    ensures SameEvidence(v, v.(guard := Judge(v.guard, r, e, now).0), t)
  {
    if e.tenant == t {
      ClosedTenantIsRefused(v.guard, r, e, now);
    } else {
      ForeignRowsAreSpared(v.guard, r, e, now, t);
      OfTenantAppend(v.guard.receipts, NewReceipt(e, now), t);
    }
  }

  lemma StoreSparesClosed(v: Vault, k: EvidenceKey, p: Sealed, t: TenantId)
    requires AllStored(v, t) && StoreEvidence(v, k, p).Some?
    ensures SameEvidence(v, StoreEvidence(v, k, p).value, t)
  {
    var x := ReceiptFor(v.guard.receipts, k).value;
    OfTenantHas(v.guard.receipts, t, x);
  }

  lemma StatementSparesClosed(v: Vault, s: Statement, r: Registry, t: TenantId)
    requires Closed(r.db, t) && AllStored(v, t) && Execute(v, Bind(s, r)).Some?
    ensures SameEvidence(v, Execute(v, Bind(s, r)).value, t) && AllStored(Execute(v, Bind(s, r)).value, t)
  {
    match s {
      case GuardStatement(_, e, now) => GuardSparesClosed(v, r, e, now, t);
      case StoreStatement(k, p) => StoreSparesClosed(v, k, p, t);
      case DeleteStatement(_, a, event, reason, now) =>
      case PurgeStatement(_, a, now) =>
    }
  }

  lemma {:induction false} StatementsSpareClosed(v: Vault, statements: seq<Statement>, r: Registry, t: TenantId)
    requires Closed(r.db, t) && AllStored(v, t) && ExecuteAll(v, BindAll(statements, r)).Some?
    ensures SameEvidence(v, ExecuteAll(v, BindAll(statements, r)).value, t)
    decreases |statements|
  {
    if |statements| != 0 {
      StatementSparesClosed(v, statements[0], r, t);
      assert BindAll(statements, r)[1..] == BindAll(statements[1..], r);
      StatementsSpareClosed(Execute(v, Bind(statements[0], r)).value, statements[1..], r, t);
    }
  }

  lemma TransactionSparesClosed(v: Vault, statements: seq<Statement>, r: Registry, t: TenantId)
    requires Closed(r.db, t) && Paired(v)
    ensures SameEvidence(v, Transact(v, BindAll(statements, r)), t)
  {
    if Commits(v, BindAll(statements, r)) {
      forall x | x in OfTenant(v.guard.receipts, t) ensures ReceiptKey(x) in v.records {
        OfTenantHas(v.guard.receipts, t, x);
      }
      StatementsSpareClosed(v, statements, r, t);
    }
  }

  // ----- The theorem -----

  ghost predicate Frozen(s: System, after: System, t: TenantId) {
    && SameRegistry(s.registry, after.registry, t)
    && CertificatesOnlyExpire(s.inventory, after.inventory, t)
    && SameEvidence(s.vault, after.vault, t)
  }

  lemma StepFreezes(s: System, step: SystemStep, t: TenantId)
    requires Closed(s.registry.db, t) && Paired(s.vault)
    ensures Frozen(s, SystemNext(s, step), t) && Paired(SystemNext(s, step).vault)
  {
    match step {
      case RegistryPart(st) => RegistrySparesClosed(s.registry, st, t);
      case IssuerPart(a, i, state) => IssuerEditSparesClosed(s.registry.db, a, i, state, t);
      case CertificatePart(call) => CertificatesSpareClosed(s.inventory, call, s.registry.db, t);
      case EvidencePart(statements) =>
        TransactionSparesClosed(s.vault, statements, s.registry, t);
        TransactionStaysPaired(s.vault, BindAll(statements, s.registry));
    }
  }

  lemma FrozenIsTransitive(a: System, b: System, c: System, t: TenantId)
    requires Frozen(a, b, t) && Frozen(b, c, t)
    ensures Frozen(a, c, t)
  {
  }

  /** After teardown no run of further steps of any component changes the tenant's row, its
      roles, memberships, issuers, sources, keys, receipts or stored evidence; its
      certificates can only go from active to expired. */
  lemma {:induction false} TeardownIsFinal(s: System, steps: seq<SystemStep>, t: TenantId)
    requires Closed(s.registry.db, t) && Paired(s.vault)
    ensures Frozen(s, SystemRun(s, steps), t)
    ensures Closed(SystemRun(s, steps).registry.db, t)
    decreases |steps|
  {
    if |steps| != 0 {
      var next := SystemNext(s, steps[0]);
      StepFreezes(s, steps[0], t);
      ClosedSurvives(s.registry.db, next.registry.db, t);
      TeardownIsFinal(next, steps[1..], t);
      FrozenIsTransitive(s, next, SystemRun(next, steps[1..]), t);
    }
  }

  // ----- Retired sources -----

  predicate TenantIsRetired(db: Tables, t: TenantId) {
    t in db.tenants && db.tenants[t].retiredAt.Some? && db.tenants[t].state == Suspended
  }

  /** Only a retired tenant has retired sources. */
  predicate RetiredSourcesAreOrphans(db: Tables) {
    forall x :: x in db.sources && db.sources[x].state == CfgRetired ==> TenantIsRetired(db, x.0)
  }

  lemma SameSourcesKeepOrphans(db: Tables, after: Tables)
    requires RetiredSourcesAreOrphans(db) && after.sources == db.sources && after.tenants == db.tenants
    ensures RetiredSourcesAreOrphans(after)
  {
  }

  lemma EditKeepsOrphans(db: Tables, a: Actor, e: Edit)
    requires RetiredSourcesAreOrphans(db)
    ensures RetiredSourcesAreOrphans(ApplyEdit(db, a, e))
  {
    SameSourcesKeepOrphans(db, ApplyEdit(db, a, e));
  }

  lemma SuspendKeepsOrphans(db: Tables, p: Option<SubjectId>, t: TenantId, reason: string, now: int)
    requires RetiredSourcesAreOrphans(db)
    ensures RetiredSourcesAreOrphans(SuspendTenant(db, p, t, reason, now).0)
  {
  }

  lemma ReactivateKeepsOrphans(db: Tables, p: Option<SubjectId>, t: TenantId, reason: string, now: int)
    requires RetiredSourcesAreOrphans(db)
    ensures RetiredSourcesAreOrphans(ReactivateTenant(db, p, t, reason, now).0)
  {
  }

  lemma TeardownKeepsOrphans(db: Tables, p: Option<SubjectId>, t: TenantId, reason: string, now: int)
    requires RetiredSourcesAreOrphans(db)
    ensures RetiredSourcesAreOrphans(TeardownTenant(db, p, t, reason, now).0)
  {
    var after := TeardownTenant(db, p, t, reason, now).0;
    forall x | x in after.sources && after.sources[x].state == CfgRetired ensures TenantIsRetired(after, x.0) {
      assert x in db.sources && (x.0 != t ==> after.sources[x] == db.sources[x]);
    }
  }

  lemma TenancyKeepsOrphans(db: Tables, step: Step)
    requires RetiredSourcesAreOrphans(db)
    ensures RetiredSourcesAreOrphans(Apply(db, step))
  {
    match step {
      case EditStep(a, e) => EditKeepsOrphans(db, a, e);
      case SuspendStep(p, t, r, now) => SuspendKeepsOrphans(db, p, t, r, now);
      case ReactivateStep(p, t, r, now) => ReactivateKeepsOrphans(db, p, t, r, now);
      case TeardownStep(p, t, r, now) => TeardownKeepsOrphans(db, p, t, r, now);
      case SubjectChanged(s, st) => SameSourcesKeepOrphans(db, Apply(db, step));
    }
  }

  /** No function of the registry retires a source. */
  predicate RetiresNothing(db: Tables, after: Tables) {
    && after.tenants == db.tenants
    && forall x :: x in after.sources && after.sources[x].state == CfgRetired ==> x in db.sources && db.sources[x].state == CfgRetired
  }

  lemma CommitRetiresNothing(r: Registry, t: TenantId, s: SourceId, outcome: (Source, KeyRows, KeyReply))
    requires (t, s) in r.db.sources && (outcome.0.state == CfgRetired ==> r.db.sources[(t, s)].state == CfgRetired)
    ensures RetiresNothing(r.db, Commit(r, t, s, outcome).0.db)
  {
  }

  lemma KeyStepRetiresNothing(r: Registry, step: RegistryStep)
    requires step.EnrollStep? || step.RotateStep? || step.RevokeKeyStep?
    ensures RetiresNothing(r.db, RegistryNext(r, step).db)
  {
    if ActorIsAdmin(r.db, step.actor) && (step.actor.tenant.value, step.source) in r.db.sources {
      var x := (step.actor.tenant.value, step.source);
      var rows, author := KeysOf(r.keys, x.0, x.1), step.actor.subject.value;
      match step {
        case EnrollStep(_, _, k, pk, at, _) => CommitRetiresNothing(r, x.0, x.1, EnrollRows(r.db.sources[x], rows, k, pk, author, at));
        case RotateStep(_, _, k, pk, at, _) => CommitRetiresNothing(r, x.0, x.1, RotateRows(r.db.sources[x], rows, k, pk, author, at));
        case RevokeKeyStep(_, _, k, reason, at, _) =>
          CommitRetiresNothing(r, x.0, x.1, RevokeRows(r.db.sources[x], rows, k, reason, author, at));
      }
    }
  }

  lemma RegistryKeepsOrphans(r: Registry, step: RegistryStep)
    requires RetiredSourcesAreOrphans(r.db)
    ensures RetiredSourcesAreOrphans(RegistryNext(r, step).db)
  {
    if step.TenancyStep? {
      TenancyKeepsOrphans(r.db, step.step);
    } else if step.EnrollStep? || step.RotateStep? || step.RevokeKeyStep? {
      KeyStepRetiresNothing(r, step);
    } else {
      assert RetiresNothing(r.db, RegistryNext(r, step).db);
    }
  }

  lemma {:induction false} OrphansStayOrphans(s: System, steps: seq<SystemStep>)
    requires RetiredSourcesAreOrphans(s.registry.db)
    ensures RetiredSourcesAreOrphans(SystemRun(s, steps).registry.db)
    decreases |steps|
  {
    if |steps| != 0 {
      if steps[0].RegistryPart? {
        RegistryKeepsOrphans(s.registry, steps[0].step);
      }
      OrphansStayOrphans(SystemNext(s, steps[0]), steps[1..]);
    }
  }

  /** The assignment of "suspended" to a retired source in the key revocation is
      unreachable: in every run from a database without retired sources, whoever calls the
      revocation of a key of a retired source is denied. */
  lemma RetiredSourceIsNeverRevived(s: System, steps: seq<SystemStep>, a: Actor, source: SourceId, k: KeyId,
                                    reason: string, at: int, now: int)
    requires RetiredSourcesAreOrphans(s.registry.db)
    ensures var r := SystemRun(s, steps).registry;
            a.tenant.Some? && (a.tenant.value, source) in r.db.sources && r.db.sources[(a.tenant.value, source)].state == CfgRetired ==>
              RevokeKey(r, a, source, k, reason, at, now) == (r, KeyDenied)
  {
    OrphansStayOrphans(s, steps);
  }

  // ----- Frozen epochs -----

  /** The state row of the epoch is untouched and no receipt is added to it. */
  predicate SameEpoch(g: Guard, after: Guard, x: Epoch) {
    && (x in after.rows <==> x in g.rows)
    && (x in g.rows ==> after.rows[x] == g.rows[x])
    && |g.receipts| <= |after.receipts| && after.receipts[..|g.receipts|] == g.receipts
    && forall i :: |g.receipts| <= i < |after.receipts| ==> ReceiptEpoch(after.receipts[i]) != x
  }

  lemma SameEpochOfItself(g: Guard, x: Epoch)
    ensures SameEpoch(g, g, x)
  {
  }

  lemma SameEpochIsTransitive(a: Guard, b: Guard, c: Guard, x: Epoch)
    requires SameEpoch(a, b, x) && SameEpoch(b, c, x)
    ensures SameEpoch(a, c, x)
  {
    assert c.receipts[..|a.receipts|] == c.receipts[..|b.receipts|][..|a.receipts|];
    forall i | |a.receipts| <= i < |c.receipts| ensures ReceiptEpoch(c.receipts[i]) != x {
      if i < |b.receipts| {
        assert c.receipts[i] == c.receipts[..|b.receipts|][i];
      }
    }
  }

  lemma StatementSparesEpoch(v: Vault, s: Statement, r: Registry, x: Epoch)
    requires !IsActiveKey(KeysOf(r.keys, x.0, x.1), x.2) && Execute(v, Bind(s, r)).Some?
    ensures SameEpoch(v.guard, Execute(v, Bind(s, r)).value.guard, x)
  {
    if s.GuardStatement? && EpochOf(s.envelope) == x {
      assert MaximumAge(r, s.envelope).None?;
    }
  }

  lemma {:induction false} StatementsSpareEpoch(v: Vault, statements: seq<Statement>, r: Registry, x: Epoch)
    requires !IsActiveKey(KeysOf(r.keys, x.0, x.1), x.2) && ExecuteAll(v, BindAll(statements, r)).Some?
    ensures SameEpoch(v.guard, ExecuteAll(v, BindAll(statements, r)).value.guard, x)
    decreases |statements|
  {
    if |statements| != 0 {
      var next := Execute(v, Bind(statements[0], r)).value;
      StatementSparesEpoch(v, statements[0], r, x);
      assert BindAll(statements, r)[1..] == BindAll(statements[1..], r);
      StatementsSpareEpoch(next, statements[1..], r, x);
      SameEpochIsTransitive(v.guard, next.guard, ExecuteAll(next, BindAll(statements[1..], r)).value.guard, x);
    }
  }

  predicate KeyIsRetired(r: Registry, x: Epoch) {
    RegistryOk(r) && x.2 in KeysOf(r.keys, x.0, x.1) && KeysOf(r.keys, x.0, x.1)[x.2].state != KeyActive
  }

  lemma KeyStaysRetired(r: Registry, step: RegistryStep, x: Epoch)
    requires KeyIsRetired(r, x)
    ensures KeyIsRetired(RegistryNext(r, step), x)
  {
    StepKeepsOk(r, step);
    StepAdvancesKeys(r, step);
    assert RowsAdvance(r.keys[(x.0, x.1)], RegistryNext(r, step).keys[(x.0, x.1)]);
  }

  lemma IssuerEditKeepsOk(r: Registry, a: Actor, i: IssuerId, state: Option<ConfigState>)
    requires RegistryOk(r)
    ensures RegistryOk(r.(db := EditIssuer(r.db, a, i, state)))
  {
    assert EditIssuer(r.db, a, i, state).sources == r.db.sources;
  }

  lemma IssuerEditKeepsRetired(r: Registry, a: Actor, i: IssuerId, state: Option<ConfigState>, x: Epoch)
    requires KeyIsRetired(r, x)
    ensures KeyIsRetired(r.(db := EditIssuer(r.db, a, i, state)), x)
  {
    IssuerEditKeepsOk(r, a, i, state);
  }

  lemma TransactionSparesEpoch(v: Vault, statements: seq<Statement>, r: Registry, x: Epoch)
    requires KeyIsRetired(r, x)
    ensures SameEpoch(v.guard, Transact(v, BindAll(statements, r)).guard, x)
  {
    if Commits(v, BindAll(statements, r)) {
      StatementsSpareEpoch(v, statements, r, x);
    }
  }

  lemma StepKeepsRetired(s: System, step: SystemStep, x: Epoch)
    requires KeyIsRetired(s.registry, x)
    ensures KeyIsRetired(SystemNext(s, step).registry, x)
  {
    match step {
      case RegistryPart(st) => KeyStaysRetired(s.registry, st, x);
      case IssuerPart(a, i, state) => IssuerEditKeepsRetired(s.registry, a, i, state, x);
      case CertificatePart(call) => assert SystemNext(s, step).registry == s.registry;
      case EvidencePart(statements) => assert SystemNext(s, step).registry == s.registry;
    }
  }

  /** Only a transaction touches the evidence. */
  lemma VaultAfterStep(s: System, step: SystemStep)
    ensures SystemNext(s, step).vault
            == if step.EvidencePart? then Transact(s.vault, BindAll(step.statements, s.registry)) else s.vault
  {
  }

  lemma StepSparesEpoch(s: System, step: SystemStep, x: Epoch)
    requires KeyIsRetired(s.registry, x)
    ensures SameEpoch(s.vault.guard, SystemNext(s, step).vault.guard, x)
  {
    VaultAfterStep(s, step);
    if step.EvidencePart? {
      TransactionSparesEpoch(s.vault, step.statements, s.registry, x);
    } else {
      SameEpochOfItself(s.vault.guard, x);
    }
  }

  /** A key that has left the active state has its ingestion epoch frozen: over every run its
      high-water row stays and no receipt is added. */
  lemma {:induction false} RetiredKeyFreezesEpoch(s: System, steps: seq<SystemStep>, x: Epoch)
    requires KeyIsRetired(s.registry, x)
    ensures SameEpoch(s.vault.guard, SystemRun(s, steps).vault.guard, x)
    decreases |steps|
  {
    if |steps| != 0 {
      var next := SystemNext(s, steps[0]);
      StepKeepsRetired(s, steps[0], x);
      StepSparesEpoch(s, steps[0], x);
      RetiredKeyFreezesEpoch(next, steps[1..], x);
      SameEpochIsTransitive(s.vault.guard, next.vault.guard, SystemRun(next, steps[1..]).vault.guard, x);
    }
  }
}
