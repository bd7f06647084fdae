/** All components on one database: every step reads the tables as the steps before it left
    them. */
module Platform {
  import opened Sql
  import opened Tenancy
  import opened TenancyOutcomes
  import opened Certificates
  import opened KeyRegistry
  import opened EvidenceVault

  datatype System = System(registry: Registry, inventory: Inventory, vault: Vault)

  /** `IssuerPart` is an administrator's direct statement on one issuer mapping: NULL deletes
      it. The tables named inside a certificate call or an evidence statement are replaced
      by the present ones. */
  datatype SystemStep =
    | RegistryPart(step: RegistryStep)
    | IssuerPart(actor: Actor, issuer: IssuerId, state: Option<ConfigState>)
    | CertificatePart(call: Call)
    | EvidencePart(statements: seq<Statement>)

  function EditIssuer(db: Tables, a: Actor, i: IssuerId, state: Option<ConfigState>): Tables {
    if !ActorIsAdmin(db, a) then db
    else if state.None? then db.(issuers := db.issuers - {(a.tenant.value, i)})
    else db.(issuers := db.issuers[(a.tenant.value, i) := state.value])
  }

  /** Only an administrator's statement changes an issuer mapping, and only one of its tenant. */
  lemma IssuerEditIff(db: Tables, t: TenantId, author: SubjectId, i: IssuerId, state: Option<ConfigState>)
    ensures EditIssuer(db, Actor(Some(t), Some(author)), i, state) ==
            if !Administers(db, t, author) then db
            else db.(issuers := if state.None? then db.issuers - {(t, i)} else db.issuers[(t, i) := state.value])
  {
    ActorRightsIff(db, Actor(Some(t), Some(author)));
  }

  function BindCall(call: Call, db: Tables): Call {
    if call.ExpireCall? then call else call.(id := db)
  }

  function Bind(s: Statement, r: Registry): Statement {
    match s
    case GuardStatement(_, e, now) => GuardStatement(r, e, now)
    case StoreStatement(k, p) => s
    case DeleteStatement(_, a, event, reason, now) => DeleteStatement(r.db, a, event, reason, now)
    case PurgeStatement(_, a, now) => PurgeStatement(r.db, a, now)
  }

  function BindAll(statements: seq<Statement>, r: Registry): (bound: seq<Statement>)
    ensures |bound| == |statements|
    ensures forall i :: 0 <= i < |bound| ==> bound[i] == Bind(statements[i], r)
  {
    if |statements| == 0 then [] else [Bind(statements[0], r)] + BindAll(statements[1..], r)
  }

  ghost function SystemNext(s: System, step: SystemStep): System {
    match step
    case RegistryPart(st) => s.(registry := RegistryNext(s.registry, st))
    case IssuerPart(a, i, state) => s.(registry := s.registry.(db := EditIssuer(s.registry.db, a, i, state)))
    case CertificatePart(call) => s.(inventory := Serve(s.inventory, BindCall(call, s.registry.db)))
    case EvidencePart(statements) => s.(vault := Transact(s.vault, BindAll(statements, s.registry)))
  }

  ghost function SystemRun(s: System, steps: seq<SystemStep>): System
    decreases |steps|
  {
    if |steps| == 0 then s else SystemRun(SystemNext(s, steps[0]), steps[1..])
  }
}
