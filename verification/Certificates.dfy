/** The certificate inventory and its append-only lifecycle log: issuance, renewal,
    revocation and expiry (migrations 007 to 011).

    `causation_event_id` has no foreign key and `supersedes_certificate_id` no UNIQUE, so
    that causes exist, that they never form a cycle and that a certificate has one
    successor are properties of the functions. */
module Certificates {
  import opened Sql
  import opened Tenancy

  type CertificateId = nat
  type EventId = nat
  type RequestId = nat
  type CorrelationId = nat
  type ConfirmationId = nat

  /** The expiry function builds its key from the certificate; a client may send the
      same text. */
  datatype IdempotencyKey = ClientKey(text: string) | ExpiryKey(certificate: CertificateId)

  datatype CertificateState = CertActive | CertRevoked | CertExpired | CertSuperseded

  datatype EventKind = IssuedEvent | RenewedEvent | RevokedEvent | ExpiredEvent | SupersededEvent

  datatype KeyAlgorithm = EcdsaP256Key | Ed25519Key | UnsupportedKey

  /** The permanent reasons of section 5.3.1 of RFC 5280 that the domain admits. */
  datatype RevocationReason =
    KeyCompromise | CaCompromise | AffiliationChanged | SupersededReason | CessationOfOperation |
    PrivilegeWithdrawn | AaCompromise

  datatype Reason = CertificateRenewed | CertificateExpired | RevokedFor(reason: RevocationReason)

  /** What a caller says about the certificate it records. */
  datatype Fields = Fields(request: RequestId, subject: SubjectId, issuer: IssuerId, profile: nat, serial: nat,
                           fingerprint: nat, publicKey: Option<nat>, algorithm: KeyAlgorithm,
                           notBefore: int, notAfter: int, issuedAt: int, key: IdempotencyKey)

  /** The columns that `prevent_certificate_identity_rewrite` keeps constant. */
  datatype Identity = Identity(tenant: TenantId, fields: Fields, requestedBy: SubjectId, issuedEvent: EventId,
                               correlation: CorrelationId, supersedes: Option<CertificateId>)

  datatype Certificate = Certificate(identity: Identity, state: CertificateState, stateChangedAt: int,
                                     lastEvent: EventId, version: int, createdAt: int, updatedAt: int)

  datatype Snapshot = Snapshot(subject: SubjectId, issuer: IssuerId, serial: nat, fingerprint: nat, notAfter: int)

  datatype Event = Event(tenant: TenantId, id: EventId, certificate: CertificateId, kind: EventKind,
                         state: CertificateState, about: Snapshot, request: RequestId, correlation: CorrelationId,
                         cause: Option<EventId>, key: IdempotencyKey, actor: Option<SubjectId>,
                         reason: Option<Reason>, confirmation: Option<ConfirmationId>,
                         occurredAt: int, recordedAt: int)

  /** The certificate rows and the event rows in the order of their insertion. */
  datatype Inventory = Inventory(certs: map<CertificateId, Certificate>, events: seq<Event>)

  datatype Result<+T> = Ok(reply: T) | CallDenied | KeyConflict | StateInconsistent | RowRejected

  datatype Issued = Issued(certificate: CertificateId, event: EventId, state: CertificateState)

  datatype Renewed = Renewed(certificate: CertificateId, renewedEvent: Option<EventId>,
                             supersededEvent: Option<EventId>, state: CertificateState,
                             predecessorState: CertificateState)

  datatype Ended = Ended(certificate: CertificateId, event: EventId, correlation: CorrelationId,
                         state: CertificateState, version: int)

  function SnapshotOf(f: Fields): Snapshot {
    Snapshot(f.subject, f.issuer, f.serial, f.fingerprint, f.notAfter)
  }

  // ----- Constraints of the two tables -----

  /** UNIQUE and CHECK constraints an inserted or updated certificate row meets on its own. */
  predicate RowChecks(row: Certificate) {
    var f := row.identity.fields;
    && f.algorithm != UnsupportedKey
    && f.notBefore <= f.issuedAt < f.notAfter
    && (row.version > 1 || row.lastEvent == row.identity.issuedEvent)
    && f.issuedAt <= row.stateChangedAt <= row.updatedAt
    && row.version > 0
    && f.issuedAt <= row.createdAt <= row.updatedAt
  }

  predicate CertificateFits(db: Inventory, c: CertificateId, row: Certificate) {
    && c !in db.certs
    && (row.identity.supersedes.Some? ==>
          && row.identity.supersedes.value in db.certs
          && db.certs[row.identity.supersedes.value].identity.tenant == row.identity.tenant)
    && RowChecks(row)
    && (forall d :: d in db.certs ==> RowsDiffer(db.certs[d].identity, row.identity))
  }

  /** No UNIQUE constraint on certificates sees these two rows as equal. */
  predicate RowsDiffer(x: Identity, y: Identity) {
    && x.fields.fingerprint != y.fields.fingerprint
    && x.issuedEvent != y.issuedEvent
    && (x.tenant == y.tenant ==>
          && (x.fields.issuer, x.fields.serial) != (y.fields.issuer, y.fields.serial)
          && x.fields.request != y.fields.request
          && x.fields.key != y.fields.key)
  }

  predicate EventChecks(e: Event) {
    && e.recordedAt >= e.occurredAt
    && (e.kind == IssuedEvent ==> e.state == CertActive && e.cause.None? && e.reason.None?)
    && (if e.kind == RevokedEvent
        then e.state == CertRevoked && e.cause.Some? && e.reason.Some? && e.confirmation.Some?
        else e.confirmation.None?)
    && (e.kind == ExpiredEvent ==> e.state == CertExpired && e.cause.Some? && e.reason == Some(CertificateExpired))
  }

  /** No UNIQUE constraint or unique index on events sees these two rows as equal. */
  predicate EventsDiffer(x: Event, y: Event) {
    && x.id != y.id
    && (x.tenant == y.tenant ==>
          && (x.kind == y.kind ==> x.key != y.key)
          && (x.kind == RevokedEvent && y.kind == RevokedEvent ==> x.request != y.request)
          && (x.confirmation.Some? && y.confirmation.Some? && x.about.issuer == y.about.issuer ==>
                x.confirmation != y.confirmation)
          && (x.kind == ExpiredEvent && y.kind == ExpiredEvent ==> x.certificate != y.certificate))
  }

  predicate EventFits(events: seq<Event>, e: Event) {
    EventChecks(e) && forall i :: 0 <= i < |events| ==> EventsDiffer(events[i], e)
  }

  // ----- Lookups -----

  predicate HasKey(db: Inventory, t: TenantId, k: IdempotencyKey, c: CertificateId) {
    c in db.certs && db.certs[c].identity.tenant == t && db.certs[c].identity.fields.key == k
  }

  ghost function CertificateByKey(db: Inventory, t: TenantId, k: IdempotencyKey): (r: Option<CertificateId>)
    ensures r.Some? ==> HasKey(db, t, k, r.value)
    ensures r.None? ==> forall c :: !HasKey(db, t, k, c)
  {
    if exists c :: HasKey(db, t, k, c) then var c :| HasKey(db, t, k, c); Some(c) else None
  }

  predicate EventHasKey(db: Inventory, t: TenantId, k: IdempotencyKey, kind: EventKind, i: nat) {
    i < |db.events| && db.events[i].tenant == t && db.events[i].key == k && db.events[i].kind == kind
  }

  /** The position of the event with this key and kind. */
  ghost function EventByKey(db: Inventory, t: TenantId, k: IdempotencyKey, kind: EventKind): (r: Option<nat>)
    ensures r.Some? ==> EventHasKey(db, t, k, kind, r.value)
    ensures r.None? ==> forall i: nat :: !EventHasKey(db, t, k, kind, i)
  {
    if exists i: nat :: EventHasKey(db, t, k, kind, i)
    then var i: nat :| EventHasKey(db, t, k, kind, i); Some(i) else None
  }

  predicate IsExpiryOf(db: Inventory, t: TenantId, c: CertificateId, i: nat) {
    i < |db.events| && db.events[i].tenant == t && db.events[i].certificate == c && db.events[i].kind == ExpiredEvent
  }

  ghost function ExpiryOf(db: Inventory, t: TenantId, c: CertificateId): (r: Option<nat>)
    ensures r.Some? ==> IsExpiryOf(db, t, c, r.value)
    ensures r.None? ==> forall i: nat :: !IsExpiryOf(db, t, c, i)
  {
    if exists i: nat :: IsExpiryOf(db, t, c, i) then var i: nat :| IsExpiryOf(db, t, c, i); Some(i) else None
  }

  function IdAt(db: Inventory, i: Option<nat>): Option<EventId> {
    if i.Some? && i.value < |db.events| then Some(db.events[i.value].id) else None
  }

  // ----- The four functions -----

  /** The actor may record for this subject, and subject and issuer are active. */
  predicate MayRecord(id: Tables, a: Actor, f: Fields) {
    && ActorIsActive(id, a)
    && (f.subject == a.subject.value || ActorIsAdmin(id, a))
    && MemberIsActive(id, a.tenant.value, f.subject)
    && IssuerIsActive(id, a.tenant.value, f.issuer)
  }

  function NewRow(t: TenantId, f: Fields, author: SubjectId, ev: EventId, correlation: CorrelationId,
                  supersedes: Option<CertificateId>, now: int): Certificate {
    Certificate(Identity(t, f, author, ev, correlation, supersedes), CertActive, f.issuedAt, ev, 1, now, now)
  }

  function BirthEvent(t: TenantId, c: CertificateId, f: Fields, author: SubjectId, ev: EventId,
                      correlation: CorrelationId, cause: Option<EventId>, now: int): Event {
    Event(t, ev, c, if cause.None? then IssuedEvent else RenewedEvent, CertActive, SnapshotOf(f), f.request,
          correlation, cause, f.key, Some(author), None, None, f.issuedAt, now)
  }

  function EndedRow(row: Certificate, state: CertificateState, at: int, ev: EventId, now: int): Certificate {
    row.(state := state, stateChangedAt := at, lastEvent := ev, version := row.version + 1, updatedAt := Max(now, at))
  }

  /** `record_certificate_issuance` */
  ghost function Issue(db: Inventory, id: Tables, a: Actor, c: CertificateId, ev: EventId,
                       correlation: CorrelationId, f: Fields, now: int): (Inventory, Result<Issued>) {
    if !MayRecord(id, a, f) then (db, CallDenied)
    else
      var t := a.tenant.value;
      match CertificateByKey(db, t, f.key)
      case Some(x) =>
        if db.certs[x].identity.fields != f || db.certs[x].identity.supersedes.Some? then (db, KeyConflict)
        else (db, Ok(Issued(x, db.certs[x].identity.issuedEvent, db.certs[x].state)))
      case None =>
        var row := NewRow(t, f, a.subject.value, ev, correlation, None, now);
        var e := BirthEvent(t, c, f, a.subject.value, ev, correlation, None, now);
        if !CertificateFits(db, c, row) || !EventFits(db.events, e) then (db, RowRejected)
        else (Inventory(db.certs[c := row], db.events + [e]), Ok(Issued(c, ev, CertActive)))
  }

  /** The predecessor exists in the tenant, has the same subject and profile, is active,
      has a key, does not have the new key, and is in the last quarter of its validity.
      An unknown key comparison, when the new key is NULL, does not deny. */
  predicate MayRenew(db: Inventory, t: TenantId, p: CertificateId, f: Fields) {
    && p in db.certs && db.certs[p].identity.tenant == t
    && var g := db.certs[p].identity.fields;
       && g.subject == f.subject && g.profile == f.profile
       && db.certs[p].state == CertActive
       && g.publicKey.Some?
       && !Equal(g.publicKey, f.publicKey).True?
       && g.notBefore <= f.issuedAt < g.notAfter
       && 4 * f.issuedAt >= 4 * g.notAfter - (g.notAfter - g.notBefore)
  }

  function SupersessionEvent(t: TenantId, p: CertificateId, g: Fields, f: Fields, author: SubjectId,
                             ev: EventId, correlation: CorrelationId, cause: EventId, now: int): Event {
    Event(t, ev, p, SupersededEvent, CertSuperseded, SnapshotOf(g), f.request, correlation, Some(cause), f.key,
          Some(author), Some(CertificateRenewed), None, f.issuedAt, now)
  }

  /** `record_certificate_renewal`. The predecessor may be NULL: no row has a NULL identifier,
      so a first call is denied, but IS DISTINCT FROM finds an issued certificate equal to it. */
  ghost function Renew(db: Inventory, id: Tables, a: Actor, c: CertificateId, renewedEv: EventId,
                       supersededEv: EventId, correlation: CorrelationId, predecessor: Option<CertificateId>, f: Fields,
                       now: int): (Inventory, Result<Renewed>) {
    if renewedEv == supersededEv || !MayRecord(id, a, f) then (db, CallDenied)
    else
      var t := a.tenant.value;
      match CertificateByKey(db, t, f.key)
      case Some(x) =>
        if db.certs[x].identity.fields != f || db.certs[x].identity.supersedes != predecessor then (db, KeyConflict)
        else (db, Ok(Renewed(x, IdAt(db, EventByKey(db, t, f.key, RenewedEvent)),
                             IdAt(db, EventByKey(db, t, f.key, SupersededEvent)), db.certs[x].state, CertSuperseded)))
      case None =>
        if predecessor.None? || !MayRenew(db, t, predecessor.value, f) then (db, CallDenied)
        else
          var p := predecessor.value;
          var former := db.certs[p];
          var row := NewRow(t, f, a.subject.value, renewedEv, correlation, Some(p), now);
          var birth := BirthEvent(t, c, f, a.subject.value, renewedEv, correlation, Some(former.lastEvent), now);
          var ended := EndedRow(former, CertSuperseded, f.issuedAt, supersededEv, now);
          var end := SupersessionEvent(t, p, former.identity.fields, f, a.subject.value, supersededEv, correlation,
                                       renewedEv, now);
          if !CertificateFits(db, c, row) || !EventFits(db.events, birth) || !RowChecks(ended)
             || !EventFits(db.events + [birth], end)
          then (db, RowRejected)
          else (Inventory(db.certs[c := row][p := ended], db.events + [birth] + [end]),
                Ok(Renewed(c, Some(renewedEv), Some(supersededEv), CertActive, CertSuperseded)))
  }

  predicate MayRevoke(db: Inventory, id: Tables, a: Actor, c: CertificateId, at: int, now: int)
    requires a.tenant.Some? && a.subject.Some?
  {
    && c in db.certs && db.certs[c].identity.tenant == a.tenant.value
    && db.certs[c].state == CertActive
    && db.certs[c].identity.fields.issuedAt <= at < db.certs[c].identity.fields.notAfter
    && at <= now + 2 * SECOND
    && (db.certs[c].identity.fields.subject == a.subject.value || ActorIsAdmin(id, a))
    && IssuerIsActive(id, a.tenant.value, db.certs[c].identity.fields.issuer)
  }

  function RevocationEvent(row: Certificate, c: CertificateId, ev: EventId, correlation: CorrelationId,
                           request: RequestId, reason: RevocationReason, at: int, k: IdempotencyKey,
                           confirmation: ConfirmationId, author: SubjectId, now: int): Event {
    Event(row.identity.tenant, ev, c, RevokedEvent, CertRevoked, SnapshotOf(row.identity.fields), request,
          correlation, Some(row.lastEvent), k, Some(author), Some(RevokedFor(reason)), Some(confirmation), at, now)
  }

  /** `record_certificate_revocation`, as migration 010 leaves it */
  ghost function Revoke(db: Inventory, id: Tables, a: Actor, ev: EventId, correlation: CorrelationId,
                        request: RequestId, c: CertificateId, reason: RevocationReason, at: int,
                        k: IdempotencyKey, confirmation: ConfirmationId, now: int): (Inventory, Result<Ended>) {
    if !ActorIsActive(id, a) then (db, CallDenied)
    else
      var t := a.tenant.value;
      match EventByKey(db, t, k, RevokedEvent)
      case Some(i) =>
        var e := db.events[i];
        if e.certificate != c || e.request != request || e.reason != Some(RevokedFor(reason))
           || e.actor != a.subject || e.confirmation != Some(confirmation)
        then (db, KeyConflict)
        else if c !in db.certs || db.certs[c].identity.tenant != t || db.certs[c].state != CertRevoked
                || db.certs[c].lastEvent != e.id
        then (db, StateInconsistent)
        else (db, Ok(Ended(c, e.id, e.correlation, db.certs[c].state, db.certs[c].version)))
      case None =>
        if !MayRevoke(db, id, a, c, at, now) then (db, CallDenied)
        else
          var row := EndedRow(db.certs[c], CertRevoked, at, ev, now);
          var e := RevocationEvent(db.certs[c], c, ev, correlation, request, reason, at, k, confirmation,
                                   a.subject.value, now);
          if !RowChecks(row) || !EventFits(db.events, e) then (db, RowRejected)
          else (Inventory(db.certs[c := row], db.events + [e]),
                Ok(Ended(c, ev, correlation, CertRevoked, db.certs[c].version + 1)))
  }

  function ExpiryEvent(row: Certificate, c: CertificateId, ev: EventId, correlation: CorrelationId, at: int, now: int): Event {
    Event(row.identity.tenant, ev, c, ExpiredEvent, CertExpired, SnapshotOf(row.identity.fields),
          row.identity.fields.request, correlation, Some(row.lastEvent), ExpiryKey(c), None,
          Some(CertificateExpired), None, at, now)
  }

  /** `record_due_certificate_expiration` */
  ghost function Expire(db: Inventory, t: TenantId, c: CertificateId, ev: EventId, correlation: CorrelationId,
                        at: int, now: int): (Inventory, Result<Ended>) {
    if c !in db.certs || db.certs[c].identity.tenant != t then (db, CallDenied)
    else if db.certs[c].state == CertExpired then
      match ExpiryOf(db, t, c)
      case None => (db, StateInconsistent)
      case Some(i) =>
        var e := db.events[i];
        if db.certs[c].lastEvent != e.id then (db, StateInconsistent)
        else (db, Ok(Ended(c, e.id, e.correlation, CertExpired, db.certs[c].version)))
    else if db.certs[c].state != CertActive || at < db.certs[c].identity.fields.notAfter || at > now then (db, CallDenied)
    else
      var row := EndedRow(db.certs[c], CertExpired, at, ev, now);
      var e := ExpiryEvent(db.certs[c], c, ev, correlation, at, now);
      if !RowChecks(row) || !EventFits(db.events, e) then (db, RowRejected)
      else (Inventory(db.certs[c := row], db.events + [e]), Ok(Ended(c, ev, correlation, CertExpired, db.certs[c].version + 1)))
  }

  // ----- Runs -----

  /** A call, with the tenancy tables and the clock it reads. */
  datatype Call =
    | IssueCall(id: Tables, actor: Actor, certificate: CertificateId, event: EventId,
                correlation: CorrelationId, fields: Fields, now: int)
    | RenewCall(id: Tables, actor: Actor, certificate: CertificateId, event: EventId, supersededEvent: EventId,
                correlation: CorrelationId, predecessor: Option<CertificateId>, fields: Fields, now: int)
    | RevokeCall(id: Tables, actor: Actor, event: EventId, correlation: CorrelationId, request: RequestId,
                 certificate: CertificateId, reason: RevocationReason, at: int, key: IdempotencyKey,
                 confirmation: ConfirmationId, now: int)
    | ExpireCall(tenant: TenantId, certificate: CertificateId, event: EventId, correlation: CorrelationId,
                 at: int, now: int)

  ghost function Serve(db: Inventory, call: Call): Inventory {
    match call
    case IssueCall(id, a, c, ev, cor, f, now) => Issue(db, id, a, c, ev, cor, f, now).0
    case RenewCall(id, a, c, ev, ev', cor, p, f, now) => Renew(db, id, a, c, ev, ev', cor, p, f, now).0
    case RevokeCall(id, a, ev, cor, req, c, r, at, k, conf, now) => Revoke(db, id, a, ev, cor, req, c, r, at, k, conf, now).0
    case ExpireCall(t, c, ev, cor, at, now) => Expire(db, t, c, ev, cor, at, now).0
  }

  ghost function ServeAll(db: Inventory, calls: seq<Call>): Inventory
    decreases |calls|
  {
    if |calls| == 0 then db else ServeAll(Serve(db, calls[0]), calls[1..])
  }

  const EMPTY: Inventory := Inventory(map[], [])
}
