/** Idempotent retries: a call that once succeeded, sent again at any later point by an
    authorized caller, changes nothing and returns what it returned, whatever fresh
    identifiers it brings; and the branches for an inconsistent inventory are dead. */
module CertificateRetries {
  import opened Sql
  import opened Tenancy
  import opened Certificates
  import opened CertificateHistory

  // ----- What time keeps -----

  /** The log only grows, identities never change, and an ended row never changes at all. */
  predicate Extends(db: Inventory, after: Inventory) {
    && |db.events| <= |after.events| && after.events[..|db.events|] == db.events
    && (forall c :: c in db.certs ==> c in after.certs && after.certs[c].identity == db.certs[c].identity)
    && (forall c :: c in db.certs && db.certs[c].state != CertActive ==> after.certs[c] == db.certs[c])
  }

  lemma RenewExtends(db: Inventory, id: Tables, a: Actor, c: CertificateId, renewedEv: EventId, supersededEv: EventId,
                     correlation: CorrelationId, p: Option<CertificateId>, f: Fields, now: int)
    ensures Extends(db, Renew(db, id, a, c, renewedEv, supersededEv, correlation, p, f, now).0)
  {
  }

  lemma RevokeExtends(db: Inventory, id: Tables, a: Actor, ev: EventId, correlation: CorrelationId, request: RequestId,
                      c: CertificateId, reason: RevocationReason, at: int, k: IdempotencyKey,
                      confirmation: ConfirmationId, now: int)
    ensures Extends(db, Revoke(db, id, a, ev, correlation, request, c, reason, at, k, confirmation, now).0)
  {
  }

  lemma CallExtends(db: Inventory, call: Call)
    ensures Extends(db, Serve(db, call))
  {
    match call {
      case RenewCall(id, a, c, ev, ev', cor, p, f, now) => RenewExtends(db, id, a, c, ev, ev', cor, p, f, now);
      case RevokeCall(id, a, ev, cor, req, c, r, at, k, conf, now) =>
        RevokeExtends(db, id, a, ev, cor, req, c, r, at, k, conf, now);
      case _ =>
    }
  }

  lemma ExtendsTransitive(x: Inventory, y: Inventory, z: Inventory)
    requires Extends(x, y) && Extends(y, z)
    ensures Extends(x, z)
  {
    assert z.events[..|x.events|] == z.events[..|y.events|][..|x.events|];
  }

  /** Ended certificates are final and the log is append-only, over every run. */
  lemma {:induction false} RunExtends(db: Inventory, calls: seq<Call>)
    ensures Extends(db, ServeAll(db, calls))
    decreases |calls|
  {
    if |calls| != 0 {
      CallExtends(db, calls[0]);
      RunExtends(Serve(db, calls[0]), calls[1..]);
      ExtendsTransitive(db, Serve(db, calls[0]), ServeAll(db, calls));
    }
  }

  // ----- Lookups find the one row -----

  lemma KeyFinds(db: Inventory, t: TenantId, k: IdempotencyKey, c: CertificateId)
    requires KeysDistinct(db) && HasKey(db, t, k, c)
    ensures CertificateByKey(db, t, k) == Some(c)
  {
    var x := CertificateByKey(db, t, k).value;
    assert x != c ==> RowsDiffer(db.certs[x].identity, db.certs[c].identity);
  }

  lemma EventKeyFinds(db: Inventory, t: TenantId, k: IdempotencyKey, kind: EventKind, i: nat)
    requires EventsDistinct(db.events) && EventHasKey(db, t, k, kind, i)
    ensures EventByKey(db, t, k, kind) == Some(i)
  {
    var j := EventByKey(db, t, k, kind).value;
    assert EventHasKey(db, t, k, kind, j);
  }

  // ----- Issuance -----

  lemma IssuedRowIsThere(db: Inventory, id: Tables, a: Actor, c: CertificateId, ev: EventId,
                         correlation: CorrelationId, f: Fields, now: int)
    requires Valid(db) && Issue(db, id, a, c, ev, correlation, f, now).1.Ok?
    ensures var (after, r) := Issue(db, id, a, c, ev, correlation, f, now);
            var x := r.reply.certificate;
            && HasKey(after, a.tenant.value, f.key, x)
            && after.certs[x].identity.fields == f && after.certs[x].identity.supersedes.None?
            && after.certs[x].identity.issuedEvent == r.reply.event
  {
  }

  /** An authorized retry of an issuance, after any run of calls and with fresh candidate
      identifiers, changes nothing and returns the original certificate and event. */
  lemma IssuanceRetry(db: Inventory, id: Tables, a: Actor, c: CertificateId, ev: EventId, correlation: CorrelationId,
                      f: Fields, now: int, calls: seq<Call>,
                      id': Tables, a': Actor, c': CertificateId, ev': EventId, correlation': CorrelationId, now': int)
    requires Valid(db) && Issue(db, id, a, c, ev, correlation, f, now).1.Ok?
    requires MayRecord(id', a', f) && a'.tenant == a.tenant
    ensures var (first, r) := Issue(db, id, a, c, ev, correlation, f, now);
            var later := ServeAll(first, calls);
            && r.reply.certificate in later.certs
            && Issue(later, id', a', c', ev', correlation', f, now')
               == (later, Ok(r.reply.(state := later.certs[r.reply.certificate].state)))
  {
    var (first, r) := Issue(db, id, a, c, ev, correlation, f, now);
    var later := ServeAll(first, calls);
    IssuedRowIsThere(db, id, a, c, ev, correlation, f, now);
    IssueKeepsValid(db, id, a, c, ev, correlation, f, now);
    RunKeepsValid(first, calls);
    RunExtends(first, calls);
    KeyFinds(later, a.tenant.value, f.key, r.reply.certificate);
  }

  // ----- Renewal -----

  /** Both lookups of a renewal retry find their event, and the predecessor really is
      superseded. */
  lemma RenewalEventsAreFound(db: Inventory, c: CertificateId, p: CertificateId)
    requires Valid(db) && c in db.certs && db.certs[c].identity.supersedes == Some(p)
    ensures p in db.certs && db.certs[p].state == CertSuperseded
    ensures var t, k := db.certs[c].identity.tenant, db.certs[c].identity.fields.key;
            && IdAt(db, EventByKey(db, t, k, RenewedEvent)) == Some(db.certs[c].identity.issuedEvent)
            && IdAt(db, EventByKey(db, t, k, SupersededEvent)) == Some(db.certs[p].lastEvent)
  {
    var t, k := db.certs[c].identity.tenant, db.certs[c].identity.fields.key;
    assert RowExplained(db, c) && Succeeds(db, p, c);
    var i: nat :| BornAt(db, c, i);
    EventKeyFinds(db, t, k, RenewedEvent, i);
    var j: nat :| SupersededAt(db, p, c, j);
    EventKeyFinds(db, t, k, SupersededEvent, j);
    assert EventExplained(db, j);
  }

  /** An issuance's idempotency key belongs to no renewal or supersession event. */
  lemma IssuedKeyHasNoRenewedEvent(db: Inventory, c: CertificateId, i: nat)
    requires Valid(db) && c in db.certs && db.certs[c].identity.supersedes.None?
    ensures !EventHasKey(db, db.certs[c].identity.tenant, db.certs[c].identity.fields.key, RenewedEvent, i)
  {
    if i < |db.events| && db.events[i].kind == RenewedEvent {
      assert EventExplained(db, i);
      var d := db.events[i].certificate;
      assert RowExplained(db, d);
      var j: nat :| BornAt(db, d, j);
      SameIdSameEvent(db.events, i, j);
      assert d != c ==> RowsDiffer(db.certs[d].identity, db.certs[c].identity);
    }
  }

  lemma IssuedKeyHasNoSupersededEvent(db: Inventory, c: CertificateId, i: nat)
    requires Valid(db) && c in db.certs && db.certs[c].identity.supersedes.None?
    ensures !EventHasKey(db, db.certs[c].identity.tenant, db.certs[c].identity.fields.key, SupersededEvent, i)
  {
    if i < |db.events| && db.events[i].kind == SupersededEvent {
      assert EventExplained(db, i);
      var p := db.events[i].certificate;
      var d :| d in db.certs && db.certs[d].identity.supersedes == Some(p);
      assert Succeeds(db, p, d);
      var j: nat :| SupersededAt(db, p, d, j);
      assert EventExplained(db, j);
      SameIdSameEvent(db.events, i, j);
      assert d != c ==> RowsDiffer(db.certs[d].identity, db.certs[c].identity);
    }
  }

  /** What a successful renewal of a named predecessor returns, first time or retried. */
  lemma NamedRenewalReply(db: Inventory, id: Tables, a: Actor, c: CertificateId, renewedEv: EventId, supersededEv: EventId,
                          correlation: CorrelationId, p: CertificateId, f: Fields, now: int)
    requires Valid(db) && Renew(db, id, a, c, renewedEv, supersededEv, correlation, Some(p), f, now).1.Ok?
    ensures var (after, r) := Renew(db, id, a, c, renewedEv, supersededEv, correlation, Some(p), f, now);
            var x := r.reply.certificate;
            && HasKey(after, a.tenant.value, f.key, x) && p in after.certs
            && after.certs[x].identity.fields == f && after.certs[x].identity.supersedes == Some(p)
            && r.reply == Renewed(x, Some(after.certs[x].identity.issuedEvent), Some(after.certs[p].lastEvent),
                                  after.certs[x].state, after.certs[p].state)
            && after.certs[p].state == CertSuperseded
  {
    var (after, r) := Renew(db, id, a, c, renewedEv, supersededEv, correlation, Some(p), f, now);
    if after == db {
      RenewalEventsAreFound(db, r.reply.certificate, p);
    }
  }

  /** What a successful renewal without a predecessor returns: an issued certificate that was
      there already, no event, and the constant for a predecessor that does not exist. */
  lemma NullRenewalReply(db: Inventory, id: Tables, a: Actor, c: CertificateId, renewedEv: EventId, supersededEv: EventId,
                         correlation: CorrelationId, f: Fields, now: int)
    requires Valid(db) && Renew(db, id, a, c, renewedEv, supersededEv, correlation, None, f, now).1.Ok?
    ensures var (after, r) := Renew(db, id, a, c, renewedEv, supersededEv, correlation, None, f, now);
            var x := r.reply.certificate;
            && after == db && HasKey(db, a.tenant.value, f.key, x)
            && db.certs[x].identity.fields == f && db.certs[x].identity.supersedes.None?
            && r.reply == Renewed(x, None, None, db.certs[x].state, CertSuperseded)
  {
    var x := Renew(db, id, a, c, renewedEv, supersededEv, correlation, None, f, now).1.reply.certificate;
    forall i: nat ensures !EventHasKey(db, a.tenant.value, f.key, RenewedEvent, i)
                          && !EventHasKey(db, a.tenant.value, f.key, SupersededEvent, i)
    {
      IssuedKeyHasNoRenewedEvent(db, x, i);
      IssuedKeyHasNoSupersededEvent(db, x, i);
    }
  }

  /** The exact condition: a successful renewal returns both event identifiers, and its
      constant is the state of a predecessor, if and only if the call named a predecessor. */
  lemma RenewalReply(db: Inventory, id: Tables, a: Actor, c: CertificateId, renewedEv: EventId, supersededEv: EventId,
                     correlation: CorrelationId, p: Option<CertificateId>, f: Fields, now: int)
    requires Valid(db) && Renew(db, id, a, c, renewedEv, supersededEv, correlation, p, f, now).1.Ok?
    ensures var (after, r) := Renew(db, id, a, c, renewedEv, supersededEv, correlation, p, f, now);
            var x := r.reply.certificate;
            && HasKey(after, a.tenant.value, f.key, x)
            && after.certs[x].identity.fields == f && after.certs[x].identity.supersedes == p
            && r.reply.state == after.certs[x].state && r.reply.predecessorState == CertSuperseded
            && (r.reply.renewedEvent.Some? <==> p.Some?) && (r.reply.supersededEvent.Some? <==> p.Some?)
            && (p.Some? ==> p.value in after.certs && after.certs[p.value].state == CertSuperseded
                            && r.reply.renewedEvent == Some(after.certs[x].identity.issuedEvent)
                            && r.reply.supersededEvent == Some(after.certs[p.value].lastEvent))
  {
    if p.Some? {
      NamedRenewalReply(db, id, a, c, renewedEv, supersededEv, correlation, p.value, f, now);
    } else {
      NullRenewalReply(db, id, a, c, renewedEv, supersededEv, correlation, f, now);
    }
  }

  /** The rows that a renewal's reply speaks of. */
  predicate RenewalRecorded(db: Inventory, t: TenantId, p: Option<CertificateId>, f: Fields, reply: Renewed) {
    var x := reply.certificate;
    && HasKey(db, t, f.key, x)
    && db.certs[x].identity.fields == f && db.certs[x].identity.supersedes == p
    && reply.predecessorState == CertSuperseded
    && (p.None? ==> reply.renewedEvent.None? && reply.supersededEvent.None?)
    && (p.Some? ==> p.value in db.certs && db.certs[p.value].state == CertSuperseded
                    && reply.renewedEvent == Some(db.certs[x].identity.issuedEvent)
                    && reply.supersededEvent == Some(db.certs[p.value].lastEvent))
  }

  lemma RenewalStaysRecorded(db: Inventory, later: Inventory, t: TenantId, p: Option<CertificateId>, f: Fields, reply: Renewed)
    requires RenewalRecorded(db, t, p, f, reply) && Extends(db, later)
    ensures RenewalRecorded(later, t, p, f, reply)
  {
  }

  /** A renewal whose key finds a row with the same fields and predecessor changes nothing and
      returns that row's identifiers and present state. */
  lemma RecordedRenewalIsReturned(db: Inventory, id: Tables, a: Actor, c: CertificateId, renewedEv: EventId,
                                  supersededEv: EventId, correlation: CorrelationId, p: Option<CertificateId>, f: Fields,
                                  now: int, reply: Renewed)
    requires Valid(db) && MayRecord(id, a, f) && renewedEv != supersededEv
    requires RenewalRecorded(db, a.tenant.value, p, f, reply)
    ensures Renew(db, id, a, c, renewedEv, supersededEv, correlation, p, f, now)
            == (db, Ok(reply.(state := db.certs[reply.certificate].state)))
  {
    KeyFinds(db, a.tenant.value, f.key, reply.certificate);
    assert Renew(db, id, a, c, renewedEv, supersededEv, correlation, p, f, now).1.Ok?;
    RenewalReply(db, id, a, c, renewedEv, supersededEv, correlation, p, f, now);
  }

  /** An authorized retry of a renewal, after any run of calls and with fresh candidate
      identifiers, changes nothing and returns the original identifiers; the state it gives
      of a named predecessor is the true one. */
  lemma RenewalRetry(db: Inventory, id: Tables, a: Actor, c: CertificateId, renewedEv: EventId, supersededEv: EventId,
                     correlation: CorrelationId, p: Option<CertificateId>, f: Fields, now: int, calls: seq<Call>,
                     id': Tables, a': Actor, c': CertificateId, renewedEv': EventId, supersededEv': EventId,
                     correlation': CorrelationId, now': int)
    requires Valid(db) && Renew(db, id, a, c, renewedEv, supersededEv, correlation, p, f, now).1.Ok?
    requires MayRecord(id', a', f) && a'.tenant == a.tenant && renewedEv' != supersededEv'
    ensures var (first, r) := Renew(db, id, a, c, renewedEv, supersededEv, correlation, p, f, now);
            var later := ServeAll(first, calls);
            && r.reply.certificate in later.certs
            && (p.Some? ==> p.value in later.certs && later.certs[p.value].state == r.reply.predecessorState)
            && Renew(later, id', a', c', renewedEv', supersededEv', correlation', p, f, now')
               == (later, Ok(r.reply.(state := later.certs[r.reply.certificate].state)))
  {
    var (first, r) := Renew(db, id, a, c, renewedEv, supersededEv, correlation, p, f, now);
    var later := ServeAll(first, calls);
    RenewalReply(db, id, a, c, renewedEv, supersededEv, correlation, p, f, now);
    RenewKeepsValid(db, id, a, c, renewedEv, supersededEv, correlation, p, f, now);
    RunKeepsValid(first, calls);
    RunExtends(first, calls);
    RenewalStaysRecorded(first, later, a.tenant.value, p, f, r.reply);
    RecordedRenewalIsReturned(later, id', a', c', renewedEv', supersededEv', correlation', p, f, now', r.reply);
  }

  // ----- Revocation and expiry -----

  /** The event that a revocation's reply speaks of. */
  predicate RevocationRecorded(db: Inventory, a: Actor, request: RequestId, c: CertificateId, reason: RevocationReason,
                               k: IdempotencyKey, confirmation: ConfirmationId, reply: Ended, i: nat) {
    && a.tenant.Some? && EventHasKey(db, a.tenant.value, k, RevokedEvent, i)
    && db.events[i].certificate == c && db.events[i].request == request
    && db.events[i].reason == Some(RevokedFor(reason)) && db.events[i].actor == a.subject
    && db.events[i].confirmation == Some(confirmation)
    && c in db.certs && db.certs[c].identity.tenant == a.tenant.value
    && db.certs[c].state == CertRevoked && db.certs[c].lastEvent == db.events[i].id
    && reply == Ended(c, db.events[i].id, db.events[i].correlation, CertRevoked, db.certs[c].version)
  }

  lemma RevocationIsRecorded(db: Inventory, id: Tables, a: Actor, ev: EventId, correlation: CorrelationId,
                             request: RequestId, c: CertificateId, reason: RevocationReason, at: int,
                             k: IdempotencyKey, confirmation: ConfirmationId, now: int) returns (i: nat)
    requires Revoke(db, id, a, ev, correlation, request, c, reason, at, k, confirmation, now).1.Ok?
    ensures var (after, r) := Revoke(db, id, a, ev, correlation, request, c, reason, at, k, confirmation, now);
            RevocationRecorded(after, a, request, c, reason, k, confirmation, r.reply, i)
  {
    var t := a.tenant.value;
    if EventByKey(db, t, k, RevokedEvent).Some? {
      i := EventByKey(db, t, k, RevokedEvent).value;
    } else {
      i := |db.events|;
    }
  }

  /** The same caller's retry of a revocation, at any later point and with any revocation
      time, returns exactly the first reply. */
  lemma RevocationRetry(db: Inventory, id: Tables, a: Actor, ev: EventId, correlation: CorrelationId,
                        request: RequestId, c: CertificateId, reason: RevocationReason, at: int,
                        k: IdempotencyKey, confirmation: ConfirmationId, now: int, calls: seq<Call>,
                        id': Tables, ev': EventId, correlation': CorrelationId, at': int, now': int)
    requires Valid(db) && Revoke(db, id, a, ev, correlation, request, c, reason, at, k, confirmation, now).1.Ok?
    requires ActorIsActive(id', a)
    ensures var (first, r) := Revoke(db, id, a, ev, correlation, request, c, reason, at, k, confirmation, now);
            var later := ServeAll(first, calls);
            Revoke(later, id', a, ev', correlation', request, c, reason, at', k, confirmation, now') == (later, r)
  {
    var (first, r) := Revoke(db, id, a, ev, correlation, request, c, reason, at, k, confirmation, now);
    var later := ServeAll(first, calls);
    var i := RevocationIsRecorded(db, id, a, ev, correlation, request, c, reason, at, k, confirmation, now);
    RevokeKeepsValid(db, id, a, ev, correlation, request, c, reason, at, k, confirmation, now);
    RunKeepsValid(first, calls);
    RunExtends(first, calls);
    assert later.events[i] == first.events[i];
    EventKeyFinds(later, a.tenant.value, k, RevokedEvent, i);
  }

  /** An expired certificate's last event is its expiry. */
  lemma ExpiryIsFound(db: Inventory, t: TenantId, c: CertificateId)
    requires ValidLog(db) && c in db.certs && db.certs[c].identity.tenant == t && db.certs[c].state == CertExpired
    ensures ExpiryOf(db, t, c).Some? && db.events[ExpiryOf(db, t, c).value].id == db.certs[c].lastEvent
  {
    assert RowExplained(db, c);
    var i: nat :| LastAt(db, c, i);
    assert EventExplained(db, i);
    if db.events[i].kind == IssuedEvent || db.events[i].kind == RenewedEvent {
      var j: nat :| BornAt(db, c, j);
      SameIdSameEvent(db.events, i, j);
    }
    assert IsExpiryOf(db, t, c, i);
    assert EventExplained(db, ExpiryOf(db, t, c).value);
  }

  /** The event that an expiry's reply speaks of. */
  predicate ExpiryRecorded(db: Inventory, t: TenantId, c: CertificateId, reply: Ended, i: nat) {
    && IsExpiryOf(db, t, c, i)
    && c in db.certs && db.certs[c].identity.tenant == t
    && db.certs[c].state == CertExpired && db.certs[c].lastEvent == db.events[i].id
    && reply == Ended(c, db.events[i].id, db.events[i].correlation, CertExpired, db.certs[c].version)
  }

  lemma ExpiryIsRecorded(db: Inventory, t: TenantId, c: CertificateId, ev: EventId, correlation: CorrelationId,
                         at: int, now: int) returns (i: nat)
    requires Expire(db, t, c, ev, correlation, at, now).1.Ok?
    ensures var (after, r) := Expire(db, t, c, ev, correlation, at, now); ExpiryRecorded(after, t, c, r.reply, i)
  {
    i := if db.certs[c].state == CertExpired then ExpiryOf(db, t, c).value else |db.events|;
  }

  lemma RecordedExpiryIsReturned(db: Inventory, t: TenantId, c: CertificateId, reply: Ended, i: nat,
                                 ev: EventId, correlation: CorrelationId, at: int, now: int)
    requires ValidLog(db) && ExpiryRecorded(db, t, c, reply, i)
    ensures Expire(db, t, c, ev, correlation, at, now) == (db, Ok(reply))
  {
    ExpiryIsFound(db, t, c);
    SameIdSameEvent(db.events, i, ExpiryOf(db, t, c).value);
  }

  /** A repeated expiry, at any later point and with any time, returns the first reply. */
  lemma ExpiryRetry(db: Inventory, t: TenantId, c: CertificateId, ev: EventId, correlation: CorrelationId, at: int,
                    now: int, calls: seq<Call>, ev': EventId, correlation': CorrelationId, at': int, now': int)
    requires Valid(db) && Expire(db, t, c, ev, correlation, at, now).1.Ok?
    ensures var (first, r) := Expire(db, t, c, ev, correlation, at, now);
            var later := ServeAll(first, calls);
            Expire(later, t, c, ev', correlation', at', now') == (later, r)
  {
    var (first, r) := Expire(db, t, c, ev, correlation, at, now);
    var later := ServeAll(first, calls);
    var i := ExpiryIsRecorded(db, t, c, ev, correlation, at, now);
    ExpireKeepsValid(db, t, c, ev, correlation, at, now);
    RunKeepsValid(first, calls);
    RunExtends(first, calls);
    assert later.events[i] == first.events[i];
    RecordedExpiryIsReturned(later, t, c, r.reply, i, ev', correlation', at', now');
  }

  /** A revoked event names a certificate that is revoked and points back to it. */
  lemma RevokedEventIsLast(db: Inventory, i: nat)
    requires ValidLog(db) && i < |db.events| && db.events[i].kind == RevokedEvent
    ensures var e := db.events[i];
            && e.certificate in db.certs && db.certs[e.certificate].identity.tenant == e.tenant
            && db.certs[e.certificate].state == CertRevoked && db.certs[e.certificate].lastEvent == e.id
  {
    assert EventExplained(db, i);
  }

  /** No revocation of a reachable inventory finds it inconsistent. */
  lemma RevocationNeverFindsInconsistency(db: Inventory, id: Tables, a: Actor, ev: EventId, correlation: CorrelationId,
                                          request: RequestId, c: CertificateId, reason: RevocationReason, at: int,
                                          k: IdempotencyKey, confirmation: ConfirmationId, now: int)
    requires ValidLog(db)
    ensures !Revoke(db, id, a, ev, correlation, request, c, reason, at, k, confirmation, now).1.StateInconsistent?
  {
    if ActorIsActive(id, a) && EventByKey(db, a.tenant.value, k, RevokedEvent).Some? {
      RevokedEventIsLast(db, EventByKey(db, a.tenant.value, k, RevokedEvent).value);
    }
  }

  /** No expiry of a reachable inventory finds it inconsistent. */
  lemma ExpiryNeverFindsInconsistency(db: Inventory, t: TenantId, c: CertificateId, ev: EventId,
                                      correlation: CorrelationId, at: int, now: int)
    requires ValidLog(db)
    ensures !Expire(db, t, c, ev, correlation, at, now).1.StateInconsistent?
  {
    if c in db.certs && db.certs[c].identity.tenant == t && db.certs[c].state == CertExpired {
      ExpiryIsFound(db, t, c);
    }
  }

  /** Migration 010 lets a confirmation time be up to two seconds ahead of the clock, but
      the CHECK that an event is recorded no earlier than it occurred decides: a permitted
      revocation meets the CHECKs of its row and event exactly when its time is not in the
      future, and otherwise it is rejected. */
  lemma SkewAllowanceIsVoid(db: Inventory, id: Tables, a: Actor, ev: EventId, correlation: CorrelationId,
                            request: RequestId, c: CertificateId, reason: RevocationReason, at: int,
                            k: IdempotencyKey, confirmation: ConfirmationId, now: int)
    requires ActorIsActive(id, a) && EventByKey(db, a.tenant.value, k, RevokedEvent).None?
    requires MayRevoke(db, id, a, c, at, now) && RowChecks(db.certs[c]) && db.certs[c].createdAt <= now
    ensures at <= now <==> (RowChecks(EndedRow(db.certs[c], CertRevoked, at, ev, now))
                            && EventChecks(RevocationEvent(db.certs[c], c, ev, correlation, request, reason, at, k,
                                                           confirmation, a.subject.value, now)))
    ensures now < at ==> Revoke(db, id, a, ev, correlation, request, c, reason, at, k, confirmation, now) == (db, RowRejected)
  {
  }
}
