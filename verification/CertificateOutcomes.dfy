/** When each certificate function grants a call, what it answers and what it leaves in the two
    tables, said of the rows alone. */
module CertificateOutcomes {
  import opened Sql
  import opened Tenancy
  import opened TenancyOutcomes
  import opened Certificates
  import opened CertificateHistory
  import opened CertificateRetries

  // ----- The CHECKs of the stored rows -----

  /** The stored rows meet their CHECKs, and an expiry event has the key of its certificate. */
  predicate ChecksHold(db: Inventory) {
    && (forall c :: c in db.certs ==> RowChecks(db.certs[c]))
    && (forall i :: 0 <= i < |db.events| && db.events[i].kind == ExpiredEvent ==>
          db.events[i].key == ExpiryKey(db.events[i].certificate))
  }

  lemma RenewKeepsChecks(db: Inventory, call: Call)
    requires ChecksHold(db) && call.RenewCall?
    ensures ChecksHold(Serve(db, call))
  {
  }

  lemma CallKeepsChecks(db: Inventory, call: Call)
    requires ChecksHold(db)
    ensures ChecksHold(Serve(db, call))
  {
    match call {
      case IssueCall(id, a, c, ev, cor, f, now) =>
      case RenewCall(id, a, c, ev, ev', cor, p, f, now) => RenewKeepsChecks(db, call);
      case RevokeCall(id, a, ev, cor, req, c, r, at, k, conf, now) =>
      case ExpireCall(t, c, ev, cor, at, now) =>
    }
  }

  /** Every run keeps them, together with the inventory invariant. */
  lemma {:induction false} RunKeepsChecks(db: Inventory, calls: seq<Call>)
    requires Valid(db) && ChecksHold(db)
    ensures Valid(ServeAll(db, calls)) && ChecksHold(ServeAll(db, calls))
    decreases |calls|
  {
    RunKeepsValid(db, calls);
    if |calls| != 0 {
      CallKeepsChecks(db, calls[0]);
      CallKeepsValid(db, calls[0]);
      RunKeepsChecks(Serve(db, calls[0]), calls[1..]);
    }
  }

  // ----- What a call needs -----

  /** The actor acts for the tenant, for itself or as administrator; subject and issuer are
      active in the tenant. */
  predicate Entitled(id: Tables, t: TenantId, author: SubjectId, f: Fields) {
    && Acts(id, t, author) && (f.subject == author || Administers(id, t, author))
    && (t, f.subject) in id.memberships && id.memberships[(t, f.subject)] == RowActive
    && f.subject in id.subjects && id.subjects[f.subject] == RowActive
    && (t, f.issuer) in id.issuers && id.issuers[(t, f.issuer)] == CfgActive
  }

  lemma MayRecordIff(id: Tables, t: TenantId, author: SubjectId, f: Fields)
    ensures MayRecord(id, Actor(Some(t), Some(author)), f) <==> Entitled(id, t, author, f)
  {
    ActorRightsIff(id, Actor(Some(t), Some(author)));
  }

  predicate KeyIsUnused(db: Inventory, t: TenantId, k: IdempotencyKey) {
    forall c :: c in db.certs && db.certs[c].identity.tenant == t ==> db.certs[c].identity.fields.key != k
  }

  predicate EventIdIsNew(db: Inventory, ev: EventId) {
    forall i :: 0 <= i < |db.events| ==> db.events[i].id != ev
  }

  /** No stored certificate has the identifier, the fingerprint, or in its tenant the serial
      of the issuer or the request; the fields are in order and not ahead of the clock. */
  predicate CertificateIsNew(db: Inventory, t: TenantId, c: CertificateId, f: Fields, now: int) {
    && c !in db.certs && f.algorithm in {EcdsaP256Key, Ed25519Key}
    && f.notBefore <= f.issuedAt < f.notAfter && f.issuedAt <= now
    && forall d :: d in db.certs ==>
         && db.certs[d].identity.fields.fingerprint != f.fingerprint
         && (db.certs[d].identity.tenant == t ==>
               && db.certs[d].identity.fields.request != f.request
               && (db.certs[d].identity.fields.issuer, db.certs[d].identity.fields.serial) != (f.issuer, f.serial))
  }

  /** The row and its constraints. */
  lemma NewRowFitsIff(db: Inventory, t: TenantId, c: CertificateId, f: Fields, author: SubjectId, ev: EventId,
                      correlation: CorrelationId, supersedes: Option<CertificateId>, now: int)
    requires Valid(db) && KeyIsUnused(db, t, f.key) && EventIdIsNew(db, ev)
    requires supersedes.Some? ==> supersedes.value in db.certs && db.certs[supersedes.value].identity.tenant == t
    ensures CertificateFits(db, c, NewRow(t, f, author, ev, correlation, supersedes, now)) <==>
              CertificateIsNew(db, t, c, f, now)
  {
    var row := NewRow(t, f, author, ev, correlation, supersedes, now);
    forall d | d in db.certs ensures db.certs[d].identity.issuedEvent != ev {
      assert RowExplained(db, d);
      var i: nat :| BornAt(db, d, i);
    }
    if CertificateFits(db, c, row) {
      forall d | d in db.certs
        ensures db.certs[d].identity.fields.fingerprint != f.fingerprint
        ensures db.certs[d].identity.tenant == t ==>
                  && db.certs[d].identity.fields.request != f.request
                  && (db.certs[d].identity.fields.issuer, db.certs[d].identity.fields.serial) != (f.issuer, f.serial)
      {
        assert RowsDiffer(db.certs[d].identity, row.identity);
      }
    }
  }

  /** The key of an issued, renewed or superseded event is that of a certificate. */
  lemma EventKeyIsOnARow(db: Inventory, i: nat) returns (c: CertificateId)
    requires Valid(db) && i < |db.events| && db.events[i].kind in {IssuedEvent, RenewedEvent, SupersededEvent}
    ensures HasKey(db, db.events[i].tenant, db.events[i].key, c)
  {
    assert EventExplained(db, i);
    var about := db.events[i].certificate;
    if db.events[i].kind == SupersededEvent {
      c :| c in db.certs && db.certs[c].identity.supersedes == Some(about);
      assert Succeeds(db, about, c);
      var j: nat :| SupersededAt(db, about, c, j);
      assert EventExplained(db, j);
      SameIdSameEvent(db.events, i, j);
    } else {
      c := about;
      assert RowExplained(db, c);
      var j: nat :| BornAt(db, c, j);
      SameIdSameEvent(db.events, i, j);
    }
  }

  /** So a key that no certificate has is on no such event either. */
  lemma UnusedKeyHasNoEvent(db: Inventory, t: TenantId, k: IdempotencyKey, i: nat)
    requires Valid(db) && KeyIsUnused(db, t, k)
    requires i < |db.events| && db.events[i].tenant == t && db.events[i].key == k
    ensures db.events[i].kind !in {IssuedEvent, RenewedEvent, SupersededEvent}
  {
    if db.events[i].kind in {IssuedEvent, RenewedEvent, SupersededEvent} {
      var c := EventKeyIsOnARow(db, i);
    }
  }

  /** An issued, renewed or superseded event fits exactly when its identifier is new and it is
      not recorded before it occurs. */
  lemma NewEventFitsIff(db: Inventory, e: Event)
    requires Valid(db) && KeyIsUnused(db, e.tenant, e.key)
    requires e.kind in {IssuedEvent, RenewedEvent, SupersededEvent} && e.confirmation.None?
    requires e.kind == IssuedEvent ==> e.state == CertActive && e.cause.None? && e.reason.None?
    ensures EventFits(db.events, e) <==> EventIdIsNew(db, e.id) && e.occurredAt <= e.recordedAt
  {
    forall i: nat | i < |db.events| && db.events[i].tenant == e.tenant && db.events[i].key == e.key
      ensures db.events[i].kind != e.kind
    {
      UnusedKeyHasNoEvent(db, e.tenant, e.key, i);
    }
    if EventFits(db.events, e) {
      forall i | 0 <= i < |db.events| ensures db.events[i].id != e.id {
        assert EventsDiffer(db.events[i], e);
      }
    }
  }

  // ----- Issuance -----

  /** An issuance with an unused key: denied unless the actor is entitled, then recorded if
      and only if no constraint speaks against it. */
  lemma FirstIssuanceIff(db: Inventory, id: Tables, t: TenantId, author: SubjectId, c: CertificateId, ev: EventId,
                         correlation: CorrelationId, f: Fields, now: int)
    requires Valid(db) && KeyIsUnused(db, t, f.key)
    ensures var (after, r) := Issue(db, id, Actor(Some(t), Some(author)), c, ev, correlation, f, now);
            && (r == CallDenied <==> !Entitled(id, t, author, f))
            && (r.Ok? <==> Entitled(id, t, author, f) && CertificateIsNew(db, t, c, f, now) && EventIdIsNew(db, ev))
            && (!r.Ok? ==> after == db && (r == CallDenied || r == RowRejected))
            && (r.Ok? ==>
                  && r.reply == Issued(c, ev, CertActive)
                  && after.certs == db.certs[c := Certificate(Identity(t, f, author, ev, correlation, None), CertActive,
                                                              f.issuedAt, ev, 1, now, now)]
                  && after.events == db.events + [Event(t, ev, c, IssuedEvent, CertActive,
                                                        Snapshot(f.subject, f.issuer, f.serial, f.fingerprint, f.notAfter),
                                                        f.request, correlation, None, f.key, Some(author), None, None,
                                                        f.issuedAt, now)])
  {
    MayRecordIff(id, t, author, f);
    var e := BirthEvent(t, c, f, author, ev, correlation, None, now);
    NewEventFitsIff(db, e);
    if EventIdIsNew(db, ev) {
      NewRowFitsIff(db, t, c, f, author, ev, correlation, None, now);
    }
  }

  /** With a used key the stored certificate is returned if and only if it is an issued one
      with the same fields. */
  lemma UsedIssuanceKeyIff(db: Inventory, id: Tables, t: TenantId, author: SubjectId, c: CertificateId, ev: EventId,
                           correlation: CorrelationId, f: Fields, now: int, x: CertificateId)
    requires Valid(db) && x in db.certs && db.certs[x].identity.tenant == t && db.certs[x].identity.fields.key == f.key
    ensures Issue(db, id, Actor(Some(t), Some(author)), c, ev, correlation, f, now) ==
            (db, if !Entitled(id, t, author, f) then CallDenied
                 else if db.certs[x].identity.fields == f && db.certs[x].identity.supersedes == None
                 then Ok(Issued(x, db.certs[x].identity.issuedEvent, db.certs[x].state))
                 else KeyConflict)
  {
    MayRecordIff(id, t, author, f);
    KeyFinds(db, t, f.key, x);
  }

  // ----- Renewal -----

  /** The predecessor is the tenant's, active, of the same subject and profile, with a key that
      is not the new one, and the new issuance falls into the last quarter of its validity. */
  predicate Renewable(db: Inventory, t: TenantId, p: CertificateId, f: Fields) {
    && p in db.certs && db.certs[p].identity.tenant == t && db.certs[p].state == CertActive
    && var g := db.certs[p].identity.fields;
       && g.subject == f.subject && g.profile == f.profile
       && g.publicKey.Some? && (f.publicKey.None? || f.publicKey.value != g.publicKey.value)
       && g.notBefore <= f.issuedAt < g.notAfter
       && 4 * (g.notAfter - f.issuedAt) <= g.notAfter - g.notBefore
  }

  /** What the constraints ask of a renewal besides: the successor's row and both events are
      new, and the predecessor's times stay in order. */
  predicate RenewalIsNew(db: Inventory, t: TenantId, c: CertificateId, p: CertificateId, f: Fields, ev: EventId,
                         ev': EventId, now: int)
    requires p in db.certs
  {
    && CertificateIsNew(db, t, c, f, now) && EventIdIsNew(db, ev) && EventIdIsNew(db, ev')
    && db.certs[p].identity.fields.issuedAt <= f.issuedAt && db.certs[p].createdAt <= now
  }

  /** The rows and events of a granted renewal. */
  ghost predicate RenewalLeaves(db: Inventory, after: Inventory, t: TenantId, author: SubjectId, c: CertificateId,
                                p: CertificateId, f: Fields, ev: EventId, ev': EventId, correlation: CorrelationId, now: int)
    requires p in db.certs
  {
    var g := db.certs[p].identity.fields;
    && after.certs.Keys == db.certs.Keys + {c}
    && (forall d :: d in db.certs && d != c && d != p ==> after.certs[d] == db.certs[d])
    && after.certs[c] == Certificate(Identity(t, f, author, ev, correlation, Some(p)), CertActive, f.issuedAt, ev, 1, now, now)
    && after.certs[p] == Certificate(db.certs[p].identity, CertSuperseded, f.issuedAt, ev', db.certs[p].version + 1,
                                     db.certs[p].createdAt, now)
    && after.events == db.events + [
         Event(t, ev, c, RenewedEvent, CertActive, Snapshot(f.subject, f.issuer, f.serial, f.fingerprint, f.notAfter),
               f.request, correlation, Some(db.certs[p].lastEvent), f.key, Some(author), None, None, f.issuedAt, now),
         Event(t, ev', p, SupersededEvent, CertSuperseded,
               Snapshot(g.subject, g.issuer, g.serial, g.fingerprint, g.notAfter), f.request, correlation, Some(ev), f.key,
               Some(author), Some(CertificateRenewed), None, f.issuedAt, now)]
  }

  lemma MayRenewIff(db: Inventory, t: TenantId, p: CertificateId, f: Fields)
    ensures MayRenew(db, t, p, f) <==> Renewable(db, t, p, f)
  {
  }

  /** The constraints on a renewal that the checks let through. */
  lemma RenewalFitsIff(db: Inventory, t: TenantId, author: SubjectId, c: CertificateId, ev: EventId, ev': EventId,
                       correlation: CorrelationId, p: CertificateId, f: Fields, now: int)
    requires Valid(db) && ChecksHold(db) && KeyIsUnused(db, t, f.key) && Renewable(db, t, p, f) && ev != ev'
    ensures var former := db.certs[p];
            var birth := BirthEvent(t, c, f, author, ev, correlation, Some(former.lastEvent), now);
            && CertificateFits(db, c, NewRow(t, f, author, ev, correlation, Some(p), now)) && EventFits(db.events, birth)
            && RowChecks(EndedRow(former, CertSuperseded, f.issuedAt, ev', now))
            && EventFits(db.events + [birth],
                         SupersessionEvent(t, p, former.identity.fields, f, author, ev', correlation, ev, now))
            <==> RenewalIsNew(db, t, c, p, f, ev, ev', now)
  {
    var former := db.certs[p];
    var birth := BirthEvent(t, c, f, author, ev, correlation, Some(former.lastEvent), now);
    var end := SupersessionEvent(t, p, former.identity.fields, f, author, ev', correlation, ev, now);
    NewEventFitsIff(db, birth);
    NewEventFitsIff(db, end);
    EventFitsAfterIff(db.events, birth, end);
    if EventIdIsNew(db, ev) {
      NewRowFitsIff(db, t, c, f, author, ev, correlation, Some(p), now);
    }
    assert RowChecks(former);
  }

  lemma EventFitsAfterIff(events: seq<Event>, birth: Event, end: Event)
    requires EventsDiffer(birth, end)
    ensures EventFits(events + [birth], end) <==> EventFits(events, end)
  {
    if EventFits(events + [birth], end) {
      forall i | 0 <= i < |events| ensures EventsDiffer(events[i], end) {
        assert (events + [birth])[i] == events[i];
      }
    }
  }

  /** A renewal with an unused key: denied unless the actor is entitled and the predecessor
      renewable, then recorded if and only if no constraint speaks against it. */
  lemma FirstRenewalIff(db: Inventory, id: Tables, t: TenantId, author: SubjectId, c: CertificateId, ev: EventId,
                        ev': EventId, correlation: CorrelationId, predecessor: Option<CertificateId>, f: Fields, now: int)
    requires Valid(db) && ChecksHold(db) && KeyIsUnused(db, t, f.key)
    ensures var (after, r) := Renew(db, id, Actor(Some(t), Some(author)), c, ev, ev', correlation, predecessor, f, now);
            var granted := ev != ev' && Entitled(id, t, author, f) && predecessor.Some? && Renewable(db, t, predecessor.value, f);
            && (r == CallDenied <==> !granted)
            && (r.Ok? <==> granted && RenewalIsNew(db, t, c, predecessor.value, f, ev, ev', now))
            && (!r.Ok? ==> after == db && (r == CallDenied || r == RowRejected))
  {
    MayRecordIff(id, t, author, f);
    if predecessor.Some? {
      MayRenewIff(db, t, predecessor.value, f);
      if Renewable(db, t, predecessor.value, f) && ev != ev' {
        RenewalFitsIff(db, t, author, c, ev, ev', correlation, predecessor.value, f, now);
      }
    }
  }

  /** What a granted first renewal answers and leaves. */
  lemma FirstRenewalLeaves(db: Inventory, id: Tables, t: TenantId, author: SubjectId, c: CertificateId, ev: EventId,
                           ev': EventId, correlation: CorrelationId, p: CertificateId, f: Fields, now: int)
    requires KeyIsUnused(db, t, f.key)
    requires Renew(db, id, Actor(Some(t), Some(author)), c, ev, ev', correlation, Some(p), f, now).1.Ok?
    ensures p in db.certs
    ensures var (after, r) := Renew(db, id, Actor(Some(t), Some(author)), c, ev, ev', correlation, Some(p), f, now);
            && r.reply == Renewed(c, Some(ev), Some(ev'), CertActive, CertSuperseded)
            && RenewalLeaves(db, after, t, author, c, p, f, ev, ev', correlation, now)
  {
  }

  /** With a used key the stored certificate is returned if and only if its fields and its
      predecessor are those of the call. */
  lemma UsedRenewalKeyIff(db: Inventory, id: Tables, t: TenantId, author: SubjectId, c: CertificateId, ev: EventId,
                          ev': EventId, correlation: CorrelationId, predecessor: Option<CertificateId>, f: Fields,
                          now: int, x: CertificateId)
    requires Valid(db) && x in db.certs && db.certs[x].identity.tenant == t && db.certs[x].identity.fields.key == f.key
    ensures var (after, r) := Renew(db, id, Actor(Some(t), Some(author)), c, ev, ev', correlation, predecessor, f, now);
            && after == db
            && (r == CallDenied <==> ev == ev' || !Entitled(id, t, author, f))
            && (r.Ok? <==> ev != ev' && Entitled(id, t, author, f)
                           && db.certs[x].identity.fields == f && db.certs[x].identity.supersedes == predecessor)
            && (!r.Ok? ==> r == CallDenied || r == KeyConflict)
            && (r.Ok? ==> r.reply.certificate == x && r.reply.state == db.certs[x].state)
  {
    MayRecordIff(id, t, author, f);
    KeyFinds(db, t, f.key, x);
  }

  // ----- Revocation -----

  /** The certificate is the tenant's and active, the time within its life and at most two
      seconds ahead, the actor its subject or an administrator, and the issuer active. */
  predicate Revocable(db: Inventory, id: Tables, t: TenantId, author: SubjectId, c: CertificateId, at: int, now: int) {
    && Acts(id, t, author) && c in db.certs && db.certs[c].identity.tenant == t && db.certs[c].state == CertActive
    && var g := db.certs[c].identity.fields;
       && g.issuedAt <= at < g.notAfter && at - now <= 2_000_000
       && (g.subject == author || Administers(id, t, author))
       && (t, g.issuer) in id.issuers && id.issuers[(t, g.issuer)] == CfgActive
  }

  /** What the constraints ask of a revocation besides: a time that has come, a new event, a
      request that revoked nothing yet and a confirmation the issuer did not give before. */
  predicate RevocationIsNew(db: Inventory, t: TenantId, c: CertificateId, ev: EventId, request: RequestId,
                            confirmation: ConfirmationId, at: int, now: int)
    requires c in db.certs
  {
    && at <= now && db.certs[c].createdAt <= now && EventIdIsNew(db, ev)
    && forall i :: 0 <= i < |db.events| && db.events[i].tenant == t ==>
         && (db.events[i].kind == RevokedEvent ==> db.events[i].request != request)
         && (db.events[i].about.issuer == db.certs[c].identity.fields.issuer ==> db.events[i].confirmation != Some(confirmation))
  }

  predicate RevocationKeyIsUnused(db: Inventory, t: TenantId, k: IdempotencyKey) {
    forall i :: 0 <= i < |db.events| && db.events[i].tenant == t && db.events[i].kind == RevokedEvent ==> db.events[i].key != k
  }

  lemma RevocationFitsIff(db: Inventory, t: TenantId, author: SubjectId, ev: EventId, correlation: CorrelationId,
                          request: RequestId, c: CertificateId, reason: RevocationReason, at: int, k: IdempotencyKey,
                          confirmation: ConfirmationId, now: int)
    requires ChecksHold(db) && RevocationKeyIsUnused(db, t, k)
    requires c in db.certs && db.certs[c].identity.tenant == t && db.certs[c].identity.fields.issuedAt <= at
    ensures && RowChecks(EndedRow(db.certs[c], CertRevoked, at, ev, now))
            && EventFits(db.events, RevocationEvent(db.certs[c], c, ev, correlation, request, reason, at, k, confirmation, author, now))
            <==> RevocationIsNew(db, t, c, ev, request, confirmation, at, now)
  {
    var e := RevocationEvent(db.certs[c], c, ev, correlation, request, reason, at, k, confirmation, author, now);
    assert RowChecks(db.certs[c]);
    if EventFits(db.events, e) {
      forall i | 0 <= i < |db.events|
        ensures db.events[i].id != ev
        ensures db.events[i].tenant == t && db.events[i].kind == RevokedEvent ==> db.events[i].request != request
        ensures db.events[i].tenant == t && db.events[i].about.issuer == db.certs[c].identity.fields.issuer ==>
                  db.events[i].confirmation != Some(confirmation)
      {
        assert EventsDiffer(db.events[i], e);
      }
    }
  }

  lemma FirstRevocationIff(db: Inventory, id: Tables, t: TenantId, author: SubjectId, ev: EventId,
                           correlation: CorrelationId, request: RequestId, c: CertificateId, reason: RevocationReason,
                           at: int, k: IdempotencyKey, confirmation: ConfirmationId, now: int)
    requires ChecksHold(db) && RevocationKeyIsUnused(db, t, k)
    ensures var (after, r) := Revoke(db, id, Actor(Some(t), Some(author)), ev, correlation, request, c, reason, at, k,
                                     confirmation, now);
            && (r == CallDenied <==> !Revocable(db, id, t, author, c, at, now))
            && (r.Ok? <==> Revocable(db, id, t, author, c, at, now)
                           && RevocationIsNew(db, t, c, ev, request, confirmation, at, now))
            && (!r.Ok? ==> after == db && (r == CallDenied || r == RowRejected))
            && (r.Ok? ==>
                  var row, g := db.certs[c], db.certs[c].identity.fields;
                  && r.reply == Ended(c, ev, correlation, CertRevoked, row.version + 1)
                  && after.certs == db.certs[c := Certificate(row.identity, CertRevoked, at, ev, row.version + 1, row.createdAt, now)]
                  && after.events == db.events + [
                       Event(t, ev, c, RevokedEvent, CertRevoked, Snapshot(g.subject, g.issuer, g.serial, g.fingerprint, g.notAfter),
                             request, correlation, Some(row.lastEvent), k, Some(author), Some(RevokedFor(reason)),
                             Some(confirmation), at, now)])
  {
    ActorRightsIff(id, Actor(Some(t), Some(author)));
    assert EventByKey(db, t, k, RevokedEvent).None?;
    if Revocable(db, id, t, author, c, at, now) {
      RevocationFitsIff(db, t, author, ev, correlation, request, c, reason, at, k, confirmation, now);
    }
  }

  /** With a used key the stored revocation is returned if and only if it is of the same
      certificate, request, reason, actor and confirmation. */
  lemma UsedRevocationKeyIff(db: Inventory, id: Tables, t: TenantId, author: SubjectId, ev: EventId,
                             correlation: CorrelationId, request: RequestId, c: CertificateId, reason: RevocationReason,
                             at: int, k: IdempotencyKey, confirmation: ConfirmationId, now: int, i: nat)
    requires Valid(db) && EventHasKey(db, t, k, RevokedEvent, i)
    ensures db.events[i].certificate in db.certs
    ensures var e := db.events[i];
            Revoke(db, id, Actor(Some(t), Some(author)), ev, correlation, request, c, reason, at, k, confirmation, now) ==
            (db, if !Acts(id, t, author) then CallDenied
                 else if e.certificate == c && e.request == request && e.reason == Some(RevokedFor(reason))
                         && e.actor == Some(author) && e.confirmation == Some(confirmation)
                 then Ok(Ended(c, e.id, e.correlation, CertRevoked, db.certs[e.certificate].version))
                 else KeyConflict)
  {
    ActorRightsIff(id, Actor(Some(t), Some(author)));
    EventKeyFinds(db, t, k, RevokedEvent, i);
    RevokedEventIsLast(db, i);
  }

  // ----- Expiry -----

  predicate NeverExpired(db: Inventory, c: CertificateId) {
    forall i :: 0 <= i < |db.events| && db.events[i].kind == ExpiredEvent ==> db.events[i].certificate != c
  }

  lemma ActiveNeverExpired(db: Inventory, c: CertificateId)
    requires Valid(db) && c in db.certs && db.certs[c].state == CertActive
    ensures NeverExpired(db, c)
  {
    forall i | 0 <= i < |db.events| && db.events[i].kind == ExpiredEvent ensures db.events[i].certificate != c {
      assert EventExplained(db, i);
    }
  }

  lemma ExpiryFitsIff(db: Inventory, t: TenantId, c: CertificateId, ev: EventId, correlation: CorrelationId, at: int, now: int)
    requires ChecksHold(db) && NeverExpired(db, c)
    requires c in db.certs && db.certs[c].identity.tenant == t
    requires db.certs[c].identity.fields.notAfter <= at <= now
    ensures && RowChecks(EndedRow(db.certs[c], CertExpired, at, ev, now))
            && EventFits(db.events, ExpiryEvent(db.certs[c], c, ev, correlation, at, now))
            <==> db.certs[c].createdAt <= now && EventIdIsNew(db, ev)
  {
    var e := ExpiryEvent(db.certs[c], c, ev, correlation, at, now);
    assert RowChecks(db.certs[c]);
    if EventFits(db.events, e) {
      forall i | 0 <= i < |db.events| ensures db.events[i].id != ev {
        assert EventsDiffer(db.events[i], e);
      }
    }
  }

  /** An expiry is recorded if and only if the certificate is the tenant's and active and its
      end has come, and the event is new; one recorded before is returned. */
  lemma ExpiryIff(db: Inventory, t: TenantId, c: CertificateId, ev: EventId, correlation: CorrelationId, at: int, now: int)
    requires Valid(db) && ChecksHold(db)
    ensures var (after, r) := Expire(db, t, c, ev, correlation, at, now);
            var known := c in db.certs && db.certs[c].identity.tenant == t;
            var due := known && db.certs[c].state == CertActive && db.certs[c].identity.fields.notAfter <= at <= now;
            && (r == CallDenied <==> !due && !(known && db.certs[c].state == CertExpired))
            && (r.Ok? <==> (known && db.certs[c].state == CertExpired)
                           || (due && db.certs[c].createdAt <= now && EventIdIsNew(db, ev)))
            && (!r.Ok? ==> r == CallDenied || r == RowRejected)
            && (!r.Ok? || !due ==> after == db)
            && (r.Ok? && !due ==>
                  && r.reply.certificate == c && r.reply.event == db.certs[c].lastEvent && r.reply.state == CertExpired
                  && r.reply.version == db.certs[c].version
                  && exists i :: 0 <= i < |db.events| && db.events[i].id == r.reply.event
                                 && db.events[i].correlation == r.reply.correlation)
            && (r.Ok? && due ==>
                  var row, g := db.certs[c], db.certs[c].identity.fields;
                  && r.reply == Ended(c, ev, correlation, CertExpired, row.version + 1)
                  && after.certs == db.certs[c := Certificate(row.identity, CertExpired, at, ev, row.version + 1, row.createdAt, now)]
                  && after.events == db.events + [
                       Event(t, ev, c, ExpiredEvent, CertExpired, Snapshot(g.subject, g.issuer, g.serial, g.fingerprint, g.notAfter),
                             g.request, correlation, Some(row.lastEvent), ExpiryKey(c), None, Some(CertificateExpired), None, at, now)])
  {
    if c in db.certs && db.certs[c].identity.tenant == t {
      if db.certs[c].state == CertExpired {
        ExpiryNeverFindsInconsistency(db, t, c, ev, correlation, at, now);
      } else if db.certs[c].state == CertActive && db.certs[c].identity.fields.notAfter <= at <= now {
        ActiveNeverExpired(db, c);
        ExpiryFitsIff(db, t, c, ev, correlation, at, now);
      }
    }
  }

  /** Without a bound tenant and subject every call of a client is denied. */
  lemma UnboundActorIsDenied(db: Inventory, id: Tables, a: Actor, c: CertificateId, ev: EventId, ev': EventId,
                             correlation: CorrelationId, predecessor: Option<CertificateId>, f: Fields,
                             request: RequestId, reason: RevocationReason, at: int, confirmation: ConfirmationId, now: int)
    requires a.tenant.None? || a.subject.None?
    ensures Issue(db, id, a, c, ev, correlation, f, now) == (db, CallDenied)
    ensures Renew(db, id, a, c, ev, ev', correlation, predecessor, f, now) == (db, CallDenied)
    ensures Revoke(db, id, a, ev, correlation, request, c, reason, at, f.key, confirmation, now) == (db, CallDenied)
  {
  }
}
