/** The certificate functions as they run, row by row. */
module CertificateStore {
  import opened Sql
  import opened Tenancy
  import opened Certificates
  import opened CertificateHistory
  import opened CertificateRetries

  class InventoryStore {
    const tenancy: TenantStore
    var certs: map<CertificateId, Certificate>
    var events: seq<Event>

    constructor (tenancy: TenantStore)
      ensures this.tenancy == tenancy && View() == EMPTY && Valid(View())
    {
      this.tenancy := tenancy;
      certs, events := map[], [];
    }

    function View(): Inventory
      reads this
    {
      Inventory(certs, events)
    }

    /** `identity.record_certificate_issuance` */
    method RecordIssuance(a: Actor, c: CertificateId, ev: EventId, correlation: CorrelationId, f: Fields, now: int)
      returns (r: Result<Issued>)
      requires Valid(View())
      modifies this
      ensures Valid(View())
      ensures (View(), r) == Issue(old(View()), tenancy.View(), a, c, ev, correlation, f, now)
    {
      IssueKeepsValid(View(), tenancy.View(), a, c, ev, correlation, f, now);
      if !MayRecord(tenancy.View(), a, f) {
        return CallDenied;
      }
      var t := a.tenant.value;
      if x :| x in certs && HasKey(View(), t, f.key, x) {
        KeyFinds(View(), t, f.key, x);
        var existing := certs[x];
        if existing.identity.fields != f || existing.identity.supersedes.Some? {
          return KeyConflict;
        }
        return Ok(Issued(x, existing.identity.issuedEvent, existing.state));
      }
      var row := NewRow(t, f, a.subject.value, ev, correlation, None, now);
      var e := BirthEvent(t, c, f, a.subject.value, ev, correlation, None, now);
      if !CertificateFits(View(), c, row) || !EventFits(events, e) {
        return RowRejected;
      }
      certs := certs[c := row];
      events := events + [e];
      return Ok(Issued(c, ev, CertActive));
    }

    /** `identity.record_certificate_renewal`: two inserts, an update, an insert; a row that
        a constraint rejects undoes the rows before it. */
    method RecordRenewal(a: Actor, c: CertificateId, renewedEv: EventId, supersededEv: EventId,
                         correlation: CorrelationId, predecessor: Option<CertificateId>, f: Fields, now: int)
      returns (r: Result<Renewed>)
      requires Valid(View())
      modifies this
      ensures Valid(View())
      ensures (View(), r) == Renew(old(View()), tenancy.View(), a, c, renewedEv, supersededEv, correlation, predecessor, f, now)
    {
      RenewKeepsValid(View(), tenancy.View(), a, c, renewedEv, supersededEv, correlation, predecessor, f, now);
      if renewedEv == supersededEv || !MayRecord(tenancy.View(), a, f) {
        return CallDenied;
      }
      var t, author := a.tenant.value, a.subject.value;
      if x :| x in certs && HasKey(View(), t, f.key, x) {
        KeyFinds(View(), t, f.key, x);
        var existing := certs[x];
        if existing.identity.fields != f || existing.identity.supersedes != predecessor {
          return KeyConflict;
        }
        var renewed := FindEvent(t, f.key, RenewedEvent);
        var superseded := FindEvent(t, f.key, SupersededEvent);
        return Ok(Renewed(x, IdAt(View(), renewed), IdAt(View(), superseded), existing.state, CertSuperseded));
      }
      if predecessor.None? || !MayRenew(View(), t, predecessor.value, f) {
        return CallDenied;
      }
      var p := predecessor.value;
      var former := certs[p];
      var savedCerts, savedEvents := certs, events;
      var row := NewRow(t, f, author, renewedEv, correlation, Some(p), now);
      var birth := BirthEvent(t, c, f, author, renewedEv, correlation, Some(former.lastEvent), now);
      if !CertificateFits(View(), c, row) || !EventFits(events, birth) {
        return RowRejected;
      }
      certs := certs[c := row];
      events := events + [birth];
      var ended := EndedRow(former, CertSuperseded, f.issuedAt, supersededEv, now);
      var end := SupersessionEvent(t, p, former.identity.fields, f, author, supersededEv, correlation, renewedEv, now);
      if !RowChecks(ended) || !EventFits(events, end) {
        certs, events := savedCerts, savedEvents;
        return RowRejected;
      }
      certs := certs[p := ended];
      events := events + [end];
      return Ok(Renewed(c, Some(renewedEv), Some(supersededEv), CertActive, CertSuperseded));
    }

    /** The scan behind a lookup by tenant, idempotency key and event type. */
    method FindEvent(t: TenantId, k: IdempotencyKey, kind: EventKind) returns (r: Option<nat>)
      requires EventsDistinct(events)
      ensures r == EventByKey(View(), t, k, kind)
    {
      for i := 0 to |events|
        invariant forall j: nat :: j < i ==> !EventHasKey(View(), t, k, kind, j)
      {
        if EventHasKey(View(), t, k, kind, i) {
          EventKeyFinds(View(), t, k, kind, i);
          return Some(i);
        }
      }
      return None;
    }

    /** `identity.record_certificate_revocation` */
    method RecordRevocation(a: Actor, ev: EventId, correlation: CorrelationId, request: RequestId, c: CertificateId,
                            reason: RevocationReason, at: int, k: IdempotencyKey, confirmation: ConfirmationId, now: int)
      returns (r: Result<Ended>)
      requires Valid(View())
      modifies this
      ensures Valid(View())
      ensures (View(), r) == Revoke(old(View()), tenancy.View(), a, ev, correlation, request, c, reason, at, k, confirmation, now)
      ensures !r.StateInconsistent?
    {
      RevokeKeepsValid(View(), tenancy.View(), a, ev, correlation, request, c, reason, at, k, confirmation, now);
      RevocationNeverFindsInconsistency(View(), tenancy.View(), a, ev, correlation, request, c, reason, at, k, confirmation, now);
      if !ActorIsActive(tenancy.View(), a) {
        return CallDenied;
      }
      var found := FindEvent(a.tenant.value, k, RevokedEvent);
      if found.Some? {
        var e := events[found.value];
        if e.certificate != c || e.request != request || e.reason != Some(RevokedFor(reason))
           || e.actor != a.subject || e.confirmation != Some(confirmation) {
          return KeyConflict;
        }
        if c !in certs || certs[c].identity.tenant != a.tenant.value || certs[c].state != CertRevoked
           || certs[c].lastEvent != e.id {
          return StateInconsistent;
        }
        return Ok(Ended(c, e.id, e.correlation, certs[c].state, certs[c].version));
      }
      if !MayRevoke(View(), tenancy.View(), a, c, at, now) {
        return CallDenied;
      }
      var target := certs[c];
      var row := EndedRow(target, CertRevoked, at, ev, now);
      var e := RevocationEvent(target, c, ev, correlation, request, reason, at, k, confirmation, a.subject.value, now);
      if !RowChecks(row) || !EventFits(events, e) {
        return RowRejected;
      }
      certs := certs[c := row];
      events := events + [e];
      return Ok(Ended(c, ev, correlation, CertRevoked, target.version + 1));
    }

    /** `identity.record_due_certificate_expiration` */
    method RecordExpiry(t: TenantId, c: CertificateId, ev: EventId, correlation: CorrelationId, at: int, now: int)
      returns (r: Result<Ended>)
      requires Valid(View())
      modifies this
      ensures Valid(View())
      ensures (View(), r) == Expire(old(View()), t, c, ev, correlation, at, now)
      ensures !r.StateInconsistent?
    {
      ExpireKeepsValid(View(), t, c, ev, correlation, at, now);
      ExpiryNeverFindsInconsistency(View(), t, c, ev, correlation, at, now);
      if c !in certs || certs[c].identity.tenant != t {
        return CallDenied;
      }
      var target := certs[c];
      if target.state == CertExpired {
        ExpiryIsFound(View(), t, c);
        if i :| 0 <= i < |events| && IsExpiryOf(View(), t, c, i) {
          assert EventExplained(View(), i);
          SameIdSameEvent(events, i, ExpiryOf(View(), t, c).value);
          return Ok(Ended(c, events[i].id, events[i].correlation, CertExpired, target.version));
        }
        return StateInconsistent;
      }
      if target.state != CertActive || at < target.identity.fields.notAfter || at > now {
        return CallDenied;
      }
      var row := EndedRow(target, CertExpired, at, ev, now);
      var e := ExpiryEvent(target, c, ev, correlation, at, now);
      if !RowChecks(row) || !EventFits(events, e) {
        return RowRejected;
      }
      certs := certs[c := row];
      events := events + [e];
      return Ok(Ended(c, ev, correlation, CertExpired, target.version + 1));
    }
  }
}
