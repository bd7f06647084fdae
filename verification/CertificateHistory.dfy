/** What every run of the certificate functions keeps, and the causal history that follows
    from it. */
module CertificateHistory {
  import opened Sql
  import opened Tenancy
  import opened Certificates

  // ----- Invariant -----

  /** Event i is the one that created the certificate. */
  ghost predicate BornAt(db: Inventory, c: CertificateId, i: nat)
    requires c in db.certs
  {
    && i < |db.events|
    && db.events[i].id == db.certs[c].identity.issuedEvent && db.events[i].certificate == c
    && db.events[i].tenant == db.certs[c].identity.tenant && db.events[i].state == CertActive
    && db.events[i].kind == (if db.certs[c].identity.supersedes.Some? then RenewedEvent else IssuedEvent)
    && db.events[i].key == db.certs[c].identity.fields.key
    && db.events[i].occurredAt == db.certs[c].identity.fields.issuedAt
  }

  /** Event i is the one the certificate row points to as its last, and describes its state. */
  ghost predicate LastAt(db: Inventory, c: CertificateId, i: nat)
    requires c in db.certs
  {
    && i < |db.events|
    && db.events[i].id == db.certs[c].lastEvent && db.events[i].certificate == c
    && db.events[i].state == db.certs[c].state && db.events[i].occurredAt == db.certs[c].stateChangedAt
  }

  ghost predicate RowExplained(db: Inventory, c: CertificateId)
    requires c in db.certs
  {
    && (exists i: nat :: BornAt(db, c, i))
    && (exists i: nat :: LastAt(db, c, i))
    && (db.certs[c].state == CertActive ==>
          db.certs[c].lastEvent == db.certs[c].identity.issuedEvent
          && db.certs[c].stateChangedAt == db.certs[c].identity.fields.issuedAt)
    && db.certs[c].stateChangedAt >= db.certs[c].identity.fields.issuedAt
  }

  /** Event j is the cause that event i names: earlier in the log, and not later in time. */
  ghost predicate IsCause(events: seq<Event>, i: nat, j: nat) {
    && j < i < |events|
    && events[i].cause == Some(events[j].id)
    && events[j].occurredAt <= events[i].occurredAt
  }

  ghost predicate EndState(kind: EventKind, state: CertificateState) {
    match kind
    case RevokedEvent => state == CertRevoked
    case ExpiredEvent => state == CertExpired
    case SupersededEvent => state == CertSuperseded
    case _ => true
  }

  /** A beginning event is the certificate's first; an ending event is its last, and the
      certificate is in the state it says. */
  ghost predicate EventExplained(db: Inventory, i: nat)
    requires i < |db.events|
  {
    var e := db.events[i];
    && e.certificate in db.certs && db.certs[e.certificate].identity.tenant == e.tenant
    && (if e.kind == IssuedEvent then e.cause.None? else exists j: nat :: IsCause(db.events, i, j))
    && (if e.kind == IssuedEvent || e.kind == RenewedEvent
        then db.certs[e.certificate].identity.issuedEvent == e.id
        else db.certs[e.certificate].lastEvent == e.id && EndState(e.kind, db.certs[e.certificate].state))
  }

  ghost predicate EventsDistinct(events: seq<Event>) {
    forall i, j :: 0 <= i < j < |events| ==> EventsDiffer(events[i], events[j])
  }

  ghost predicate KeysDistinct(db: Inventory) {
    forall c, d :: c in db.certs && d in db.certs && c != d ==> RowsDiffer(db.certs[c].identity, db.certs[d].identity)
  }

  ghost predicate ValidLog(db: Inventory) {
    && EventsDistinct(db.events)
    && KeysDistinct(db)
    && (forall c :: c in db.certs ==> RowExplained(db, c))
    && (forall i :: 0 <= i < |db.events| ==> EventExplained(db, i))
  }

  /** Event i ended certificate p in favour of certificate c. */
  ghost predicate SupersededAt(db: Inventory, p: CertificateId, c: CertificateId, i: nat)
    requires c in db.certs
  {
    && i < |db.events|
    && db.events[i].kind == SupersededEvent && db.events[i].certificate == p
    && db.events[i].tenant == db.certs[c].identity.tenant
    && db.events[i].key == db.certs[c].identity.fields.key
  }

  ghost predicate BornBefore(db: Inventory, p: CertificateId, c: CertificateId)
    requires p in db.certs && c in db.certs
  {
    exists i: nat, j: nat :: BornAt(db, p, i) && BornAt(db, c, j) && i < j
  }

  predicate SameHolder(x: Identity, y: Identity) {
    x.tenant == y.tenant && x.fields.subject == y.fields.subject && x.fields.profile == y.fields.profile
  }

  /** c renews p: the two rows and the log agree on it. */
  ghost predicate Succeeds(db: Inventory, p: CertificateId, c: CertificateId)
    requires c in db.certs
  {
    && p in db.certs
    && SameHolder(db.certs[p].identity, db.certs[c].identity)
    && db.certs[p].identity.fields.publicKey.Some?
    && db.certs[p].identity.fields.publicKey != db.certs[c].identity.fields.publicKey
    && db.certs[p].state == CertSuperseded
    && BornBefore(db, p, c)
    && exists i: nat :: SupersededAt(db, p, c, i)
  }

  predicate SamePredecessor(x: Identity, y: Identity) {
    x.supersedes.Some? && x.supersedes == y.supersedes
  }

  ghost predicate LinksHold(db: Inventory) {
    forall c :: c in db.certs && db.certs[c].identity.supersedes.Some? ==>
      Succeeds(db, db.certs[c].identity.supersedes.value, c)
  }

  predicate OneSuccessor(db: Inventory) {
    forall c, d :: c in db.certs && d in db.certs && SamePredecessor(db.certs[c].identity, db.certs[d].identity) ==> c == d
  }

  predicate SupersededIsRenewed(db: Inventory) {
    forall p :: p in db.certs && db.certs[p].state == CertSuperseded ==>
      exists c :: c in db.certs && db.certs[c].identity.supersedes == Some(p)
  }

  ghost predicate ValidSuccession(db: Inventory) {
    LinksHold(db) && OneSuccessor(db) && SupersededIsRenewed(db)
  }

  ghost predicate Valid(db: Inventory) {
    ValidLog(db) && ValidSuccession(db)
  }

  // ----- The two row changes the functions are made of -----

  /** A new row and the event that begins it. */
  ghost predicate Begins(db: Inventory, after: Inventory, c: CertificateId, row: Certificate, e: Event) {
    && after == Inventory(db.certs[c := row], db.events + [e])
    && CertificateFits(db, c, row) && EventFits(db.events, e)
    && row.state == CertActive && row.lastEvent == row.identity.issuedEvent == e.id
    && row.stateChangedAt == row.identity.fields.issuedAt == e.occurredAt
    && e.certificate == c && e.tenant == row.identity.tenant && e.state == CertActive
    && e.key == row.identity.fields.key
    && e.kind == (if row.identity.supersedes.Some? then RenewedEvent else IssuedEvent)
    && (e.kind == IssuedEvent ==> e.cause.None?)
    && (e.kind == RenewedEvent ==> exists j: nat :: IsCause(after.events, |db.events|, j))
  }

  lemma DistinctAfterAppend(events: seq<Event>, e: Event)
    requires EventsDistinct(events) && EventFits(events, e)
    ensures EventsDistinct(events + [e])
  {
  }

  lemma SameIdSameEvent(events: seq<Event>, i: nat, j: nat)
    requires EventsDistinct(events) && i < |events| && j < |events| && events[i].id == events[j].id
    ensures i == j
  {
  }

  lemma KeysDistinctAfterInsert(db: Inventory, after: Inventory, c: CertificateId, row: Certificate)
    requires KeysDistinct(db) && CertificateFits(db, c, row) && after.certs == db.certs[c := row]
    ensures KeysDistinct(after)
  {
    forall x, y | x in after.certs && y in after.certs && x != y
      ensures RowsDiffer(after.certs[x].identity, after.certs[y].identity)
    {
      if x != c && y != c {
        assert RowsDiffer(db.certs[x].identity, db.certs[y].identity);
      }
    }
  }

  lemma KeysDistinctAfterUpdate(db: Inventory, after: Inventory, c: CertificateId, row: Certificate)
    requires KeysDistinct(db) && c in db.certs && row.identity == db.certs[c].identity
    requires after.certs == db.certs[c := row]
    ensures KeysDistinct(after)
  {
    forall x, y | x in after.certs && y in after.certs && x != y
      ensures RowsDiffer(after.certs[x].identity, after.certs[y].identity)
    {
      assert RowsDiffer(db.certs[x].identity, db.certs[y].identity);
    }
  }

  lemma BeginningExplainsRows(db: Inventory, after: Inventory, c: CertificateId, row: Certificate, e: Event)
    requires forall d :: d in db.certs ==> RowExplained(db, d)
    requires Begins(db, after, c, row, e)
    ensures forall d :: d in after.certs ==> RowExplained(after, d)
  {
    forall d | d in after.certs ensures RowExplained(after, d) {
      if d == c {
        assert BornAt(after, c, |db.events|) && LastAt(after, c, |db.events|);
      } else {
        RowStaysExplained(db, after, d);
      }
    }
  }

  lemma BeginningExplainsEvents(db: Inventory, after: Inventory, c: CertificateId, row: Certificate, e: Event)
    requires forall i :: 0 <= i < |db.events| ==> EventExplained(db, i)
    requires Begins(db, after, c, row, e)
    ensures forall i :: 0 <= i < |after.events| ==> EventExplained(after, i)
  {
    forall i | 0 <= i < |after.events| ensures EventExplained(after, i) {
      if i < |db.events| {
        assert EventExplained(db, i);
        EventStaysExplained(db, after, i);
      }
    }
  }

  lemma BeginningKeepsLog(db: Inventory, after: Inventory, c: CertificateId, row: Certificate, e: Event)
    requires ValidLog(db) && Begins(db, after, c, row, e)
    ensures ValidLog(after)
  {
    DistinctAfterAppend(db.events, e);
    KeysDistinctAfterInsert(db, after, c, row);
    BeginningExplainsRows(db, after, c, row, e);
    BeginningExplainsEvents(db, after, c, row, e);
  }

  /** A row that did not change stays explained when the log grows. */
  lemma RowStaysExplained(db: Inventory, after: Inventory, c: CertificateId)
    requires c in db.certs && RowExplained(db, c)
    requires c in after.certs && after.certs[c] == db.certs[c]
    requires |db.events| <= |after.events| && after.events[..|db.events|] == db.events
    ensures RowExplained(after, c)
  {
    var i: nat :| BornAt(db, c, i);
    assert BornAt(after, c, i) by { assert after.events[i] == db.events[i]; }
    var j: nat :| LastAt(db, c, j);
    assert LastAt(after, c, j) by { assert after.events[j] == db.events[j]; }
  }

  lemma CauseStays(events: seq<Event>, after: seq<Event>, i: nat, j: nat)
    requires IsCause(events, i, j)
    requires |events| <= |after| && after[..|events|] == events
    ensures IsCause(after, i, j)
  {
    assert after[i] == events[i] && after[j] == events[j];
  }

  lemma EventStaysExplained(db: Inventory, after: Inventory, i: nat)
    requires i < |db.events| && EventExplained(db, i)
    requires |db.events| <= |after.events| && after.events[..|db.events|] == db.events
    requires db.events[i].certificate in after.certs
    requires after.certs[db.events[i].certificate] == db.certs[db.events[i].certificate]
    ensures EventExplained(after, i)
  {
    assert after.events[i] == db.events[i];
    if db.events[i].kind != IssuedEvent {
      var j: nat :| IsCause(db.events, i, j);
      CauseStays(db.events, after.events, i, j);
    }
  }

  /** An active row ends, and the event that ends it. */
  ghost predicate Ends(db: Inventory, after: Inventory, c: CertificateId, row: Certificate, e: Event) {
    && c in db.certs && db.certs[c].state == CertActive
    && after == Inventory(db.certs[c := row], db.events + [e])
    && row.identity == db.certs[c].identity
    && RowChecks(row) && EventFits(db.events, e)
    && row.lastEvent == e.id && row.stateChangedAt == e.occurredAt && row.state == e.state
    && row.state != CertActive
    && e.kind !in {IssuedEvent, RenewedEvent} && EndState(e.kind, row.state)
    && e.certificate == c && e.tenant == row.identity.tenant
    && exists j: nat :: IsCause(after.events, |db.events|, j)
  }

  /** An active certificate has only its first event. */
  lemma FirstEventOfActive(db: Inventory, c: CertificateId, i: nat)
    requires ValidLog(db) && c in db.certs && db.certs[c].state == CertActive
    requires i < |db.events| && db.events[i].certificate == c
    ensures BornAt(db, c, i)
  {
    assert EventExplained(db, i) && RowExplained(db, c);
    var j: nat :| BornAt(db, c, j);
    SameIdSameEvent(db.events, i, j);
  }

  lemma EndingExplainsRows(db: Inventory, after: Inventory, c: CertificateId, row: Certificate, e: Event)
    requires forall d :: d in db.certs ==> RowExplained(db, d)
    requires Ends(db, after, c, row, e)
    ensures forall d :: d in after.certs ==> RowExplained(after, d)
  {
    forall d | d in after.certs ensures RowExplained(after, d) {
      if d == c {
        var i: nat :| BornAt(db, c, i);
        assert BornAt(after, c, i) && LastAt(after, c, |db.events|);
      } else {
        RowStaysExplained(db, after, d);
      }
    }
  }

  lemma FirstEventStaysExplained(db: Inventory, after: Inventory, c: CertificateId, row: Certificate, e: Event, i: nat)
    requires Ends(db, after, c, row, e)
    requires i < |db.events| && EventExplained(db, i) && BornAt(db, c, i)
    ensures EventExplained(after, i)
  {
    assert after.events[i] == db.events[i];
    if db.events[i].kind != IssuedEvent {
      var j: nat :| IsCause(db.events, i, j);
      CauseStays(db.events, after.events, i, j);
    }
  }

  lemma EndingExplainsEvents(db: Inventory, after: Inventory, c: CertificateId, row: Certificate, e: Event)
    requires ValidLog(db) && Ends(db, after, c, row, e)
    ensures forall i :: 0 <= i < |after.events| ==> EventExplained(after, i)
  {
    forall i | 0 <= i < |after.events| ensures EventExplained(after, i) {
      if i < |db.events| {
        assert EventExplained(db, i);
        if db.events[i].certificate == c {
          FirstEventOfActive(db, c, i);
          FirstEventStaysExplained(db, after, c, row, e, i);
        } else {
          EventStaysExplained(db, after, i);
        }
      }
    }
  }

  lemma EndingKeepsLog(db: Inventory, after: Inventory, c: CertificateId, row: Certificate, e: Event)
    requires ValidLog(db) && Ends(db, after, c, row, e)
    ensures ValidLog(after)
  {
    DistinctAfterAppend(db.events, e);
    KeysDistinctAfterUpdate(db, after, c, row);
    EndingExplainsRows(db, after, c, row, e);
    EndingExplainsEvents(db, after, c, row, e);
  }

  /** The last event of a row is a cause that lies in the log, no later than the row's
      last change. */
  lemma LastEventIsCause(db: Inventory, after: seq<Event>, c: CertificateId, e: Event) returns (j: nat)
    requires ValidLog(db) && c in db.certs
    requires after == db.events + [e]
    requires e.cause == Some(db.certs[c].lastEvent) && e.occurredAt >= db.certs[c].stateChangedAt
    ensures IsCause(after, |db.events|, j)
  {
    assert RowExplained(db, c);
    j :| LastAt(db, c, j);
  }

  // ----- Every call keeps the invariant -----

  lemma SucceedsStays(db: Inventory, after: Inventory, p: CertificateId, c: CertificateId)
    requires c in db.certs && Succeeds(db, p, c)
    requires p in after.certs && after.certs[p].identity == db.certs[p].identity && after.certs[p].state == CertSuperseded
    requires c in after.certs && after.certs[c].identity == db.certs[c].identity
    requires |db.events| <= |after.events| && after.events[..|db.events|] == db.events
    ensures Succeeds(after, p, c)
  {
    var i: nat, j: nat :| BornAt(db, p, i) && BornAt(db, c, j) && i < j;
    assert after.events[i] == db.events[i] && after.events[j] == db.events[j];
    assert BornAt(after, p, i) && BornAt(after, c, j);
    var k: nat :| SupersededAt(db, p, c, k);
    assert after.events[k] == db.events[k];
    assert SupersededAt(after, p, c, k);
  }

  lemma BeginningKeepsSuccession(db: Inventory, after: Inventory, c: CertificateId, row: Certificate, e: Event)
    requires ValidSuccession(db) && Begins(db, after, c, row, e) && row.identity.supersedes.None?
    ensures ValidSuccession(after)
  {
    forall d | d in after.certs && after.certs[d].identity.supersedes.Some?
      ensures Succeeds(after, after.certs[d].identity.supersedes.value, d)
    {
      SucceedsStays(db, after, db.certs[d].identity.supersedes.value, d);
    }
    SuccessorsStay(db, after);
  }

  lemma SuccessorsStay(db: Inventory, after: Inventory)
    requires ValidSuccession(db)
    requires forall d :: d in db.certs ==> d in after.certs && after.certs[d].identity == db.certs[d].identity
    ensures forall p :: p in db.certs && db.certs[p].state == CertSuperseded ==>
              exists c :: c in after.certs && after.certs[c].identity.supersedes == Some(p)
  {
    forall p | p in db.certs && db.certs[p].state == CertSuperseded
      ensures exists c :: c in after.certs && after.certs[c].identity.supersedes == Some(p)
    {
      var c :| c in db.certs && db.certs[c].identity.supersedes == Some(p);
      assert after.certs[c].identity.supersedes == Some(p);
    }
  }

  lemma EndingKeepsSuccession(db: Inventory, after: Inventory, c: CertificateId, row: Certificate, e: Event)
    requires ValidSuccession(db) && Ends(db, after, c, row, e) && row.state != CertSuperseded
    ensures ValidSuccession(after)
  {
    forall d | d in after.certs && after.certs[d].identity.supersedes.Some?
      ensures Succeeds(after, after.certs[d].identity.supersedes.value, d)
    {
      SucceedsStays(db, after, db.certs[d].identity.supersedes.value, d);
    }
    SuccessorsStay(db, after);
  }

  lemma IssueKeepsValid(db: Inventory, id: Tables, a: Actor, c: CertificateId, ev: EventId,
                        correlation: CorrelationId, f: Fields, now: int)
    requires Valid(db)
    ensures Valid(Issue(db, id, a, c, ev, correlation, f, now).0)
  {
    var after := Issue(db, id, a, c, ev, correlation, f, now).0;
    if after != db {
      var row := NewRow(a.tenant.value, f, a.subject.value, ev, correlation, None, now);
      var e := BirthEvent(a.tenant.value, c, f, a.subject.value, ev, correlation, None, now);
      assert Begins(db, after, c, row, e);
      BeginningKeepsLog(db, after, c, row, e);
      BeginningKeepsSuccession(db, after, c, row, e);
    }
  }

  lemma RevokeKeepsValid(db: Inventory, id: Tables, a: Actor, ev: EventId, correlation: CorrelationId,
                         request: RequestId, c: CertificateId, reason: RevocationReason, at: int,
                         k: IdempotencyKey, confirmation: ConfirmationId, now: int)
    requires Valid(db)
    ensures Valid(Revoke(db, id, a, ev, correlation, request, c, reason, at, k, confirmation, now).0)
  {
    var after := Revoke(db, id, a, ev, correlation, request, c, reason, at, k, confirmation, now).0;
    if after != db {
      var row := EndedRow(db.certs[c], CertRevoked, at, ev, now);
      var e := RevocationEvent(db.certs[c], c, ev, correlation, request, reason, at, k, confirmation,
                               a.subject.value, now);
      assert RowExplained(db, c);
      var j := LastEventIsCause(db, after.events, c, e);
      assert Ends(db, after, c, row, e);
      EndingKeepsLog(db, after, c, row, e);
      EndingKeepsSuccession(db, after, c, row, e);
    }
  }

  lemma ExpireKeepsValid(db: Inventory, t: TenantId, c: CertificateId, ev: EventId, correlation: CorrelationId,
                         at: int, now: int)
    requires Valid(db)
    ensures Valid(Expire(db, t, c, ev, correlation, at, now).0)
  {
    var after := Expire(db, t, c, ev, correlation, at, now).0;
    if after != db {
      var row := EndedRow(db.certs[c], CertExpired, at, ev, now);
      var e := ExpiryEvent(db.certs[c], c, ev, correlation, at, now);
      assert RowExplained(db, c);
      var j := LastEventIsCause(db, after.events, c, e);
      assert Ends(db, after, c, row, e);
      EndingKeepsLog(db, after, c, row, e);
      EndingKeepsSuccession(db, after, c, row, e);
    }
  }

  /** The two halves of a renewal, with the state between them. */
  ghost predicate Renews(db: Inventory, mid: Inventory, after: Inventory, p: CertificateId, c: CertificateId,
                         row: Certificate, birth: Event, ended: Certificate, end: Event) {
    && Begins(db, mid, c, row, birth) && Ends(mid, after, p, ended, end)
    && p in db.certs && p != c && row.identity.supersedes == Some(p)
    && ended.state == CertSuperseded && end.kind == SupersededEvent
    && end.key == row.identity.fields.key
    && SameHolder(db.certs[p].identity, row.identity)
    && db.certs[p].identity.fields.publicKey.Some?
    && db.certs[p].identity.fields.publicKey != row.identity.fields.publicKey
  }

  lemma RenewalLinks(db: Inventory, mid: Inventory, after: Inventory, p: CertificateId, c: CertificateId,
                     row: Certificate, birth: Event, ended: Certificate, end: Event)
    requires ValidLog(db) && Renews(db, mid, after, p, c, row, birth, ended, end)
    ensures Succeeds(after, p, c)
  {
    var n := |db.events|;
    assert RowExplained(db, p);
    var i: nat :| BornAt(db, p, i);
    assert after.events[i] == db.events[i] && after.events[n] == birth && after.events[n + 1] == end;
    assert BornAt(after, p, i) && BornAt(after, c, n);
    assert SupersededAt(after, p, c, n + 1);
  }

  /** Nothing renews an active certificate before this renewal. */
  lemma ActiveHasNoSuccessor(db: Inventory, p: CertificateId)
    requires ValidSuccession(db) && p in db.certs && db.certs[p].state == CertActive
    ensures forall d :: d in db.certs ==> db.certs[d].identity.supersedes != Some(p)
  {
    forall d | d in db.certs ensures db.certs[d].identity.supersedes != Some(p) {
      assert db.certs[d].identity.supersedes == Some(p) ==> Succeeds(db, p, d);
    }
  }

  lemma RenewalKeepsLinks(db: Inventory, mid: Inventory, after: Inventory, p: CertificateId, c: CertificateId,
                          row: Certificate, birth: Event, ended: Certificate, end: Event, d: CertificateId)
    requires Valid(db) && Renews(db, mid, after, p, c, row, birth, ended, end)
    requires d in db.certs && db.certs[d].identity.supersedes.Some?
    ensures Succeeds(after, db.certs[d].identity.supersedes.value, d)
  {
    var q := db.certs[d].identity.supersedes.value;
    assert Succeeds(db, q, d);
    assert after.events[..|db.events|] == db.events;
    SucceedsStays(db, after, q, d);
  }

  lemma RenewalKeepsOneSuccessor(db: Inventory, mid: Inventory, after: Inventory, p: CertificateId, c: CertificateId,
                                 row: Certificate, birth: Event, ended: Certificate, end: Event)
    requires ValidSuccession(db) && Renews(db, mid, after, p, c, row, birth, ended, end)
    ensures OneSuccessor(after)
  {
    ActiveHasNoSuccessor(db, p);
  }

  lemma RenewalKeepsSupersededRenewed(db: Inventory, mid: Inventory, after: Inventory, p: CertificateId, c: CertificateId,
                                      row: Certificate, birth: Event, ended: Certificate, end: Event)
    requires ValidSuccession(db) && Renews(db, mid, after, p, c, row, birth, ended, end)
    ensures SupersededIsRenewed(after)
  {
    SuccessorsStay(db, after);
    assert after.certs[c].identity.supersedes == Some(p);
  }

  lemma RenewalKeepsSuccession(db: Inventory, mid: Inventory, after: Inventory, p: CertificateId, c: CertificateId,
                               row: Certificate, birth: Event, ended: Certificate, end: Event)
    requires Valid(db) && Renews(db, mid, after, p, c, row, birth, ended, end)
    ensures ValidSuccession(after)
  {
    RenewalKeepsOneSuccessor(db, mid, after, p, c, row, birth, ended, end);
    RenewalKeepsSupersededRenewed(db, mid, after, p, c, row, birth, ended, end);
    RenewalLinks(db, mid, after, p, c, row, birth, ended, end);
    forall d | d in after.certs && after.certs[d].identity.supersedes.Some?
      ensures Succeeds(after, after.certs[d].identity.supersedes.value, d)
    {
      if d != c {
        RenewalKeepsLinks(db, mid, after, p, c, row, birth, ended, end, d);
      }
    }
  }

  lemma RenewKeepsValid(db: Inventory, id: Tables, a: Actor, c: CertificateId, renewedEv: EventId,
                        supersededEv: EventId, correlation: CorrelationId, predecessor: Option<CertificateId>, f: Fields,
                        now: int)
    requires Valid(db)
    ensures Valid(Renew(db, id, a, c, renewedEv, supersededEv, correlation, predecessor, f, now).0)
  {
    var after := Renew(db, id, a, c, renewedEv, supersededEv, correlation, predecessor, f, now).0;
    if after != db {
      var p := predecessor.value;
      var t, author, former := a.tenant.value, a.subject.value, db.certs[p];
      var row := NewRow(t, f, author, renewedEv, correlation, Some(p), now);
      var birth := BirthEvent(t, c, f, author, renewedEv, correlation, Some(former.lastEvent), now);
      var ended := EndedRow(former, CertSuperseded, f.issuedAt, supersededEv, now);
      var end := SupersessionEvent(t, p, former.identity.fields, f, author, supersededEv, correlation, renewedEv, now);
      var mid := Inventory(db.certs[c := row], db.events + [birth]);
      assert RowExplained(db, p);
      var j := LastEventIsCause(db, mid.events, p, birth);
      assert Begins(db, mid, c, row, birth);
      assert IsCause(after.events, |mid.events|, |db.events|);
      assert Ends(mid, after, p, ended, end);
      BeginningKeepsLog(db, mid, c, row, birth);
      EndingKeepsLog(mid, after, p, ended, end);
      RenewalKeepsSuccession(db, mid, after, p, c, row, birth, ended, end);
    }
  }

  lemma CallKeepsValid(db: Inventory, call: Call)
    requires Valid(db)
    ensures Valid(Serve(db, call))
  {
    match call {
      case IssueCall(id, a, c, ev, cor, f, now) => IssueKeepsValid(db, id, a, c, ev, cor, f, now);
      case RenewCall(id, a, c, ev, ev', cor, p, f, now) => RenewKeepsValid(db, id, a, c, ev, ev', cor, p, f, now);
      case RevokeCall(id, a, ev, cor, req, c, r, at, k, conf, now) =>
        RevokeKeepsValid(db, id, a, ev, cor, req, c, r, at, k, conf, now);
      case ExpireCall(t, c, ev, cor, at, now) => ExpireKeepsValid(db, t, c, ev, cor, at, now);
    }
  }

  /** Every run from a valid inventory, in particular from the empty one, ends in one. */
  lemma {:induction false} RunKeepsValid(db: Inventory, calls: seq<Call>)
    requires Valid(db)
    ensures Valid(ServeAll(db, calls))
    decreases |calls|
  {
    if |calls| != 0 {
      CallKeepsValid(db, calls[0]);
      RunKeepsValid(Serve(db, calls[0]), calls[1..]);
    }
  }

  // ----- Causation -----

  ghost function CauseOf(db: Inventory, i: nat): (j: nat)
    requires ValidLog(db) && i < |db.events| && db.events[i].cause.Some?
    ensures IsCause(db.events, i, j)
  {
    assert EventExplained(db, i);
    var j: nat :| IsCause(db.events, i, j);
    j
  }

  /** The events met when causes are followed from event i. */
  ghost function History(db: Inventory, i: nat): (path: seq<nat>)
    requires ValidLog(db) && i < |db.events|
    ensures |path| > 0 && path[0] == i
    decreases i
  {
    if db.events[i].cause.None? then [i] else [i] + History(db, CauseOf(db, i))
  }

  /** A path along causes: every event on it names the next as its cause, the next lies
      earlier in the log and is not later in time, and the last is an issuance. */
  ghost predicate CausalPath(events: seq<Event>, path: seq<nat>) {
    && |path| > 0
    && (forall k :: 0 <= k < |path| ==> path[k] < |events|)
    && (forall k :: 0 <= k < |path| - 1 ==> IsCause(events, path[k], path[k + 1]))
    && events[path[|path| - 1]].kind == IssuedEvent
  }

  /** From every event of every reachable inventory, causes lead to an issuance. */
  lemma {:induction false} CausesReachIssuance(db: Inventory, i: nat)
    requires ValidLog(db) && i < |db.events|
    ensures CausalPath(db.events, History(db, i))
    decreases i
  {
    assert EventExplained(db, i);
    if db.events[i].cause.Some? {
      CausesReachIssuance(db, CauseOf(db, i));
    }
  }

  /** A causal path never meets an event twice, and time never increases along it. */
  lemma {:induction false} CausalPathHasNoCycle(events: seq<Event>, path: seq<nat>, k: nat, l: nat)
    requires EventsDistinct(events) && CausalPath(events, path) && k < l < |path|
    ensures path[l] < path[k] && events[path[l]].id != events[path[k]].id
    ensures events[path[l]].occurredAt <= events[path[k]].occurredAt
    decreases l
  {
    assert IsCause(events, path[l - 1], path[l]);
    if k < l - 1 {
      CausalPathHasNoCycle(events, path, k, l - 1);
    }
    assert EventsDiffer(events[path[l]], events[path[k]]);
  }

  /** The named cause is one event only, so the path is the only one. */
  lemma CauseIsUnique(events: seq<Event>, i: nat, j: nat, j': nat)
    requires EventsDistinct(events) && IsCause(events, i, j)
    requires j' < |events| && events[i].cause == Some(events[j'].id)
    ensures j == j'
  {
    SameIdSameEvent(events, j, j');
  }
}
