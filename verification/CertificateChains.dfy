/** Renewal chains: following `supersedes_certificate_id` backwards ends at a certificate
    that renewed nothing, and the certificates that share that root form one line. */
module CertificateChains {
  import opened Sql
  import opened Tenancy
  import opened Certificates
  import opened CertificateHistory
  import opened CertificateRetries

  /** The position of the event that created the certificate. */
  ghost function BirthIndex(db: Inventory, c: CertificateId): (i: nat)
    requires ValidLog(db) && c in db.certs
    ensures BornAt(db, c, i)
  {
    assert RowExplained(db, c);
    var i: nat :| BornAt(db, c, i);
    i
  }

  ghost function Predecessor(db: Inventory, c: CertificateId): (p: CertificateId)
    requires Valid(db) && c in db.certs && db.certs[c].identity.supersedes.Some?
    ensures Succeeds(db, p, c) && db.certs[c].identity.supersedes == Some(p)
    ensures BirthIndex(db, p) < BirthIndex(db, c)
  {
    var p := db.certs[c].identity.supersedes.value;
    BirthOrder(db, p, c);
    p
  }

  lemma BirthOrder(db: Inventory, p: CertificateId, c: CertificateId)
    requires ValidLog(db) && c in db.certs && Succeeds(db, p, c)
    ensures BirthIndex(db, p) < BirthIndex(db, c)
  {
    var i: nat, j: nat :| BornAt(db, p, i) && BornAt(db, c, j) && i < j;
    SameIdSameEvent(db.events, i, BirthIndex(db, p));
    SameIdSameEvent(db.events, j, BirthIndex(db, c));
  }

  /** The certificate, the one it renewed, and so on back. */
  ghost function Line(db: Inventory, c: CertificateId): seq<CertificateId>
    requires Valid(db) && c in db.certs
    decreases BirthIndex(db, c)
  {
    if db.certs[c].identity.supersedes.None? then [c] else [c] + Line(db, Predecessor(db, c))
  }

  ghost function Root(db: Inventory, c: CertificateId): (r: CertificateId)
    requires Valid(db) && c in db.certs
    ensures r in db.certs && db.certs[r].identity.supersedes.None?
    decreases BirthIndex(db, c)
  {
    if db.certs[c].identity.supersedes.None? then c else Root(db, Predecessor(db, c))
  }

  lemma {:induction false} RootEndsLine(db: Inventory, c: CertificateId)
    requires Valid(db) && c in db.certs
    ensures Root(db, c) in Line(db, c)
    decreases BirthIndex(db, c)
  {
    if db.certs[c].identity.supersedes.Some? {
      RootEndsLine(db, Predecessor(db, c));
    }
  }

  /** Every older certificate of a line has its successor on the line. */
  lemma {:induction false} OlderHasSuccessorOnLine(db: Inventory, c: CertificateId, p: CertificateId)
    requires Valid(db) && c in db.certs && p in Line(db, c) && p != c
    ensures exists d :: d in Line(db, c) && d in db.certs && db.certs[d].identity.supersedes == Some(p)
    decreases BirthIndex(db, c)
  {
    var q := Predecessor(db, c);
    if q == p {
      assert c in Line(db, c);
    } else {
      OlderHasSuccessorOnLine(db, q, p);
      var d :| d in Line(db, q) && d in db.certs && db.certs[d].identity.supersedes == Some(p);
      assert d in Line(db, c);
    }
  }

  /** Two certificates with the same root lie on one line, although no UNIQUE constraint
      keeps a certificate from being superseded twice. */
  lemma {:induction false} ChainsAreLinear(db: Inventory, c: CertificateId, d: CertificateId)
    requires Valid(db) && c in db.certs && d in db.certs && Root(db, c) == Root(db, d)
    ensures c in Line(db, d) || d in Line(db, c)
    decreases BirthIndex(db, d)
  {
    if c == d {
      assert c in Line(db, d);
    } else if db.certs[d].identity.supersedes.None? {
      RootEndsLine(db, c);
    } else {
      var q := Predecessor(db, d);
      ChainsAreLinear(db, c, q);
      if q in Line(db, c) {
        if q == c {
          assert c in Line(db, q);
        } else {
          OlderHasSuccessorOnLine(db, c, q);
          var x :| x in Line(db, c) && x in db.certs && db.certs[x].identity.supersedes == Some(q);
          assert SamePredecessor(db.certs[x].identity, db.certs[d].identity);
        }
      }
    }
  }

  /** Along a line the tenant, the subject and the profile stay the same, and every
      certificate behind the newest is superseded. */
  lemma {:induction false} LineHasOneHolder(db: Inventory, c: CertificateId, p: CertificateId)
    requires Valid(db) && c in db.certs && p in Line(db, c)
    ensures p in db.certs && SameHolder(db.certs[p].identity, db.certs[c].identity)
    ensures p != c ==> db.certs[p].state == CertSuperseded
    decreases BirthIndex(db, c)
  {
    if p != c {
      var q := Predecessor(db, c);
      LineHasOneHolder(db, q, p);
    }
  }

  /** Certificates of one root with an active one among them: all others are older and
      superseded, so at most one certificate of a chain is active, the newest. */
  lemma OnlyTheNewestIsActive(db: Inventory, c: CertificateId, d: CertificateId)
    requires Valid(db) && c in db.certs && d in db.certs && Root(db, c) == Root(db, d)
    requires db.certs[c].state == CertActive && d != c
    ensures d in Line(db, c) && db.certs[d].state == CertSuperseded
  {
    ChainsAreLinear(db, c, d);
    if c in Line(db, d) {
      LineHasOneHolder(db, d, c);
    } else {
      LineHasOneHolder(db, c, d);
    }
  }

  /** Exactly the superseded certificates have a successor, and only one. */
  lemma SupersededIffOneSuccessor(db: Inventory, p: CertificateId)
    requires Valid(db) && p in db.certs
    ensures db.certs[p].state == CertSuperseded <==> exists c :: c in db.certs && db.certs[c].identity.supersedes == Some(p)
    ensures forall c, d ::
              (c in db.certs && d in db.certs && db.certs[c].identity.supersedes == Some(p)
               && db.certs[d].identity.supersedes == Some(p)) ==> c == d
    ensures forall c :: c in db.certs && db.certs[c].identity.supersedes == Some(p) ==>
              (KeysCompared(db, p, c).False? <==> db.certs[c].identity.fields.publicKey.Some?)
  {
    forall c | c in db.certs && db.certs[c].identity.supersedes == Some(p)
      ensures db.certs[p].state == CertSuperseded
      ensures KeysCompared(db, p, c).False? <==> db.certs[c].identity.fields.publicKey.Some?
    {
      AdjacentKeysDifferIff(db, c, p);
    }
    forall c, d | c in db.certs && d in db.certs && db.certs[c].identity.supersedes == Some(p)
                  && db.certs[d].identity.supersedes == Some(p)
      ensures c == d
    {
      assert SamePredecessor(db.certs[c].identity, db.certs[d].identity);
    }
  }

  // ----- Adjacent keys -----

  /** SQL `=` on the key digests of two certificates: known to differ is `False`. */
  function KeysCompared(db: Inventory, p: CertificateId, c: CertificateId): Truth
    requires p in db.certs && c in db.certs
  {
    Equal(db.certs[p].identity.fields.publicKey, db.certs[c].identity.fields.publicKey)
  }

  /** A certificate and its successor are known to have different keys if and only if the
      successor has a key: the comparison of a renewal lets an unknown key pass. */
  lemma AdjacentKeysDifferIff(db: Inventory, c: CertificateId, p: CertificateId)
    requires Valid(db) && c in db.certs && db.certs[c].identity.supersedes == Some(p)
    ensures p in db.certs && db.certs[p].state == CertSuperseded && db.certs[p].identity.fields.publicKey.Some?
    ensures KeysCompared(db, p, c).False? <==> db.certs[c].identity.fields.publicKey.Some?
    ensures KeysCompared(db, p, c).Unknown? <==> db.certs[c].identity.fields.publicKey.None?
  {
    assert Succeeds(db, p, c);
  }

  /** The same over every run, for every pair of neighbours that it ever makes. */
  lemma AdjacentKeysDifferIffInEveryRun(calls: seq<Call>, c: CertificateId, p: CertificateId)
    requires c in ServeAll(EMPTY, calls).certs && ServeAll(EMPTY, calls).certs[c].identity.supersedes == Some(p)
    ensures var db := ServeAll(EMPTY, calls);
            p in db.certs && (KeysCompared(db, p, c).False? <==> db.certs[c].identity.fields.publicKey.Some?)
  {
    RunKeepsValid(EMPTY, calls);
    AdjacentKeysDifferIff(ServeAll(EMPTY, calls), c, p);
  }

  /** For a renewal that succeeds, first time or retried, the condition is one on its
      argument: predecessor and successor are known to differ in their keys if and only if
      the caller gave a key. */
  lemma RenewalChangesKeyIff(db: Inventory, id: Tables, a: Actor, c: CertificateId, ev: EventId, ev': EventId,
                             correlation: CorrelationId, p: CertificateId, f: Fields, now: int)
    requires Valid(db) && Renew(db, id, a, c, ev, ev', correlation, Some(p), f, now).1.Ok?
    ensures var (after, r) := Renew(db, id, a, c, ev, ev', correlation, Some(p), f, now);
            var x := r.reply.certificate;
            x in after.certs && p in after.certs && (KeysCompared(after, p, x).False? <==> f.publicKey.Some?)
  {
    var (after, r) := Renew(db, id, a, c, ev, ev', correlation, Some(p), f, now);
    RenewalReply(db, id, a, c, ev, ev', correlation, Some(p), f, now);
    RenewKeepsValid(db, id, a, c, ev, ev', correlation, Some(p), f, now);
    AdjacentKeysDifferIff(after, r.reply.certificate, p);
  }

  /** No renewal of a certificate without a key ever succeeds or changes anything, and in no
      later state does it have a successor. */
  lemma KeylessRenewalIsTheLast(db: Inventory, calls: seq<Call>, p: CertificateId, id: Tables, a: Actor, c: CertificateId,
                                ev: EventId, ev': EventId, correlation: CorrelationId, f: Fields, now: int)
    requires Valid(db) && p in db.certs && db.certs[p].identity.fields.publicKey.None?
    ensures var later := ServeAll(db, calls);
            && (forall d :: d in later.certs ==> later.certs[d].identity.supersedes != Some(p))
            && !Renew(later, id, a, c, ev, ev', correlation, Some(p), f, now).1.Ok?
            && Renew(later, id, a, c, ev, ev', correlation, Some(p), f, now).0 == later
  {
    var later := ServeAll(db, calls);
    RunKeepsValid(db, calls);
    RunExtends(db, calls);
    assert later.certs[p].identity == db.certs[p].identity;
    forall d | d in later.certs && later.certs[d].identity.supersedes.Some?
      ensures later.certs[d].identity.supersedes.value != p
    {
      AdjacentKeysDifferIff(later, d, later.certs[d].identity.supersedes.value);
    }
  }

  // ----- A run that makes a keyless successor -----

  /** One tenant, one subject that is its administrator, one active issuer. */
  const ONE_ADMIN: Tables := Tables(map[0 := Tenant(Active, 1, None)], map[0 := RowActive], {}, map[(0, 0) := RowActive],
                                    {(0, 0, TenantAdmin)}, map[(0, 0) := CfgActive], map[], [])
  const ADMIN: Actor := Actor(Some(0), Some(0))

  const FIRST_FIELDS: Fields := Fields(0, 0, 0, 0, 0, 0, Some(0), EcdsaP256Key, 0, 4 * SECOND, 0, ClientKey("first"))
  const KEYLESS_FIELDS: Fields := Fields(1, 0, 0, 0, 1, 1, None, EcdsaP256Key, 3 * SECOND, 8 * SECOND, 3 * SECOND,
                                         ClientKey("second"))

  const ISSUE_FIRST: Call := IssueCall(ONE_ADMIN, ADMIN, 0, 0, 0, FIRST_FIELDS, 0)
  const RENEW_KEYLESS: Call := RenewCall(ONE_ADMIN, ADMIN, 1, 1, 2, 0, Some(0), KEYLESS_FIELDS, 3 * SECOND)

  lemma FirstIsIssued()
    ensures var db := Serve(EMPTY, ISSUE_FIRST);
            db == Inventory(map[0 := NewRow(0, FIRST_FIELDS, 0, 0, 0, None, 0)],
                            [BirthEvent(0, 0, FIRST_FIELDS, 0, 0, 0, None, 0)])
  {
  }

  lemma KeylessIsRenewed(db: Inventory)
    requires db == Inventory(map[0 := NewRow(0, FIRST_FIELDS, 0, 0, 0, None, 0)],
                             [BirthEvent(0, 0, FIRST_FIELDS, 0, 0, 0, None, 0)])
    ensures var after := Serve(db, RENEW_KEYLESS);
            && 1 in after.certs && after.certs[1].identity.supersedes == Some(0) && after.certs[1].state == CertActive
            && after.certs[1].identity.fields == KEYLESS_FIELDS
  {
    assert forall k, c :: HasKey(db, 0, k, c) ==> k == ClientKey("first");
    assert "first"[0] != "second"[0];
    assert CertificateByKey(db, 0, KEYLESS_FIELDS.key).None?;
    assert MayRenew(db, 0, 0, KEYLESS_FIELDS);
  }

  /** The claim that adjacent keys are known to differ fails on this run: issue with a key,
      renew without one. The successor is active and no call will ever renew it. */
  lemma KeylessRenewalRun(id: Tables, a: Actor, c: CertificateId, ev: EventId, ev': EventId, correlation: CorrelationId,
                          f: Fields, now: int)
    ensures var db := ServeAll(EMPTY, [ISSUE_FIRST, RENEW_KEYLESS]);
            && 0 in db.certs && 1 in db.certs
            && db.certs[1].identity.supersedes == Some(0) && db.certs[1].state == CertActive
            && KeysCompared(db, 0, 1).Unknown?
            && !Renew(db, id, a, c, ev, ev', correlation, Some(1), f, now).1.Ok?
            && (a.tenant.None? || CertificateByKey(db, a.tenant.value, f.key).None? ==>
                  Renew(db, id, a, c, ev, ev', correlation, Some(1), f, now) == (db, CallDenied))
  {
    var calls := [ISSUE_FIRST, RENEW_KEYLESS];
    var first := Serve(EMPTY, ISSUE_FIRST);
    FirstIsIssued();
    KeylessIsRenewed(first);
    assert calls[1..] == [RENEW_KEYLESS] && calls[1..][1..] == [];
    var db := Serve(first, RENEW_KEYLESS);
    assert ServeAll(first, calls[1..]) == ServeAll(db, []);
    assert ServeAll(EMPTY, calls) == db;
    RunKeepsValid(EMPTY, calls);
    AdjacentKeysDifferIff(db, 1, 0);
    assert ServeAll(db, []) == db;
    KeylessRenewalIsTheLast(db, [], 1, id, a, c, ev, ev', correlation, f, now);
  }

  // ----- Runs from the first issuance -----

  lemma FirstRunIsIssued()
    ensures ServeAll(EMPTY, [ISSUE_FIRST]) == Serve(EMPTY, ISSUE_FIRST)
    ensures Serve(EMPTY, ISSUE_FIRST) == Inventory(map[0 := NewRow(0, FIRST_FIELDS, 0, 0, 0, None, 0)],
                                                   [BirthEvent(0, 0, FIRST_FIELDS, 0, 0, 0, None, 0)])
  {
    FirstIsIssued();
    assert [ISSUE_FIRST][1..] == [];
    assert ServeAll(Serve(EMPTY, ISSUE_FIRST), []) == Serve(EMPTY, ISSUE_FIRST);
  }

  /** The lookups of a renewal retry fail on this run: issue, then renew with the same fields
      and key and a NULL predecessor. The reply names no event, and the state of a
      predecessor that does not exist. */
  lemma NullPredecessorRun(c: CertificateId, ev: EventId, ev': EventId, correlation: CorrelationId, now: int)
    requires ev != ev'
    ensures var db := ServeAll(EMPTY, [ISSUE_FIRST]);
            Renew(db, ONE_ADMIN, ADMIN, c, ev, ev', correlation, None, FIRST_FIELDS, now)
            == (db, Ok(Renewed(0, None, None, CertActive, CertSuperseded)))
  {
    var db := ServeAll(EMPTY, [ISSUE_FIRST]);
    FirstRunIsIssued();
    RunKeepsValid(EMPTY, [ISSUE_FIRST]);
    KeyFinds(db, 0, FIRST_FIELDS.key, 0);
    NullRenewalReply(db, ONE_ADMIN, ADMIN, c, ev, ev', correlation, FIRST_FIELDS, now);
  }

  /** A revocation inside the two seconds of skew, a microsecond ahead of the clock, is
      permitted and yet rejected. */
  lemma SkewedRevocationRun(ev: EventId, correlation: CorrelationId, request: RequestId, reason: RevocationReason,
                            confirmation: ConfirmationId)
    ensures var db := ServeAll(EMPTY, [ISSUE_FIRST]);
            && MayRevoke(db, ONE_ADMIN, ADMIN, 0, SECOND + 1, SECOND)
            && Revoke(db, ONE_ADMIN, ADMIN, ev, correlation, request, 0, reason, SECOND + 1, ClientKey("revoke"),
                      confirmation, SECOND) == (db, RowRejected)
  {
    var db := ServeAll(EMPTY, [ISSUE_FIRST]);
    FirstRunIsIssued();
    assert EventByKey(db, 0, ClientKey("revoke"), RevokedEvent).None?;
    SkewAllowanceIsVoid(db, ONE_ADMIN, ADMIN, ev, correlation, request, 0, reason, SECOND + 1, ClientKey("revoke"),
                        confirmation, SECOND);
  }
}
