/** Who stores, reads, deletes and sweeps encrypted evidence and what is left, said of the rows
    alone. */
module EvidenceVaultOutcomes {
  import opened Sql
  import opened Tenancy
  import opened TenancyOutcomes
  import opened KeyRegistry
  import opened ReplayGuard
  import opened EvidenceVault
  import opened EvidenceVaultProofs

  // ----- Storing -----

  /** The payload meets the CHECKs: what is given has its format and size. */
  predicate PayloadFits(p: Sealed) {
    && p.format == 1 && HashFormat(p.canonicalHash) && 1 <= p.canonicalLength <= 65536
    && (p.keyId.Some? ==> KeyIdFormat(p.keyId.value))
    && (p.iv.Some? ==> |p.iv.value| == 12) && (p.tag.Some? ==> |p.tag.value| == 16)
    && (p.ciphertext.Some? ==> |p.ciphertext.value| == p.canonicalLength)
  }

  lemma ReceiptIsFound(receipts: seq<Receipt>, x: Receipt)
    requires KeysDistinct(receipts) && x in receipts
    ensures ReceiptFor(receipts, (x.tenant, x.event)) == Some(x)
  {
    var y := ReceiptFor(receipts, ReceiptKey(x)).value;
    var i :| 0 <= i < |receipts| && receipts[i] == x;
    var j :| 0 <= j < |receipts| && receipts[j] == y;
  }

  /** Evidence is stored if and only if its receipt is there, no record is, and the payload and
      the receipt's hash meet the CHECKs; the record is kept for 30 days after acceptance. */
  lemma StoreIff(v: Vault, x: Receipt, p: Sealed)
    requires KeysDistinct(v.guard.receipts) && x in v.guard.receipts
    ensures var k := (x.tenant, x.event);
            StoreEvidence(v, k, p) ==
            if k !in v.records && PayloadFits(p) && HashFormat(x.contentHash)
            then Some(Vault(v.guard,
                            v.records[k := Record(x.subject, x.source, x.contentHash, p.format, p.canonicalHash,
                                                  p.canonicalLength, x.acceptedAt + 2_592_000_000_000, x.acceptedAt,
                                                  Encrypted(p.keyId, p.iv, p.tag, p.ciphertext))]))
            else None
  {
    ReceiptIsFound(v.guard.receipts, x);
  }

  lemma StoreNeedsReceipt(v: Vault, k: EvidenceKey, p: Sealed)
    requires forall x :: x in v.guard.receipts ==> (x.tenant, x.event) != k
    ensures StoreEvidence(v, k, p).None?
  {
  }

  // ----- Reading -----

  /** A record is read if and only if the reader acts for the tenant, the record is neither
      deleted nor past its deadline, and the reader is its subject or an administrator. */
  lemma RetrieveIff(v: Vault, db: Tables, t: TenantId, reader: SubjectId, event: EvidenceId, now: int)
    ensures Retrieve(v, db, Actor(Some(t), Some(reader)), event, now) ==
            if Acts(db, t, reader) && (t, event) in v.records && !v.records[(t, event)].content.Tombstone?
               && now < v.records[(t, event)].retainedUntil
               && (v.records[(t, event)].subject == reader || Administers(db, t, reader))
            then Some(v.records[(t, event)]) else None
  {
    ActorRightsIff(db, Actor(Some(t), Some(reader)));
  }

  // ----- Deleting -----

  /** A record is deleted if and only if an administrator gives a trimmed reason of 1 to 160
      characters and the record is not deleted yet; it keeps everything but its ciphertext. */
  lemma DeleteIff(v: Vault, db: Tables, t: TenantId, author: SubjectId, event: EvidenceId, reason: string, now: int)
    ensures var (after, deleted) := Delete(v, db, Actor(Some(t), Some(author)), event, reason, now);
            && (deleted <==> Administers(db, t, author)
                             && 1 <= |reason| <= 160 && reason[0] != ' ' && reason[|reason| - 1] != ' '
                             && (t, event) in v.records && !v.records[(t, event)].content.Tombstone?)
            && (!deleted ==> after == v)
            && (deleted ==>
                  var d := v.records[(t, event)];
                  after == Vault(v.guard, v.records[(t, event) :=
                    Record(d.subject, d.source, d.contentHash, d.format, d.canonicalHash, d.canonicalLength,
                           d.retainedUntil, d.createdAt, Tombstone(now, reason))]))
  {
    ActorRightsIff(db, Actor(Some(t), Some(author)));
  }

  /** The sweep of an administrator deletes the records of the tenant that are past their
      deadline, and no others, and counts them. */
  lemma PurgeIff(v: Vault, db: Tables, t: TenantId, author: SubjectId, now: int)
    ensures var (after, n) := Purge(v, db, Actor(Some(t), Some(author)), now);
            var expired := set k | k in v.records && k.0 == t && !v.records[k].content.Tombstone? && v.records[k].retainedUntil <= now;
            && after.guard == v.guard
            && n == (if Administers(db, t, author) then |expired| else 0)
            && after.records.Keys == v.records.Keys
            && forall k :: k in v.records ==>
                 var d := v.records[k];
                 after.records[k] ==
                 if Administers(db, t, author) && k in expired
                 then Record(d.subject, d.source, d.contentHash, d.format, d.canonicalHash, d.canonicalLength,
                             d.retainedUntil, d.createdAt, Tombstone(now, "RETENTION_EXPIRED"))
                 else d
  {
    ActorRightsIff(db, Actor(Some(t), Some(author)));
    var expired := set k | k in v.records && k.0 == t && !v.records[k].content.Tombstone? && v.records[k].retainedUntil <= now;
    assert expired == DueFor(v.records, t, now);
  }

  /** Without a bound tenant and subject nothing is read or changed. */
  lemma UnboundActorReadsNothing(v: Vault, db: Tables, a: Actor, event: EvidenceId, reason: string, now: int)
    requires a.tenant.None? || a.subject.None?
    ensures Retrieve(v, db, a, event, now).None? && Delete(v, db, a, event, reason, now) == (v, false)
            && Purge(v, db, a, now) == (v, 0)
  {
  }
}
