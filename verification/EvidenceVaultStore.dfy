/** The functions of migration 017 as they run on the table of encrypted evidence. */
module EvidenceVaultStore {
  import opened Sql
  import opened Tenancy
  import opened KeyRegistry
  import opened ReplayGuard
  import opened ReplayGuardStore
  import opened EvidenceVault
  import opened EvidenceVaultProofs

  class VaultStore {
    const guard: GuardStore
    var records: map<EvidenceKey, Record>

    constructor (guard: GuardStore)
      requires guard.View() == NO_EVIDENCE
      ensures this.guard == guard && View() == EMPTY_VAULT && Paired(View())
    {
      this.guard := guard;
      records := map[];
    }

    function View(): Vault
      reads this, guard
    {
      Vault(guard.View(), records)
    }

    /** SELECT ... INTO STRICT: the row with the key, or an exception. */
    method FindReceipt(k: EvidenceKey) returns (receipt: Option<Receipt>)
      requires Backed(View())
      ensures receipt == ReceiptFor(guard.receipts, k)
    {
      var receipts := guard.receipts;
      for i := 0 to |receipts|
        invariant forall j :: 0 <= j < i ==> ReceiptKey(receipts[j]) != k
      {
        if ReceiptKey(receipts[i]) == k {
          assert ReceiptFor(receipts, k).Some?;
          return Some(receipts[i]);
        }
      }
      return None;
    }

    /** `trust.store_encrypted_evidence`; false when it raises */
    method StoreEncrypted(k: EvidenceKey, p: Sealed) returns (stored: bool)
      requires Backed(View())
      modifies this`records
      ensures Backed(View())
      ensures stored == StoreEvidence(old(View()), k, p).Some?
      ensures View() == if stored then StoreEvidence(old(View()), k, p).value else old(View())
    {
      if StoreEvidence(View(), k, p).Some? {
        StoreStaysBacked(View(), k, p);
      }
      var receipt := FindReceipt(k);
      if receipt.None? {
        return false;
      }
      var d := NewRecord(receipt.value, p);
      if k in records || !RecordChecks(d) {
        return false;
      }
      records := records[k := d];
      return true;
    }

    /** `trust.delete_encrypted_evidence` */
    method DeleteEncrypted(db: Tables, a: Actor, event: EvidenceId, reason: string, now: int) returns (found: bool)
      requires Backed(View())
      modifies this`records
      ensures Backed(View())
      ensures (View(), found) == Delete(old(View()), db, a, event, reason, now)
    {
      DeleteStaysBacked(View(), db, a, event, reason, now);
      if !ActorIsAdmin(db, a) || !DeletionReason(reason) {
        return false;
      }
      var k := (a.tenant.value, event);
      if k !in records || !records[k].content.Encrypted? {
        return false;
      }
      records := records[k := Buried(records[k], reason, now)];
      return true;
    }

    /** The UPDATE of the sweep, row after row, with ROW_COUNT. */
    static method SweepRows(rows: map<EvidenceKey, Record>, t: TenantId, now: int)
      returns (swept: map<EvidenceKey, Record>, purged: int)
      ensures swept == Swept(rows, t, now)
      ensures purged == |DueFor(rows, t, now)|
    {
      var rest := DueFor(rows, t, now);
      swept, purged := rows, 0;
      while rest != {}
        invariant rest <= DueFor(rows, t, now)
        invariant purged + |rest| == |DueFor(rows, t, now)|
        invariant swept.Keys == rows.Keys
        invariant forall k :: k in rows && k !in rest ==> swept[k] == Swept(rows, t, now)[k]
        invariant forall k :: k in rest ==> swept[k] == rows[k]
        decreases |rest|
      {
        var k :| k in rest;
        swept := swept[k := Buried(swept[k], "RETENTION_EXPIRED", now)];
        rest := rest - {k};
        purged := purged + 1;
      }
    }

    /** `trust.purge_expired_evidence` */
    method PurgeExpired(db: Tables, a: Actor, now: int) returns (purged: int)
      requires Backed(View())
      modifies this`records
      ensures Backed(View())
      ensures (View(), purged) == Purge(old(View()), db, a, now)
    {
      PurgeStaysBacked(View(), db, a, now);
      if !ActorIsAdmin(db, a) {
        return 0;
      }
      records, purged := SweepRows(records, a.tenant.value, now);
    }

    /** The deferred trigger on the receipts inserted since `from`. */
    method RequireStorage(from: nat) returns (ok: bool)
      requires from <= |guard.receipts|
      ensures ok <==> forall i :: from <= i < |guard.receipts| ==> ReceiptKey(guard.receipts[i]) in records
    {
      for i := from to |guard.receipts|
        invariant forall j :: from <= j < i ==> ReceiptKey(guard.receipts[j]) in records
      {
        if ReceiptKey(guard.receipts[i]) !in records {
          return false;
        }
      }
      return true;
    }
  }
}
