/** Receipts and encrypted records stay in step, and what is deleted stays deleted. */
module EvidenceVaultProofs {
  import opened Sql
  import opened Tenancy
  import opened KeyRegistry
  import opened ReplayGuard
  import opened EvidenceVault

  // ----- Receipts by key -----

  /** The primary key of the receipts. */
  predicate KeysDistinct(receipts: seq<Receipt>) {
    forall i, j :: 0 <= i < j < |receipts| ==> ReceiptKey(receipts[i]) != ReceiptKey(receipts[j])
  }

  lemma ReceiptForAppend(receipts: seq<Receipt>, x: Receipt, k: EvidenceKey)
    ensures ReceiptFor(receipts + [x], k) == if ReceiptKey(x) == k then Some(x) else ReceiptFor(receipts, k)
  {
    assert (receipts + [x])[..|receipts|] == receipts;
  }

  // ----- Invariants -----

  /** What was copied from the receipt and what was computed from it. */
  predicate Matches(x: Receipt, d: Record) {
    && d.subject == x.subject && d.source == x.source && d.contentHash == x.contentHash
    && d.createdAt == x.acceptedAt && d.retainedUntil == x.acceptedAt + RETENTION
  }

  /** Inside a transaction: every record has its receipt. */
  predicate Backed(v: Vault) {
    && KeysDistinct(v.guard.receipts)
    && (forall k :: k in v.records ==>
          && RecordChecks(v.records[k])
          && ReceiptFor(v.guard.receipts, k).Some?
          && Matches(ReceiptFor(v.guard.receipts, k).value, v.records[k]))
  }

  /** Between transactions: and every receipt has its record. */
  predicate Paired(v: Vault) {
    Backed(v) && forall x :: x in v.guard.receipts ==> ReceiptKey(x) in v.records
  }

  /** A record keeps everything but its ciphertext, and a tombstone is final. */
  predicate RecordAges(earlier: Record, later: Record) {
    && later.(content := earlier.content) == earlier
    && (earlier.content.Tombstone? || later.content.Encrypted? ==> later == earlier)
  }

  /** Receipts are only appended, records are only added or buried. */
  predicate Grows(v: Vault, after: Vault) {
    && |v.guard.receipts| <= |after.guard.receipts| && after.guard.receipts[..|v.guard.receipts|] == v.guard.receipts
    && (forall k :: k in v.records ==> k in after.records && RecordAges(v.records[k], after.records[k]))
  }

  lemma GrowthIsTransitive(a: Vault, b: Vault, c: Vault)
    requires Grows(a, b) && Grows(b, c)
    ensures Grows(a, c)
  {
    assert c.guard.receipts[..|a.guard.receipts|] == c.guard.receipts[..|b.guard.receipts|][..|a.guard.receipts|];
  }

  // ----- Statements -----

  /** A receipt under a new key leaves every record its receipt. */
  lemma AppendStaysBacked(v: Vault, guard: Guard, x: Receipt)
    requires Backed(v) && guard.receipts == v.guard.receipts + [x]
    requires forall i :: 0 <= i < |v.guard.receipts| ==> ReceiptKey(v.guard.receipts[i]) != ReceiptKey(x)
    ensures Backed(v.(guard := guard)) && Grows(v, v.(guard := guard))
  {
    forall k | k in v.records ensures ReceiptFor(guard.receipts, k) == ReceiptFor(v.guard.receipts, k) {
      ReceiptForAppend(v.guard.receipts, x, k);
      var y := ReceiptFor(v.guard.receipts, k).value;
      var i :| 0 <= i < |v.guard.receipts| && v.guard.receipts[i] == y;
    }
  }

  lemma AcceptedKeyIsNew(g: Guard, r: Registry, e: Envelope, now: int)
    requires Judge(g, r, e, now).1.Accepted?
    ensures Judge(g, r, e, now).0.receipts == g.receipts + [NewReceipt(e, now)]
    ensures forall i :: 0 <= i < |g.receipts| ==> ReceiptKey(g.receipts[i]) != ReceiptKey(NewReceipt(e, now))
  {
    assert ReceiptFits(g.receipts, NewReceipt(e, now));
  }

  lemma GuardStatementStaysBacked(v: Vault, r: Registry, e: Envelope, now: int)
    requires Backed(v)
    ensures var after := v.(guard := Judge(v.guard, r, e, now).0);
            Judge(v.guard, r, e, now).1 != RowRefused ==> Backed(after) && Grows(v, after)
  {
    var (guard, verdict) := Judge(v.guard, r, e, now);
    if verdict.Accepted? {
      AcceptedKeyIsNew(v.guard, r, e, now);
      AppendStaysBacked(v, guard, NewReceipt(e, now));
    } else {
      assert guard.receipts == v.guard.receipts;
    }
  }

  lemma StoreStaysBacked(v: Vault, k: EvidenceKey, p: Sealed)
    requires Backed(v) && StoreEvidence(v, k, p).Some?
    ensures Backed(StoreEvidence(v, k, p).value) && Grows(v, StoreEvidence(v, k, p).value)
  {
  }

  /** The record is as it was, or was active and is a tombstone of itself. */
  predicate SameOrBuried(earlier: Record, later: Record) {
    later == earlier
    || (earlier.content.Encrypted? && later.content.Tombstone? && later == earlier.(content := later.content))
  }

  /** A statement that only buries records keeps all. */
  lemma BurialStaysBacked(v: Vault, records: map<EvidenceKey, Record>)
    requires Backed(v) && records.Keys == v.records.Keys
    requires forall k :: k in v.records ==> SameOrBuried(v.records[k], records[k])
    ensures Backed(v.(records := records)) && Grows(v, v.(records := records))
  {
    forall k | k in records ensures RecordChecks(records[k]) && Matches(ReceiptFor(v.guard.receipts, k).value, records[k])
                                    && RecordAges(v.records[k], records[k])
    {
      assert SameOrBuried(v.records[k], records[k]);
    }
  }

  lemma DeleteStaysBacked(v: Vault, db: Tables, a: Actor, event: EvidenceId, reason: string, now: int)
    requires Backed(v)
    ensures Backed(Delete(v, db, a, event, reason, now).0) && Grows(v, Delete(v, db, a, event, reason, now).0)
  {
    BurialStaysBacked(v, v.records);
    if Delete(v, db, a, event, reason, now).1 {
      var k := (a.tenant.value, event);
      BurialStaysBacked(v, v.records[k := Buried(v.records[k], reason, now)]);
    }
  }

  lemma PurgeStaysBacked(v: Vault, db: Tables, a: Actor, now: int)
    requires Backed(v)
    ensures Backed(Purge(v, db, a, now).0) && Grows(v, Purge(v, db, a, now).0)
  {
    BurialStaysBacked(v, v.records);
    if a.tenant.Some? {
      BurialStaysBacked(v, Swept(v.records, a.tenant.value, now));
    }
  }

  lemma ExecuteStaysBacked(v: Vault, s: Statement)
    requires Backed(v) && Execute(v, s).Some?
    ensures Backed(Execute(v, s).value) && Grows(v, Execute(v, s).value)
  {
    match s {
      case GuardStatement(r, e, now) => GuardStatementStaysBacked(v, r, e, now);
      case StoreStatement(k, p) => StoreStaysBacked(v, k, p);
      case DeleteStatement(db, a, event, reason, now) => DeleteStaysBacked(v, db, a, event, reason, now);
      case PurgeStatement(db, a, now) => PurgeStaysBacked(v, db, a, now);
    }
  }

  lemma {:induction false} ExecuteAllStaysBacked(v: Vault, statements: seq<Statement>)
    requires Backed(v) && ExecuteAll(v, statements).Some?
    ensures Backed(ExecuteAll(v, statements).value) && Grows(v, ExecuteAll(v, statements).value)
    decreases |statements|
  {
    if |statements| != 0 {
      var next := Execute(v, statements[0]).value;
      ExecuteStaysBacked(v, statements[0]);
      ExecuteAllStaysBacked(next, statements[1..]);
      GrowthIsTransitive(v, next, ExecuteAll(next, statements[1..]).value);
    }
  }

  // ----- Transactions -----

  /** Every commit leaves receipts and records paired. */
  lemma TransactionStaysPaired(v: Vault, statements: seq<Statement>)
    requires Paired(v)
    ensures Paired(Transact(v, statements)) && Grows(v, Transact(v, statements))
  {
    if Commits(v, statements) {
      ExecuteAllStaysBacked(v, statements);
      var after := ExecuteAll(v, statements).value;
      forall x | x in after.guard.receipts ensures ReceiptKey(x) in after.records {
        var i :| 0 <= i < |after.guard.receipts| && after.guard.receipts[i] == x;
        if i < |v.guard.receipts| {
          assert x == v.guard.receipts[i];
        }
      }
    }
  }

  lemma {:induction false} VaultStaysPaired(v: Vault, transactions: seq<seq<Statement>>)
    requires Paired(v)
    ensures Paired(TransactAll(v, transactions)) && Grows(v, TransactAll(v, transactions))
    decreases |transactions|
  {
    if |transactions| != 0 {
      var next := Transact(v, transactions[0]);
      TransactionStaysPaired(v, transactions[0]);
      VaultStaysPaired(next, transactions[1..]);
      GrowthIsTransitive(v, next, TransactAll(next, transactions[1..]));
    }
  }

  /** A transaction creates a receipt exactly when it creates the record. */
  lemma ReceiptAndRecordAreBornTogether(v: Vault, statements: seq<Statement>, k: EvidenceKey)
    requires Paired(v)
    ensures var after := Transact(v, statements);
            ((ReceiptFor(v.guard.receipts, k).None? && ReceiptFor(after.guard.receipts, k).Some?)
             <==> (k !in v.records && k in after.records))
  {
    TransactionStaysPaired(v, statements);
  }

  /** In a paired vault the keys of the records are the keys of the receipts, one each. */
  lemma {:induction false} KeysCountReceipts(receipts: seq<Receipt>, keys: set<EvidenceKey>)
    requires KeysDistinct(receipts)
    requires forall k :: k in keys <==> ReceiptFor(receipts, k).Some?
    ensures |keys| == |receipts|
    decreases |receipts|
  {
    if |receipts| == 0 {
      assert keys == {};
    } else {
      var rest, x := receipts[..|receipts| - 1], receipts[|receipts| - 1];
      assert forall y :: y in rest ==> ReceiptKey(y) != ReceiptKey(x);
      KeysCountReceipts(rest, keys - {ReceiptKey(x)});
      assert keys == (keys - {ReceiptKey(x)}) + {ReceiptKey(x)};
    }
  }

  /** Receipts and records correspond one to one in every state reached by transactions. */
  lemma ReceiptsAndRecordsBiject(transactions: seq<seq<Statement>>)
    ensures var v := TransactAll(EMPTY_VAULT, transactions);
            && (forall k :: k in v.records <==> ReceiptFor(v.guard.receipts, k).Some?)
            && |v.records| == |v.guard.receipts|
            && (forall k :: k in v.records ==> Matches(ReceiptFor(v.guard.receipts, k).value, v.records[k]))
  {
    var v := TransactAll(EMPTY_VAULT, transactions);
    VaultStaysPaired(EMPTY_VAULT, transactions);
    KeysCountReceipts(v.guard.receipts, v.records.Keys);
    assert |v.records| == |v.records.Keys|;
  }

  // ----- Deletion -----

  /** The sweep buries exactly the tenant's expired records, leaves all others alone, and
      reports how many it buried. */
  lemma PurgeHitsExactlyTheDue(v: Vault, db: Tables, a: Actor, now: int, k: EvidenceKey)
    requires k in v.records
    ensures var (after, purged) := Purge(v, db, a, now);
            && k in after.records
            && (after.records[k] != v.records[k] <==>
                  ActorIsAdmin(db, a) && k.0 == a.tenant.value && v.records[k].content.Encrypted? && v.records[k].retainedUntil <= now)
            && (after.records[k] != v.records[k] ==> after.records[k].content == Tombstone(now, "RETENTION_EXPIRED"))
            && purged == |set j | j in v.records && after.records[j] != v.records[j]|
  {
    var (after, purged) := Purge(v, db, a, now);
    var changed := set j | j in v.records && after.records[j] != v.records[j];
    if ActorIsAdmin(db, a) {
      assert changed == DueFor(v.records, a.tenant.value, now);
    } else {
      assert changed == {};
    }
  }

  /** A second sweep at the same time finds nothing. */
  lemma PurgeIsIdempotent(v: Vault, db: Tables, a: Actor, now: int)
    ensures Purge(Purge(v, db, a, now).0, db, a, now) == (Purge(v, db, a, now).0, 0)
  {
    var after := Purge(v, db, a, now).0;
    if ActorIsAdmin(db, a) {
      assert DueFor(after.records, a.tenant.value, now) == {};
      assert Swept(after.records, a.tenant.value, now) == after.records;
    }
  }

  /** For an administrator a stored record is either still readable or due for the sweep,
      never both, and a tombstone is neither. */
  lemma ReadableOrDue(v: Vault, db: Tables, a: Actor, event: EvidenceId, now: int)
    requires ActorIsAdmin(db, a) && (a.tenant.value, event) in v.records
    ensures var d := v.records[(a.tenant.value, event)];
            && (d.content.Encrypted? <==>
                  Retrieve(v, db, a, event, now).Some? != IsDue(v.records, a.tenant.value, now, (a.tenant.value, event)))
            && (d.content.Tombstone? ==> Retrieve(v, db, a, event, now).None?)
  {
  }

  /** Nobody reads a deleted record in any later state. */
  lemma DeletedStaysUnreadable(v: Vault, db: Tables, a: Actor, event: EvidenceId, reason: string, now: int,
                               transactions: seq<seq<Statement>>, db': Tables, a': Actor, now': int)
    requires Paired(v) && Delete(v, db, a, event, reason, now).1
    requires a'.tenant == a.tenant
    ensures Retrieve(TransactAll(Delete(v, db, a, event, reason, now).0, transactions), db', a', event, now').None?
  {
    var deleted := Delete(v, db, a, event, reason, now).0;
    DeleteStaysBacked(v, db, a, event, reason, now);
    VaultStaysPaired(deleted, transactions);
    var k := (a.tenant.value, event);
    assert RecordAges(deleted.records[k], TransactAll(deleted, transactions).records[k]);
  }

  /** No deletion, sweep or other transaction opens an event identifier again: the guard
      keeps answering that the event was replayed, or refuses for an earlier reason. */
  lemma StoredEventIsNeverAcceptedAgain(v: Vault, transactions: seq<seq<Statement>>, r: Registry, e: Envelope, now: int)
    requires Paired(v) && (e.tenant, e.event) in v.records
    ensures var end := TransactAll(v, transactions);
            && !Judge(end.guard, r, e, now).1.Accepted?
            && ScanReason(end.guard.receipts, e) == Some(EventReplayed)
  {
    VaultStaysPaired(v, transactions);
    var end := TransactAll(v, transactions);
    var x := ReceiptFor(end.guard.receipts, (e.tenant, e.event)).value;
    assert x in end.guard.receipts && (x.tenant, x.event) == (e.tenant, e.event);
    var i :| 0 <= i < |end.guard.receipts| && end.guard.receipts[i] == x;
    assert EventSeen(end.guard.receipts, e.tenant, e.event);
  }

  // ----- Records without ciphertext -----

  /** All four parts of the payload were given. */
  predicate Complete(p: Sealed) {
    p.keyId.Some? && p.iv.Some? && p.tag.Some? && p.ciphertext.Some?
  }

  /** Everything needed to decrypt is in the record, in the sizes AES-GCM asks for. */
  predicate Decryptable(d: Record) {
    && d.content.Encrypted?
    && d.content.keyId.Some? && KeyIdFormat(d.content.keyId.value)
    && d.content.iv.Some? && |d.content.iv.value| == 12
    && d.content.tag.Some? && |d.content.tag.value| == 16
    && d.content.ciphertext.Some? && |d.content.ciphertext.value| == d.canonicalLength
  }

  /** A stored record can be decrypted if and only if the call gave key identifier, vector,
      tag and ciphertext: the shape CHECK alone does not ask for them. */
  lemma StoredIsDecryptableIff(v: Vault, k: EvidenceKey, p: Sealed)
    requires StoreEvidence(v, k, p).Some?
    ensures Decryptable(StoreEvidence(v, k, p).value.records[k]) <==> Complete(p)
  {
  }

  /** A payload without any of the four. */
  function Hollow(canonicalHash: string): Sealed {
    Sealed(1, None, None, None, None, canonicalHash, 1)
  }

  /** The deferred trigger does not notice either: any envelope the guard accepts commits
      together with such a record. */
  lemma HollowRecordCommits(v: Vault, r: Registry, e: Envelope, now: int, canonicalHash: string)
    requires Paired(v) && Judge(v.guard, r, e, now).1.Accepted? && HashFormat(canonicalHash)
    ensures var k := (e.tenant, e.event);
            var statements := [GuardStatement(r, e, now), StoreStatement(k, Hollow(canonicalHash))];
            var after := Transact(v, statements);
            && Commits(v, statements) && Paired(after)
            && k in after.records && after.records[k].content.Encrypted? && !Decryptable(after.records[k])
  {
    var k := (e.tenant, e.event);
    var store := StoreStatement(k, Hollow(canonicalHash));
    var statements := [GuardStatement(r, e, now), store];
    var mid := v.(guard := Judge(v.guard, r, e, now).0);
    AcceptedKeyIsNew(v.guard, r, e, now);
    ReceiptForAppend(v.guard.receipts, NewReceipt(e, now), k);
    assert k !in v.records;
    assert InputOk(e);
    var after := mid.(records := mid.records[k := NewRecord(NewReceipt(e, now), Hollow(canonicalHash))]);
    assert Execute(v, statements[0]) == Some(mid) && Execute(mid, store) == Some(after);
    assert statements[1..] == [store] && [store][1..] == [];
    assert ExecuteAll(v, statements) == ExecuteAll(mid, [store]) == ExecuteAll(after, []) == Some(after);
    assert ReceiptKey(NewReceipt(e, now)) == k;
    TransactionStaysPaired(v, statements);
  }
}
