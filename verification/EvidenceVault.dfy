/** Encrypted evidence of migration 017: a stored record for every accepted receipt, checked
    when the transaction commits; deletion and the retention sweep leave tombstones. */
module EvidenceVault {
  import opened Sql
  import opened Tenancy
  import opened KeyRegistry
  import opened ReplayGuard

  newtype byte = x: int | 0 <= x < 256

  type EvidenceKey = (TenantId, EvidenceId)

  /** The two shapes the shape CHECK admits. A CHECK that is unknown passes, so the key
      identifier, vector, tag and ciphertext of an active row may be NULL. */
  datatype Content =
    | Encrypted(keyId: Option<string>, iv: Option<seq<byte>>, tag: Option<seq<byte>>, ciphertext: Option<seq<byte>>)
    | Tombstone(deletedAt: int, reason: string)

  datatype Record = Record(subject: SubjectId, source: SourceId, contentHash: string, format: int,
                           canonicalHash: string, canonicalLength: int, retainedUntil: int, createdAt: int,
                           content: Content)

  /** The three ingestion tables and the table of encrypted evidence. */
  datatype Vault = Vault(guard: Guard, records: map<EvidenceKey, Record>)

  const RETENTION: int := 30 * 24 * 3600 * SECOND

  function ReceiptKey(x: Receipt): EvidenceKey { (x.tenant, x.event) }

  // ----- Constraints -----

  predicate KeyIdFormat(s: string) {
    && 3 <= |s| <= 64
    && forall i :: 0 <= i < |s| ==>
         'a' <= s[i] <= 'z' || '0' <= s[i] <= '9' || (i > 0 && (s[i] == '.' || s[i] == '_' || s[i] == '-'))
  }

  predicate RecordChecks(d: Record) {
    && HashFormat(d.contentHash) && HashFormat(d.canonicalHash)
    && d.format == 1 && 1 <= d.canonicalLength <= 65536
    && d.retainedUntil > d.createdAt
    && (d.content.Encrypted? ==>
          && (d.content.keyId.Some? ==> KeyIdFormat(d.content.keyId.value))
          && (d.content.iv.Some? ==> |d.content.iv.value| == 12)
          && (d.content.tag.Some? ==> |d.content.tag.value| == 16)
          && (d.content.ciphertext.Some? ==> |d.content.ciphertext.value| == d.canonicalLength))
  }

  // ----- The functions -----

  /** The receipt behind a primary key. */
  function ReceiptFor(receipts: seq<Receipt>, k: EvidenceKey): (r: Option<Receipt>)
    ensures r.Some? ==> r.value in receipts && ReceiptKey(r.value) == k
    ensures r.None? ==> forall x :: x in receipts ==> ReceiptKey(x) != k
  {
    if |receipts| == 0 then None
    else if ReceiptKey(receipts[|receipts| - 1]) == k then Some(receipts[|receipts| - 1])
    else
      assert forall x :: x in receipts ==> x in receipts[..|receipts| - 1] || x == receipts[|receipts| - 1];
      ReceiptFor(receipts[..|receipts| - 1], k)
  }

  datatype Sealed = Sealed(format: int, keyId: Option<string>, iv: Option<seq<byte>>, tag: Option<seq<byte>>,
                           ciphertext: Option<seq<byte>>, canonicalHash: string, canonicalLength: int)

  function NewRecord(x: Receipt, p: Sealed): Record {
    Record(x.subject, x.source, x.contentHash, p.format, p.canonicalHash, p.canonicalLength,
           x.acceptedAt + RETENTION, x.acceptedAt, Encrypted(p.keyId, p.iv, p.tag, p.ciphertext))
  }

  /** `store_encrypted_evidence`; None when it raises */
  function StoreEvidence(v: Vault, k: EvidenceKey, p: Sealed): Option<Vault> {
    match ReceiptFor(v.guard.receipts, k)
    case None => None
    case Some(x) =>
      if k in v.records || !RecordChecks(NewRecord(x, p)) then None
      else Some(v.(records := v.records[k := NewRecord(x, p)]))
  }

  /** `retrieve_encrypted_evidence` */
  function Retrieve(v: Vault, db: Tables, a: Actor, event: EvidenceId, now: int): Option<Record> {
    if ActorIsActive(db, a) && (a.tenant.value, event) in v.records
       && v.records[(a.tenant.value, event)].content.Encrypted?
       && v.records[(a.tenant.value, event)].retainedUntil > now
       && (v.records[(a.tenant.value, event)].subject == a.subject.value || ActorIsAdmin(db, a))
    then Some(v.records[(a.tenant.value, event)]) else None
  }

  function Buried(d: Record, reason: string, now: int): Record {
    d.(content := Tombstone(now, reason))
  }

  predicate DeletionReason(reason: string) {
    1 <= |reason| <= 160 && reason[0] != ' ' && reason[|reason| - 1] != ' '
  }

  /** `delete_encrypted_evidence` */
  function Delete(v: Vault, db: Tables, a: Actor, event: EvidenceId, reason: string, now: int): (Vault, bool) {
    if !ActorIsAdmin(db, a) || !DeletionReason(reason) then (v, false)
    else
      var k := (a.tenant.value, event);
      if k in v.records && v.records[k].content.Encrypted?
      then (v.(records := v.records[k := Buried(v.records[k], reason, now)]), true)
      else (v, false)
  }

  predicate IsDue(records: map<EvidenceKey, Record>, t: TenantId, now: int, k: EvidenceKey) {
    k in records && k.0 == t && records[k].content.Encrypted? && records[k].retainedUntil <= now
  }

  function DueFor(records: map<EvidenceKey, Record>, t: TenantId, now: int): set<EvidenceKey> {
    set k | k in records && IsDue(records, t, now, k)
  }

  function Swept(records: map<EvidenceKey, Record>, t: TenantId, now: int): map<EvidenceKey, Record> {
    map k | k in records :: if IsDue(records, t, now, k) then Buried(records[k], "RETENTION_EXPIRED", now) else records[k]
  }

  /** `purge_expired_evidence` */
  function Purge(v: Vault, db: Tables, a: Actor, now: int): (Vault, int) {
    if !ActorIsAdmin(db, a) then (v, 0)
    else (v.(records := Swept(v.records, a.tenant.value, now)), |DueFor(v.records, a.tenant.value, now)|)
  }

  // ----- Transactions -----

  datatype Statement =
    | GuardStatement(registry: Registry, envelope: Envelope, now: int)
    | StoreStatement(key: EvidenceKey, payload: Sealed)
    | DeleteStatement(db: Tables, actor: Actor, event: EvidenceId, reason: string, now: int)
    | PurgeStatement(db: Tables, actor: Actor, now: int)

  /** One statement; None when it raises an exception. */
  function Execute(v: Vault, s: Statement): Option<Vault> {
    match s
    case GuardStatement(r, e, now) =>
      var (guard, verdict) := Judge(v.guard, r, e, now);
      if verdict.InputInvalid? || verdict.RowRefused? then None else Some(v.(guard := guard))
    case StoreStatement(k, p) => StoreEvidence(v, k, p)
    case DeleteStatement(db, a, event, reason, now) => Some(Delete(v, db, a, event, reason, now).0)
    case PurgeStatement(db, a, now) => Some(Purge(v, db, a, now).0)
  }

  function ExecuteAll(v: Vault, statements: seq<Statement>): Option<Vault>
    decreases |statements|
  {
    if |statements| == 0 then Some(v)
    else match Execute(v, statements[0])
      case None => None
      case Some(next) => ExecuteAll(next, statements[1..])
  }

  /** The deferred constraint trigger, once for every receipt the transaction inserted. */
  predicate ReceiptsAreStored(before: Vault, after: Vault) {
    forall i :: |before.guard.receipts| <= i < |after.guard.receipts| ==> ReceiptKey(after.guard.receipts[i]) in after.records
  }

  predicate Commits(v: Vault, statements: seq<Statement>) {
    ExecuteAll(v, statements).Some? && ReceiptsAreStored(v, ExecuteAll(v, statements).value)
  }

  /** A transaction that raises or fails the deferred check changes nothing. */
  function Transact(v: Vault, statements: seq<Statement>): Vault {
    if Commits(v, statements) then ExecuteAll(v, statements).value else v
  }

  function TransactAll(v: Vault, transactions: seq<seq<Statement>>): Vault
    decreases |transactions|
  {
    if |transactions| == 0 then v else TransactAll(Transact(v, transactions[0]), transactions[1..])
  }

  const EMPTY_VAULT: Vault := Vault(NO_EVIDENCE, map[])
}
