/** The evidence replay guard of migration 016: freshness checks, then one high-water row per
    key epoch and two lookups stand in for a scan of everything accepted so far. */
module ReplayGuard {
  import opened Sql
  import opened Tenancy
  import opened KeyRegistry

  type EvidenceId = nat
  type Epoch = (TenantId, SourceId, KeyId)

  datatype Envelope = Envelope(tenant: TenantId, subject: SubjectId, source: SourceId, key: KeyId,
                               evidenceType: EvidenceType, event: EvidenceId, sequence: int, nonce: string,
                               observedAt: int, expiresAt: int, contentHash: string, synthetic: bool)

  datatype Receipt = Receipt(tenant: TenantId, event: EvidenceId, subject: SubjectId, source: SourceId, key: KeyId,
                             evidenceType: EvidenceType, sequence: int, nonce: Digest<string>, contentHash: string,
                             synthetic: bool, observedAt: int, expiresAt: int, acceptedAt: int)

  datatype Reason =
    | TimeWindowInvalid | ObservedInFuture | Stale | Expired | TtlExceeded
    | EventReplayed | NonceReplayed | SequenceReplayed | SequenceReordered | ObservationReordered

  datatype Rejection = Rejection(epoch: Epoch, subject: SubjectId, reason: Reason, event: Digest<EvidenceId>,
                                 nonce: Digest<string>, contentHash: string, sequence: int,
                                 observedAt: int, expiresAt: int, rejectedAt: int)

  /** `highest_source_sequence`, `latest_observed_at`, `accepted_count` */
  datatype HighWater = HighWater(sequence: Option<int>, observedAt: Option<int>, count: int)

  datatype StateRow = StateRow(mark: HighWater, createdAt: int, updatedAt: int)

  datatype Guard = Guard(receipts: seq<Receipt>, rejections: seq<Rejection>, rows: map<Epoch, StateRow>)

  datatype Verdict = InputInvalid | ContextNotFound | Rejected(reason: Reason, highest: Option<int>)
                   | Accepted(at: int, sequence: int) | RowRefused

  const NOTHING: HighWater := HighWater(None, None, 0)
  const MAX_SEQUENCE: int := 9007199254740991

  function EpochOf(e: Envelope): Epoch { (e.tenant, e.source, e.key) }

  function ReceiptEpoch(x: Receipt): Epoch { (x.tenant, x.source, x.key) }

  // ----- What the call says -----

  predicate SequenceInRange(n: int) { 0 <= n <= MAX_SEQUENCE }

  predicate NonceFormat(s: string) {
    && 22 <= |s| <= 64
    && forall i :: 0 <= i < |s| ==>
         'A' <= s[i] <= 'Z' || 'a' <= s[i] <= 'z' || '0' <= s[i] <= '9' || s[i] == '_' || s[i] == '-'
  }

  predicate HashFormat(s: string) {
    |s| == 64 && forall i :: 0 <= i < |s| ==> '0' <= s[i] <= '9' || 'a' <= s[i] <= 'f'
  }

  predicate InputOk(e: Envelope) {
    SequenceInRange(e.sequence) && NonceFormat(e.nonce) && HashFormat(e.contentHash)
  }

  /** The source's maximum age when tenant, member, source and key are active and the source
      is of the announced type. */
  function MaximumAge(r: Registry, e: Envelope): Option<int> {
    match Resolve(r, e.tenant, e.subject, e.source, e.key)
    case None => None
    case Some(c) => if c.evidenceType == e.evidenceType && c.synthetic == e.synthetic then Some(c.maximumAge) else None
  }

  function Freshness(e: Envelope, now: int, age: int): Option<Reason> {
    if e.observedAt >= e.expiresAt then Some(TimeWindowInvalid)
    else if e.observedAt > now + 30 * SECOND then Some(ObservedInFuture)
    else if e.observedAt < now - age * SECOND then Some(Stale)
    else if e.expiresAt <= now then Some(Expired)
    else if e.expiresAt > e.observedAt + age * SECOND then Some(TtlExceeded)
    else None
  }

  function NewReceipt(e: Envelope, now: int): Receipt {
    Receipt(e.tenant, e.event, e.subject, e.source, e.key, e.evidenceType, e.sequence, Sha256(e.nonce), e.contentHash,
            e.synthetic, e.observedAt, e.expiresAt, now)
  }

  function NewRejection(e: Envelope, reason: Reason, now: int): Rejection {
    Rejection(EpochOf(e), e.subject, reason, Sha256(e.event), Sha256(e.nonce), e.contentHash, e.sequence,
              e.observedAt, e.expiresAt, now)
  }

  // ----- Constraints -----

  predicate ReceiptChecks(x: Receipt) {
    && SequenceInRange(x.sequence)
    && x.observedAt < x.expiresAt && x.observedAt <= x.acceptedAt + 30 * SECOND && x.acceptedAt < x.expiresAt
  }

  /** The primary key and the two UNIQUE constraints let both rows be. */
  predicate ReceiptsDiffer(x: Receipt, y: Receipt) {
    && (x.tenant, x.event) != (y.tenant, y.event)
    && (ReceiptEpoch(x) == ReceiptEpoch(y) ==> x.sequence != y.sequence && x.nonce != y.nonce)
  }

  predicate ReceiptFits(receipts: seq<Receipt>, x: Receipt) {
    ReceiptChecks(x) && forall i :: 0 <= i < |receipts| ==> ReceiptsDiffer(receipts[i], x)
  }

  predicate RowChecks(row: StateRow) {
    && (row.mark.sequence.Some? ==> SequenceInRange(row.mark.sequence.value))
    && (row.mark == NOTHING || (row.mark.sequence.Some? && row.mark.observedAt.Some? && row.mark.count > 0))
    && row.createdAt <= row.updatedAt
  }

  // ----- apply_evidence_replay_guard -----

  predicate EventSeen(receipts: seq<Receipt>, t: TenantId, event: EvidenceId) {
    exists i :: 0 <= i < |receipts| && receipts[i].tenant == t && receipts[i].event == event
  }

  predicate NonceSeen(receipts: seq<Receipt>, x: Epoch, nonce: Digest<string>) {
    exists i :: 0 <= i < |receipts| && ReceiptEpoch(receipts[i]) == x && receipts[i].nonce == nonce
  }

  /** The replay and ordering branches; a comparison with a NULL mark is not taken. */
  function Ordering(receipts: seq<Receipt>, mark: HighWater, e: Envelope): Option<Reason> {
    if EventSeen(receipts, e.tenant, e.event) then Some(EventReplayed)
    else if NonceSeen(receipts, EpochOf(e), Sha256(e.nonce)) then Some(NonceReplayed)
    else if Equal(Some(e.sequence), mark.sequence).True? then Some(SequenceReplayed)
    else if Less(Some(e.sequence), mark.sequence).True? then Some(SequenceReordered)
    else if Less(Some(e.observedAt), mark.observedAt).True? then Some(ObservationReordered)
    else None
  }

  /** INSERT ... ON CONFLICT DO NOTHING */
  function Opened(g: Guard, x: Epoch, now: int): Guard {
    if x in g.rows then g else g.(rows := g.rows[x := StateRow(NOTHING, now, now)])
  }

  function Reject(g: Guard, e: Envelope, reason: Reason, now: int): Guard {
    g.(rejections := g.rejections + [NewRejection(e, reason, now)])
  }

  function RaisedRow(row: StateRow, e: Envelope, now: int): StateRow {
    StateRow(HighWater(Some(e.sequence), Some(e.observedAt), row.mark.count + 1), row.createdAt, now)
  }

  function Accept(g: Guard, e: Envelope, now: int): (Guard, Verdict)
    requires EpochOf(e) in g.rows
  {
    var receipt, row := NewReceipt(e, now), RaisedRow(g.rows[EpochOf(e)], e, now);
    if !ReceiptFits(g.receipts, receipt) || !RowChecks(row) then (g, RowRefused)
    else (g.(receipts := g.receipts + [receipt], rows := g.rows[EpochOf(e) := row]), Accepted(now, e.sequence))
  }

  function Judge(g: Guard, r: Registry, e: Envelope, now: int): (Guard, Verdict) {
    if !InputOk(e) then (g, InputInvalid)
    else match MaximumAge(r, e)
      case None => (g, ContextNotFound)
      case Some(age) =>
        match Freshness(e, now, age)
        case Some(reason) => (Reject(g, e, reason, now), Rejected(reason, None))
        case None =>
          var ready := Opened(g, EpochOf(e), now);
          var mark := ready.rows[EpochOf(e)].mark;
          match Ordering(g.receipts, mark, e)
          case Some(reason) => (Reject(ready, e, reason, now), Rejected(reason, mark.sequence))
          case None =>
            var (after, verdict) := Accept(ready, e, now);
            (if verdict.Accepted? then after else g, verdict)
  }

  // ----- The specification: a scan of the receipts -----

  /** The first check of the scan that some accepted receipt fails. */
  function ScanReason(receipts: seq<Receipt>, e: Envelope): Option<Reason> {
    if exists y :: y in receipts && (y.tenant, y.event) == (e.tenant, e.event) then Some(EventReplayed)
    else if exists y :: y in receipts && ReceiptEpoch(y) == EpochOf(e) && y.nonce == Sha256(e.nonce) then Some(NonceReplayed)
    else if exists y :: y in receipts && ReceiptEpoch(y) == EpochOf(e) && y.sequence > e.sequence then Some(SequenceReordered)
    else if exists y :: y in receipts && ReceiptEpoch(y) == EpochOf(e) && y.sequence == e.sequence then Some(SequenceReplayed)
    else if exists y :: y in receipts && ReceiptEpoch(y) == EpochOf(e) && y.observedAt > e.observedAt then Some(ObservationReordered)
    else None
  }

  function Raise(h: HighWater, x: Receipt): HighWater {
    HighWater(Some(if h.sequence.None? then x.sequence else Max(h.sequence.value, x.sequence)),
              Some(if h.observedAt.None? then x.observedAt else Max(h.observedAt.value, x.observedAt)),
              h.count + 1)
  }

  /** Maximum sequence, maximum observation time and number of the epoch's receipts. */
  function HighWaterOf(receipts: seq<Receipt>, x: Epoch): HighWater {
    if |receipts| == 0 then NOTHING
    else
      var rest := HighWaterOf(receipts[..|receipts| - 1], x);
      if ReceiptEpoch(receipts[|receipts| - 1]) == x then Raise(rest, receipts[|receipts| - 1]) else rest
  }

  function ScanVerdict(receipts: seq<Receipt>, r: Registry, e: Envelope, now: int): Verdict {
    if !InputOk(e) then InputInvalid
    else match MaximumAge(r, e)
      case None => ContextNotFound
      case Some(age) =>
        match Freshness(e, now, age)
        case Some(reason) => Rejected(reason, None)
        case None =>
          match ScanReason(receipts, e)
          case Some(reason) => Rejected(reason, HighWaterOf(receipts, EpochOf(e)).sequence)
          case None => Accepted(now, e.sequence)
  }

  function ScanReceipts(receipts: seq<Receipt>, r: Registry, e: Envelope, now: int): seq<Receipt> {
    if ScanVerdict(receipts, r, e, now).Accepted? then receipts + [NewReceipt(e, now)] else receipts
  }

  // ----- Runs -----

  /** A call with the registry and the clock it reads. */
  datatype GuardCall = GuardCall(registry: Registry, envelope: Envelope, now: int)

  function Next(g: Guard, c: GuardCall): (Guard, Verdict) {
    Judge(g, c.registry, c.envelope, c.now)
  }

  function GuardRun(g: Guard, calls: seq<GuardCall>): Guard
    decreases |calls|
  {
    if |calls| == 0 then g else GuardRun(Next(g, calls[0]).0, calls[1..])
  }

  function Verdicts(g: Guard, calls: seq<GuardCall>): (verdicts: seq<Verdict>)
    ensures |verdicts| == |calls|
    decreases |calls|
  {
    if |calls| == 0 then [] else [Next(g, calls[0]).1] + Verdicts(Next(g, calls[0]).0, calls[1..])
  }

  function ScanRun(receipts: seq<Receipt>, calls: seq<GuardCall>): seq<Receipt>
    decreases |calls|
  {
    if |calls| == 0 then receipts
    else ScanRun(ScanReceipts(receipts, calls[0].registry, calls[0].envelope, calls[0].now), calls[1..])
  }

  function ScanVerdicts(receipts: seq<Receipt>, calls: seq<GuardCall>): (verdicts: seq<Verdict>)
    ensures |verdicts| == |calls|
    decreases |calls|
  {
    if |calls| == 0 then []
    else [ScanVerdict(receipts, calls[0].registry, calls[0].envelope, calls[0].now)]
         + ScanVerdicts(ScanReceipts(receipts, calls[0].registry, calls[0].envelope, calls[0].now), calls[1..])
  }

  const NO_EVIDENCE: Guard := Guard([], [], map[])
}
