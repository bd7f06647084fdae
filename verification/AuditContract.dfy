/** The audit chaincode: each commitment lives under a key built from its record type and
    event key, and an anchor under the event key alone points to it. */
module AuditContract {
  import opened Sql
  import opened Json

  datatype RecordType = AccessDecision | CertificateLifecycle | PolicyChange | SecurityAction | TrustTransition

  /** The variable part of a ledger value; profile, algorithm and version are constants. */
  datatype Commitment = Commitment(commitmentHash: Text, eventKey: Text, recordType: RecordType)

  const PROFILE_FIELD: Text := T("canonicalizationProfile")
  const COMMITMENT_FIELD: Text := T("commitmentHashSha256")
  const ALGORITHM_FIELD: Text := T("digestAlgorithm")
  const EVENT_KEY_FIELD: Text := T("eventKeyHashSha256")
  const RECORD_TYPE_FIELD: Text := T("recordType")
  const VERSION_FIELD: Text := T("schemaVersion")

  const PROFILE: Text := T("tenant-trust-audit-commitment-json-v1")
  const ALGORITHM: Text := T("sha256")
  const VERSION: Text := T("1.0.0")

  function TypeName(r: RecordType): Text {
    match r
    case AccessDecision => T("access-decision")
    case CertificateLifecycle => T("certificate-lifecycle")
    case PolicyChange => T("policy-change")
    case SecurityAction => T("security-action")
    case TrustTransition => T("trust-transition")
  }

  /** Membership in RECORD_TYPES. */
  function TypeNamed(name: Text): Option<RecordType> {
    if name == TypeName(AccessDecision) then Some(AccessDecision)
    else if name == TypeName(CertificateLifecycle) then Some(CertificateLifecycle)
    else if name == TypeName(PolicyChange) then Some(PolicyChange)
    else if name == TypeName(SecurityAction) then Some(SecurityAction)
    else if name == TypeName(TrustTransition) then Some(TrustTransition)
    else None
  }

  /** SHA256_PATTERN */
  predicate IsHash(s: Text) {
    |s| == 64 && forall i :: 0 <= i < |s| ==> IsDigit(s[i]) || 0x61 <= s[i] <= 0x66
  }

  predicate WellFormed(v: Commitment) {
    IsHash(v.commitmentHash) && IsHash(v.eventKey)
  }

  // ----- Codec -----

  /** An object's own properties: a repeated name keeps its last value. */
  function Properties(members: seq<Member>): map<Text, Value> {
    if |members| == 0 then map[] else map[members[0].name := members[0].value] + Properties(members[1..])
  }

  function LedgerFields(): set<Text> {
    {PROFILE_FIELD, COMMITMENT_FIELD, ALGORITHM_FIELD, EVENT_KEY_FIELD, RECORD_TYPE_FIELD, VERSION_FIELD}
  }

  function CheckFields(o: map<Text, Value>): Option<Commitment> {
    if o.Keys != LedgerFields() then None
    else if o[VERSION_FIELD] != String(VERSION) then None
    else if !o[RECORD_TYPE_FIELD].String? || TypeNamed(o[RECORD_TYPE_FIELD].text).None? then None
    else if !o[EVENT_KEY_FIELD].String? || !IsHash(o[EVENT_KEY_FIELD].text) then None
    else if !o[COMMITMENT_FIELD].String? || !IsHash(o[COMMITMENT_FIELD].text) then None
    else if o[PROFILE_FIELD] != String(PROFILE) then None
    else if o[ALGORITHM_FIELD] != String(ALGORITHM) then None
    else Some(Commitment(o[COMMITMENT_FIELD].text, o[EVENT_KEY_FIELD].text, TypeNamed(o[RECORD_TYPE_FIELD].text).value))
  }

  /** `parseCommitment`; None when it throws INVALID_COMMITMENT */
  function ParseCommitment(input: Text): Option<Commitment> {
    if |input| == 0 || |input| > 2048 then None
    else match Parse(input)
      case None => None
      case Some(v) => if v.Object? then CheckFields(Properties(v.members)) else None
  }

  /** The ledger value in the order in which it is built. */
  function FieldsOf(v: Commitment): seq<Field> {
    [Field(PROFILE_FIELD, PROFILE), Field(COMMITMENT_FIELD, v.commitmentHash), Field(ALGORITHM_FIELD, ALGORITHM),
     Field(EVENT_KEY_FIELD, v.eventKey), Field(RECORD_TYPE_FIELD, TypeName(v.recordType)), Field(VERSION_FIELD, VERSION)]
  }

  /** `serializeCommitment` */
  function Serialize(v: Commitment): Text {
    Render(FieldsOf(v))
  }

  // ----- Keys -----

  /** `commitmentKey` */
  function CommitmentKey(r: RecordType, eventKey: Text): Text {
    T("audit~") + TypeName(r) + T("~") + eventKey
  }

  /** `eventAnchorKey` */
  function AnchorKey(eventKey: Text): Text {
    T("event~") + eventKey
  }

  function KeyOf(v: Commitment): Text {
    CommitmentKey(v.recordType, v.eventKey)
  }

  // ----- Transactions -----

  type Ledger = map<Text, Text>

  datatype Outcome = Created(key: Text) | Duplicate(key: Text) | InvalidCommitment | ConflictingEventAnchor
                   | InconsistentState | ConflictingCommitment

  /** `getState`: empty when the key is absent */
  function GetState(l: Ledger, k: Text): Text {
    if k in l then l[k] else []
  }

  /** `CommitCommitment` of an authorized writer */
  function Commit(l: Ledger, input: Text): (Ledger, Outcome) {
    match ParseCommitment(input)
    case None => (l, InvalidCommitment)
    case Some(v) =>
      var key, anchorKey := KeyOf(v), AnchorKey(v.eventKey);
      var state, anchor := GetState(l, key), GetState(l, anchorKey);
      if |state| > 0 || |anchor| > 0 then
        if |anchor| > 0 && anchor != key then (l, ConflictingEventAnchor)
        else if |state| == 0 || |anchor| == 0 then (l, InconsistentState)
        else if state != Serialize(v) then (l, ConflictingCommitment)
        else (l, Duplicate(key))
      else (l[key := Serialize(v)][anchorKey := key], Created(key))
  }

  datatype Answer = Found(text: Text) | NotFound | InvalidQuery

  /** `ReadCommitment` of an authorized reader */
  function Read(l: Ledger, recordType: Text, eventKey: Text): Answer {
    match TypeNamed(recordType)
    case None => InvalidQuery
    case Some(r) =>
      if !IsHash(eventKey) then InvalidQuery
      else if |GetState(l, CommitmentKey(r, eventKey))| == 0 then NotFound
      else Found(GetState(l, CommitmentKey(r, eventKey)))
  }

  function CommitAll(l: Ledger, inputs: seq<Text>): Ledger
    decreases |inputs|
  {
    if |inputs| == 0 then l else CommitAll(Commit(l, inputs[0]).0, inputs[1..])
  }

  function Outcomes(l: Ledger, inputs: seq<Text>): (outcomes: seq<Outcome>)
    ensures |outcomes| == |inputs|
    decreases |inputs|
  {
    if |inputs| == 0 then [] else [Commit(l, inputs[0]).1] + Outcomes(Commit(l, inputs[0]).0, inputs[1..])
  }

  // ----- The specification: one book entry per event key -----

  type Book = map<Text, Commitment>

  function Enter(book: Book, input: Text): (Book, Outcome) {
    match ParseCommitment(input)
    case None => (book, InvalidCommitment)
    case Some(v) =>
      if v.eventKey !in book then (book[v.eventKey := v], Created(KeyOf(v)))
      else if book[v.eventKey] == v then (book, Duplicate(KeyOf(v)))
      else if book[v.eventKey].recordType != v.recordType then (book, ConflictingEventAnchor)
      else (book, ConflictingCommitment)
  }

  function EnterAll(book: Book, inputs: seq<Text>): Book
    decreases |inputs|
  {
    if |inputs| == 0 then book else EnterAll(Enter(book, inputs[0]).0, inputs[1..])
  }

  function BookOutcomes(book: Book, inputs: seq<Text>): (outcomes: seq<Outcome>)
    ensures |outcomes| == |inputs|
    decreases |inputs|
  {
    if |inputs| == 0 then [] else [Enter(book, inputs[0]).1] + BookOutcomes(Enter(book, inputs[0]).0, inputs[1..])
  }
}
