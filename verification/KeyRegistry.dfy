/** The evidence source key registry: enrolment, rotation and revocation of the keys of a
    source (migration 014), the suspension switch that migration 018 adds, and the lookup
    that signature verification uses (migration 015). */
module KeyRegistry {
  import opened Sql
  import opened Tenancy

  type KeyId = nat

  datatype KeyState = KeyActive | KeyRotated | KeyRevoked

  datatype Stamp = Stamp(author: SubjectId, at: int)

  /** `publicKey` is the 32 decoded bytes, whose digest is the fingerprint. */
  datatype SourceKey = SourceKey(version: int, publicKey: string, fingerprint: Digest<string>, state: KeyState,
                                 enrolled: Stamp, rotated: Option<Stamp>, revoked: Option<Stamp>, reason: Option<string>)

  /** The key rows of one source. */
  type KeyRows = map<KeyId, SourceKey>

  /** The key table, grouped by its foreign key to the source. */
  type Keys = map<(TenantId, SourceId), KeyRows>

  datatype Registry = Registry(db: Tables, keys: Keys)

  datatype KeyReply = KeyDone(keyVersion: int, sourceState: ConfigState, sourceVersion: int)
                    | KeyDenied | InvalidInput | ActiveKeyMissing | KeyRejected

  // ----- Rows -----

  function KeysOf(keys: Keys, t: TenantId, s: SourceId): KeyRows {
    if (t, s) in keys then keys[(t, s)] else map[]
  }

  predicate IsActiveKey(rows: KeyRows, k: KeyId) {
    k in rows && rows[k].state == KeyActive
  }

  /** The state and time CHECKs of a key row. */
  predicate KeyShape(key: SourceKey) {
    && (key.state == KeyActive ==> key.rotated.None? && key.revoked.None? && key.reason.None?)
    && (key.state == KeyRotated ==> key.rotated.Some? && key.revoked.None? && key.reason.None?)
    && (key.state == KeyRevoked ==> key.revoked.Some? && key.reason.Some?)
    && key.version > 0
    && (key.rotated.Some? ==> key.rotated.value.at >= key.enrolled.at)
    && (key.revoked.Some? ==> key.revoked.value.at >= key.enrolled.at)
  }

  /** The UNIQUE constraints seen by a new active key of the source. */
  predicate KeyFits(rows: KeyRows, k: KeyId, key: SourceKey) {
    && k !in rows && KeyShape(key)
    && forall j :: j in rows ==>
         rows[j].version != key.version && rows[j].fingerprint != key.fingerprint && rows[j].state != KeyActive
  }

  function NewKey(version: int, publicKey: string, author: SubjectId, at: int): SourceKey {
    SourceKey(version, publicKey, Sha256(publicKey), KeyActive, Stamp(author, at), None, None, None)
  }

  predicate EditableSource(db: Tables, a: Actor, s: SourceId) {
    ActorIsAdmin(db, a) && (a.tenant.value, s) in db.sources
  }

  /** The registry with the source's row and key rows replaced. */
  function Write(r: Registry, t: TenantId, s: SourceId, row: Source, rows: KeyRows): Registry {
    Registry(r.db.(sources := r.db.sources[(t, s) := row]), r.keys[(t, s) := rows])
  }

  // ----- The functions -----

  /** What a function decides about one source and its keys is written when it succeeds. */
  function Commit(r: Registry, t: TenantId, s: SourceId, outcome: (Source, KeyRows, KeyReply)): (Registry, KeyReply) {
    (if outcome.2.KeyDone? then Write(r, t, s, outcome.0, outcome.1) else r, outcome.2)
  }

  function EnrollRows(source: Source, rows: KeyRows, k: KeyId, publicKey: string, author: SubjectId, at: int)
    : (Source, KeyRows, KeyReply)
  {
    var key := NewKey(1, publicKey, author, at);
    if source.state != CfgPlanned || source.algorithm != Ed25519 || source.fingerprint.Some? || rows != map[]
    then (source, rows, KeyDenied)
    else if !KeyFits(rows, k, key) then (source, rows, KeyRejected)
    else (source.(state := CfgActive, fingerprint := Some(key.fingerprint), version := source.version + 1),
          rows[k := key], KeyDone(1, CfgActive, source.version + 1))
  }

  /** `enroll_evidence_source` */
  function Enroll(r: Registry, a: Actor, s: SourceId, k: KeyId, publicKey: string, at: int, now: int): (Registry, KeyReply) {
    if !ActorIsAdmin(r.db, a) then (r, KeyDenied)
    else if at > now + 2 * SECOND then (r, InvalidInput)
    else if (a.tenant.value, s) !in r.db.sources then (r, KeyDenied)
    else
      var t := a.tenant.value;
      Commit(r, t, s, EnrollRows(r.db.sources[(t, s)], KeysOf(r.keys, t, s), k, publicKey, a.subject.value, at))
  }

  ghost function ActiveKey(rows: KeyRows): (k: Option<KeyId>)
    ensures k.Some? ==> IsActiveKey(rows, k.value)
    ensures k.None? ==> forall j: KeyId :: !IsActiveKey(rows, j)
  {
    if exists k: KeyId :: IsActiveKey(rows, k) then var k: KeyId :| IsActiveKey(rows, k); Some(k) else None
  }

  function VersionsOf(rows: KeyRows): set<int> {
    set k | k in rows :: rows[k].version
  }

  predicate HasVersion(rows: KeyRows, v: int) {
    exists k :: k in rows && rows[k].version == v
  }

  lemma AnyElement(versions: set<int>) returns (v: int)
    requires |versions| != 0
    ensures v in versions && |versions - {v}| == |versions| - 1
  {
    assert (forall v: int :: v !in versions) ==> versions == {};
    v :| v in versions;
  }

  predicate IsMaximum(versions: set<int>, m: int) {
    m in versions && forall v :: v in versions ==> v <= m
  }

  lemma HasMaximum(versions: set<int>) returns (m: int)
    requires |versions| != 0
    ensures IsMaximum(versions, m)
    decreases |versions|
  {
    var v := AnyElement(versions);
    var rest := versions - {v};
    m := v;
    if |rest| != 0 {
      var n := HasMaximum(rest);
      m := Max(v, n);
    }
    assert forall w :: w in versions ==> w == v || w in rest;
  }

  lemma MaximumExists(versions: set<int>)
    requires |versions| != 0
    ensures exists m: int :: IsMaximum(versions, m)
  {
    var m := HasMaximum(versions);
  }

  ghost function MaxOf(versions: set<int>): (m: int)
    requires |versions| != 0
    ensures IsMaximum(versions, m)
  {
    MaximumExists(versions);
    var m: int :| IsMaximum(versions, m);
    m
  }

  /** SELECT max(key_version) */
  ghost function HighestVersion(rows: KeyRows): (m: int)
    requires |rows| != 0
    ensures HasVersion(rows, m) && forall k :: k in rows ==> rows[k].version <= m
  {
    assert rows != map[];
    assert exists k :: k in rows;
    var k: KeyId :| k in rows;
    assert rows[k].version in VersionsOf(rows);
    var m := MaxOf(VersionsOf(rows));
    assert forall j :: j in rows ==> rows[j].version in VersionsOf(rows);
    m
  }

  function RotatedKey(key: SourceKey, author: SubjectId, at: int): SourceKey {
    key.(state := KeyRotated, rotated := Some(Stamp(author, at)))
  }

  /** The keys once the active one, if any, has been rotated. */
  function AfterRotation(rows: KeyRows, current: Option<KeyId>, author: SubjectId, at: int): KeyRows {
    if current.Some? && current.value in rows
    then rows[current.value := RotatedKey(rows[current.value], author, at)] else rows
  }

  /** The rotation of one source's keys. */
  ghost function RotateRows(source: Source, rows: KeyRows, k: KeyId, publicKey: string, author: SubjectId, at: int)
    : (Source, KeyRows, KeyReply)
  {
    if source.state !in {CfgActive, CfgSuspended} || source.algorithm != Ed25519 || |rows| == 0 then (source, rows, KeyDenied)
    else
      var current := ActiveKey(rows);
      if source.state == CfgActive && current.None? then (source, rows, ActiveKeyMissing)
      else if current.Some? && at < rows[current.value].enrolled.at then (source, rows, InvalidInput)
      else
        var rotated := AfterRotation(rows, current, author, at);
        var key := NewKey(HighestVersion(rows) + 1, publicKey, author, at);
        if !KeyFits(rotated, k, key) then (source, rows, KeyRejected)
        else
          var row := source.(state := CfgActive, fingerprint := Some(key.fingerprint), version := source.version + 1);
          (row, rotated[k := key], KeyDone(key.version, CfgActive, row.version))
  }

  /** `rotate_evidence_source_key` */
  ghost function Rotate(r: Registry, a: Actor, s: SourceId, k: KeyId, publicKey: string, at: int, now: int): (Registry, KeyReply) {
    if !ActorIsAdmin(r.db, a) then (r, KeyDenied)
    else if at > now + 2 * SECOND then (r, InvalidInput)
    else if (a.tenant.value, s) !in r.db.sources then (r, KeyDenied)
    else
      var t := a.tenant.value;
      Commit(r, t, s, RotateRows(r.db.sources[(t, s)], KeysOf(r.keys, t, s), k, publicKey, a.subject.value, at))
  }

  function RevokedKey(key: SourceKey, author: SubjectId, at: int, reason: string): SourceKey {
    key.(state := KeyRevoked, revoked := Some(Stamp(author, at)), reason := Some(reason))
  }

  function RevokeRows(source: Source, rows: KeyRows, k: KeyId, reason: string, author: SubjectId, at: int)
    : (Source, KeyRows, KeyReply)
  {
    if k !in rows || rows[k].state == KeyRevoked || at < rows[k].enrolled.at then (source, rows, KeyDenied)
    else
      var row := if rows[k].state == KeyActive
                 then source.(state := CfgSuspended, fingerprint := None, version := source.version + 1)
                 else source.(version := source.version + 1);
      (row, rows[k := RevokedKey(rows[k], author, at, reason)], KeyDone(rows[k].version, row.state, row.version))
  }

  /** `revoke_evidence_source_key` */
  function RevokeKey(r: Registry, a: Actor, s: SourceId, k: KeyId, reason: string, at: int, now: int): (Registry, KeyReply) {
    if !ActorIsAdmin(r.db, a) then (r, KeyDenied)
    else if !ReasonCodeFormat(reason) || at > now + 2 * SECOND then (r, InvalidInput)
    else if (a.tenant.value, s) !in r.db.sources then (r, KeyDenied)
    else
      var t := a.tenant.value;
      Commit(r, t, s, RevokeRows(r.db.sources[(t, s)], KeysOf(r.keys, t, s), k, reason, a.subject.value, at))
  }

  /** `set_evidence_source_suspension` of migration 018 */
  function SetSuspension(r: Registry, a: Actor, s: SourceId, suspended: bool, reason: string, at: int, now: int): Registry {
    if !EditableSource(r.db, a, s) || !ReasonCodeFormat(reason) || at > now + 2 * SECOND then r
    else
      var t := a.tenant.value;
      var source := r.db.sources[(t, s)];
      if suspended && source.state != CfgActive then r
      else if !suspended && (source.state != CfgSuspended || !HasActiveKeyWith(KeysOf(r.keys, t, s), source.fingerprint)) then r
      else r.(db := r.db.(sources := r.db.sources[(t, s) :=
                source.(state := if suspended then CfgSuspended else CfgActive, version := source.version + 1)]))
  }

  predicate HasActiveKeyWith(rows: KeyRows, fingerprint: Option<Digest<string>>) {
    fingerprint.Some? && exists k :: k in rows && rows[k].state == KeyActive && rows[k].fingerprint == fingerprint.value
  }

  /** The automatic suspension of an active source by the flood limit of migration 018. */
  function AutoSuspend(r: Registry, t: TenantId, s: SourceId): Registry {
    if (t, s) in r.db.sources && r.db.sources[(t, s)].state == CfgActive
    then var source := r.db.sources[(t, s)];
         r.(db := r.db.(sources := r.db.sources[(t, s) := source.(state := CfgSuspended, version := source.version + 1)]))
    else r
  }

  /** What `evidence_sources_use_key_registry` and the CHECKs let an administrator write
      directly: planned rows without key material, later no change to state, algorithm or
      key, and no deletion once a key exists. */
  datatype SourceEdit = InsertSource(row: Source) | UpdateSource(row: Source) | DeleteSource

  predicate SourceRowOk(row: Source) {
    1 <= row.maximumAge <= 86400 && (row.state == CfgActive ==> row.fingerprint.Some?)
  }

  function EditSource(r: Registry, a: Actor, s: SourceId, e: SourceEdit): Registry {
    if !ActorIsAdmin(r.db, a) then r
    else
      var t := a.tenant.value;
      match e
      case InsertSource(row) =>
        if (t, s) in r.db.sources || row.state != CfgPlanned || row.fingerprint.Some? || !SourceRowOk(row) then r
        else r.(db := r.db.(sources := r.db.sources[(t, s) := row]))
      case UpdateSource(row) =>
        if (t, s) !in r.db.sources || !SourceRowOk(row) then r
        else
          var before := r.db.sources[(t, s)];
          if (row.state, row.algorithm, row.fingerprint) != (before.state, before.algorithm, before.fingerprint) then r
          else r.(db := r.db.(sources := r.db.sources[(t, s) := row]))
      case DeleteSource =>
        if KeysOf(r.keys, t, s) != map[] then r
        else r.(db := r.db.(sources := r.db.sources - {(t, s)}))
  }

  // ----- The verification context of migration 015 -----

  datatype Context = Context(evidenceType: EvidenceType, synthetic: bool, maximumAge: int, publicKey: string)

  /** The conditions of the join except the fingerprint test. */
  predicate Usable(r: Registry, t: TenantId, subject: SubjectId, s: SourceId, k: KeyId) {
    && TenantIsActive(r.db, t) && MemberIsActive(r.db, t, subject)
    && (t, s) in r.db.sources && r.db.sources[(t, s)].state == CfgActive && r.db.sources[(t, s)].algorithm == Ed25519
    && IsActiveKey(KeysOf(r.keys, t, s), k)
  }

  /** `resolve_evidence_verification_context` */
  function Resolve(r: Registry, t: TenantId, subject: SubjectId, s: SourceId, k: KeyId): Option<Context> {
    if Usable(r, t, subject, s, k) && Equal(r.db.sources[(t, s)].fingerprint, Some(r.keys[(t, s)][k].fingerprint)).True?
    then Some(Context(r.db.sources[(t, s)].evidenceType, r.db.sources[(t, s)].synthetic,
                      r.db.sources[(t, s)].maximumAge, r.keys[(t, s)][k].publicKey))
    else None
  }

  // ----- Runs -----

  datatype RegistryStep =
    | EnrollStep(actor: Actor, source: SourceId, key: KeyId, publicKey: string, at: int, now: int)
    | RotateStep(actor: Actor, source: SourceId, key: KeyId, publicKey: string, at: int, now: int)
    | RevokeKeyStep(actor: Actor, source: SourceId, key: KeyId, reason: string, at: int, now: int)
    | EditSourceStep(actor: Actor, source: SourceId, edit: SourceEdit)
    | SuspensionStep(actor: Actor, source: SourceId, suspended: bool, reason: string, at: int, now: int)
    | AutoSuspendStep(tenant: TenantId, source: SourceId)
    | TenancyStep(step: Step)

  ghost function RegistryNext(r: Registry, step: RegistryStep): Registry {
    match step
    case EnrollStep(a, s, k, pk, at, now) => Enroll(r, a, s, k, pk, at, now).0
    case RotateStep(a, s, k, pk, at, now) => Rotate(r, a, s, k, pk, at, now).0
    case RevokeKeyStep(a, s, k, reason, at, now) => RevokeKey(r, a, s, k, reason, at, now).0
    case EditSourceStep(a, s, e) => EditSource(r, a, s, e)
    case SuspensionStep(a, s, b, reason, at, now) => SetSuspension(r, a, s, b, reason, at, now)
    case AutoSuspendStep(t, s) => AutoSuspend(r, t, s)
    case TenancyStep(step) => r.(db := Apply(r.db, step))
  }

  ghost function RegistryRun(r: Registry, steps: seq<RegistryStep>): Registry
    decreases |steps|
  {
    if |steps| == 0 then r else RegistryRun(RegistryNext(r, steps[0]), steps[1..])
  }
}
