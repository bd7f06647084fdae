/** When each function of the key registry succeeds and what it leaves in the rows of the source
    and of its keys, said of the rows alone. */
module KeyRegistryOutcomes {
  import opened Sql
  import opened Tenancy
  import opened TenancyOutcomes
  import opened KeyRegistry
  import opened KeyRegistryHistory
  import opened KeyRegistryEpochs

  /** An administrator's call, at most two seconds ahead of the clock, on a source of its
      tenant. */
  predicate Called(r: Registry, t: TenantId, author: SubjectId, s: SourceId, at: int, now: int) {
    Administers(r.db, t, author) && at - now <= 2_000_000 && (t, s) in r.db.sources
  }

  /** The source's row and its key rows, and nothing else of the registry. */
  ghost predicate Wrote(r: Registry, after: Registry, t: TenantId, s: SourceId, row: Source, rows: KeyRows) {
    && after.db == r.db.(sources := r.db.sources[(t, s) := row])
    && after.keys == r.keys[(t, s) := rows]
  }

  // ----- Enrolment -----

  /** A source gets its first key if and only if it is planned and of the supported algorithm. */
  lemma EnrolmentIff(r: Registry, t: TenantId, author: SubjectId, s: SourceId, k: KeyId, publicKey: string, at: int, now: int)
    requires RegistryOk(r)
    ensures var (after, reply) := Enroll(r, Actor(Some(t), Some(author)), s, k, publicKey, at, now);
            && (reply.KeyDone? <==> Called(r, t, author, s, at, now) && r.db.sources[(t, s)].state == CfgPlanned
                                    && r.db.sources[(t, s)].algorithm == Ed25519)
            && (reply == InvalidInput <==> Administers(r.db, t, author) && at - now > 2_000_000)
            && (!reply.KeyDone? ==> after == r && (reply == InvalidInput || reply == KeyDenied))
            && (reply.KeyDone? ==>
                  var source := r.db.sources[(t, s)];
                  && reply == KeyDone(1, CfgActive, source.version + 1)
                  && Wrote(r, after, t, s,
                           source.(state := CfgActive, fingerprint := Some(Sha256(publicKey)), version := source.version + 1),
                           map[k := SourceKey(1, publicKey, Sha256(publicKey), KeyActive, Stamp(author, at), None, None, None)]))
  {
    ActorRightsIff(r.db, Actor(Some(t), Some(author)));
    if (t, s) in r.db.sources {
      assert SourceOk(r.db.sources[(t, s)], KeysOf(r.keys, t, s));
    }
  }

  // ----- Rotation -----

  /** Keys of a source that is active or suspended may be rotated. */
  predicate Rotating(source: Source, rows: KeyRows) {
    (source.state == CfgActive || source.state == CfgSuspended) && source.algorithm == Ed25519 && rows != map[]
  }

  predicate ActiveKeyIsOlder(rows: KeyRows, at: int) {
    forall j :: j in rows && rows[j].state == KeyActive ==> rows[j].enrolled.at <= at
  }

  predicate NewToSource(rows: KeyRows, k: KeyId, publicKey: string) {
    k !in rows && forall j :: j in rows ==> rows[j].fingerprint != Sha256(publicKey)
  }

  /** The rows after a rotation: the active key, if any, is rotated, the next one active. */
  predicate RotatedRows(rows: KeyRows, after: KeyRows, k: KeyId, publicKey: string, author: SubjectId, at: int) {
    && after.Keys == rows.Keys + {k}
    && after[k] == SourceKey(|rows| + 1, publicKey, Sha256(publicKey), KeyActive, Stamp(author, at), None, None, None)
    && forall j :: j in rows && j != k ==>
         after[j] == if rows[j].state == KeyActive
                     then rows[j].(state := KeyRotated, rotated := Some(Stamp(author, at))) else rows[j]
  }

  /** The active key is the only one. */
  predicate OnlyActive(rows: KeyRows, c: Option<KeyId>) {
    && (c.Some? ==> c.value in rows && rows[c.value].state == KeyActive)
    && forall j :: j in rows && rows[j].state == KeyActive ==> c == Some(j)
  }

  lemma ActiveKeyIsTheOnlyOne(source: Source, rows: KeyRows)
    requires SourceOk(source, rows)
    ensures OnlyActive(rows, ActiveKey(rows))
  {
    var c := ActiveKey(rows);
    forall j | j in rows && rows[j].state == KeyActive ensures c == Some(j) {
      assert IsActiveKey(rows, j);
      AtMostOneActiveKey(source, rows, j, c.value);
    }
  }

  lemma OnlyActiveKeyIsOlderIff(source: Source, rows: KeyRows, at: int)
    requires SourceOk(source, rows)
    ensures (ActiveKey(rows).Some? ==> at >= rows[ActiveKey(rows).value].enrolled.at) <==> ActiveKeyIsOlder(rows, at)
  {
    ActiveKeyIsTheOnlyOne(source, rows);
  }

  lemma RotationRotatesTheActiveKey(rows: KeyRows, c: Option<KeyId>, k: KeyId, publicKey: string, author: SubjectId, at: int)
    requires OnlyActive(rows, c) && k !in rows
    ensures RotatedRows(rows, AfterRotation(rows, c, author, at)[k := NewKey(|rows| + 1, publicKey, author, at)],
                        k, publicKey, author, at)
  {
  }

  /** Once the checks have passed, only a reused identifier or material stops a rotation. */
  lemma CheckedRotationIff(source: Source, rows: KeyRows, k: KeyId, publicKey: string, author: SubjectId, at: int)
    requires SourceOk(source, rows) && |rows| != 0 && ActiveKeyIsOlder(rows, at)
    ensures KeyFits(AfterRotation(rows, ActiveKey(rows), author, at), k, NewKey(HighestVersion(rows) + 1, publicKey, author, at))
            <==> NewToSource(rows, k, publicKey)
    ensures HighestVersion(rows) == |rows|
  {
    HighestVersionIsCount(rows);
    OnlyActiveKeyIsOlderIff(source, rows, at);
    RotatedKeyFitsIff(source, rows, k, publicKey, author, at);
  }

  /** Which rotations of one source's keys succeed, and what each of the others is told. */
  lemma RotationReplyIff(source: Source, rows: KeyRows, k: KeyId, publicKey: string, author: SubjectId, at: int)
    requires SourceOk(source, rows)
    ensures var reply := RotateRows(source, rows, k, publicKey, author, at).2;
            && (reply == KeyDenied <==> !Rotating(source, rows))
            && (reply == InvalidInput <==> Rotating(source, rows) && !ActiveKeyIsOlder(rows, at))
            && (reply == KeyRejected <==>
                  Rotating(source, rows) && ActiveKeyIsOlder(rows, at) && !NewToSource(rows, k, publicKey))
            && (reply.KeyDone? <==>
                  Rotating(source, rows) && ActiveKeyIsOlder(rows, at) && NewToSource(rows, k, publicKey))
  {
    RotationFindsTheActiveKey(source, rows, k, publicKey, author, at);
    OnlyActiveKeyIsOlderIff(source, rows, at);
    if |rows| != 0 && ActiveKeyIsOlder(rows, at) {
      CheckedRotationIff(source, rows, k, publicKey, author, at);
    }
  }

  /** What a rotation that succeeds leaves. */
  lemma RotationLeaves(source: Source, rows: KeyRows, k: KeyId, publicKey: string, author: SubjectId, at: int)
    requires SourceOk(source, rows)
    requires Rotating(source, rows) && ActiveKeyIsOlder(rows, at) && NewToSource(rows, k, publicKey)
    ensures var (row, after, reply) := RotateRows(source, rows, k, publicKey, author, at);
            && reply == KeyDone(|rows| + 1, CfgActive, source.version + 1)
            && row == source.(state := CfgActive, fingerprint := Some(Sha256(publicKey)), version := source.version + 1)
            && RotatedRows(rows, after, k, publicKey, author, at)
  {
    RotationReplyIff(source, rows, k, publicKey, author, at);
    RotationOutcome(source, rows, k, publicKey, author, at);
    CheckedRotationIff(source, rows, k, publicKey, author, at);
    ActiveKeyIsTheOnlyOne(source, rows);
    RotationRotatesTheActiveKey(rows, ActiveKey(rows), k, publicKey, author, at);
  }

  /** The source's row and its keys after a rotation, and nothing else of the registry. */
  ghost predicate RotationLeft(r: Registry, after: Registry, t: TenantId, s: SourceId, k: KeyId, publicKey: string,
                               author: SubjectId, at: int, reply: KeyReply)
    requires (t, s) in r.db.sources
  {
    var source, rows := r.db.sources[(t, s)], KeysOf(r.keys, t, s);
    && reply == KeyDone(|rows| + 1, CfgActive, source.version + 1)
    && Wrote(r, after, t, s,
             source.(state := CfgActive, fingerprint := Some(Sha256(publicKey)), version := source.version + 1),
             KeysOf(after.keys, t, s))
    && RotatedRows(rows, KeysOf(after.keys, t, s), k, publicKey, author, at)
  }

  lemma CommittedRotation(r: Registry, t: TenantId, s: SourceId, k: KeyId, publicKey: string, author: SubjectId, at: int,
                          row: Source, rows: KeyRows, reply: KeyReply)
    requires (t, s) in r.db.sources
    requires var source := r.db.sources[(t, s)];
             && reply == KeyDone(|KeysOf(r.keys, t, s)| + 1, CfgActive, source.version + 1)
             && row == source.(state := CfgActive, fingerprint := Some(Sha256(publicKey)), version := source.version + 1)
             && RotatedRows(KeysOf(r.keys, t, s), rows, k, publicKey, author, at)
    ensures var (after, reply') := Commit(r, t, s, (row, rows, reply));
            RotationLeft(r, after, t, s, k, publicKey, author, at, reply')
  {
  }

  lemma RotateIsCommit(r: Registry, t: TenantId, author: SubjectId, s: SourceId, k: KeyId, publicKey: string, at: int, now: int)
    ensures var outcome := Rotate(r, Actor(Some(t), Some(author)), s, k, publicKey, at, now);
            if Called(r, t, author, s, at, now)
            then outcome == Commit(r, t, s, RotateRows(r.db.sources[(t, s)], KeysOf(r.keys, t, s), k, publicKey, author, at))
            else outcome == (r, if Administers(r.db, t, author) && at - now > 2_000_000 then InvalidInput else KeyDenied)
  {
    ActorRightsIff(r.db, Actor(Some(t), Some(author)));
  }

  /** A rotation call is done if and only if the rows allow it; it leaves what it should. */
  ghost predicate RotationAnswered(r: Registry, t: TenantId, author: SubjectId, s: SourceId, k: KeyId, publicKey: string,
                                   at: int, now: int, after: Registry, reply: KeyReply)
  {
    var rows := KeysOf(r.keys, t, s);
    && (reply.KeyDone? <==> Called(r, t, author, s, at, now) && Rotating(r.db.sources[(t, s)], rows)
                            && ActiveKeyIsOlder(rows, at) && NewToSource(rows, k, publicKey))
    && (!reply.KeyDone? ==> after == r)
    && (reply.KeyDone? ==> RotationLeft(r, after, t, s, k, publicKey, author, at, reply))
  }

  lemma CalledRotation(r: Registry, t: TenantId, author: SubjectId, s: SourceId, k: KeyId, publicKey: string, at: int, now: int)
    requires Called(r, t, author, s, at, now) && SourceOk(r.db.sources[(t, s)], KeysOf(r.keys, t, s))
    ensures var outcome := Commit(r, t, s, RotateRows(r.db.sources[(t, s)], KeysOf(r.keys, t, s), k, publicKey, author, at));
            RotationAnswered(r, t, author, s, k, publicKey, at, now, outcome.0, outcome.1)
  {
    var source, rows := r.db.sources[(t, s)], KeysOf(r.keys, t, s);
    RotationReplyIff(source, rows, k, publicKey, author, at);
    if Rotating(source, rows) && ActiveKeyIsOlder(rows, at) && NewToSource(rows, k, publicKey) {
      RotationLeaves(source, rows, k, publicKey, author, at);
      var (row, rows', reply) := RotateRows(source, rows, k, publicKey, author, at);
      CommittedRotation(r, t, s, k, publicKey, author, at, row, rows', reply);
    }
  }

  /** The rotation function: who may call it, which calls succeed, and what they leave. */
  lemma RotationIff(r: Registry, t: TenantId, author: SubjectId, s: SourceId, k: KeyId, publicKey: string, at: int, now: int)
    requires RegistryOk(r)
    ensures var (after, reply) := Rotate(r, Actor(Some(t), Some(author)), s, k, publicKey, at, now);
            RotationAnswered(r, t, author, s, k, publicKey, at, now, after, reply)
  {
    RotateIsCommit(r, t, author, s, k, publicKey, at, now);
    if Called(r, t, author, s, at, now) {
      assert SourceOk(r.db.sources[(t, s)], KeysOf(r.keys, t, s));
      CalledRotation(r, t, author, s, k, publicKey, at, now);
    }
  }

  // ----- Revocation -----

  /** A key is revoked if and only if it is there, not revoked yet and not enrolled later; the
      source is suspended and loses its fingerprint exactly when the key was active. */
  lemma RevocationIff(r: Registry, t: TenantId, author: SubjectId, s: SourceId, k: KeyId, reason: string, at: int, now: int)
    ensures var (after, reply) := RevokeKey(r, Actor(Some(t), Some(author)), s, k, reason, at, now);
            var rows := KeysOf(r.keys, t, s);
            && (reply.KeyDone? <==> Called(r, t, author, s, at, now) && ReasonCodeFormat(reason)
                                    && k in rows && rows[k].state != KeyRevoked && rows[k].enrolled.at <= at)
            && (reply == InvalidInput <==> Administers(r.db, t, author) && (!ReasonCodeFormat(reason) || at - now > 2_000_000))
            && (!reply.KeyDone? ==> after == r && (reply == InvalidInput || reply == KeyDenied))
            && (reply.KeyDone? ==>
                  var source := r.db.sources[(t, s)];
                  var suspends := rows[k].state == KeyActive;
                  && reply == KeyDone(rows[k].version, if suspends then CfgSuspended else source.state, source.version + 1)
                  && Wrote(r, after, t, s,
                           source.(state := if suspends then CfgSuspended else source.state,
                                   fingerprint := if suspends then None else source.fingerprint,
                                   version := source.version + 1),
                           rows[k := rows[k].(state := KeyRevoked, revoked := Some(Stamp(author, at)), reason := Some(reason))]))
  {
    ActorRightsIff(r.db, Actor(Some(t), Some(author)));
  }

  lemma RevocationLeavesRotatableRows(source: Source, rows: KeyRows, former: KeyId, key: SourceKey, k: KeyId,
                                      publicKey: string, at: int)
    requires SourceOk(source, rows) && IsActiveKey(rows, former) && NewToSource(rows, k, publicKey)
    requires key.state == KeyRevoked && key.fingerprint == rows[former].fingerprint
    ensures var after := rows[former := key];
            |after| == |rows| && after != map[] && ActiveKeyIsOlder(after, at) && NewToSource(after, k, publicKey)
  {
    ActiveKeyIsTheOnlyOne(source, rows);
    var after := rows[former := key];
    assert after.Keys == rows.Keys && |after.Keys| == |after| && |rows.Keys| == |rows|;
    assert former in after;
  }

  /** A source whose only active key was revoked is suspended, and meets every condition of
      RotationIff for a key that is new to it. */
  lemma RevocationMakesRotatable(r: Registry, t: TenantId, author: SubjectId, s: SourceId, former: KeyId, reason: string,
                                 at: int, now: int, k: KeyId, publicKey: string, at': int, now': int)
    requires RegistryOk(r) && Called(r, t, author, s, at', now') && r.db.sources[(t, s)].algorithm == Ed25519
    requires IsActiveKey(KeysOf(r.keys, t, s), former) && NewToSource(KeysOf(r.keys, t, s), k, publicKey)
    requires RevokeKey(r, Actor(Some(t), Some(author)), s, former, reason, at, now).1.KeyDone?
    ensures var revoked := RevokeKey(r, Actor(Some(t), Some(author)), s, former, reason, at, now).0;
            && RegistryOk(revoked) && Called(revoked, t, author, s, at', now')
            && revoked.db.sources[(t, s)].state == CfgSuspended
            && revoked.db.sources[(t, s)].version == r.db.sources[(t, s)].version + 1
            && var rows := KeysOf(revoked.keys, t, s);
               && Rotating(revoked.db.sources[(t, s)], rows) && ActiveKeyIsOlder(rows, at') && NewToSource(rows, k, publicKey)
               && |rows| == |KeysOf(r.keys, t, s)|
  {
    var revoked := RevokeKey(r, Actor(Some(t), Some(author)), s, former, reason, at, now).0;
    var rows := KeysOf(r.keys, t, s);
    RevocationIff(r, t, author, s, former, reason, at, now);
    RevokeKeepsOk(r, Actor(Some(t), Some(author)), s, former, reason, at, now);
    var key := rows[former].(state := KeyRevoked, revoked := Some(Stamp(author, at)), reason := Some(reason));
    RevocationLeavesRotatableRows(r.db.sources[(t, s)], rows, former, key, k, publicKey, at');
    assert KeysOf(revoked.keys, t, s) == rows[former := key];
  }

  // ----- The other statements on a source -----

  /** The switch of migration 018 changes the state and the version of a source and nothing
      else, if and only if it is active, or suspended with the active key of its
      fingerprint. */
  lemma SuspensionIff(r: Registry, t: TenantId, author: SubjectId, s: SourceId, suspended: bool, reason: string, at: int, now: int)
    ensures var after := SetSuspension(r, Actor(Some(t), Some(author)), s, suspended, reason, at, now);
            var rows := KeysOf(r.keys, t, s);
            if Called(r, t, author, s, at, now) && ReasonCodeFormat(reason)
               && (if suspended then r.db.sources[(t, s)].state == CfgActive
                   else r.db.sources[(t, s)].state == CfgSuspended
                        && exists k :: k in rows && rows[k].state == KeyActive
                                       && r.db.sources[(t, s)].fingerprint == Some(rows[k].fingerprint))
            then after == Registry(r.db.(sources := r.db.sources[(t, s) := r.db.sources[(t, s)].(
                                     state := if suspended then CfgSuspended else CfgActive,
                                     version := r.db.sources[(t, s)].version + 1)]), r.keys)
            else after == r
  {
    ActorRightsIff(r.db, Actor(Some(t), Some(author)));
  }

  /** A direct statement of an administrator: new rows are planned and without key, later ones
      keep state, algorithm and fingerprint, and a source with a key stays. */
  lemma SourceEditIff(r: Registry, t: TenantId, author: SubjectId, s: SourceId, e: SourceEdit)
    ensures var after := EditSource(r, Actor(Some(t), Some(author)), s, e);
            && after.keys == r.keys && after.db == r.db.(sources := after.db.sources)
            && after.db.sources ==
               if !Administers(r.db, t, author) then r.db.sources
               else match e
                 case InsertSource(row) =>
                   if (t, s) !in r.db.sources && row.state == CfgPlanned && row.fingerprint.None? && 1 <= row.maximumAge <= 86400
                   then r.db.sources[(t, s) := row] else r.db.sources
                 case UpdateSource(row) =>
                   if (t, s) in r.db.sources && 1 <= row.maximumAge <= 86400
                      && row.state == r.db.sources[(t, s)].state && row.algorithm == r.db.sources[(t, s)].algorithm
                      && row.fingerprint == r.db.sources[(t, s)].fingerprint
                      && !(row.state == CfgActive && row.fingerprint.None?)
                   then r.db.sources[(t, s) := row] else r.db.sources
                 case DeleteSource =>
                   if KeysOf(r.keys, t, s) == map[] then r.db.sources - {(t, s)} else r.db.sources
  {
    ActorRightsIff(r.db, Actor(Some(t), Some(author)));
  }

  /** Without a bound tenant and subject no function writes anything. */
  lemma UnboundActorWritesNothing(r: Registry, a: Actor, s: SourceId, k: KeyId, publicKey: string, reason: string,
                                  suspended: bool, e: SourceEdit, at: int, now: int)
    requires a.tenant.None? || a.subject.None?
    ensures Enroll(r, a, s, k, publicKey, at, now) == (r, KeyDenied)
    ensures Rotate(r, a, s, k, publicKey, at, now) == (r, KeyDenied)
    ensures RevokeKey(r, a, s, k, reason, at, now) == (r, KeyDenied)
    ensures SetSuspension(r, a, s, suspended, reason, at, now) == r && EditSource(r, a, s, e) == r
  {
  }
}
