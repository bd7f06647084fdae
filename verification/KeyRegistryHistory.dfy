/** What the registry functions keep, over every run. */
module KeyRegistryHistory {
  import opened Sql
  import opened Tenancy
  import opened KeyRegistry

  // ----- Invariant -----

  /** The versions of a source's keys are 1, 2, ..., up to the number of its keys, each once,
      and no key material repeats. */
  predicate Numbered(rows: KeyRows) {
    && (forall k :: k in rows ==> 1 <= rows[k].version <= |rows|)
    && (forall v :: 1 <= v <= |rows| ==> HasVersion(rows, v))
    && (forall j, k :: j in rows && k in rows && j != k ==>
          rows[j].version != rows[k].version && rows[j].fingerprint != rows[k].fingerprint)
  }

  /** The source's fingerprint is that of its active key, which is the newest; without an
      active key there is none. */
  predicate FingerprintIsActiveKey(source: Source, rows: KeyRows) {
    && (forall k :: k in rows && rows[k].state == KeyActive ==>
          source.fingerprint == Some(rows[k].fingerprint) && rows[k].version == |rows|)
    && (source.fingerprint.Some? ==> HasActiveKeyWith(rows, source.fingerprint))
  }

  predicate SourceOk(source: Source, rows: KeyRows) {
    && Numbered(rows)
    && FingerprintIsActiveKey(source, rows)
    && (source.state == CfgPlanned ==> rows == map[])
    && (source.state == CfgActive ==> source.fingerprint.Some?)
    && (source.state == CfgSuspended ==> rows != map[])
    && (forall k :: k in rows ==> KeyShape(rows[k]))
  }

  predicate RegistryOk(r: Registry) {
    && (forall x :: x in r.db.sources ==> SourceOk(r.db.sources[x], KeysOf(r.keys, x.0, x.1)))
    && (forall x :: x in r.keys && r.keys[x] != map[] ==> x in r.db.sources)
  }

  // ----- One source at a time -----

  /** A source that gets a first or a next key. */
  lemma NewKeyKeepsSource(source: Source, rows: KeyRows, after: Source, k: KeyId, key: SourceKey)
    requires Numbered(rows) && (forall j :: j in rows ==> KeyShape(rows[j]))
    requires KeyFits(rows, k, key) && key.state == KeyActive && key.version == |rows| + 1
    requires after == source.(state := CfgActive, fingerprint := Some(key.fingerprint), version := source.version + 1)
    ensures SourceOk(after, rows[k := key])
  {
    var rows' := rows[k := key];
    assert |rows'| == |rows| + 1;
    forall v | 1 <= v <= |rows'| ensures HasVersion(rows', v) {
      if v <= |rows| {
        assert HasVersion(rows, v);
        var j :| j in rows && rows[j].version == v;
        assert rows'[j].version == v;
      } else {
        assert rows'[k].version == v;
      }
    }
    assert k in rows' && rows'[k].state == KeyActive && rows'[k].fingerprint == key.fingerprint;
  }

  /** Changing the state of one key leaves the numbering alone. */
  lemma StateChangeKeepsNumbering(rows: KeyRows, k: KeyId, key: SourceKey)
    requires Numbered(rows) && k in rows
    requires key.version == rows[k].version && key.fingerprint == rows[k].fingerprint
    ensures Numbered(rows[k := key]) && |rows[k := key]| == |rows|
  {
    var rows' := rows[k := key];
    assert rows'.Keys == rows.Keys && |rows'.Keys| == |rows'| && |rows.Keys| == |rows|;
    assert forall j :: j in rows ==> rows'[j].version == rows[j].version && rows'[j].fingerprint == rows[j].fingerprint;
    forall v | 1 <= v <= |rows'| ensures HasVersion(rows', v) {
      assert HasVersion(rows, v);
      var j :| j in rows && rows[j].version == v;
      assert rows'[j].version == v;
    }
  }

  lemma HighestVersionIsCount(rows: KeyRows)
    requires Numbered(rows) && |rows| != 0
    ensures HighestVersion(rows) == |rows|
  {
    var k: KeyId :| k in rows && rows[k].version == HighestVersion(rows);
    assert HasVersion(rows, |rows|);
  }

  lemma AtMostOneActiveKey(source: Source, rows: KeyRows, j: KeyId, k: KeyId)
    requires SourceOk(source, rows) && IsActiveKey(rows, j) && IsActiveKey(rows, k)
    ensures j == k
  {
  }

  // ----- Every step -----

  lemma WriteKeepsOk(r: Registry, t: TenantId, s: SourceId, row: Source, rows: KeyRows)
    requires RegistryOk(r) && SourceOk(row, rows)
    ensures RegistryOk(Write(r, t, s, row, rows))
  {
    var after := Write(r, t, s, row, rows);
    forall x | x in after.db.sources ensures SourceOk(after.db.sources[x], KeysOf(after.keys, x.0, x.1)) {
      assert x == (x.0, x.1);
    }
  }

  lemma CommitKeepsOk(r: Registry, t: TenantId, s: SourceId, outcome: (Source, KeyRows, KeyReply))
    requires RegistryOk(r) && SourceOk(outcome.0, outcome.1)
    ensures RegistryOk(Commit(r, t, s, outcome).0)
  {
    WriteKeepsOk(r, t, s, outcome.0, outcome.1);
  }

  lemma EnrolmentKeepsSource(source: Source, rows: KeyRows, k: KeyId, publicKey: string, author: SubjectId, at: int)
    requires SourceOk(source, rows)
    ensures var o := EnrollRows(source, rows, k, publicKey, author, at); SourceOk(o.0, o.1)
  {
    var o := EnrollRows(source, rows, k, publicKey, author, at);
    if o.2.KeyDone? {
      assert |rows| == 0;
      NewKeyKeepsSource(source, rows, o.0, k, NewKey(1, publicKey, author, at));
    }
  }

  lemma EnrollKeepsOk(r: Registry, a: Actor, s: SourceId, k: KeyId, publicKey: string, at: int, now: int)
    requires RegistryOk(r)
    ensures RegistryOk(Enroll(r, a, s, k, publicKey, at, now).0)
  {
    if ActorIsAdmin(r.db, a) && at <= now + 2 * SECOND && (a.tenant.value, s) in r.db.sources {
      var source, rows := r.db.sources[(a.tenant.value, s)], KeysOf(r.keys, a.tenant.value, s);
      EnrolmentKeepsSource(source, rows, k, publicKey, a.subject.value, at);
      CommitKeepsOk(r, a.tenant.value, s, EnrollRows(source, rows, k, publicKey, a.subject.value, at));
    }
  }

  lemma RotationKeepsRows(source: Source, rows: KeyRows, author: SubjectId, at: int)
    requires SourceOk(source, rows)
    requires var c := ActiveKey(rows); c.Some? ==> at >= rows[c.value].enrolled.at
    ensures var rotated := AfterRotation(rows, ActiveKey(rows), author, at);
            && Numbered(rotated) && |rotated| == |rows|
            && (forall j :: j in rotated ==> KeyShape(rotated[j]) && rotated[j].state != KeyActive)
  {
    var c := ActiveKey(rows);
    var rotated := AfterRotation(rows, c, author, at);
    if c.Some? {
      forall j | j in rows && rows[j].state == KeyActive ensures j == c.value {
        AtMostOneActiveKey(source, rows, j, c.value);
      }
      assert KeyShape(rows[c.value]);
      StateChangeKeepsNumbering(rows, c.value, RotatedKey(rows[c.value], author, at));
    } else {
      forall j | j in rows ensures rows[j].state != KeyActive {
        assert !IsActiveKey(rows, j);
      }
    }
  }

  lemma RotationKeepsHighest(source: Source, rows: KeyRows, author: SubjectId, at: int)
    requires SourceOk(source, rows) && |rows| != 0
    requires var c := ActiveKey(rows); c.Some? ==> at >= rows[c.value].enrolled.at
    ensures var rotated := AfterRotation(rows, ActiveKey(rows), author, at);
            |rotated| != 0 && HighestVersion(rotated) == HighestVersion(rows)
  {
    RotationKeepsRows(source, rows, author, at);
    HighestVersionIsCount(rows);
    HighestVersionIsCount(AfterRotation(rows, ActiveKey(rows), author, at));
  }

  /** What a rotation that succeeds found and wrote; one that fails writes nothing. */
  lemma RotationOutcome(source: Source, rows: KeyRows, k: KeyId, publicKey: string, author: SubjectId, at: int)
    ensures var o := RotateRows(source, rows, k, publicKey, author, at);
            if o.2.KeyDone?
            then
              && |rows| != 0 && (ActiveKey(rows).Some? ==> at >= rows[ActiveKey(rows).value].enrolled.at)
              && var key := NewKey(HighestVersion(rows) + 1, publicKey, author, at);
                 && KeyFits(AfterRotation(rows, ActiveKey(rows), author, at), k, key)
                 && o.0 == source.(state := CfgActive, fingerprint := Some(key.fingerprint), version := source.version + 1)
                 && o.1 == AfterRotation(rows, ActiveKey(rows), author, at)[k := key]
            else o.0 == source && o.1 == rows
  {
  }

  lemma SuccessfulRotationKeepsSource(source: Source, rows: KeyRows, after: Source, k: KeyId, key: SourceKey,
                                      author: SubjectId, at: int)
    requires SourceOk(source, rows) && |rows| != 0
    requires ActiveKey(rows).Some? ==> at >= rows[ActiveKey(rows).value].enrolled.at
    requires KeyFits(AfterRotation(rows, ActiveKey(rows), author, at), k, key)
    requires key.state == KeyActive && key.version == HighestVersion(rows) + 1
    requires after == source.(state := CfgActive, fingerprint := Some(key.fingerprint), version := source.version + 1)
    ensures SourceOk(after, AfterRotation(rows, ActiveKey(rows), author, at)[k := key])
  {
    RotationKeepsRows(source, rows, author, at);
    HighestVersionIsCount(rows);
    NewKeyKeepsSource(source, AfterRotation(rows, ActiveKey(rows), author, at), after, k, key);
  }

  lemma RotationKeepsSource(source: Source, rows: KeyRows, k: KeyId, publicKey: string, author: SubjectId, at: int)
    requires SourceOk(source, rows)
    ensures var o := RotateRows(source, rows, k, publicKey, author, at); SourceOk(o.0, o.1)
  {
    RotationOutcome(source, rows, k, publicKey, author, at);
    var o := RotateRows(source, rows, k, publicKey, author, at);
    if o.2.KeyDone? {
      SuccessfulRotationKeepsSource(source, rows, o.0, k, NewKey(HighestVersion(rows) + 1, publicKey, author, at), author, at);
    }
  }

  lemma RotateKeepsOk(r: Registry, a: Actor, s: SourceId, k: KeyId, publicKey: string, at: int, now: int)
    requires RegistryOk(r)
    ensures RegistryOk(Rotate(r, a, s, k, publicKey, at, now).0)
  {
    if ActorIsAdmin(r.db, a) && at <= now + 2 * SECOND && (a.tenant.value, s) in r.db.sources {
      var source, rows := r.db.sources[(a.tenant.value, s)], KeysOf(r.keys, a.tenant.value, s);
      RotationKeepsSource(source, rows, k, publicKey, a.subject.value, at);
      CommitKeepsOk(r, a.tenant.value, s, RotateRows(source, rows, k, publicKey, a.subject.value, at));
    }
  }

  lemma ActiveRevocationLeavesNone(source: Source, rows: KeyRows, k: KeyId, key: SourceKey)
    requires SourceOk(source, rows) && IsActiveKey(rows, k) && key.state == KeyRevoked
    ensures var rows' := rows[k := key]; forall j :: j in rows' ==> rows'[j].state != KeyActive
  {
    forall j | j in rows && rows[j].state == KeyActive ensures j == k {
      AtMostOneActiveKey(source, rows, j, k);
    }
  }

  lemma OtherRevocationKeepsFingerprint(source: Source, rows: KeyRows, k: KeyId, key: SourceKey)
    requires FingerprintIsActiveKey(source, rows) && k in rows && rows[k].state != KeyActive && key.state == KeyRevoked
    requires |rows[k := key]| == |rows|
    ensures FingerprintIsActiveKey(source, rows[k := key])
  {
    if source.fingerprint.Some? {
      var j :| j in rows && rows[j].state == KeyActive && rows[j].fingerprint == source.fingerprint.value;
      assert j in rows[k := key] && rows[k := key][j] == rows[j];
    }
  }

  lemma RevocationKeepsSource(source: Source, rows: KeyRows, k: KeyId, reason: string, author: SubjectId, at: int)
    requires SourceOk(source, rows)
    ensures var o := RevokeRows(source, rows, k, reason, author, at); SourceOk(o.0, o.1)
  {
    if RevokeRows(source, rows, k, reason, author, at).2.KeyDone? {
      var key := RevokedKey(rows[k], author, at, reason);
      StateChangeKeepsNumbering(rows, k, key);
      if rows[k].state == KeyActive {
        ActiveRevocationLeavesNone(source, rows, k, key);
      } else {
        OtherRevocationKeepsFingerprint(source, rows, k, key);
      }
      assert KeyShape(rows[k]) && KeyShape(key);
      assert rows[k := key] != map[];
    }
  }

  lemma RevokeKeepsOk(r: Registry, a: Actor, s: SourceId, k: KeyId, reason: string, at: int, now: int)
    requires RegistryOk(r)
    ensures RegistryOk(RevokeKey(r, a, s, k, reason, at, now).0)
  {
    if ActorIsAdmin(r.db, a) && (a.tenant.value, s) in r.db.sources {
      var source, rows := r.db.sources[(a.tenant.value, s)], KeysOf(r.keys, a.tenant.value, s);
      RevocationKeepsSource(source, rows, k, reason, a.subject.value, at);
      CommitKeepsOk(r, a.tenant.value, s, RevokeRows(source, rows, k, reason, a.subject.value, at));
    }
  }

  lemma TenancyOnlyRetiresSources(db: Tables, step: Step)
    ensures Apply(db, step).sources.Keys == db.sources.Keys
    ensures forall x :: x in db.sources ==>
              Apply(db, step).sources[x] == db.sources[x] || Apply(db, step).sources[x] == RetiredSource(db.sources[x])
  {
    match step {
      case EditStep(a, e) => assert ApplyEdit(db, a, e).sources == db.sources;
      case SuspendStep(p, t, r, now) => assert SuspendTenant(db, p, t, r, now).0.sources == db.sources;
      case ReactivateStep(p, t, r, now) => assert ReactivateTenant(db, p, t, r, now).0.sources == db.sources;
      case TeardownStep(p, t, r, now) =>
        assert TeardownTenant(db, p, t, r, now).0.sources in {db.sources, Strip(db, t).sources};
      case SubjectChanged(s, st) =>
    }
  }

  lemma RetiredSourceStaysOk(source: Source, rows: KeyRows)
    requires SourceOk(source, rows)
    ensures SourceOk(RetiredSource(source), rows)
  {
  }

  lemma TenancyKeepsOk(r: Registry, step: Step)
    requires RegistryOk(r)
    ensures RegistryOk(r.(db := Apply(r.db, step)))
  {
    TenancyOnlyRetiresSources(r.db, step);
    forall x | x in r.db.sources ensures SourceOk(Apply(r.db, step).sources[x], KeysOf(r.keys, x.0, x.1)) {
      RetiredSourceStaysOk(r.db.sources[x], KeysOf(r.keys, x.0, x.1));
    }
  }

  lemma SourceWriteKeepsOk(r: Registry, t: TenantId, s: SourceId, row: Source)
    requires RegistryOk(r) && SourceOk(row, KeysOf(r.keys, t, s))
    ensures RegistryOk(r.(db := r.db.(sources := r.db.sources[(t, s) := row])))
  {
    var after := r.(db := r.db.(sources := r.db.sources[(t, s) := row]));
    forall x | x in after.db.sources ensures SourceOk(after.db.sources[x], KeysOf(after.keys, x.0, x.1)) {
      assert x == (x.0, x.1);
    }
  }

  lemma NewSourceIsOk(row: Source)
    requires row.state == CfgPlanned && row.fingerprint.None?
    ensures SourceOk(row, map[])
  {
  }

  lemma EditedSourceStaysOk(source: Source, row: Source, rows: KeyRows)
    requires SourceOk(source, rows) && (row.state, row.fingerprint) == (source.state, source.fingerprint)
    ensures SourceOk(row, rows)
  {
  }

  lemma EditSourceKeepsOk(r: Registry, a: Actor, s: SourceId, e: SourceEdit)
    requires RegistryOk(r)
    ensures RegistryOk(EditSource(r, a, s, e))
  {
    if EditSource(r, a, s, e) != r {
      var t := a.tenant.value;
      match e {
        case InsertSource(row) =>
          NewSourceIsOk(row);
          SourceWriteKeepsOk(r, t, s, row);
        case UpdateSource(row) =>
          EditedSourceStaysOk(r.db.sources[(t, s)], row, KeysOf(r.keys, t, s));
          SourceWriteKeepsOk(r, t, s, row);
        case DeleteSource =>
      }
    }
  }

  lemma SuspensionKeepsSource(source: Source, rows: KeyRows)
    requires SourceOk(source, rows)
    ensures source.state == CfgActive ==> SourceOk(source.(state := CfgSuspended, version := source.version + 1), rows)
    ensures source.state == CfgSuspended && source.fingerprint.Some? ==>
              SourceOk(source.(state := CfgActive, version := source.version + 1), rows)
  {
    if source.state == CfgActive {
      var k :| k in rows && rows[k].state == KeyActive && rows[k].fingerprint == source.fingerprint.value;
      assert rows != map[];
    }
  }

  lemma SuspensionKeepsOk(r: Registry, a: Actor, s: SourceId, suspended: bool, reason: string, at: int, now: int)
    requires RegistryOk(r)
    ensures RegistryOk(SetSuspension(r, a, s, suspended, reason, at, now))
  {
    var after := SetSuspension(r, a, s, suspended, reason, at, now);
    if after != r {
      var t := a.tenant.value;
      SuspensionKeepsSource(r.db.sources[(t, s)], KeysOf(r.keys, t, s));
      SourceWriteKeepsOk(r, t, s, after.db.sources[(t, s)]);
    }
  }

  lemma AutoSuspendKeepsOk(r: Registry, t: TenantId, s: SourceId)
    requires RegistryOk(r)
    ensures RegistryOk(AutoSuspend(r, t, s))
  {
    var after := AutoSuspend(r, t, s);
    if after != r {
      SuspensionKeepsSource(r.db.sources[(t, s)], KeysOf(r.keys, t, s));
      SourceWriteKeepsOk(r, t, s, after.db.sources[(t, s)]);
    }
  }

  lemma StepKeepsOk(r: Registry, step: RegistryStep)
    requires RegistryOk(r)
    ensures RegistryOk(RegistryNext(r, step))
  {
    match step {
      case EnrollStep(a, s, k, pk, at, now) => EnrollKeepsOk(r, a, s, k, pk, at, now);
      case RotateStep(a, s, k, pk, at, now) => RotateKeepsOk(r, a, s, k, pk, at, now);
      case RevokeKeyStep(a, s, k, reason, at, now) => RevokeKeepsOk(r, a, s, k, reason, at, now);
      case EditSourceStep(a, s, e) => EditSourceKeepsOk(r, a, s, e);
      case SuspensionStep(a, s, b, reason, at, now) => SuspensionKeepsOk(r, a, s, b, reason, at, now);
      case AutoSuspendStep(t, s) => AutoSuspendKeepsOk(r, t, s);
      case TenancyStep(step) => TenancyKeepsOk(r, step);
    }
  }

  /** The registry invariant over every run, from the empty registry in particular. */
  lemma {:induction false} RunKeepsOk(r: Registry, steps: seq<RegistryStep>)
    requires RegistryOk(r)
    ensures RegistryOk(RegistryRun(r, steps))
    decreases |steps|
  {
    if |steps| != 0 {
      StepKeepsOk(r, steps[0]);
      RunKeepsOk(RegistryNext(r, steps[0]), steps[1..]);
    }
  }
}
