/** What the registry invariant means for the keys of a source over time. */
module KeyRegistryEpochs {
  import opened Sql
  import opened Tenancy
  import opened KeyRegistry
  import opened KeyRegistryHistory

  // ----- One active key, the newest -----

  /** An active source has exactly one active key; it has the highest version and its
      fingerprint is the source's. A planned source has no key at all. */
  lemma ActiveSourceHasOneKey(r: Registry, t: TenantId, s: SourceId) returns (k: KeyId)
    requires RegistryOk(r) && (t, s) in r.db.sources && r.db.sources[(t, s)].state == CfgActive
    ensures var rows := KeysOf(r.keys, t, s);
            && IsActiveKey(rows, k)
            && r.db.sources[(t, s)].fingerprint == Some(rows[k].fingerprint)
            && (forall j: KeyId :: IsActiveKey(rows, j) ==> j == k)
            && (forall j :: j in rows ==> rows[j].version <= rows[k].version)
  {
    var source, rows := r.db.sources[(t, s)], KeysOf(r.keys, t, s);
    assert SourceOk(source, rows);
    k :| k in rows && rows[k].state == KeyActive && rows[k].fingerprint == source.fingerprint.value;
    forall j: KeyId | IsActiveKey(rows, j) ensures j == k {
      AtMostOneActiveKey(source, rows, j, k);
    }
  }

  lemma PlannedSourceHasNoKey(r: Registry, t: TenantId, s: SourceId, k: KeyId)
    requires RegistryOk(r) && (t, s) in r.db.sources && r.db.sources[(t, s)].state == CfgPlanned
    ensures k !in KeysOf(r.keys, t, s)
  {
    assert SourceOk(r.db.sources[(t, s)], KeysOf(r.keys, t, s));
  }

  /** Whatever its state, a source has an active key exactly when it has a fingerprint. */
  lemma HasActiveKeyIffFingerprint(r: Registry, t: TenantId, s: SourceId)
    requires RegistryOk(r) && (t, s) in r.db.sources
    ensures (exists k: KeyId :: IsActiveKey(KeysOf(r.keys, t, s), k)) <==> r.db.sources[(t, s)].fingerprint.Some?
  {
    var source, rows := r.db.sources[(t, s)], KeysOf(r.keys, t, s);
    assert SourceOk(source, rows);
    if source.fingerprint.Some? {
      var k: KeyId :| k in rows && rows[k].state == KeyActive;
      assert IsActiveKey(rows, k);
    }
  }

  /** The fingerprint test of the verification join never decides anything. */
  lemma FingerprintJoinIsImplied(r: Registry, t: TenantId, subject: SubjectId, s: SourceId, k: KeyId)
    requires RegistryOk(r)
    ensures Resolve(r, t, subject, s, k).Some? <==> Usable(r, t, subject, s, k)
  {
    if Usable(r, t, subject, s, k) {
      assert SourceOk(r.db.sources[(t, s)], KeysOf(r.keys, t, s));
    }
  }

  /** Over every run, on the rows: the verification lookup answers exactly when tenant,
      membership, subject and source are active, the algorithm is supported and the key is
      active, and then with the source's type, flag and age and the key's material. Its
      fingerprint test decides nothing, and a planned source has no key. */
  lemma LookupNeedsNoFingerprint(r: Registry, steps: seq<RegistryStep>, t: TenantId, subject: SubjectId, s: SourceId, k: KeyId)
    requires RegistryOk(r)
    ensures var end := RegistryRun(r, steps);
            && Resolve(end, t, subject, s, k) ==
               (if && t in end.db.tenants && end.db.tenants[t].state == Active
                   && (t, subject) in end.db.memberships && end.db.memberships[(t, subject)] == RowActive
                   && subject in end.db.subjects && end.db.subjects[subject] == RowActive
                   && (t, s) in end.db.sources && end.db.sources[(t, s)].state == CfgActive
                   && end.db.sources[(t, s)].algorithm == Ed25519
                   && (t, s) in end.keys && k in end.keys[(t, s)] && end.keys[(t, s)][k].state == KeyActive
                then Some(Context(end.db.sources[(t, s)].evidenceType, end.db.sources[(t, s)].synthetic,
                                  end.db.sources[(t, s)].maximumAge, end.keys[(t, s)][k].publicKey))
                else None)
            && ((t, s) in end.db.sources && end.db.sources[(t, s)].state == CfgPlanned ==> k !in KeysOf(end.keys, t, s))
  {
    RunKeepsOk(r, steps);
    var end := RegistryRun(r, steps);
    FingerprintJoinIsImplied(end, t, subject, s, k);
    if (t, s) in end.db.sources && end.db.sources[(t, s)].state == CfgPlanned {
      PlannedSourceHasNoKey(end, t, s, k);
    }
  }

  // ----- Errors that cannot happen -----

  /** The new material or identifier is already in the source's history. */
  predicate Reused(rows: KeyRows, k: KeyId, publicKey: string) {
    k in rows || exists j :: j in rows && rows[j].fingerprint == Sha256(publicKey)
  }

  /** Among keys that are all older and inactive, a new version collides only by reuse. */
  lemma NewVersionFitsIff(rows: KeyRows, k: KeyId, version: int, publicKey: string, author: SubjectId, at: int)
    requires version > 0 && forall j :: j in rows ==> rows[j].version < version && rows[j].state != KeyActive
    ensures KeyFits(rows, k, NewKey(version, publicKey, author, at)) <==> !Reused(rows, k, publicKey)
  {
  }

  lemma RotationReusesTheSame(rows: KeyRows, current: Option<KeyId>, k: KeyId, publicKey: string, author: SubjectId, at: int)
    ensures Reused(AfterRotation(rows, current, author, at), k, publicKey) <==> Reused(rows, k, publicKey)
  {
    var rotated := AfterRotation(rows, current, author, at);
    assert forall j :: j in rows <==> j in rotated;
    assert forall j :: j in rows ==> rotated[j].fingerprint == rows[j].fingerprint;
  }

  /** The error for an active source without an active key is unreachable. */
  lemma RotationFindsTheActiveKey(source: Source, rows: KeyRows, k: KeyId, publicKey: string, author: SubjectId, at: int)
    requires SourceOk(source, rows)
    ensures RotateRows(source, rows, k, publicKey, author, at).2 != ActiveKeyMissing
  {
    if source.state == CfgActive {
      var j: KeyId :| j in rows && rows[j].state == KeyActive;
      assert IsActiveKey(rows, j);
    }
  }

  lemma RotatedKeyFitsIff(source: Source, rows: KeyRows, k: KeyId, publicKey: string, author: SubjectId, at: int)
    requires SourceOk(source, rows) && |rows| != 0
    requires var c := ActiveKey(rows); c.Some? ==> at >= rows[c.value].enrolled.at
    ensures !Reused(rows, k, publicKey) <==>
            KeyFits(AfterRotation(rows, ActiveKey(rows), author, at), k, NewKey(|rows| + 1, publicKey, author, at))
  {
    RotationKeepsRows(source, rows, author, at);
    NewVersionFitsIff(AfterRotation(rows, ActiveKey(rows), author, at), k, |rows| + 1, publicKey, author, at);
    RotationReusesTheSame(rows, ActiveKey(rows), k, publicKey, author, at);
  }

  /** The keys and indexes reject a rotation that passed its checks exactly when the new
      identifier or material is already in the source's history: the version and the
      one-active-key index never collide. */
  lemma RotationRejectsOnlyReuse(source: Source, rows: KeyRows, k: KeyId, publicKey: string, author: SubjectId, at: int)
    requires SourceOk(source, rows)
    ensures var reply := RotateRows(source, rows, k, publicKey, author, at).2;
            && (reply == KeyRejected ==> Reused(rows, k, publicKey))
            && (reply.KeyDone? ==> !Reused(rows, k, publicKey) && reply.keyVersion == |rows| + 1)
  {
    if |rows| != 0 && (ActiveKey(rows).None? || at >= rows[ActiveKey(rows).value].enrolled.at) {
      HighestVersionIsCount(rows);
      RotatedKeyFitsIff(source, rows, k, publicKey, author, at);
    }
  }

  // ----- A key only moves forward -----

  function Rank(state: KeyState): nat {
    match state case KeyActive => 0 case KeyRotated => 1 case KeyRevoked => 2
  }

  /** Same identity and material, no step back, and nothing rewritten once it is final. */
  predicate KeyAdvances(earlier: SourceKey, later: SourceKey) {
    && (later.version, later.publicKey, later.fingerprint, later.enrolled)
         == (earlier.version, earlier.publicKey, earlier.fingerprint, earlier.enrolled)
    && Rank(earlier.state) <= Rank(later.state)
    && (earlier.state == later.state ==> later == earlier)
    && (earlier.rotated.Some? ==> later.rotated == earlier.rotated)
  }

  predicate RowsAdvance(rows: KeyRows, after: KeyRows) {
    forall k :: k in rows ==> k in after && KeyAdvances(rows[k], after[k])
  }

  predicate KeysAdvance(keys: Keys, after: Keys) {
    forall x :: x in keys ==> x in after && RowsAdvance(keys[x], after[x])
  }

  lemma CommitAdvancesKeys(r: Registry, t: TenantId, s: SourceId, outcome: (Source, KeyRows, KeyReply))
    requires outcome.2.KeyDone? ==> RowsAdvance(KeysOf(r.keys, t, s), outcome.1)
    ensures KeysAdvance(r.keys, Commit(r, t, s, outcome).0.keys)
  {
    var after := Commit(r, t, s, outcome).0.keys;
    forall y | y in r.keys ensures y in after && RowsAdvance(r.keys[y], after[y]) {
      assert y == (t, s) ==> r.keys[y] == KeysOf(r.keys, t, s);
    }
  }

  lemma AfterRotationAdvances(rows: KeyRows, author: SubjectId, at: int)
    requires forall j :: j in rows ==> KeyShape(rows[j])
    ensures RowsAdvance(rows, AfterRotation(rows, ActiveKey(rows), author, at))
  {
    var c := ActiveKey(rows);
    assert c.Some? ==> KeyShape(rows[c.value]);
  }

  lemma AddedKeyAdvances(rows: KeyRows, after: KeyRows, k: KeyId, key: SourceKey)
    requires RowsAdvance(rows, after) && k !in rows
    ensures RowsAdvance(rows, after[k := key]) && RowsAdvance(rows, rows)
  {
  }

  lemma RotatedRowsAdvance(source: Source, rows: KeyRows, k: KeyId, publicKey: string, author: SubjectId, at: int)
    requires forall j :: j in rows ==> KeyShape(rows[j])
    ensures RowsAdvance(rows, RotateRows(source, rows, k, publicKey, author, at).1)
  {
    RotationOutcome(source, rows, k, publicKey, author, at);
    AfterRotationAdvances(rows, author, at);
    if k !in rows && |rows| != 0 {
      AddedKeyAdvances(rows, AfterRotation(rows, ActiveKey(rows), author, at), k,
                       NewKey(HighestVersion(rows) + 1, publicKey, author, at));
    }
  }

  lemma RotateAdvancesKeys(r: Registry, a: Actor, s: SourceId, k: KeyId, publicKey: string, at: int, now: int)
    requires RegistryOk(r)
    ensures KeysAdvance(r.keys, Rotate(r, a, s, k, publicKey, at, now).0.keys)
  {
    if ActorIsAdmin(r.db, a) && at <= now + 2 * SECOND && (a.tenant.value, s) in r.db.sources {
      var source, rows := r.db.sources[(a.tenant.value, s)], KeysOf(r.keys, a.tenant.value, s);
      RotatedRowsAdvance(source, rows, k, publicKey, a.subject.value, at);
      CommitAdvancesKeys(r, a.tenant.value, s, RotateRows(source, rows, k, publicKey, a.subject.value, at));
    }
  }

  lemma EnrollAdvancesKeys(r: Registry, a: Actor, s: SourceId, k: KeyId, publicKey: string, at: int, now: int)
    ensures KeysAdvance(r.keys, Enroll(r, a, s, k, publicKey, at, now).0.keys)
  {
    if ActorIsAdmin(r.db, a) && at <= now + 2 * SECOND && (a.tenant.value, s) in r.db.sources {
      var source, rows := r.db.sources[(a.tenant.value, s)], KeysOf(r.keys, a.tenant.value, s);
      CommitAdvancesKeys(r, a.tenant.value, s, EnrollRows(source, rows, k, publicKey, a.subject.value, at));
    }
  }

  lemma RevokeAdvancesKeys(r: Registry, a: Actor, s: SourceId, k: KeyId, reason: string, at: int, now: int)
    ensures KeysAdvance(r.keys, RevokeKey(r, a, s, k, reason, at, now).0.keys)
  {
    if ActorIsAdmin(r.db, a) && (a.tenant.value, s) in r.db.sources {
      var source, rows := r.db.sources[(a.tenant.value, s)], KeysOf(r.keys, a.tenant.value, s);
      CommitAdvancesKeys(r, a.tenant.value, s, RevokeRows(source, rows, k, reason, a.subject.value, at));
    }
  }

  lemma OtherStepKeepsKeys(r: Registry, step: RegistryStep)
    requires !step.EnrollStep? && !step.RotateStep? && !step.RevokeKeyStep?
    ensures RegistryNext(r, step).keys == r.keys
  {
  }

  lemma StepAdvancesKeys(r: Registry, step: RegistryStep)
    requires RegistryOk(r)
    ensures KeysAdvance(r.keys, RegistryNext(r, step).keys)
  {
    if step.EnrollStep? {
      EnrollAdvancesKeys(r, step.actor, step.source, step.key, step.publicKey, step.at, step.now);
    } else if step.RotateStep? {
      RotateAdvancesKeys(r, step.actor, step.source, step.key, step.publicKey, step.at, step.now);
    } else if step.RevokeKeyStep? {
      RevokeAdvancesKeys(r, step.actor, step.source, step.key, step.reason, step.at, step.now);
    } else {
      OtherStepKeepsKeys(r, step);
    }
  }

  lemma AdvanceIsTransitive(k0: Keys, k1: Keys, k2: Keys)
    requires KeysAdvance(k0, k1) && KeysAdvance(k1, k2)
    ensures KeysAdvance(k0, k2)
  {
    forall x, k | x in k0 && k in k0[x] ensures x in k2 && k in k2[x] && KeyAdvances(k0[x][k], k2[x][k]) {
      assert RowsAdvance(k0[x], k1[x]) && RowsAdvance(k1[x], k2[x]);
    }
  }

  /** Over every run no key row disappears, changes identity or moves back: active to
      rotated to revoked, or active to revoked. */
  lemma {:induction false} RunAdvancesKeys(r: Registry, steps: seq<RegistryStep>)
    requires RegistryOk(r)
    ensures KeysAdvance(r.keys, RegistryRun(r, steps).keys)
    decreases |steps|
  {
    if |steps| == 0 {
      assert forall x :: x in r.keys ==> RowsAdvance(r.keys[x], r.keys[x]);
    } else {
      var next := RegistryNext(r, steps[0]);
      StepKeepsOk(r, steps[0]);
      StepAdvancesKeys(r, steps[0]);
      RunAdvancesKeys(next, steps[1..]);
      AdvanceIsTransitive(r.keys, next.keys, RegistryRun(next, steps[1..]).keys);
    }
  }

  /** A key that has left the active state verifies nothing ever again, whoever asks. */
  lemma RetiredKeyIsNeverUsable(r: Registry, steps: seq<RegistryStep>, t: TenantId, subject: SubjectId, s: SourceId, k: KeyId)
    requires RegistryOk(r) && k in KeysOf(r.keys, t, s) && KeysOf(r.keys, t, s)[k].state != KeyActive
    ensures !Usable(RegistryRun(r, steps), t, subject, s, k)
    ensures Resolve(RegistryRun(r, steps), t, subject, s, k) == None
  {
    RunAdvancesKeys(r, steps);
    assert RowsAdvance(r.keys[(t, s)], RegistryRun(r, steps).keys[(t, s)]);
  }

  // ----- Suspended sources -----

  /** Suspension as migration 014 knows it: the active key is gone. */
  predicate SuspendedAreKeyless(r: Registry) {
    forall x :: x in r.db.sources && r.db.sources[x].state == CfgSuspended ==> r.db.sources[x].fingerprint.None?
  }

  /** The step is one of the two by which migration 018 suspends an active source. */
  predicate SwitchesOff(r: Registry, step: RegistryStep) {
    match step
    case SuspensionStep(a, s, suspended, reason, at, now) =>
      EditableSource(r.db, a, s) && ReasonCodeFormat(reason) && at <= now + 2 * SECOND && suspended
      && r.db.sources[(a.tenant.value, s)].state == CfgActive
    case AutoSuspendStep(t, s) => (t, s) in r.db.sources && r.db.sources[(t, s)].state == CfgActive
    case _ => false
  }

  /** What a step may do to the source rows without leaving a suspended one its key. */
  predicate KeylessChange(sources: map<(TenantId, SourceId), Source>, after: map<(TenantId, SourceId), Source>) {
    forall x :: x in after && after[x].state == CfgSuspended && after[x].fingerprint.Some? ==>
      x in sources && sources[x].state == CfgSuspended && sources[x].fingerprint.Some?
  }

  predicate KeylessOutcome(outcome: (Source, KeyRows, KeyReply)) {
    outcome.2.KeyDone? ==> (outcome.0.state == CfgSuspended ==> outcome.0.fingerprint.None?)
  }

  lemma CommitIsKeyless(r: Registry, t: TenantId, s: SourceId, outcome: (Source, KeyRows, KeyReply))
    requires KeylessOutcome(outcome)
    ensures KeylessChange(r.db.sources, Commit(r, t, s, outcome).0.db.sources)
  {
  }

  lemma EnrollIsKeyless(r: Registry, a: Actor, s: SourceId, k: KeyId, publicKey: string, at: int, now: int)
    ensures KeylessChange(r.db.sources, Enroll(r, a, s, k, publicKey, at, now).0.db.sources)
  {
    if ActorIsAdmin(r.db, a) && (a.tenant.value, s) in r.db.sources {
      var t := a.tenant.value;
      CommitIsKeyless(r, t, s, EnrollRows(r.db.sources[(t, s)], KeysOf(r.keys, t, s), k, publicKey, a.subject.value, at));
    }
  }

  lemma RotationIsKeyless(source: Source, rows: KeyRows, k: KeyId, publicKey: string, author: SubjectId, at: int)
    ensures KeylessOutcome(RotateRows(source, rows, k, publicKey, author, at))
  {
  }

  lemma RotateIsKeyless(r: Registry, a: Actor, s: SourceId, k: KeyId, publicKey: string, at: int, now: int)
    ensures KeylessChange(r.db.sources, Rotate(r, a, s, k, publicKey, at, now).0.db.sources)
  {
    if ActorIsAdmin(r.db, a) && (a.tenant.value, s) in r.db.sources {
      var t := a.tenant.value;
      RotationIsKeyless(r.db.sources[(t, s)], KeysOf(r.keys, t, s), k, publicKey, a.subject.value, at);
      CommitIsKeyless(r, t, s, RotateRows(r.db.sources[(t, s)], KeysOf(r.keys, t, s), k, publicKey, a.subject.value, at));
    }
  }

  /** Revoking a rotated key leaves a source as it was, key included. */
  lemma RevokeIsKeyless(r: Registry, a: Actor, s: SourceId, k: KeyId, reason: string, at: int, now: int)
    ensures KeylessChange(r.db.sources, RevokeKey(r, a, s, k, reason, at, now).0.db.sources)
  {
  }

  lemma KeyStepIsKeyless(r: Registry, step: RegistryStep)
    requires step.EnrollStep? || step.RotateStep? || step.RevokeKeyStep? || step.TenancyStep?
    ensures KeylessChange(r.db.sources, RegistryNext(r, step).db.sources)
  {
    if step.EnrollStep? {
      EnrollIsKeyless(r, step.actor, step.source, step.key, step.publicKey, step.at, step.now);
    } else if step.RotateStep? {
      RotateIsKeyless(r, step.actor, step.source, step.key, step.publicKey, step.at, step.now);
    } else if step.RevokeKeyStep? {
      RevokeIsKeyless(r, step.actor, step.source, step.key, step.reason, step.at, step.now);
    } else {
      TenancyOnlyRetiresSources(r.db, step.step);
    }
  }

  lemma SourceEditIsKeyless(r: Registry, a: Actor, s: SourceId, e: SourceEdit)
    ensures KeylessChange(r.db.sources, EditSource(r, a, s, e).db.sources)
  {
  }

  lemma SuspensionIsKeyless(r: Registry, step: RegistryStep)
    requires (step.SuspensionStep? || step.AutoSuspendStep?) && !SwitchesOff(r, step)
    ensures KeylessChange(r.db.sources, RegistryNext(r, step).db.sources)
  {
  }

  lemma OtherStepKeepsKeyless(r: Registry, step: RegistryStep)
    requires SuspendedAreKeyless(r) && !SwitchesOff(r, step)
    ensures SuspendedAreKeyless(RegistryNext(r, step))
  {
    if step.EditSourceStep? {
      SourceEditIsKeyless(r, step.actor, step.source, step.edit);
    } else if step.SuspensionStep? || step.AutoSuspendStep? {
      SuspensionIsKeyless(r, step);
    } else {
      KeyStepIsKeyless(r, step);
    }
  }

  lemma SwitchKeepsTheKey(r: Registry, step: RegistryStep)
    requires RegistryOk(r) && SwitchesOff(r, step)
    ensures !SuspendedAreKeyless(RegistryNext(r, step))
  {
    var x := if step.AutoSuspendStep? then (step.tenant, step.source) else (step.actor.tenant.value, step.source);
    var after := RegistryNext(r, step).db.sources;
    assert SourceOk(r.db.sources[x], KeysOf(r.keys, x.0, x.1));
    assert x in after && after[x].state == CfgSuspended && after[x].fingerprint.Some?;
  }

  /** "A suspended source has no active key" survives a step exactly when the step is not a
      suspension of migration 018, which leaves the key active. */
  lemma SuspendedStaysKeylessIff(r: Registry, step: RegistryStep)
    requires RegistryOk(r) && SuspendedAreKeyless(r)
    ensures SuspendedAreKeyless(RegistryNext(r, step)) <==> !SwitchesOff(r, step)
  {
    if SwitchesOff(r, step) {
      SwitchKeepsTheKey(r, step);
    } else {
      OtherStepKeepsKeyless(r, step);
    }
  }

  /** With the functions of migration 014 alone, no run leaves a suspended source an
      active key. */
  lemma {:induction false} SuspendedSourcesStayKeyless(r: Registry, steps: seq<RegistryStep>, t: TenantId, s: SourceId)
    requires RegistryOk(r) && SuspendedAreKeyless(r)
    requires forall i :: 0 <= i < |steps| ==> !steps[i].SuspensionStep? && !steps[i].AutoSuspendStep?
    ensures SuspendedAreKeyless(RegistryRun(r, steps))
    ensures var end := RegistryRun(r, steps);
            (t, s) in end.db.sources && end.db.sources[(t, s)].state == CfgSuspended ==>
              KeysOf(end.keys, t, s) != map[] && forall k: KeyId :: !IsActiveKey(KeysOf(end.keys, t, s), k)
    decreases |steps|
  {
    if |steps| == 0 {
      if (t, s) in r.db.sources && r.db.sources[(t, s)].state == CfgSuspended {
        assert SourceOk(r.db.sources[(t, s)], KeysOf(r.keys, t, s));
        HasActiveKeyIffFingerprint(r, t, s);
      }
    } else {
      StepKeepsOk(r, steps[0]);
      OtherStepKeepsKeyless(r, steps[0]);
      SuspendedSourcesStayKeyless(RegistryNext(r, steps[0]), steps[1..], t, s);
    }
  }

  /** A run on which the unrestricted claim fails: enrol, then the flood limit suspends. */
  lemma FloodLimitLeavesActiveKey(t: TenantId, a: SubjectId, s: SourceId, k: KeyId, publicKey: string)
    ensures var source := Source(DeviceEvidence, CfgPlanned, Ed25519, None, 60, false, 1);
            var db := Tables(map[t := Tenant(Active, 1, None)], map[a := RowActive], {}, map[(t, a) := RowActive],
                             {(t, a, TenantAdmin)}, map[], map[(t, s) := source], []);
            var end := RegistryRun(Registry(db, map[]),
                                   [EnrollStep(Actor(Some(t), Some(a)), s, k, publicKey, 0, 0), AutoSuspendStep(t, s)]);
            && (t, s) in end.db.sources && end.db.sources[(t, s)].state == CfgSuspended
            && IsActiveKey(KeysOf(end.keys, t, s), k)
  {
    var source := Source(DeviceEvidence, CfgPlanned, Ed25519, None, 60, false, 1);
    var db := Tables(map[t := Tenant(Active, 1, None)], map[a := RowActive], {}, map[(t, a) := RowActive],
                     {(t, a, TenantAdmin)}, map[], map[(t, s) := source], []);
    var enroll := EnrollStep(Actor(Some(t), Some(a)), s, k, publicKey, 0, 0);
    var r0 := Registry(db, map[]);
    var r1 := RegistryNext(r0, enroll);
    assert Enroll(r0, enroll.actor, s, k, publicKey, 0, 0).1.KeyDone?;
    assert [enroll, AutoSuspendStep(t, s)][1..] == [AutoSuspendStep(t, s)];
    assert RegistryRun(r1, [AutoSuspendStep(t, s)]) == RegistryNext(r1, AutoSuspendStep(t, s));
  }
}
