/** The registry functions as they run, row by row. */
module KeyRegistryStore {
  import opened Sql
  import opened Tenancy
  import opened KeyRegistry
  import opened KeyRegistryHistory

  class RegistryStore {
    const tenancy: TenantStore
    var keys: Keys

    constructor (tenancy: TenantStore)
      requires forall x :: x in tenancy.sources ==> SourceOk(tenancy.sources[x], map[])
      ensures this.tenancy == tenancy && View() == Registry(tenancy.View(), map[]) && RegistryOk(View())
    {
      this.tenancy := tenancy;
      keys := map[];
    }

    function View(): Registry
      reads this, tenancy
    {
      Registry(tenancy.View(), keys)
    }

    /** The outcome for one source: nothing on an error, else the INSERT or UPDATE of key
        rows and the UPDATE of the source. */
    method Store(t: TenantId, s: SourceId, row: Source, rows: KeyRows, reply: KeyReply)
      modifies this`keys, tenancy`sources
      ensures (View(), reply) == Commit(old(View()), t, s, (row, rows, reply))
    {
      if reply.KeyDone? {
        keys := keys[(t, s) := rows];
        tenancy.sources := tenancy.sources[(t, s) := row];
      }
    }

    static method EnrollInOrder(source: Source, rows: KeyRows, k: KeyId, publicKey: string, author: SubjectId, at: int)
      returns (row: Source, after: KeyRows, reply: KeyReply)
      ensures (row, after, reply) == EnrollRows(source, rows, k, publicKey, author, at)
    {
      row, after := source, rows;
      if source.state != CfgPlanned || source.algorithm != Ed25519 || source.fingerprint.Some? || rows != map[] {
        return row, after, KeyDenied;
      }
      var key := NewKey(1, publicKey, author, at);
      after := after[k := key];
      row := row.(state := CfgActive, fingerprint := Some(key.fingerprint), version := row.version + 1);
      return row, after, KeyDone(1, CfgActive, row.version);
    }

    /** `trust.enroll_evidence_source` */
    method EnrollSource(a: Actor, s: SourceId, k: KeyId, publicKey: string, at: int, now: int) returns (reply: KeyReply)
      requires RegistryOk(View())
      modifies this`keys, tenancy`sources
      ensures RegistryOk(View())
      ensures (View(), reply) == Enroll(old(View()), a, s, k, publicKey, at, now)
    {
      EnrollKeepsOk(View(), a, s, k, publicKey, at, now);
      if !ActorIsAdmin(tenancy.View(), a) {
        return KeyDenied;
      }
      if at > now + 2 * SECOND {
        return InvalidInput;
      }
      var t := a.tenant.value;
      if (t, s) !in tenancy.sources {
        return KeyDenied;
      }
      var row, rows;
      row, rows, reply := EnrollInOrder(tenancy.sources[(t, s)], KeysOf(keys, t, s), k, publicKey, a.subject.value, at);
      Store(t, s, row, rows, reply);
    }

    /** The scan behind `max(key_version)`. */
    static method FindHighestVersion(rows: KeyRows) returns (m: int)
      requires |rows| != 0
      ensures m == HighestVersion(rows)
    {
      var rest := rows.Keys;
      assert exists k :: k in rest;
      var first: KeyId :| first in rest;
      m := rows[first].version;
      while rest != {}
        invariant rest <= rows.Keys
        invariant HasVersion(rows, m)
        invariant forall j :: j in rows && j !in rest ==> rows[j].version <= m
        decreases |rest|
      {
        var k :| k in rest;
        rest := rest - {k};
        if m < rows[k].version {
          m := rows[k].version;
        }
      }
      ghost var top: KeyId :| top in rows && rows[top].version == HighestVersion(rows);
    }

    /** SELECT ... WHERE state = 'active' */
    static method FindActiveKey(source: Source, rows: KeyRows) returns (current: Option<KeyId>)
      requires SourceOk(source, rows)
      ensures current == ActiveKey(rows)
    {
      if k: KeyId :| k in rows && rows[k].state == KeyActive {
        assert IsActiveKey(rows, k);
        AtMostOneActiveKey(source, rows, k, ActiveKey(rows).value);
        return Some(k);
      }
      assert forall j: KeyId :: !IsActiveKey(rows, j);
      return None;
    }

    /** The INSERT of the next key and the UPDATE of the source, unless a constraint fires. */
    static method InsertKey(source: Source, rows: KeyRows, rotated: KeyRows, k: KeyId, key: SourceKey)
      returns (row: Source, after: KeyRows, reply: KeyReply)
      ensures if KeyFits(rotated, k, key)
              then row == source.(state := CfgActive, fingerprint := Some(key.fingerprint), version := source.version + 1)
                   && after == rotated[k := key] && reply == KeyDone(key.version, CfgActive, row.version)
              else (row, after, reply) == (source, rows, KeyRejected)
    {
      if !KeyFits(rotated, k, key) {
        return source, rows, KeyRejected;
      }
      after := rotated[k := key];
      row := source.(state := CfgActive, fingerprint := Some(key.fingerprint), version := source.version + 1);
      return row, after, KeyDone(key.version, CfgActive, row.version);
    }

    /** The active key, if any, is rotated before the next version is computed and
        inserted. */
    static method RotateThenInsert(source: Source, rows: KeyRows, current: Option<KeyId>, k: KeyId, publicKey: string,
                                   author: SubjectId, at: int)
      returns (row: Source, after: KeyRows, reply: KeyReply)
      requires |rows| != 0 && |AfterRotation(rows, current, author, at)| != 0
      requires HighestVersion(AfterRotation(rows, current, author, at)) == HighestVersion(rows)
      ensures var rotated := AfterRotation(rows, current, author, at);
              var key := NewKey(HighestVersion(rows) + 1, publicKey, author, at);
              if KeyFits(rotated, k, key)
              then row == source.(state := CfgActive, fingerprint := Some(key.fingerprint), version := source.version + 1)
                   && after == rotated[k := key] && reply == KeyDone(key.version, CfgActive, row.version)
              else (row, after, reply) == (source, rows, KeyRejected)
    {
      var rotated := AfterRotation(rows, current, author, at);
      var highest := FindHighestVersion(rotated);
      row, after, reply := InsertKey(source, rows, rotated, k, NewKey(highest + 1, publicKey, author, at));
    }

    /** The rotation of one source's keys. */
    static method RotateInOrder(source: Source, rows: KeyRows, k: KeyId, publicKey: string, author: SubjectId, at: int)
      returns (row: Source, after: KeyRows, reply: KeyReply)
      requires SourceOk(source, rows)
      ensures (row, after, reply) == RotateRows(source, rows, k, publicKey, author, at)
    {
      row, after := source, rows;
      if source.state !in {CfgActive, CfgSuspended} || source.algorithm != Ed25519 || |rows| == 0 {
        return row, after, KeyDenied;
      }
      var current := FindActiveKey(source, rows);
      if source.state == CfgActive && current.None? {
        return row, after, ActiveKeyMissing;
      }
      if current.Some? && at < rows[current.value].enrolled.at {
        return row, after, InvalidInput;
      }
      RotationKeepsHighest(source, rows, author, at);
      row, after, reply := RotateThenInsert(source, rows, current, k, publicKey, author, at);
    }

    /** `trust.rotate_evidence_source_key` */
    method RotateKey(a: Actor, s: SourceId, k: KeyId, publicKey: string, at: int, now: int) returns (reply: KeyReply)
      requires RegistryOk(View())
      modifies this`keys, tenancy`sources
      ensures RegistryOk(View())
      ensures (View(), reply) == Rotate(old(View()), a, s, k, publicKey, at, now)
    {
      RotateKeepsOk(View(), a, s, k, publicKey, at, now);
      if !ActorIsAdmin(tenancy.View(), a) {
        return KeyDenied;
      }
      if at > now + 2 * SECOND {
        return InvalidInput;
      }
      var t := a.tenant.value;
      if (t, s) !in tenancy.sources {
        return KeyDenied;
      }
      var row, rows;
      row, rows, reply := RotateInOrder(tenancy.sources[(t, s)], KeysOf(keys, t, s), k, publicKey, a.subject.value, at);
      Store(t, s, row, rows, reply);
    }

    static method RevokeInOrder(source: Source, rows: KeyRows, k: KeyId, reason: string, author: SubjectId, at: int)
      returns (row: Source, after: KeyRows, reply: KeyReply)
      ensures (row, after, reply) == RevokeRows(source, rows, k, reason, author, at)
    {
      row, after := source, rows;
      if k !in rows || rows[k].state == KeyRevoked || at < rows[k].enrolled.at {
        return row, after, KeyDenied;
      }
      after := after[k := RevokedKey(rows[k], author, at, reason)];
      if rows[k].state == KeyActive {
        row := row.(state := CfgSuspended, fingerprint := None, version := row.version + 1);
      } else {
        row := row.(version := row.version + 1);
      }
      return row, after, KeyDone(rows[k].version, row.state, row.version);
    }

    /** `trust.revoke_evidence_source_key` */
    method RevokeSourceKey(a: Actor, s: SourceId, k: KeyId, reason: string, at: int, now: int) returns (reply: KeyReply)
      requires RegistryOk(View())
      modifies this`keys, tenancy`sources
      ensures RegistryOk(View())
      ensures (View(), reply) == RevokeKey(old(View()), a, s, k, reason, at, now)
    {
      RevokeKeepsOk(View(), a, s, k, reason, at, now);
      if !ActorIsAdmin(tenancy.View(), a) {
        return KeyDenied;
      }
      if !ReasonCodeFormat(reason) || at > now + 2 * SECOND {
        return InvalidInput;
      }
      var t := a.tenant.value;
      if (t, s) !in tenancy.sources {
        return KeyDenied;
      }
      var row, rows;
      row, rows, reply := RevokeInOrder(tenancy.sources[(t, s)], KeysOf(keys, t, s), k, reason, a.subject.value, at);
      Store(t, s, row, rows, reply);
    }
  }
}
