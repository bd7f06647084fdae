/** The outbox functions as they run, row by row. */
module OutboxTable {
  import opened Sql
  import opened Tenancy
  import opened Certificates
  import opened Outbox
  import opened OutboxFencing

  class OutboxStore {
    var rows: Rows

    ghost predicate Valid()
      reads this
    {
      forall k :: k in rows ==> RowOk(rows[k])
    }

    constructor ()
      ensures rows == map[] && Valid()
    {
      rows := map[];
    }

    /** `identity.enqueue_certificate_lifecycle_event`: afterwards the event has a row, rows
        that were there are as they were, and a new row can be claimed from now on. */
    method EnqueueLifecycleEvent(e: Event, now: int)
      requires Valid()
      modifies this
      ensures Valid() && rows == Enqueue(old(rows), e, now)
      ensures rows.Keys == old(rows.Keys) + {(e.tenant, e.id)}
      ensures forall k :: k in old(rows) ==> rows[k] == old(rows)[k]
      ensures (e.tenant, e.id) !in old(rows) ==>
                (forall later: int :: IsDue(rows, e.tenant, later, (e.tenant, e.id)) <==> now <= later)
    {
      if (e.tenant, e.id) !in rows {
        rows := rows[(e.tenant, e.id) := NewOutboxRow(e, now)];
      }
    }

    /** The earliest due row of the tenant, found by a scan. */
    method FindFirstDue(t: TenantId, at: int) returns (first: Option<Key>)
      ensures first == FirstDue(rows, t, at)
    {
      first := None;
      var unread := rows.Keys;
      while unread != {}
        invariant unread <= rows.Keys
        invariant first.Some? ==> IsDue(rows, t, at, first.value) && first.value !in unread
        invariant forall k :: k in rows && k !in unread && IsDue(rows, t, at, k) ==>
                    first.Some? && (k == first.value || Before(rows, first.value, k))
        decreases |unread|
      {
        var k :| k in unread;
        unread := unread - {k};
        if IsDue(rows, t, at, k) && (first.None? || Before(rows, k, first.value)) {
          first := Some(k);
        } else if IsDue(rows, t, at, k) {
          assert k.1 != first.value.1;
        }
      }
      if first.Some? {
        assert IsFirstDue(rows, t, at, first.value);
        var other := FirstDueOf(t, at);
      }
    }

    /** There is only one first due row. */
    lemma FirstDueOf(t: TenantId, at: int) returns (k: Option<Key>)
      ensures k == FirstDue(rows, t, at)
      ensures forall j :: IsFirstDue(rows, t, at, j) ==> k == Some(j)
    {
      k := FirstDue(rows, t, at);
    }

    /** `identity.claim_certificate_event_outbox`: recover stale claims, then claim the
        earliest due row. A rejected row rolls both statements back. */
    method ClaimNext(t: TenantId, worker: string, token: Token, at: int, now: int) returns (reply: OutboxReply)
      requires Valid()
      modifies this
      ensures Valid() && (rows, reply) == Claim(old(rows), t, worker, token, at, now)
    {
      if !WorkerFormat(worker) || at > now + 2 * SECOND {
        return Refused;
      }
      var saved := rows;
      rows := Recover(rows, t, at, now);
      forall k | k in rows ensures rows[k] == saved[k] || RowOk(rows[k]) {
        RecoverAt(saved, t, at, now, k);
      }
      var first := FindFirstDue(t, at);
      if first.None? {
        return NothingDue;
      }
      var claimed := ClaimedRow(rows[first.value], worker, token, at, now);
      if !RowOk(claimed) {
        rows := saved;
        return CheckFailed;
      }
      rows := rows[first.value := claimed];
      return Claimed(first.value, token, claimed.attempts);
    }

    /** `identity.mark_certificate_event_published`: accepted exactly from the holder of the
        row, with a position and a time the row admits; then no token is good for the row any
        more, and nothing else changed. */
    method MarkPublished(k: Key, token: Token, stream: int, digest: nat, at: int, now: int) returns (reply: OutboxReply)
      requires Valid()
      modifies this
      ensures Valid() && (rows, reply) == Confirm(old(rows), k, token, stream, digest, at, now)
      ensures reply == Marked <==>
                Holds(old(rows), k, token) && stream >= 1 && old(rows)[k].createdAt <= at <= now + 2 * SECOND
      ensures reply == Marked ==> rows[k].delivery == Published(stream, digest, at) && rows == old(rows)[k := rows[k]]
                                  && rows[k].attempts == old(rows)[k].attempts && forall any :: !Holds(rows, k, any)
      ensures reply != Marked ==> rows == old(rows)
    {
      if stream < 1 || at > now + 2 * SECOND {
        return Refused;
      }
      if !Holds(rows, k, token) {
        return Refused;
      }
      var row := rows[k].(delivery := Published(stream, digest, at), failure := None, updatedAt := Max(now, at));
      if !RowOk(row) {
        return CheckFailed;
      }
      rows := rows[k := row];
      return Marked;
    }

    /** `identity.mark_certificate_event_publish_failed`: accepted exactly from the holder of
        the row, with a code, delay and time in their ranges, unless clock and time both lie
        before the row; then the row is due from the
        retry time on and not before, and nothing else changed. */
    method MarkFailed(k: Key, token: Token, code: string, at: int, delay: int, now: int) returns (reply: OutboxReply)
      requires Valid()
      modifies this
      ensures Valid() && (rows, reply) == Fail(old(rows), k, token, code, at, delay, now)
      ensures reply == Marked <==>
                Holds(old(rows), k, token) && ReasonCodeFormat(code) && 1 <= delay <= 600 && at <= now + 2 * SECOND
                && old(rows)[k].createdAt <= Max(now, at)
      ensures reply == Marked ==> (forall later: int :: IsDue(rows, k.0, later, k) <==> at + delay * SECOND <= later)
                                  && rows == old(rows)[k := rows[k]] && rows[k].attempts == old(rows)[k].attempts
                                  && forall any :: !Holds(rows, k, any)
      ensures reply != Marked ==> rows == old(rows)
    {
      if !ReasonCodeFormat(code) || delay < 1 || delay > 600 || at > now + 2 * SECOND {
        return Refused;
      }
      if !Holds(rows, k, token) {
        return Refused;
      }
      var row := rows[k].(delivery := Pending, nextAttemptAt := at + delay * SECOND, failure := Some(code),
                          updatedAt := Max(now, at));
      if !RowOk(row) {
        return CheckFailed;
      }
      rows := rows[k := row];
      return Marked;
    }
  }
}
