/** Which calls of an outbox worker are granted and what they leave in the rows, said of the rows
    alone. */
module OutboxOutcomes {
  import opened Sql
  import opened Tenancy
  import opened Certificates
  import opened Outbox
  import opened OutboxFencing
  import opened OutboxDelivery

  // ----- Enqueueing -----

  /** The event waits in a pending row that is due from now on; a row that is there stays. */
  lemma EnqueueLeaves(rows: Rows, e: Event, now: int)
    ensures Enqueue(rows, e, now) ==
            if (e.tenant, e.id) in rows then rows
            else rows[(e.tenant, e.id) := Row(Pending, 0, now, None, e.recordedAt, e.recordedAt)]
  {
  }

  // ----- Claiming -----

  /** A pending row whose time has come, or one claimed more than five minutes before. */
  predicate Workable(row: Row, at: int) {
    || (row.delivery.Pending? && row.nextAttemptAt <= at)
    || (row.delivery.Publishing? && row.delivery.claimedAt + 300_000_000 < at)
  }

  /** The tenant's earliest workable row, by time of creation and then by event identifier. */
  predicate FirstWorkable(rows: Rows, t: TenantId, at: int, k: Key) {
    && k in rows && k.0 == t && Workable(rows[k], at)
    && forall j :: j in rows && j.0 == t && j != k && Workable(rows[j], at) ==>
         rows[k].createdAt < rows[j].createdAt || (rows[k].createdAt == rows[j].createdAt && k.1 < j.1)
  }

  predicate NothingWorkable(rows: Rows, t: TenantId, at: int) {
    forall k :: k in rows && k.0 == t ==> !Workable(rows[k], at)
  }

  lemma DueAfterRecoveryIff(rows: Rows, t: TenantId, at: int, now: int, k: Key)
    ensures IsDue(Recover(rows, t, at, now), t, at, k) <==> k in rows && k.0 == t && Workable(rows[k], at)
    ensures k in rows ==> Recover(rows, t, at, now)[k].createdAt == rows[k].createdAt
  {
    RecoverAt(rows, t, at, now, k);
  }

  lemma FirstDueIff(rows: Rows, t: TenantId, at: int, now: int, k: Key)
    ensures FirstDue(Recover(rows, t, at, now), t, at) == Some(k) <==> FirstWorkable(rows, t, at, k)
  {
    var recovered := Recover(rows, t, at, now);
    forall j: Key
      ensures IsDue(recovered, t, at, j) <==> j in rows && j.0 == t && Workable(rows[j], at)
      ensures j in rows ==> j in recovered && recovered[j].createdAt == rows[j].createdAt
    {
      DueAfterRecoveryIff(rows, t, at, now, j);
    }
    if FirstWorkable(rows, t, at, k) {
      assert IsFirstDue(recovered, t, at, k);
      var first := FirstDue(recovered, t, at).value;
      assert IsDue(recovered, t, at, first) && IsDue(recovered, t, at, k);
    }
    if FirstDue(recovered, t, at) == Some(k) {
      forall j | j in rows && j.0 == t && j != k && Workable(rows[j], at)
        ensures rows[k].createdAt < rows[j].createdAt || (rows[k].createdAt == rows[j].createdAt && k.1 < j.1)
      {
        assert IsDue(recovered, t, at, j);
      }
    }
  }

  lemma NothingDueIff(rows: Rows, t: TenantId, at: int, now: int)
    ensures FirstDue(Recover(rows, t, at, now), t, at).None? <==> NothingWorkable(rows, t, at)
  {
    var recovered := Recover(rows, t, at, now);
    if !NothingWorkable(rows, t, at) {
      var work := set k | k in rows && k.0 == t && Workable(rows[k], at);
      var x :| x in rows && x.0 == t && Workable(rows[x], at);
      assert x in work;
      var k := NonemptyHasFirst(rows, t, at, work);
      assert forall j :: j in rows && j.0 == t && Workable(rows[j], at) ==> j in work;
      assert FirstWorkable(rows, t, at, k);
      FirstDueIff(rows, t, at, now, k);
    } else if FirstDue(recovered, t, at).Some? {
      FirstDueIff(rows, t, at, now, FirstDue(recovered, t, at).value);
    }
  }

  /** Which answer a claim gets: the first workable row of the tenant, unless it is younger
      than the claim. */
  lemma ClaimIff(rows: Rows, t: TenantId, worker: string, token: Token, at: int, now: int, k: Key)
    requires forall j :: j in rows ==> RowOk(rows[j])
    ensures var reply := Claim(rows, t, worker, token, at, now).1;
            var accepted := WorkerFormat(worker) && at - now <= 2_000_000;
            && (reply == Refused <==> !accepted)
            && (reply == NothingDue <==> accepted && NothingWorkable(rows, t, at))
            && (reply.Claimed? && reply.key == k <==> accepted && FirstWorkable(rows, t, at, k) && rows[k].createdAt <= at)
            && (reply.Claimed? && reply.key == k ==> reply == Claimed(k, token, rows[k].attempts + 1))
            && reply != Marked
  {
    if WorkerFormat(worker) && at - now <= 2_000_000 {
      NothingDueIff(rows, t, at, now);
      FirstDueIff(rows, t, at, now, k);
      ClaimIsRolledBackIff(rows, t, worker, token, at, now);
      if FirstDue(Recover(rows, t, at, now), t, at) == Some(k) {
        RecoverAt(rows, t, at, now, k);
      }
      RecoveredRowsOk(rows, t, at, now);
    }
  }

  lemma RecoveredRowsOk(rows: Rows, t: TenantId, at: int, now: int)
    requires forall j :: j in rows ==> RowOk(rows[j])
    ensures ChangedRowsOk(rows, Recover(rows, t, at, now))
  {
    forall k | k in rows ensures RowOk(Recover(rows, t, at, now)[k]) {
      RecoverAt(rows, t, at, now, k);
    }
  }

  /** What a claim leaves: the claimed row under its token with one attempt more, the tenant's
      other stale rows pending again, all other rows as they were. */
  lemma ClaimLeaves(rows: Rows, t: TenantId, worker: string, token: Token, at: int, now: int, j: Key)
    requires Claim(rows, t, worker, token, at, now).1.Claimed?
    ensures var (after, reply) := Claim(rows, t, worker, token, at, now);
            && (j in after <==> j in rows)
            && (j in rows ==>
                  var stale := j.0 == t && rows[j].delivery.Publishing? && rows[j].delivery.claimedAt + 300_000_000 < at;
                  after[j] ==
                  if j == reply.key
                  then Row(Publishing(token, worker, at), rows[j].attempts + 1, if stale then at else rows[j].nextAttemptAt,
                           None, rows[j].createdAt, if now < at then at else now)
                  else if stale
                  then Row(Pending, rows[j].attempts, at, Some("STALE_CLAIM_RECOVERED"), rows[j].createdAt,
                           if now < at then at else now)
                  else rows[j])
  {
    RecoverAt(rows, t, at, now, j);
  }

  /** Any other claim leaves every row as it was. */
  lemma UngrantedClaimLeaves(rows: Rows, t: TenantId, worker: string, token: Token, at: int, now: int)
    requires !Claim(rows, t, worker, token, at, now).1.Claimed?
    ensures Claim(rows, t, worker, token, at, now).0 == rows
  {
    var after := Claim(rows, t, worker, token, at, now).0;
    if Claim(rows, t, worker, token, at, now).1 == NothingDue {
      NothingDueIff(rows, t, at, now);
      forall k | k in rows ensures after[k] == rows[k] {
        RecoverAt(rows, t, at, now, k);
      }
    }
  }

  // ----- Confirming and failing -----

  /** The row is being published under this token. */
  predicate HeldUnder(rows: Rows, k: Key, token: Token) {
    k in rows && match rows[k].delivery { case Publishing(held, _, _) => held == token case _ => false }
  }

  lemma ConfirmIff(rows: Rows, k: Key, token: Token, stream: int, digest: nat, at: int, now: int)
    requires forall j :: j in rows ==> RowOk(rows[j])
    ensures var (after, reply) := Confirm(rows, k, token, stream, digest, at, now);
            var permitted := stream >= 1 && at - now <= 2_000_000 && HeldUnder(rows, k, token);
            && (reply == Refused <==> !permitted)
            && (reply == Marked <==> permitted && rows[k].createdAt <= at)
            && (reply != Marked ==> after == rows && reply in {Refused, CheckFailed})
            && (reply == Marked ==>
                  after == rows[k := Row(Published(stream, digest, at), rows[k].attempts, rows[k].nextAttemptAt, None,
                                         rows[k].createdAt, if now < at then at else now)])
  {
  }

  lemma FailIff(rows: Rows, k: Key, token: Token, code: string, at: int, delay: int, now: int)
    requires forall j :: j in rows ==> RowOk(rows[j])
    ensures var (after, reply) := Fail(rows, k, token, code, at, delay, now);
            var permitted := ReasonCodeFormat(code) && 1 <= delay <= 600 && at - now <= 2_000_000 && HeldUnder(rows, k, token);
            && (reply == Refused <==> !permitted)
            && (reply == Marked <==> permitted && (rows[k].createdAt <= at || rows[k].createdAt <= now))
            && (reply != Marked ==> after == rows && reply in {Refused, CheckFailed})
            && (reply == Marked ==>
                  after == rows[k := Row(Pending, rows[k].attempts, at + 1_000_000 * delay, Some(code),
                                         rows[k].createdAt, if now < at then at else now)])
  {
  }
}
