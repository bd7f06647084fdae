/** Lease safety: over every interleaving of workers whose tokens are not reused, a claim
    that lost its row can never confirm or fail it. */
module OutboxFencing {
  import opened Sql
  import opened Tenancy
  import opened Certificates
  import opened Outbox

  lemma NoGrantToStranger(grants: seq<Grant>, k: Key)
    requires forall i :: 0 <= i < |grants| ==> grants[i].key != k
    ensures GrantsTo(grants, k) == 0
  {
  }

  // ----- One call -----

  lemma EnqueueKeepsSound(h: History, e: Event, now: int)
    requires Sound(h)
    ensures Sound(Advance(h, EnqueueCall(e, now)))
  {
    var k := (e.tenant, e.id);
    if k !in h.rows {
      NoGrantToStranger(h.grants, k);
    }
  }

  /** What recovery does to one row. */
  lemma RecoverAt(rows: Rows, t: TenantId, at: int, now: int, k: Key)
    ensures k in Recover(rows, t, at, now) <==> k in rows
    ensures k in rows ==>
              Recover(rows, t, at, now)[k] == (if k.0 == t && IsStale(rows[k], at) then RecoveredRow(rows[k], at, now) else rows[k])
  {
  }

  /** What a claim does to one row: nothing, recovery, or the grant. */
  lemma ClaimAt(rows: Rows, t: TenantId, worker: string, token: Token, at: int, now: int, k: Key)
    ensures var (after, reply) := Claim(rows, t, worker, token, at, now);
            && (k in after <==> k in rows)
            && (k in rows && reply.Claimed? && reply.key == k ==>
                  && reply.token == token && after[k].delivery == Publishing(token, worker, at)
                  && after[k].attempts == rows[k].attempts + 1 && RowOk(after[k])
                  && (rows[k].delivery.Pending? || IsStale(rows[k], at)))
            && (k in rows && !(reply.Claimed? && reply.key == k) ==>
                  || after[k] == rows[k]
                  || (k.0 == t && IsStale(rows[k], at) && after[k] == RecoveredRow(rows[k], at, now) && RowOk(after[k])))
  {
    RecoverAt(rows, t, at, now, k);
  }

  lemma ClaimKeepsRowSound(h: History, t: TenantId, worker: string, token: Token, at: int, now: int, k: Key)
    requires Sound(h) && k in h.rows
    ensures var (after, h') := (Claim(h.rows, t, worker, token, at, now).0, Advance(h, ClaimCall(t, worker, token, at, now)));
            && k in after && RowOk(after[k]) && after[k].attempts == GrantsTo(h'.grants, k)
            && (after[k].delivery.Publishing? ==> LastGrantTo(h'.grants, k) == Some(after[k].delivery.token))
  {
    var reply := Claim(h.rows, t, worker, token, at, now).1;
    ClaimAt(h.rows, t, worker, token, at, now, k);
    if reply.Claimed? {
      GrantAppended(h.grants, Grant(reply.key, reply.token), k);
    }
  }

  lemma ClaimKeepsSound(h: History, t: TenantId, worker: string, token: Token, at: int, now: int)
    requires Sound(h) && token !in h.tokens
    ensures Sound(Advance(h, ClaimCall(t, worker, token, at, now)))
  {
    var (after, reply) := Claim(h.rows, t, worker, token, at, now);
    forall k ensures k in after <==> k in h.rows {
      ClaimAt(h.rows, t, worker, token, at, now, k);
    }
    forall k | k in h.rows
      ensures RowOk(after[k]) && after[k].attempts == GrantsTo(Advance(h, ClaimCall(t, worker, token, at, now)).grants, k)
      ensures after[k].delivery.Publishing? ==>
                LastGrantTo(Advance(h, ClaimCall(t, worker, token, at, now)).grants, k) == Some(after[k].delivery.token)
    {
      ClaimKeepsRowSound(h, t, worker, token, at, now, k);
    }
    if reply.Claimed? {
      ClaimAt(h.rows, t, worker, token, at, now, reply.key);
    }
  }

  lemma CallKeepsSound(h: History, call: OutboxCall)
    requires Sound(h) && (call.ClaimCall? ==> call.token !in h.tokens)
    ensures Sound(Advance(h, call))
  {
    match call {
      case EnqueueCall(e, now) => EnqueueKeepsSound(h, e, now);
      case ClaimCall(t, w, token, at, now) => ClaimKeepsSound(h, t, w, token, at, now);
      case ConfirmCall(k, token, s, d, at, now) =>
      case FailCall(k, token, c, at, d, now) =>
    }
  }

  lemma FreshTokensTail(h: History, calls: seq<OutboxCall>)
    requires |calls| > 0 && TokensAreFresh(h, calls)
    ensures TokensAreFresh(Advance(h, calls[0]), calls[1..])
  {
  }

  /** Over every run with fresh tokens, from the empty outbox in particular: attempt counts
      equal the claims granted, and a row being published is held by its latest claimant. */
  lemma {:induction false} RunKeepsSound(h: History, calls: seq<OutboxCall>)
    requires Sound(h) && TokensAreFresh(h, calls)
    ensures Sound(AdvanceAll(h, calls))
    decreases |calls|
  {
    if |calls| != 0 {
      CallKeepsSound(h, calls[0]);
      FreshTokensTail(h, calls);
      RunKeepsSound(Advance(h, calls[0]), calls[1..]);
    }
  }

  // ----- Tokens -----

  lemma LastGrantIsAGrant(grants: seq<Grant>, k: Key) returns (i: nat)
    requires LastGrantTo(grants, k).Some?
    ensures i < |grants| && grants[i] == Grant(k, LastGrantTo(grants, k).value)
  {
    i := |grants| - 1;
    if grants[i].key != k {
      i := LastGrantIsAGrant(grants[..i], k);
    }
  }

  /** At any moment a token is good for at most one row, and a row for one token. */
  lemma OneTokenPerRowOneRowPerToken(h: History, k: Key, k': Key, token: Token, token': Token)
    requires Sound(h) && Holds(h.rows, k, token) && Holds(h.rows, k', token')
    ensures k == k' <==> token == token'
  {
    var i := LastGrantIsAGrant(h.grants, k);
    var j := LastGrantIsAGrant(h.grants, k');
    assert i < j ==> h.grants[i].token != h.grants[j].token;
    assert j < i ==> h.grants[j].token != h.grants[i].token;
  }

  /** No claim of the run offers this token. */
  predicate NotOffered(calls: seq<OutboxCall>, token: Token) {
    forall i :: 0 <= i < |calls| && calls[i].ClaimCall? ==> calls[i].token != token
  }

  /** With fresh tokens no token of the past is offered again. */
  lemma FreshRunOffersNoOldToken(h: History, calls: seq<OutboxCall>, token: Token)
    requires TokensAreFresh(h, calls) && token in h.tokens
    ensures NotOffered(calls, token)
  {
  }

  /** The one way a dead token comes alive: a claim makes a token good for a row exactly by
      granting that row under that token. */
  lemma ClaimRevivesIff(rows: Rows, t: TenantId, worker: string, token: Token, at: int, now: int, k: Key, other: Token)
    requires !Holds(rows, k, other)
    ensures var (after, reply) := Claim(rows, t, worker, token, at, now);
            Holds(after, k, other) <==> reply.Claimed? && reply.key == k && token == other
  {
    ClaimAt(rows, t, worker, token, at, now, k);
    if Claim(rows, t, worker, token, at, now).1.Claimed? {
      ClaimAt(rows, t, worker, token, at, now, Claim(rows, t, worker, token, at, now).1.key);
    }
  }

  /** A call that grants the row under the token. */
  ghost predicate Revives(rows: Rows, call: OutboxCall, k: Key, token: Token) {
    call.ClaimCall? && call.token == token
    && var reply := Claim(rows, call.tenant, call.worker, call.token, call.at, call.now).1; reply.Claimed? && reply.key == k
  }

  lemma CallRevivesIff(h: History, call: OutboxCall, k: Key, token: Token)
    requires !Holds(h.rows, k, token)
    ensures Holds(Advance(h, call).rows, k, token) <==> Revives(h.rows, call, k, token)
  {
    if call.ClaimCall? {
      ClaimRevivesIff(h.rows, call.tenant, call.worker, call.token, call.at, call.now, k, token);
    }
  }

  /** A token that is not good for a row stays so over every run in which no claim offers
      this very token; the other tokens may be reused at will. */
  lemma {:induction false} DeadTokenStaysDead(h: History, calls: seq<OutboxCall>, k: Key, token: Token)
    requires NotOffered(calls, token) && !Holds(h.rows, k, token)
    ensures !Holds(AdvanceAll(h, calls).rows, k, token)
    decreases |calls|
  {
    if |calls| != 0 {
      CallRevivesIff(h, calls[0], k, token);
      DeadTokenStaysDead(Advance(h, calls[0]), calls[1..], k, token);
    }
  }

  /** A claim takes a row away from its holder exactly when the row belongs to the tenant
      and was claimed more than five minutes before the new claim's time. */
  lemma ClaimTakesOnlyStaleRows(h: History, t: TenantId, worker: string, token': Token, at: int, now: int, k: Key, token: Token)
    requires Sound(h) && Holds(h.rows, k, token) && token' !in h.tokens
    requires Claim(h.rows, t, worker, token', at, now).1.Claimed? || Claim(h.rows, t, worker, token', at, now).1.NothingDue?
    ensures !Holds(Claim(h.rows, t, worker, token', at, now).0, k, token)
            <==> k.0 == t && h.rows[k].delivery.claimedAt < at - LEASE
  {
    ClaimAt(h.rows, t, worker, token', at, now, k);
    RecoverAt(h.rows, t, at, now, k);
    var i := LastGrantIsAGrant(h.grants, k);
    assert token in h.tokens;
  }

  /** A worker whose row another claim took away can, however the run goes on, neither
      confirm nor fail it, as long as its own token is not offered again. */
  lemma RecoveredWorkerIsFencedOff(h: History, t: TenantId, worker: string, token': Token, at: int, now: int,
                                   calls: seq<OutboxCall>, k: Key, token: Token)
    requires !Holds(Claim(h.rows, t, worker, token', at, now).0, k, token) && NotOffered(calls, token)
    ensures var rows := AdvanceAll(Advance(h, ClaimCall(t, worker, token', at, now)), calls).rows;
            && (forall stream, digest, at', now' :: Confirm(rows, k, token, stream, digest, at', now') == (rows, Refused))
            && (forall code, at', delay, now' :: Fail(rows, k, token, code, at', delay, now') == (rows, Refused))
  {
    DeadTokenStaysDead(Advance(h, ClaimCall(t, worker, token', at, now)), calls, k, token);
  }

  /** With fresh tokens, in particular: a worker that holds a row and loses it to another
      claim is refused for ever. */
  lemma FreshTokensFenceOff(h: History, t: TenantId, worker: string, token': Token, at: int, now: int,
                            calls: seq<OutboxCall>, k: Key, token: Token)
    requires Sound(h) && Holds(h.rows, k, token) && TokensAreFresh(h, [ClaimCall(t, worker, token', at, now)] + calls)
    requires !Holds(Claim(h.rows, t, worker, token', at, now).0, k, token)
    ensures var rows := AdvanceAll(Advance(h, ClaimCall(t, worker, token', at, now)), calls).rows;
            && (forall stream, digest, at', now' :: Confirm(rows, k, token, stream, digest, at', now') == (rows, Refused))
            && (forall code, at', delay, now' :: Fail(rows, k, token, code, at', delay, now') == (rows, Refused))
  {
    var run := [ClaimCall(t, worker, token', at, now)] + calls;
    assert run[0] == ClaimCall(t, worker, token', at, now) && run[1..] == calls;
    var i := LastGrantIsAGrant(h.grants, k);
    FreshTokensTail(h, run);
    FreshRunOffersNoOldToken(Advance(h, run[0]), calls, token);
    RecoveredWorkerIsFencedOff(h, t, worker, token', at, now, calls, k, token);
  }

  /** The same for a worker that already confirmed or failed its row. */
  lemma SpentTokenIsRefused(h: History, calls: seq<OutboxCall>, k: Key, token: Token)
    requires !Holds(h.rows, k, token) && NotOffered(calls, token)
    ensures var rows := AdvanceAll(h, calls).rows;
            && (forall stream, digest, at, now :: Confirm(rows, k, token, stream, digest, at, now) == (rows, Refused))
            && (forall code, at, delay, now :: Fail(rows, k, token, code, at, delay, now) == (rows, Refused))
  {
    DeadTokenStaysDead(h, calls, k, token);
  }

  // ----- A reused token -----

  /** The first calls of a run: the event is enqueued and claimed at once. */
  function FirstClaim(e: Event, token: Token): seq<OutboxCall> {
    [EnqueueCall(e, e.recordedAt), ClaimCall(e.tenant, "worker-a", token, e.recordedAt, e.recordedAt)]
  }

  function FirstClaimedRow(e: Event, token: Token): Row {
    ClaimedRow(NewOutboxRow(e, e.recordedAt), "worker-a", token, e.recordedAt, e.recordedAt)
  }

  /** When the lease has run out, a second worker claims the row under the same token. */
  function ReuseRun(e: Event, token: Token): seq<OutboxCall> {
    FirstClaim(e, token) + [ClaimCall(e.tenant, "worker-b", token, e.recordedAt + 2 * LEASE, e.recordedAt + 2 * LEASE)]
  }

  lemma {:induction false} AdvanceLast(h: History, calls: seq<OutboxCall>, last: OutboxCall)
    ensures AdvanceAll(h, calls + [last]) == Advance(AdvanceAll(h, calls), last)
    decreases |calls|
  {
    if |calls| == 0 {
      assert calls + [last] == [last];
      assert AdvanceAll(Advance(h, last), []) == Advance(h, last);
    } else {
      AdvanceLast(Advance(h, calls[0]), calls[1..], last);
      assert (calls + [last])[1..] == calls[1..] + [last];
    }
  }

  lemma OnlyRowIsClaimed(k: Key, row: Row, worker: string, token: Token, at: int, now: int)
    requires WorkerFormat(worker) && at <= now + 2 * SECOND && row.createdAt <= at && row.attempts >= 0
    requires (row.delivery.Pending? && row.nextAttemptAt <= at) || IsStale(row, at)
    ensures var recovered := if IsStale(row, at) then RecoveredRow(row, at, now) else row;
            Claim(map[k := row], k.0, worker, token, at, now)
            == (map[k := ClaimedRow(recovered, worker, token, at, now)], Claimed(k, token, row.attempts + 1))
  {
    var rows: Rows := map[k := row];
    var row' := if IsStale(row, at) then RecoveredRow(row, at, now) else row;
    var recovered := Recover(rows, k.0, at, now);
    assert recovered == map[k := row'];
    assert IsFirstDue(recovered, k.0, at, k);
    var claimed := ClaimedRow(row', worker, token, at, now);
    var after := recovered[k := claimed];
    assert RowOk(claimed) && (IsStale(row, at) ==> RowOk(row'));
    assert ChangedRowsOk(rows, recovered) && ChangedRowsOk(recovered, after);
    assert FirstDue(recovered, k.0, at) == Some(k);
    assert after == map[k := claimed];
  }

  lemma FirstClaimGrants(e: Event, token: Token)
    ensures AdvanceAll(NO_HISTORY, FirstClaim(e, token)).rows == map[(e.tenant, e.id) := FirstClaimedRow(e, token)]
  {
    var k := (e.tenant, e.id);
    var enqueue, claim := FirstClaim(e, token)[0], FirstClaim(e, token)[1];
    AdvanceLast(NO_HISTORY, [], enqueue);
    AdvanceLast(NO_HISTORY, [enqueue], claim);
    assert [] + [enqueue] == [enqueue] && [enqueue] + [claim] == FirstClaim(e, token);
    assert AdvanceAll(NO_HISTORY, [enqueue]).rows == map[k := NewOutboxRow(e, e.recordedAt)];
    OnlyRowIsClaimed(k, NewOutboxRow(e, e.recordedAt), "worker-a", token, e.recordedAt, e.recordedAt);
  }

  /** Nothing in the schema keeps tokens distinct. On this run from the empty outbox the
      second worker holds the row and the first one, whose lease was recovered, confirms it. */
  lemma ReusedTokenOpensTheFence(e: Event, token: Token)
    ensures var k := (e.tenant, e.id);
            var before := AdvanceAll(NO_HISTORY, FirstClaim(e, token)).rows;
            var end := AdvanceAll(NO_HISTORY, ReuseRun(e, token)).rows;
            var at := e.recordedAt + 2 * LEASE;
            && k in before && before[k].delivery == Publishing(token, "worker-a", e.recordedAt)
            && k in end && end[k].delivery == Publishing(token, "worker-b", at)
            && Confirm(end, k, token, 1, 0, at, at).1 == Marked
  {
    var k, at := (e.tenant, e.id), e.recordedAt + 2 * LEASE;
    FirstClaimGrants(e, token);
    AdvanceLast(NO_HISTORY, FirstClaim(e, token), ClaimCall(e.tenant, "worker-b", token, at, at));
    OnlyRowIsClaimed(k, FirstClaimedRow(e, token), "worker-b", token, at, at);
  }

  /** A token is accepted exactly when it is the latest grant of a row that is still being
      published, and the arguments and the row's own times allow it. */
  lemma ConfirmedIff(h: History, k: Key, token: Token, stream: int, digest: nat, at: int, now: int)
    requires Sound(h)
    ensures Confirm(h.rows, k, token, stream, digest, at, now).1 == Marked <==>
              (k in h.rows && h.rows[k].delivery.Publishing? && LastGrantTo(h.grants, k) == Some(token)
               && stream >= 1 && h.rows[k].createdAt <= at <= now + 2 * SECOND)
  {
  }

  /** A reported failure puts the row back, to be claimed again from the retry time on and
      not before; its attempt count and all other rows stay. */
  lemma FailedRowIsDueIff(rows: Rows, k: Key, token: Token, code: string, at: int, delay: int, now: int, later: int)
    requires Fail(rows, k, token, code, at, delay, now).1 == Marked
    ensures var after := Fail(rows, k, token, code, at, delay, now).0;
            && (IsDue(after, k.0, later, k) <==> at + delay * SECOND <= later)
            && after[k].attempts == rows[k].attempts && after == rows[k := after[k]]
            && at + SECOND <= after[k].nextAttemptAt <= at + 600 * SECOND
  {
  }

  // ----- Published rows -----

  /** No call of any run changes a published row. */
  lemma {:induction false} PublishedRowIsFinal(h: History, calls: seq<OutboxCall>, k: Key)
    requires k in h.rows && h.rows[k].delivery.Published?
    ensures k in AdvanceAll(h, calls).rows && AdvanceAll(h, calls).rows[k] == h.rows[k]
    decreases |calls|
  {
    if |calls| != 0 {
      match calls[0] {
        case ClaimCall(t, w, token, at, now) => ClaimAt(h.rows, t, w, token, at, now, k);
        case _ =>
      }
      PublishedRowIsFinal(Advance(h, calls[0]), calls[1..], k);
    }
  }
}
