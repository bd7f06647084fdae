/** The transactional outbox of migration 011: every lifecycle event waits in a row until a
    worker has claimed it with a token, published it and confirmed it. */
module Outbox {
  import opened Sql
  import opened Tenancy
  import opened Certificates

  type Token = nat
  type Key = (TenantId, EventId)

  /** The three shapes the state CHECK admits. */
  datatype Delivery =
    | Pending
    | Publishing(token: Token, worker: string, claimedAt: int)
    | Published(stream: int, digest: nat, publishedAt: int)

  datatype Row = Row(delivery: Delivery, attempts: int, nextAttemptAt: int, failure: Option<string>,
                     createdAt: int, updatedAt: int)

  type Rows = map<Key, Row>

  const LEASE: int := 300 * SECOND

  datatype OutboxReply = Claimed(key: Key, token: Token, attempt: int) | NothingDue | Marked | Refused | CheckFailed

  /** The remaining CHECK constraints of a row. */
  predicate RowOk(row: Row) {
    && row.attempts >= 0
    && row.updatedAt >= row.createdAt
    && (row.delivery.Publishing? ==> row.delivery.claimedAt >= row.createdAt)
    && (row.delivery.Published? ==> row.delivery.stream > 0 && row.delivery.publishedAt >= row.createdAt)
  }

  /** A statement commits when every row it changed meets its constraints. */
  predicate ChangedRowsOk(rows: Rows, after: Rows) {
    forall k :: k in after && (k in rows ==> after[k] != rows[k]) ==> RowOk(after[k])
  }

  predicate WorkerFormat(s: string) {
    && 3 <= |s| <= 128
    && forall i :: 0 <= i < |s| ==>
         'a' <= s[i] <= 'z' || '0' <= s[i] <= '9' || (i > 0 && (s[i] == '.' || s[i] == '_' || s[i] == ':' || s[i] == '-'))
  }

  // ----- Enqueueing -----

  function NewOutboxRow(e: Event, now: int): Row {
    Row(Pending, 0, now, None, e.recordedAt, e.recordedAt)
  }

  /** The AFTER INSERT trigger on lifecycle events. */
  function Enqueue(rows: Rows, e: Event, now: int): Rows {
    if (e.tenant, e.id) in rows then rows else rows[(e.tenant, e.id) := NewOutboxRow(e, now)]
  }

  // ----- Claiming -----

  predicate IsStale(row: Row, at: int) {
    row.delivery.Publishing? && row.delivery.claimedAt < at - LEASE
  }

  function RecoveredRow(row: Row, at: int, now: int): Row {
    row.(delivery := Pending, nextAttemptAt := at, failure := Some("STALE_CLAIM_RECOVERED"), updatedAt := Max(now, at))
  }

  /** Stale claims of the tenant go back to pending. */
  function Recover(rows: Rows, t: TenantId, at: int, now: int): Rows {
    map k | k in rows :: if k.0 == t && IsStale(rows[k], at) then RecoveredRow(rows[k], at, now) else rows[k]
  }

  predicate IsDue(rows: Rows, t: TenantId, at: int, k: Key) {
    k in rows && k.0 == t && rows[k].delivery.Pending? && rows[k].nextAttemptAt <= at
  }

  /** ORDER BY created_at, event_id */
  predicate Before(rows: Rows, j: Key, k: Key)
    requires j in rows && k in rows
  {
    rows[j].createdAt < rows[k].createdAt || (rows[j].createdAt == rows[k].createdAt && j.1 < k.1)
  }

  predicate IsFirstDue(rows: Rows, t: TenantId, at: int, k: Key) {
    IsDue(rows, t, at, k) && forall j :: j in rows && IsDue(rows, t, at, j) ==> j == k || Before(rows, k, j)
  }

  ghost function FirstDue(rows: Rows, t: TenantId, at: int): (r: Option<Key>)
    ensures r.Some? ==> IsFirstDue(rows, t, at, r.value)
    ensures r.None? ==> forall k :: !IsFirstDue(rows, t, at, k)
  {
    if exists k :: IsFirstDue(rows, t, at, k) then var k :| IsFirstDue(rows, t, at, k); Some(k) else None
  }

  function ClaimedRow(row: Row, worker: string, token: Token, at: int, now: int): Row {
    row.(delivery := Publishing(token, worker, at), attempts := row.attempts + 1, failure := None, updatedAt := Max(now, at))
  }

  /** `claim_certificate_event_outbox` */
  ghost function Claim(rows: Rows, t: TenantId, worker: string, token: Token, at: int, now: int): (Rows, OutboxReply) {
    if !WorkerFormat(worker) || at > now + 2 * SECOND then (rows, Refused)
    else
      var recovered := Recover(rows, t, at, now);
      match FirstDue(recovered, t, at)
      case None => if ChangedRowsOk(rows, recovered) then (recovered, NothingDue) else (rows, CheckFailed)
      case Some(k) =>
        var after := recovered[k := ClaimedRow(recovered[k], worker, token, at, now)];
        if ChangedRowsOk(rows, recovered) && ChangedRowsOk(recovered, after)
        then (after, Claimed(k, token, after[k].attempts))
        else (rows, CheckFailed)
  }

  // ----- Confirming and failing -----

  /** The token is the one the row is being published under. */
  predicate Holds(rows: Rows, k: Key, token: Token) {
    k in rows && rows[k].delivery.Publishing? && rows[k].delivery.token == token
  }

  /** `mark_certificate_event_published` */
  function Confirm(rows: Rows, k: Key, token: Token, stream: int, digest: nat, at: int, now: int): (Rows, OutboxReply) {
    if stream < 1 || at > now + 2 * SECOND || !Holds(rows, k, token) then (rows, Refused)
    else
      var row := rows[k].(delivery := Published(stream, digest, at), failure := None, updatedAt := Max(now, at));
      if RowOk(row) then (rows[k := row], Marked) else (rows, CheckFailed)
  }

  /** `mark_certificate_event_publish_failed` */
  function Fail(rows: Rows, k: Key, token: Token, code: string, at: int, delay: int, now: int): (Rows, OutboxReply) {
    if !ReasonCodeFormat(code) || delay < 1 || delay > 600 || at > now + 2 * SECOND || !Holds(rows, k, token) then (rows, Refused)
    else
      var row := rows[k].(delivery := Pending, nextAttemptAt := at + delay * SECOND, failure := Some(code),
                          updatedAt := Max(now, at));
      if RowOk(row) then (rows[k := row], Marked) else (rows, CheckFailed)
  }

  // ----- Runs with their history of granted claims -----

  datatype OutboxCall =
    | EnqueueCall(event: Event, now: int)
    | ClaimCall(tenant: TenantId, worker: string, token: Token, at: int, now: int)
    | ConfirmCall(key: Key, token: Token, stream: int, digest: nat, at: int, now: int)
    | FailCall(key: Key, token: Token, code: string, at: int, delay: int, now: int)

  datatype Grant = Grant(key: Key, token: Token)

  /** The rows, every claim granted so far and every token offered so far. */
  datatype History = History(rows: Rows, grants: seq<Grant>, tokens: set<Token>)

  ghost function Answer(rows: Rows, call: OutboxCall): (Rows, OutboxReply) {
    match call
    case EnqueueCall(e, now) => (Enqueue(rows, e, now), Marked)
    case ClaimCall(t, w, token, at, now) => Claim(rows, t, w, token, at, now)
    case ConfirmCall(k, token, s, d, at, now) => Confirm(rows, k, token, s, d, at, now)
    case FailCall(k, token, c, at, d, now) => Fail(rows, k, token, c, at, d, now)
  }

  ghost function Advance(h: History, call: OutboxCall): History {
    var (rows, reply) := Answer(h.rows, call);
    History(rows,
            if reply.Claimed? then h.grants + [Grant(reply.key, reply.token)] else h.grants,
            if call.ClaimCall? then h.tokens + {call.token} else h.tokens)
  }

  ghost function AdvanceAll(h: History, calls: seq<OutboxCall>): History
    decreases |calls|
  {
    if |calls| == 0 then h else AdvanceAll(Advance(h, calls[0]), calls[1..])
  }

  /** No claim of the run reuses a token offered before it. */
  predicate TokensAreFresh(h: History, calls: seq<OutboxCall>) {
    && (forall i :: 0 <= i < |calls| && calls[i].ClaimCall? ==> calls[i].token !in h.tokens)
    && (forall i, j :: 0 <= i < j < |calls| && calls[i].ClaimCall? && calls[j].ClaimCall? ==>
          calls[i].token != calls[j].token)
  }

  function GrantsTo(grants: seq<Grant>, k: Key): nat {
    if |grants| == 0 then 0
    else GrantsTo(grants[..|grants| - 1], k) + if grants[|grants| - 1].key == k then 1 else 0
  }

  function LastGrantTo(grants: seq<Grant>, k: Key): Option<Token> {
    if |grants| == 0 then None
    else if grants[|grants| - 1].key == k then Some(grants[|grants| - 1].token)
    else LastGrantTo(grants[..|grants| - 1], k)
  }

  lemma GrantAppended(grants: seq<Grant>, g: Grant, k: Key)
    ensures GrantsTo(grants + [g], k) == GrantsTo(grants, k) + if g.key == k then 1 else 0
    ensures LastGrantTo(grants + [g], k) == if g.key == k then Some(g.token) else LastGrantTo(grants, k)
  {
    assert (grants + [g])[..|grants|] == grants;
  }

  /** What every call keeps: constraints, attempt counts, and that a row being published is
      held by the last worker it was granted to. */
  predicate Sound(h: History) {
    && (forall k :: k in h.rows ==> RowOk(h.rows[k]))
    && (forall k :: k in h.rows ==> h.rows[k].attempts == GrantsTo(h.grants, k))
    && (forall k :: k in h.rows && h.rows[k].delivery.Publishing? ==>
          LastGrantTo(h.grants, k) == Some(h.rows[k].delivery.token))
    && (forall i :: 0 <= i < |h.grants| ==> h.grants[i].token in h.tokens && h.grants[i].key in h.rows)
    && (forall i, j :: 0 <= i < j < |h.grants| ==> h.grants[i].token != h.grants[j].token)
  }

  const NO_HISTORY: History := History(map[], [], {})
}
