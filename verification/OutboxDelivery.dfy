/** Delivery: outbox rows and lifecycle events are in bijection, and claiming and confirming
    at one time publishes what was due at that time, in order and once each. */
module OutboxDelivery {
  import opened Sql
  import opened Tenancy
  import opened Certificates
  import opened CertificateHistory
  import opened CertificateRetries
  import opened Outbox
  import opened OutboxFencing

  // ----- One row per event -----

  function KeysOf(events: seq<Event>): set<Key> {
    set i | 0 <= i < |events| :: (events[i].tenant, events[i].id)
  }

  /** The trigger fires once per inserted event, inside the inserting call. */
  function EnqueueEvents(rows: Rows, events: seq<Event>, now: int): Rows {
    if |events| == 0 then rows
    else Enqueue(EnqueueEvents(rows, events[..|events| - 1], now), events[|events| - 1], now)
  }

  datatype Ledger = Ledger(inventory: Inventory, rows: Rows)

  datatype LedgerStep = Lifecycle(call: Call, now: int) | Worker(work: OutboxCall)

  ghost function LedgerNext(l: Ledger, step: LedgerStep): Ledger {
    match step
    case Lifecycle(call, now) =>
      var inventory := Serve(l.inventory, call);
      CallExtends(l.inventory, call);
      Ledger(inventory, EnqueueEvents(l.rows, inventory.events[|l.inventory.events|..], now))
    case Worker(call) =>
      if call.EnqueueCall? then l else Ledger(l.inventory, Answer(l.rows, call).0)
  }

  ghost function LedgerRun(l: Ledger, steps: seq<LedgerStep>): Ledger
    decreases |steps|
  {
    if |steps| == 0 then l else LedgerRun(LedgerNext(l, steps[0]), steps[1..])
  }

  lemma {:induction false} EnqueueAddsKeys(rows: Rows, events: seq<Event>, now: int)
    ensures EnqueueEvents(rows, events, now).Keys == rows.Keys + KeysOf(events)
    decreases |events|
  {
    if |events| != 0 {
      var rest := events[..|events| - 1];
      EnqueueAddsKeys(rows, rest, now);
      assert KeysOf(events) == KeysOf(rest) + {(events[|events| - 1].tenant, events[|events| - 1].id)} by {
        assert events == rest + [events[|events| - 1]];
        KeysOfAppend(rest, [events[|events| - 1]]);
      }
    }
  }

  lemma KeysOfAppend(x: seq<Event>, y: seq<Event>)
    ensures KeysOf(x + y) == KeysOf(x) + KeysOf(y)
  {
    forall k | k in KeysOf(x) + KeysOf(y) ensures k in KeysOf(x + y) {
      if k in KeysOf(x) {
        var i :| 0 <= i < |x| && k == (x[i].tenant, x[i].id);
        assert (x + y)[i] == x[i];
      } else {
        var i :| 0 <= i < |y| && k == (y[i].tenant, y[i].id);
        assert (x + y)[|x| + i] == y[i];
      }
    }
  }

  lemma WorkerKeepsKeys(rows: Rows, call: OutboxCall)
    requires !call.EnqueueCall?
    ensures Answer(rows, call).0.Keys == rows.Keys
  {
    if call.ClaimCall? {
      forall k ensures k in Answer(rows, call).0 <==> k in rows {
        ClaimAt(rows, call.tenant, call.worker, call.token, call.at, call.now, k);
      }
    }
  }

  predicate OneRowPerEvent(l: Ledger) {
    l.rows.Keys == KeysOf(l.inventory.events)
  }

  lemma LifecycleKeepsOneRowPerEvent(l: Ledger, call: Call, now: int)
    requires OneRowPerEvent(l)
    ensures OneRowPerEvent(LedgerNext(l, Lifecycle(call, now)))
  {
    CallExtends(l.inventory, call);
    var before, after := l.inventory.events, Serve(l.inventory, call).events;
    var added := after[|before|..];
    assert after == before + added;
    EnqueueAddsKeys(l.rows, added, now);
    KeysOfAppend(before, added);
  }

  lemma StepKeepsOneRowPerEvent(l: Ledger, step: LedgerStep)
    requires Valid(l.inventory) && OneRowPerEvent(l)
    ensures Valid(LedgerNext(l, step).inventory) && OneRowPerEvent(LedgerNext(l, step))
  {
    match step {
      case Lifecycle(call, now) =>
        CallKeepsValid(l.inventory, call);
        LifecycleKeepsOneRowPerEvent(l, call, now);
      case Worker(call) =>
        if !call.EnqueueCall? {
          WorkerKeepsKeys(l.rows, call);
        }
    }
  }

  function Count(rows: Rows, status: Delivery -> bool): nat {
    |set k | k in rows && status(rows[k].delivery)|
  }

  lemma {:induction false} DistinctEventsHaveDistinctKeys(events: seq<Event>)
    requires EventsDistinct(events)
    ensures |KeysOf(events)| == |events|
    decreases |events|
  {
    if |events| != 0 {
      var rest, e := events[..|events| - 1], events[|events| - 1];
      DistinctEventsHaveDistinctKeys(rest);
      KeysOfAppend(rest, [e]);
      assert events == rest + [e];
      assert KeysOf([e]) == {(e.tenant, e.id)} by {
        assert [e][0] == e;
      }
      assert (e.tenant, e.id) !in KeysOf(rest);
    }
  }

  lemma StatusesPartition(rows: Rows)
    ensures Count(rows, (d: Delivery) => d.Pending?) + Count(rows, (d: Delivery) => d.Publishing?)
            + Count(rows, (d: Delivery) => d.Published?) == |rows|
  {
    var a := set k | k in rows && ((d: Delivery) => d.Pending?)(rows[k].delivery);
    var b := set k | k in rows && ((d: Delivery) => d.Publishing?)(rows[k].delivery);
    var c := set k | k in rows && ((d: Delivery) => d.Published?)(rows[k].delivery);
    assert rows.Keys == a + b + c;
    assert |rows| == |rows.Keys|;
  }

  /** In every run of lifecycle calls and workers the outbox has exactly one row per event,
      so pending, publishing and published rows together are as many as events. */
  lemma {:induction false} OutboxMatchesEvents(l: Ledger, steps: seq<LedgerStep>)
    requires Valid(l.inventory) && OneRowPerEvent(l)
    ensures var end := LedgerRun(l, steps);
            && Valid(end.inventory) && OneRowPerEvent(end)
            && Count(end.rows, (d: Delivery) => d.Pending?) + Count(end.rows, (d: Delivery) => d.Publishing?)
               + Count(end.rows, (d: Delivery) => d.Published?) == |end.inventory.events|
    decreases |steps|
  {
    if |steps| == 0 {
      DistinctEventsHaveDistinctKeys(l.inventory.events);
      StatusesPartition(l.rows);
      assert |l.rows| == |l.rows.Keys|;
    } else {
      StepKeepsOneRowPerEvent(l, steps[0]);
      OutboxMatchesEvents(LedgerNext(l, steps[0]), steps[1..]);
    }
  }

  // ----- Draining at one time -----

  /** What a worker can get from the tenant at this time: due rows and stale claims. */
  function Work(rows: Rows, t: TenantId, at: int): set<Key> {
    set k | k in rows && k.0 == t && (IsDue(rows, t, at, k) || IsStale(rows[k], at))
  }

  /** One worker round at time `at`: claim, then confirm what was claimed. */
  ghost function Round(rows: Rows, t: TenantId, worker: string, token: Token, stream: int, digest: nat, at: int, now: int)
    : (Rows, Option<Key>)
  {
    var (claimed, reply) := Claim(rows, t, worker, token, at, now);
    if reply.Claimed? then (Confirm(claimed, reply.key, token, stream, digest, at, now).0, Some(reply.key)) else (claimed, None)
  }

  lemma {:induction false} NonemptyHasFirst(rows: Rows, t: TenantId, at: int, due: set<Key>) returns (k: Key)
    requires due != {} && forall j :: j in due ==> j in rows && j.0 == t
    ensures k in due && forall j :: j in due ==> j == k || Before(rows, k, j)
    decreases |due|
  {
    var x :| x in due;
    if due == {x} {
      k := x;
    } else {
      var y := NonemptyHasFirst(rows, t, at, due - {x});
      assert x == y || x.1 != y.1;
      k := if Before(rows, x, y) then x else y;
      assert due == (due - {x}) + {x};
    }
  }

  /** The conditions under which workers of the tenant make progress at time `at`. */
  predicate Drainable(rows: Rows, t: TenantId, worker: string, at: int, now: int) {
    && WorkerFormat(worker) && at <= now + 2 * SECOND
    && (forall k :: k in rows ==> RowOk(rows[k]))
    && (forall k :: k in rows && k.0 == t ==> rows[k].createdAt <= at)
  }

  lemma RecoveryCommits(rows: Rows, t: TenantId, worker: string, at: int, now: int)
    requires Drainable(rows, t, worker, at, now)
    ensures ChangedRowsOk(rows, Recover(rows, t, at, now))
    ensures forall k :: k in rows && k.0 == t ==> (IsDue(Recover(rows, t, at, now), t, at, k) <==> k in Work(rows, t, at))
  {
  }

  /** The round published row k, the first that could be worked on, and no other work. */
  predicate PublishedFirst(rows: Rows, after: Rows, t: TenantId, at: int, k: Key, published: Delivery) {
    && after.Keys == rows.Keys
    && k in Work(rows, t, at) && after[k].delivery == published
    && (forall j :: j in Work(rows, t, at) ==> j == k || Before(rows, k, j))
    && Work(after, t, at) == Work(rows, t, at) - {k}
    && (forall j :: j in rows ==> after[j].createdAt == rows[j].createdAt)
  }

  lemma ClaimGrantsFirst(rows: Rows, t: TenantId, worker: string, token: Token, at: int, now: int, k: Key)
    requires Drainable(rows, t, worker, at, now)
    requires FirstDue(Recover(rows, t, at, now), t, at) == Some(k)
    ensures var recovered := Recover(rows, t, at, now);
            && k in Work(rows, t, at)
            && Claim(rows, t, worker, token, at, now)
               == (recovered[k := ClaimedRow(recovered[k], worker, token, at, now)], Claimed(k, token, rows[k].attempts + 1))
  {
    RecoveryCommits(rows, t, worker, at, now);
  }

  /** The rows after a round that was granted row k. */
  function PublishedRows(rows: Rows, t: TenantId, stream: int, digest: nat, at: int, now: int, k: Key): Rows
    requires k in rows
  {
    var recovered := Recover(rows, t, at, now);
    recovered[k := recovered[k].(delivery := Published(stream, digest, at), attempts := recovered[k].attempts + 1,
                                 failure := None, updatedAt := Max(now, at))]
  }

  lemma RoundOfFirst(rows: Rows, t: TenantId, worker: string, token: Token, stream: int, digest: nat, at: int, now: int, k: Key)
    requires Drainable(rows, t, worker, at, now) && stream >= 1
    requires FirstDue(Recover(rows, t, at, now), t, at) == Some(k)
    ensures k in Work(rows, t, at)
    ensures Round(rows, t, worker, token, stream, digest, at, now) == (PublishedRows(rows, t, stream, digest, at, now, k), Some(k))
  {
    ClaimGrantsFirst(rows, t, worker, token, at, now, k);
    var claimed := Claim(rows, t, worker, token, at, now).0;
    assert Holds(claimed, k, token);
    assert Confirm(claimed, k, token, stream, digest, at, now).0 == PublishedRows(rows, t, stream, digest, at, now, k);
  }

  lemma PublishedRowsAreFirst(rows: Rows, t: TenantId, worker: string, stream: int, digest: nat, at: int, now: int, k: Key)
    requires Drainable(rows, t, worker, at, now) && stream >= 1
    requires FirstDue(Recover(rows, t, at, now), t, at) == Some(k) && k in Work(rows, t, at)
    ensures PublishedFirst(rows, PublishedRows(rows, t, stream, digest, at, now, k), t, at, k, Published(stream, digest, at))
    ensures Drainable(PublishedRows(rows, t, stream, digest, at, now, k), t, worker, at, now)
  {
    RecoveryCommits(rows, t, worker, at, now);
  }

  lemma FirstDueExistsWithWork(rows: Rows, t: TenantId, worker: string, at: int, now: int)
    requires Drainable(rows, t, worker, at, now)
    ensures FirstDue(Recover(rows, t, at, now), t, at).None? <==> Work(rows, t, at) == {}
  {
    RecoveryCommits(rows, t, worker, at, now);
    if Work(rows, t, at) != {} {
      var k := NonemptyHasFirst(Recover(rows, t, at, now), t, at, Work(rows, t, at));
      assert IsFirstDue(Recover(rows, t, at, now), t, at, k);
    }
  }

  /** A round publishes the first of the rows that can be worked on, and leaves the others
      to be worked on; with none left it changes nothing. */
  lemma RoundPublishesFirst(rows: Rows, t: TenantId, worker: string, token: Token, stream: int, digest: nat, at: int, now: int)
    requires Drainable(rows, t, worker, at, now) && stream >= 1
    ensures var (after, key) := Round(rows, t, worker, token, stream, digest, at, now);
            && (key.None? <==> Work(rows, t, at) == {})
            && (key.None? ==> after == rows)
            && (key.Some? ==> PublishedFirst(rows, after, t, at, key.value, Published(stream, digest, at))
                              && Drainable(after, t, worker, at, now))
  {
    FirstDueExistsWithWork(rows, t, worker, at, now);
    var first := FirstDue(Recover(rows, t, at, now), t, at);
    if first.Some? {
      RoundOfFirst(rows, t, worker, token, stream, digest, at, now, first.value);
      PublishedRowsAreFirst(rows, t, worker, stream, digest, at, now, first.value);
    } else {
      forall k | k in rows ensures Recover(rows, t, at, now)[k] == rows[k] {
        assert k !in Work(rows, t, at);
        RecoverAt(rows, t, at, now, k);
      }
      assert Recover(rows, t, at, now) == rows;
    }
  }

  /** Exactly when an accepted claim is rolled back: the claim time lies before the creation
      of the earliest due row. */
  lemma ClaimIsRolledBackIff(rows: Rows, t: TenantId, worker: string, token: Token, at: int, now: int)
    requires WorkerFormat(worker) && at <= now + 2 * SECOND
    requires forall k :: k in rows ==> RowOk(rows[k])
    ensures var first := FirstDue(Recover(rows, t, at, now), t, at);
            Claim(rows, t, worker, token, at, now).1 == CheckFailed <==> first.Some? && at < rows[first.value].createdAt
  {
    var recovered := Recover(rows, t, at, now);
    forall k | k in rows ensures recovered[k] == rows[k] || RowOk(recovered[k]) {
      RecoverAt(rows, t, at, now, k);
    }
    var first := FirstDue(recovered, t, at);
    if first.Some? {
      var after := recovered[first.value := ClaimedRow(recovered[first.value], worker, token, at, now)];
      assert after[first.value] != recovered[first.value];
      RecoverAt(rows, t, at, now, first.value);
    }
  }

  /** When a claim revives a dead token, in terms of the rows before the call: it offers the
      token, is accepted, and the row is the first due one and not younger than the claim. */
  lemma TokenRevivesIff(rows: Rows, t: TenantId, worker: string, token: Token, at: int, now: int, k: Key, dead: Token)
    requires (forall j :: j in rows ==> RowOk(rows[j])) && !Holds(rows, k, dead)
    ensures Holds(Claim(rows, t, worker, token, at, now).0, k, dead) <==>
              && token == dead && WorkerFormat(worker) && at <= now + 2 * SECOND
              && FirstDue(Recover(rows, t, at, now), t, at) == Some(k) && rows[k].createdAt <= at
  {
    ClaimRevivesIff(rows, t, worker, token, at, now, k, dead);
    if WorkerFormat(worker) && at <= now + 2 * SECOND {
      ClaimIsRolledBackIff(rows, t, worker, token, at, now);
    }
  }

  /** The event is enqueued and claimed, and its failure is reported with a time long before
      the event. */
  function OldFailureRun(e: Event, token: Token): seq<OutboxCall> {
    FirstClaim(e, token)
    + [FailCall((e.tenant, e.id), token, "BROKER_DOWN", e.recordedAt - 1000 * SECOND, 1, e.recordedAt)]
  }

  lemma OldFailureMakesRowDueEarly(e: Event, token: Token)
    ensures var k := (e.tenant, e.id);
            var rows := AdvanceAll(NO_HISTORY, OldFailureRun(e, token)).rows;
            && rows.Keys == {k} && RowOk(rows[k]) && rows[k].delivery.Pending?
            && rows[k].createdAt == e.recordedAt && rows[k].nextAttemptAt == e.recordedAt - 999 * SECOND
  {
    var fail := FailCall((e.tenant, e.id), token, "BROKER_DOWN", e.recordedAt - 1000 * SECOND, 1, e.recordedAt);
    FirstClaimGrants(e, token);
    AdvanceLast(NO_HISTORY, FirstClaim(e, token), fail);
    assert ReasonCodeFormat("BROKER_DOWN");
  }

  /** A failure reported with an old time brings the rollback about: on this run from the
      empty outbox the row becomes due before its creation, and a claim at such a time is
      accepted and rolled back. */
  lemma OldFailureRollsClaimBack(e: Event, token: Token, token': Token)
    ensures var rows := AdvanceAll(NO_HISTORY, OldFailureRun(e, token)).rows;
            Claim(rows, e.tenant, "worker-b", token', e.recordedAt - 990 * SECOND, e.recordedAt) == (rows, CheckFailed)
  {
    var k, at := (e.tenant, e.id), e.recordedAt - 990 * SECOND;
    var rows := AdvanceAll(NO_HISTORY, OldFailureRun(e, token)).rows;
    OldFailureMakesRowDueEarly(e, token);
    var recovered := Recover(rows, e.tenant, at, e.recordedAt);
    RecoverAt(rows, e.tenant, at, e.recordedAt, k);
    assert recovered.Keys == {k} && recovered[k] == rows[k];
    assert IsFirstDue(recovered, e.tenant, at, k);
    ClaimIsRolledBackIff(rows, e.tenant, "worker-b", token', at, e.recordedAt);
  }

  /** Rounds until nothing is claimed, with one token and one stream position per round. */
  ghost function Drain(rows: Rows, t: TenantId, worker: string, token: nat -> Token, stream: nat -> int, digest: nat,
                       at: int, now: int, n: nat): (Rows, seq<Key>)
    requires Drainable(rows, t, worker, at, now) && forall i :: stream(i) >= 1
    decreases |Work(rows, t, at)|
  {
    RoundPublishesFirst(rows, t, worker, token(n), stream(n), digest, at, now);
    var (after, key) := Round(rows, t, worker, token(n), stream(n), digest, at, now);
    if key.None? then (rows, [])
    else
      var (end, order) := Drain(after, t, worker, token, stream, digest, at, now, n + 1);
      (end, [key.value] + order)
  }

  /** The order lists the work at time `at` once each, earliest first, and each was
      published in its own round. */
  ghost predicate Drained(rows: Rows, end: Rows, order: seq<Key>, t: TenantId, stream: nat -> int, digest: nat, at: int, n: nat) {
    && end.Keys == rows.Keys
    && (forall k :: k in order <==> k in Work(rows, t, at))
    && |order| == |Work(rows, t, at)|
    && (forall i :: 0 <= i < |order| ==> order[i] in rows && end[order[i]].delivery == Published(stream(n + i), digest, at))
    && (forall i, j :: 0 <= i < j < |order| ==> Before(rows, order[i], order[j]))
    && Work(end, t, at) == {}
  }

  lemma DrainedPrepend(rows: Rows, after: Rows, end: Rows, order: seq<Key>, t: TenantId, stream: nat -> int, digest: nat,
                       at: int, n: nat, k: Key)
    requires PublishedFirst(rows, after, t, at, k, Published(stream(n), digest, at))
    requires Drained(after, end, order, t, stream, digest, at, n + 1)
    requires k in end && end[k] == after[k]
    ensures Drained(rows, end, [k] + order, t, stream, digest, at, n)
  {
    forall i, j | 0 <= i < j < |[k] + order| ensures Before(rows, ([k] + order)[i], ([k] + order)[j]) {
      assert order[j - 1] in order;
      if i > 0 {
        assert Before(after, order[i - 1], order[j - 1]);
      }
    }
    forall i | 0 <= i < |[k] + order|
      ensures ([k] + order)[i] in rows && end[([k] + order)[i]].delivery == Published(stream(n + i), digest, at)
    {
      if i > 0 {
        assert end[order[i - 1]].delivery == Published(stream(n + 1 + (i - 1)), digest, at);
      }
    }
  }

  /** Without work there is nothing to drain. */
  lemma DrainOfNothing(rows: Rows, t: TenantId, worker: string, token: nat -> Token, stream: nat -> int, digest: nat,
                       at: int, now: int, n: nat)
    requires Drainable(rows, t, worker, at, now) && forall i :: stream(i) >= 1
    requires Work(rows, t, at) == {}
    ensures Drain(rows, t, worker, token, stream, digest, at, now, n) == (rows, [])
    ensures Drained(rows, rows, [], t, stream, digest, at, n)
  {
    RoundPublishesFirst(rows, t, worker, token(n), stream(n), digest, at, now);
  }

  lemma RoundKeepsPublished(rows: Rows, t: TenantId, worker: string, token: Token, stream: int, digest: nat, at: int,
                            now: int, k: Key)
    requires k in rows && rows[k].delivery.Published?
    ensures var after := Round(rows, t, worker, token, stream, digest, at, now).0; k in after && after[k] == rows[k]
  {
    ClaimAt(rows, t, worker, token, at, now, k);
  }

  /** With work, one round and then the rest. */
  lemma DrainOfWork(rows: Rows, t: TenantId, worker: string, token: nat -> Token, stream: nat -> int, digest: nat,
                    at: int, now: int, n: nat) returns (after: Rows, k: Key)
    requires Drainable(rows, t, worker, at, now) && forall i :: stream(i) >= 1
    requires Work(rows, t, at) != {}
    ensures PublishedFirst(rows, after, t, at, k, Published(stream(n), digest, at)) && Drainable(after, t, worker, at, now)
    ensures |Work(after, t, at)| < |Work(rows, t, at)|
    ensures forall j :: j in rows && rows[j].delivery.Published? ==> after[j] == rows[j]
    ensures var (end, order) := Drain(after, t, worker, token, stream, digest, at, now, n + 1);
            Drain(rows, t, worker, token, stream, digest, at, now, n) == (end, [k] + order)
  {
    RoundPublishesFirst(rows, t, worker, token(n), stream(n), digest, at, now);
    var (claimed, key) := Round(rows, t, worker, token(n), stream(n), digest, at, now);
    after, k := claimed, key.value;
    forall j | j in rows && rows[j].delivery.Published? ensures after[j] == rows[j] {
      RoundKeepsPublished(rows, t, worker, token(n), stream(n), digest, at, now, j);
    }
  }

  lemma PublishedRowOutlivesDrain(rows: Rows, t: TenantId, worker: string, token: nat -> Token, stream: nat -> int,
                                  digest: nat, at: int, now: int, n: nat, k: Key)
    requires Drainable(rows, t, worker, at, now) && forall i :: stream(i) >= 1
    requires k in rows && rows[k].delivery.Published?
    ensures var end := Drain(rows, t, worker, token, stream, digest, at, now, n).0; k in end && end[k] == rows[k]
    decreases |Work(rows, t, at)|
  {
    if Work(rows, t, at) == {} {
      DrainOfNothing(rows, t, worker, token, stream, digest, at, now, n);
    } else {
      var after, first := DrainOfWork(rows, t, worker, token, stream, digest, at, now, n);
      PublishedRowOutlivesDrain(after, t, worker, token, stream, digest, at, now, n + 1, k);
    }
  }

  /** Draining publishes exactly the rows that could be worked on, each in one round, in
      strict order of creation time and event identifier, and leaves no work. */
  lemma {:induction false} DrainPublishesWorkInOrder(rows: Rows, t: TenantId, worker: string, token: nat -> Token,
                                                     stream: nat -> int, digest: nat, at: int, now: int, n: nat)
      returns (end: Rows, order: seq<Key>)
    requires Drainable(rows, t, worker, at, now) && forall i :: stream(i) >= 1
    ensures Drain(rows, t, worker, token, stream, digest, at, now, n) == (end, order)
    ensures Drained(rows, end, order, t, stream, digest, at, n)
    decreases |Work(rows, t, at)|
  {
    if Work(rows, t, at) == {} {
      DrainOfNothing(rows, t, worker, token, stream, digest, at, now, n);
      end, order := rows, [];
    } else {
      var after, k := DrainOfWork(rows, t, worker, token, stream, digest, at, now, n);
      var rest;
      end, rest := DrainPublishesWorkInOrder(after, t, worker, token, stream, digest, at, now, n + 1);
      PublishedRowOutlivesDrain(after, t, worker, token, stream, digest, at, now, n + 1, k);
      DrainedPrepend(rows, after, end, rest, t, stream, digest, at, n, k);
      order := [k] + rest;
    }
  }
}
