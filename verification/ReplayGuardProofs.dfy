/** The high-water rows never disagree with the receipts they stand in for. */
module ReplayGuardProofs {
  import opened Sql
  import opened Tenancy
  import opened KeyRegistry
  import opened ReplayGuard

  // ----- High water -----

  lemma HighWaterAppend(receipts: seq<Receipt>, y: Receipt, x: Epoch)
    ensures HighWaterOf(receipts + [y], x) ==
            if ReceiptEpoch(y) == x then Raise(HighWaterOf(receipts, x), y) else HighWaterOf(receipts, x)
  {
    assert (receipts + [y])[..|receipts|] == receipts;
  }

  predicate AttainsSequence(receipts: seq<Receipt>, x: Epoch, n: int) {
    exists i :: 0 <= i < |receipts| && ReceiptEpoch(receipts[i]) == x && receipts[i].sequence == n
  }

  predicate AttainsObservation(receipts: seq<Receipt>, x: Epoch, at: int) {
    exists i :: 0 <= i < |receipts| && ReceiptEpoch(receipts[i]) == x && receipts[i].observedAt == at
  }

  /** The high-water value is NULL without receipts and otherwise the attained maxima. */
  lemma {:induction false} HighWaterIsMaximum(receipts: seq<Receipt>, x: Epoch)
    ensures var h := HighWaterOf(receipts, x);
            && (h == NOTHING || (h.sequence.Some? && h.observedAt.Some? && h.count > 0))
            && (forall i :: 0 <= i < |receipts| && ReceiptEpoch(receipts[i]) == x ==>
                  h != NOTHING && receipts[i].sequence <= h.sequence.value && receipts[i].observedAt <= h.observedAt.value)
            && (h != NOTHING ==> AttainsSequence(receipts, x, h.sequence.value) && AttainsObservation(receipts, x, h.observedAt.value))
    decreases |receipts|
  {
    if |receipts| != 0 {
      var rest, y := receipts[..|receipts| - 1], receipts[|receipts| - 1];
      HighWaterIsMaximum(rest, x);
      var h := HighWaterOf(rest, x);
      if h != NOTHING {
        var i :| 0 <= i < |rest| && ReceiptEpoch(rest[i]) == x && rest[i].sequence == h.sequence.value;
        var j :| 0 <= j < |rest| && ReceiptEpoch(rest[j]) == x && rest[j].observedAt == h.observedAt.value;
        assert receipts[i] == rest[i] && receipts[j] == rest[j];
      }
      assert forall k :: 0 <= k < |rest| ==> receipts[k] == rest[k];
      assert receipts[|receipts| - 1] == y;
    }
  }

  // ----- Invariant -----

  function MarkOf(g: Guard, x: Epoch): HighWater {
    if x in g.rows then g.rows[x].mark else NOTHING
  }

  /** Every row is the high water of its epoch, an epoch without a row has no receipt, and
      the constraints hold. `now` bounds the times written so far. */
  predicate Valid(g: Guard, now: int) {
    && (forall x :: x in g.rows ==> g.rows[x].mark == HighWaterOf(g.receipts, x))
    && (forall i :: 0 <= i < |g.receipts| ==> ReceiptEpoch(g.receipts[i]) in g.rows)
    && (forall i, j :: 0 <= i < j < |g.receipts| ==> ReceiptsDiffer(g.receipts[i], g.receipts[j]))
    && (forall i :: 0 <= i < |g.receipts| ==> ReceiptChecks(g.receipts[i]))
    && (forall x :: x in g.rows ==> RowChecks(g.rows[x]) && g.rows[x].updatedAt <= now)
  }

  lemma UnusedEpochIsEmpty(receipts: seq<Receipt>, x: Epoch)
    requires forall i :: 0 <= i < |receipts| ==> ReceiptEpoch(receipts[i]) != x
    ensures HighWaterOf(receipts, x) == NOTHING
  {
  }

  lemma MarkIsHighWater(g: Guard, now: int, x: Epoch)
    requires Valid(g, now)
    ensures MarkOf(g, x) == HighWaterOf(g.receipts, x)
  {
    if x !in g.rows {
      UnusedEpochIsEmpty(g.receipts, x);
    }
  }

  // ----- The guard is the scan -----

  lemma OrderingIsScan(receipts: seq<Receipt>, e: Envelope)
    ensures Ordering(receipts, HighWaterOf(receipts, EpochOf(e)), e) == ScanReason(receipts, e)
  {
    HighWaterIsMaximum(receipts, EpochOf(e));
  }

  /** An acceptable envelope meets every key, UNIQUE and CHECK constraint. */
  lemma AcceptedFits(g: Guard, e: Envelope, now: int, age: int)
    requires Valid(g, now) && InputOk(e) && Freshness(e, now, age).None? && ScanReason(g.receipts, e).None?
    ensures ReceiptFits(g.receipts, NewReceipt(e, now))
    ensures var ready := Opened(g, EpochOf(e), now);
            && RowChecks(RaisedRow(ready.rows[EpochOf(e)], e, now))
            && RaisedRow(ready.rows[EpochOf(e)], e, now).mark == Raise(MarkOf(g, EpochOf(e)), NewReceipt(e, now))
  {
    MarkIsHighWater(g, now, EpochOf(e));
    HighWaterIsMaximum(g.receipts, EpochOf(e));
    forall i | 0 <= i < |g.receipts| ensures ReceiptsDiffer(g.receipts[i], NewReceipt(e, now)) {
      assert (g.receipts[i].tenant, g.receipts[i].event) != (e.tenant, e.event);
    }
  }

  /** Verdict, reason, reported high water and new receipt are those of a scan of everything
      accepted so far; no constraint ever fires. */
  lemma GuardIsScan(g: Guard, r: Registry, e: Envelope, now: int)
    requires Valid(g, now)
    ensures Judge(g, r, e, now).1 == ScanVerdict(g.receipts, r, e, now)
    ensures Judge(g, r, e, now).0.receipts == ScanReceipts(g.receipts, r, e, now)
    ensures Judge(g, r, e, now).1 != RowRefused
  {
    MarkIsHighWater(g, now, EpochOf(e));
    OrderingIsScan(g.receipts, e);
    if InputOk(e) && MaximumAge(r, e).Some? && Freshness(e, now, MaximumAge(r, e).value).None? && ScanReason(g.receipts, e).None? {
      AcceptedFits(g, e, now, MaximumAge(r, e).value);
    }
  }

  /** Which envelopes are fresh: a window that opens at most 30 seconds ahead, is open now,
      and neither began longer ago nor lasts longer than the source's maximum age. */
  lemma FreshIff(e: Envelope, now: int, age: int)
    ensures Freshness(e, now, age).None? <==>
              && e.observedAt - now <= 30 * SECOND && now < e.expiresAt
              && now - e.observedAt <= age * SECOND && 0 < e.expiresAt - e.observedAt <= age * SECOND
  {
  }

  /** Which envelopes are accepted, in one sentence. */
  predicate Acceptable(receipts: seq<Receipt>, e: Envelope) {
    forall i :: 0 <= i < |receipts| ==>
      && (receipts[i].tenant, receipts[i].event) != (e.tenant, e.event)
      && (ReceiptEpoch(receipts[i]) == EpochOf(e) ==>
            receipts[i].nonce != Sha256(e.nonce) && receipts[i].sequence < e.sequence && receipts[i].observedAt <= e.observedAt)
  }

  lemma ScanAcceptsIff(receipts: seq<Receipt>, e: Envelope)
    ensures ScanReason(receipts, e).None? <==> Acceptable(receipts, e)
  {
    if ScanReason(receipts, e).None? {
      forall i | 0 <= i < |receipts| ensures receipts[i] in receipts {
      }
    }
  }

  lemma AcceptedByChecksIff(g: Guard, r: Registry, e: Envelope, now: int)
    requires Valid(g, now)
    ensures Judge(g, r, e, now).1.Accepted? <==>
            InputOk(e) && MaximumAge(r, e).Some? && Freshness(e, now, MaximumAge(r, e).value).None? && Acceptable(g.receipts, e)
  {
    GuardIsScan(g, r, e, now);
    ScanAcceptsIff(g.receipts, e);
  }

  // ----- Preservation -----

  lemma OpenedStaysValid(g: Guard, x: Epoch, now: int)
    requires Valid(g, now)
    ensures Valid(Opened(g, x, now), now)
  {
    if x !in g.rows {
      UnusedEpochIsEmpty(g.receipts, x);
    }
  }

  lemma AcceptKeepsValid(g: Guard, e: Envelope, now: int, age: int)
    requires Valid(g, now) && InputOk(e) && Freshness(e, now, age).None? && ScanReason(g.receipts, e).None?
    requires EpochOf(e) in g.rows
    ensures Valid(Accept(g, e, now).0, now)
  {
    AcceptedFits(g, e, now, age);
    var receipt := NewReceipt(e, now);
    var after := Accept(g, e, now).0;
    forall x | x in after.rows ensures after.rows[x].mark == HighWaterOf(after.receipts, x) {
      HighWaterAppend(g.receipts, receipt, x);
    }
  }

  lemma ApplyKeepsValid(g: Guard, r: Registry, e: Envelope, now: int)
    requires Valid(g, now)
    ensures Valid(Judge(g, r, e, now).0, now)
  {
    MarkIsHighWater(g, now, EpochOf(e));
    OrderingIsScan(g.receipts, e);
    OpenedStaysValid(g, EpochOf(e), now);
    if InputOk(e) && MaximumAge(r, e).Some? && Freshness(e, now, MaximumAge(r, e).value).None? && ScanReason(g.receipts, e).None? {
      AcceptKeepsValid(Opened(g, EpochOf(e), now), e, now, MaximumAge(r, e).value);
    }
  }

  lemma LaterIsValid(g: Guard, now: int, later: int)
    requires Valid(g, now) && now <= later
    ensures Valid(g, later)
  {
  }

  // ----- Runs -----

  /** The clock never goes back. */
  predicate ClockRuns(now: int, calls: seq<GuardCall>)
    decreases |calls|
  {
    |calls| == 0 || (now <= calls[0].now && ClockRuns(calls[0].now, calls[1..]))
  }

  function EndOf(now: int, calls: seq<GuardCall>): int {
    if |calls| == 0 then now else calls[|calls| - 1].now
  }

  lemma StepIsScan(g: Guard, now: int, c: GuardCall)
    requires Valid(g, now) && now <= c.now
    ensures Next(g, c).1 == ScanVerdict(g.receipts, c.registry, c.envelope, c.now)
    ensures Next(g, c).0.receipts == ScanReceipts(g.receipts, c.registry, c.envelope, c.now)
    ensures Valid(Next(g, c).0, c.now)
  {
    LaterIsValid(g, now, c.now);
    GuardIsScan(g, c.registry, c.envelope, c.now);
    ApplyKeepsValid(g, c.registry, c.envelope, c.now);
  }

  lemma {:induction false} RunStaysValid(g: Guard, now: int, calls: seq<GuardCall>)
    requires Valid(g, now) && ClockRuns(now, calls)
    ensures GuardRun(g, calls).receipts == ScanRun(g.receipts, calls)
    ensures Valid(GuardRun(g, calls), EndOf(now, calls))
    decreases |calls|
  {
    if |calls| != 0 {
      StepIsScan(g, now, calls[0]);
      RunStaysValid(Next(g, calls[0]).0, calls[0].now, calls[1..]);
    }
  }

  lemma {:induction false} VerdictsAreScan(g: Guard, now: int, calls: seq<GuardCall>)
    requires Valid(g, now) && ClockRuns(now, calls)
    ensures Verdicts(g, calls) == ScanVerdicts(g.receipts, calls)
    decreases |calls|
  {
    if |calls| != 0 {
      StepIsScan(g, now, calls[0]);
      VerdictsAreScan(Next(g, calls[0]).0, calls[0].now, calls[1..]);
    }
  }

  /** In every run every verdict is the scan's, the receipts are the scan's, and the
      invariant holds at the end. */
  lemma RunIsScan(g: Guard, now: int, calls: seq<GuardCall>)
    requires Valid(g, now) && ClockRuns(now, calls)
    ensures Verdicts(g, calls) == ScanVerdicts(g.receipts, calls)
    ensures GuardRun(g, calls).receipts == ScanRun(g.receipts, calls)
    ensures Valid(GuardRun(g, calls), EndOf(now, calls))
  {
    RunStaysValid(g, now, calls);
    VerdictsAreScan(g, now, calls);
  }

  /** Every reachable row is (maximum sequence, maximum observation time, count). */
  lemma ReachableRowsAreHighWater(now: int, calls: seq<GuardCall>, x: Epoch)
    requires ClockRuns(now, calls)
    ensures var g := GuardRun(NO_EVIDENCE, calls);
            && (x in g.rows ==> g.rows[x].mark == HighWaterOf(g.receipts, x))
            && (x !in g.rows ==> HighWaterOf(g.receipts, x) == NOTHING)
  {
    assert Valid(NO_EVIDENCE, now);
    RunIsScan(NO_EVIDENCE, now, calls);
    MarkIsHighWater(GuardRun(NO_EVIDENCE, calls), EndOf(now, calls), x);
  }
}
