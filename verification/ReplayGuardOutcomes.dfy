/** Which envelopes the replay guard accepts, why it rejects the others and what it leaves, said
    of the rows of the tables and of the receipts alone. */
module ReplayGuardOutcomes {
  import opened Sql
  import opened Tenancy
  import opened KeyRegistry
  import opened KeyRegistryHistory
  import opened KeyRegistryEpochs
  import opened ReplayGuard
  import opened ReplayGuardProofs

  // ----- The rows behind an envelope -----

  /** Tenant, membership, subject, source and key are active, and the source is of the
      supported algorithm and of the type and flag that the envelope announces. */
  predicate ComesFromActiveSource(r: Registry, e: Envelope) {
    && e.tenant in r.db.tenants && r.db.tenants[e.tenant].state == Active
    && (e.tenant, e.subject) in r.db.memberships && r.db.memberships[(e.tenant, e.subject)] == RowActive
    && e.subject in r.db.subjects && r.db.subjects[e.subject] == RowActive
    && (e.tenant, e.source) in r.db.sources
    && var source := r.db.sources[(e.tenant, e.source)];
       && source.state == CfgActive && source.algorithm == Ed25519
       && source.evidenceType == e.evidenceType && source.synthetic == e.synthetic
       && (e.tenant, e.source) in r.keys && e.key in r.keys[(e.tenant, e.source)]
       && r.keys[(e.tenant, e.source)][e.key].state == KeyActive
  }

  predicate WellFormed(e: Envelope) {
    0 <= e.sequence <= 9007199254740991 && NonceFormat(e.nonce) && HashFormat(e.contentHash)
  }

  predicate AgeIsOnRows(r: Registry, e: Envelope) {
    MaximumAge(r, e) == if ComesFromActiveSource(r, e) then Some(r.db.sources[(e.tenant, e.source)].maximumAge) else None
  }

  /** The context lookup finds the source's own maximum age, and nothing otherwise. */
  lemma MaximumAgeIff(r: Registry, e: Envelope)
    requires RegistryOk(r)
    ensures AgeIsOnRows(r, e)
  {
    FingerprintJoinIsImplied(r, e.tenant, e.subject, e.source, e.key);
  }

  // ----- Acceptance -----

  /** Observed at most 30 seconds ahead and not longer ago than the age, not expired, and
      valid for a positive time not longer than the age. */
  predicate InWindow(e: Envelope, now: int, age: int) {
    && e.observedAt <= now + 30_000_000 && now <= e.observedAt + age
    && now < e.expiresAt && e.observedAt < e.expiresAt <= e.observedAt + age
  }

  /** The receipt is of another event and, within the key epoch, of another nonce, a lower
      sequence and no later observation. */
  predicate Precedes(x: Receipt, e: Envelope) {
    && (x.tenant != e.tenant || x.event != e.event)
    && ((x.tenant, x.source, x.key) == (e.tenant, e.source, e.key) ==>
          x.nonce != Sha256(e.nonce) && x.sequence < e.sequence && x.observedAt <= e.observedAt)
  }

  lemma ChecksAreOnRows(receipts: seq<Receipt>, r: Registry, e: Envelope, now: int)
    requires AgeIsOnRows(r, e)
    ensures InputOk(e) && MaximumAge(r, e).Some? && Freshness(e, now, MaximumAge(r, e).value).None? && Acceptable(receipts, e) <==>
              && WellFormed(e) && ComesFromActiveSource(r, e)
              && InWindow(e, now, 1_000_000 * r.db.sources[(e.tenant, e.source)].maximumAge)
              && forall i :: 0 <= i < |receipts| ==> Precedes(receipts[i], e)
  {
    if ComesFromActiveSource(r, e) {
      FreshIff(e, now, r.db.sources[(e.tenant, e.source)].maximumAge);
    }
    if forall i :: 0 <= i < |receipts| ==> Precedes(receipts[i], e) {
      assert Acceptable(receipts, e);
    }
    if Acceptable(receipts, e) {
      assert forall i :: 0 <= i < |receipts| ==> Precedes(receipts[i], e);
    }
  }

  /** An envelope is accepted if and only if it is well formed, comes from an active source, is
      inside the time window of that source's age in seconds, and every receipt precedes it. */
  lemma AcceptedIff(g: Guard, r: Registry, e: Envelope, now: int)
    requires Valid(g, now) && RegistryOk(r)
    ensures Judge(g, r, e, now).1.Accepted? <==>
              && WellFormed(e) && ComesFromActiveSource(r, e)
              && InWindow(e, now, 1_000_000 * r.db.sources[(e.tenant, e.source)].maximumAge)
              && forall i :: 0 <= i < |g.receipts| ==> Precedes(g.receipts[i], e)
  {
    MaximumAgeIff(r, e);
    AcceptedByChecksIff(g, r, e, now);
    ChecksAreOnRows(g.receipts, r, e, now);
  }

  // ----- Rejection -----

  function Order(reason: Reason): nat {
    match reason
    case TimeWindowInvalid => 0
    case ObservedInFuture => 1
    case Stale => 2
    case Expired => 3
    case TtlExceeded => 4
    case EventReplayed => 5
    case NonceReplayed => 6
    case SequenceReplayed => 7
    case SequenceReordered => 8
    case ObservationReordered => 9
  }

  predicate Same(x: Receipt, e: Envelope) {
    (x.tenant, x.source, x.key) == (e.tenant, e.source, e.key)
  }

  /** What is wrong with an envelope, each reason on its own. */
  predicate Wrong(receipts: seq<Receipt>, e: Envelope, now: int, age: int, reason: Reason) {
    match reason
    case TimeWindowInvalid => e.expiresAt <= e.observedAt
    case ObservedInFuture => now + 30_000_000 < e.observedAt
    case Stale => e.observedAt + 1_000_000 * age < now
    case Expired => e.expiresAt <= now
    case TtlExceeded => e.observedAt + 1_000_000 * age < e.expiresAt
    case EventReplayed => exists x :: x in receipts && x.tenant == e.tenant && x.event == e.event
    case NonceReplayed => exists x :: x in receipts && Same(x, e) && x.nonce == Sha256(e.nonce)
    case SequenceReplayed =>
      (exists x :: x in receipts && Same(x, e) && x.sequence == e.sequence)
      && (forall x :: x in receipts && Same(x, e) ==> x.sequence <= e.sequence)
    case SequenceReordered => exists x :: x in receipts && Same(x, e) && e.sequence < x.sequence
    case ObservationReordered => exists x :: x in receipts && Same(x, e) && e.observedAt < x.observedAt
  }

  /** The first thing that is wrong. */
  predicate FirstWrong(receipts: seq<Receipt>, e: Envelope, now: int, age: int, reason: Reason) {
    Wrong(receipts, e, now, age, reason)
    && forall other: Reason {:trigger Order(other)} :: Order(other) < Order(reason) ==> !Wrong(receipts, e, now, age, other)
  }

  /** Nothing of lower order than n is wrong. */
  predicate NothingBefore(receipts: seq<Receipt>, e: Envelope, now: int, age: int, n: nat) {
    forall other: Reason {:trigger Order(other)} :: Order(other) < n ==> !Wrong(receipts, e, now, age, other)
  }

  lemma FreshnessFindsFirst(receipts: seq<Receipt>, e: Envelope, now: int, age: int, reason: Reason)
    ensures Freshness(e, now, age) == Some(reason) <==> Order(reason) < 5 && FirstWrong(receipts, e, now, age, reason)
    ensures Freshness(e, now, age).None? <==> NothingBefore(receipts, e, now, age, 5)
  {
    assert Order(TimeWindowInvalid) == 0 && Order(ObservedInFuture) == 1 && Order(Stale) == 2
           && Order(Expired) == 3 && Order(TtlExceeded) == 4;
  }

  lemma ScanFindsFirst(receipts: seq<Receipt>, e: Envelope, now: int, age: int, reason: Reason)
    requires NothingBefore(receipts, e, now, age, 5)
    ensures ScanReason(receipts, e) == Some(reason) <==> FirstWrong(receipts, e, now, age, reason)
  {
    assert Order(TimeWindowInvalid) == 0 && Order(ObservedInFuture) == 1 && Order(Stale) == 2
           && Order(Expired) == 3 && Order(TtlExceeded) == 4 && Order(EventReplayed) == 5 && Order(NonceReplayed) == 6
           && Order(SequenceReplayed) == 7 && Order(SequenceReordered) == 8 && Order(ObservationReordered) == 9;
  }

  lemma ScanRejectsIff(receipts: seq<Receipt>, r: Registry, e: Envelope, now: int, reason: Reason)
    requires AgeIsOnRows(r, e)
    ensures var verdict := ScanVerdict(receipts, r, e, now);
            && (verdict == InputInvalid <==> !WellFormed(e))
            && (verdict == ContextNotFound <==> WellFormed(e) && !ComesFromActiveSource(r, e))
            && (verdict.Rejected? && verdict.reason == reason <==>
                  WellFormed(e) && ComesFromActiveSource(r, e)
                  && FirstWrong(receipts, e, now, r.db.sources[(e.tenant, e.source)].maximumAge, reason))
            && verdict != RowRefused
  {
    if ComesFromActiveSource(r, e) {
      var age := r.db.sources[(e.tenant, e.source)].maximumAge;
      FreshnessFindsFirst(receipts, e, now, age, reason);
      if Freshness(e, now, age).None? {
        ScanFindsFirst(receipts, e, now, age, reason);
      }
    }
  }

  /** An envelope is rejected for a reason if and only if it is well formed, comes from an
      active source and that is the first thing wrong with it; the two other refusals are for
      envelopes that are not well formed or come from no active source. */
  lemma RejectedIff(g: Guard, r: Registry, e: Envelope, now: int, reason: Reason)
    requires Valid(g, now) && RegistryOk(r)
    ensures var verdict := Judge(g, r, e, now).1;
            && (verdict == InputInvalid <==> !WellFormed(e))
            && (verdict == ContextNotFound <==> WellFormed(e) && !ComesFromActiveSource(r, e))
            && (verdict.Rejected? && verdict.reason == reason <==>
                  WellFormed(e) && ComesFromActiveSource(r, e)
                  && FirstWrong(g.receipts, e, now, r.db.sources[(e.tenant, e.source)].maximumAge, reason))
            && verdict != RowRefused
  {
    MaximumAgeIff(r, e);
    GuardIsScan(g, r, e, now);
    ScanRejectsIff(g.receipts, r, e, now, reason);
  }

  /** The highest sequence of the epoch's receipts, NULL without any. */
  predicate IsHighest(receipts: seq<Receipt>, e: Envelope, highest: Option<int>) {
    && (highest.None? ==> forall x :: x in receipts ==> !Same(x, e))
    && (highest.Some? ==>
          && (forall x :: x in receipts && Same(x, e) ==> x.sequence <= highest.value)
          && exists x :: x in receipts && Same(x, e) && x.sequence == highest.value)
  }

  lemma HighWaterIsHighest(receipts: seq<Receipt>, e: Envelope)
    ensures IsHighest(receipts, e, HighWaterOf(receipts, EpochOf(e)).sequence)
  {
    var h := HighWaterOf(receipts, EpochOf(e));
    HighWaterIsMaximum(receipts, EpochOf(e));
    if h != NOTHING {
      var i :| 0 <= i < |receipts| && ReceiptEpoch(receipts[i]) == EpochOf(e) && receipts[i].sequence == h.sequence.value;
      assert receipts[i] in receipts && Same(receipts[i], e);
    }
  }

  lemma ScanReports(receipts: seq<Receipt>, r: Registry, e: Envelope, now: int)
    requires ScanVerdict(receipts, r, e, now).Rejected?
    ensures var verdict := ScanVerdict(receipts, r, e, now);
            if Order(verdict.reason) < 5 then verdict.highest == None
            else verdict.highest == HighWaterOf(receipts, EpochOf(e)).sequence
  {
  }

  /** The sequence number reported with a replay or ordering reason is the highest of the
      epoch's receipts; a freshness reason reports none. */
  lemma ReportedSequence(g: Guard, r: Registry, e: Envelope, now: int)
    requires Valid(g, now) && Judge(g, r, e, now).1.Rejected?
    ensures var verdict := Judge(g, r, e, now).1;
            if Order(verdict.reason) < 5 then verdict.highest == None else IsHighest(g.receipts, e, verdict.highest)
  {
    GuardIsScan(g, r, e, now);
    ScanReports(g.receipts, r, e, now);
    HighWaterIsHighest(g.receipts, e);
  }

  // ----- What a call leaves -----

  /** An accepted envelope adds its receipt and raises the row of its epoch; a rejected one
      adds a rejection without the raw event and nonce, and a replay or ordering reason may open
      an empty row; any other call changes nothing. */
  lemma GuardLeaves(g: Guard, r: Registry, e: Envelope, now: int)
    ensures var (after, verdict) := Judge(g, r, e, now);
            var x := (e.tenant, e.source, e.key);
            match verdict
            case Accepted(at, sequence) =>
              && at == now && sequence == e.sequence && after.rejections == g.rejections
              && after.receipts == g.receipts + [
                   Receipt(e.tenant, e.event, e.subject, e.source, e.key, e.evidenceType, e.sequence, Sha256(e.nonce),
                           e.contentHash, e.synthetic, e.observedAt, e.expiresAt, now)]
              && after.rows == g.rows[x :=
                   if x in g.rows
                   then StateRow(HighWater(Some(e.sequence), Some(e.observedAt), g.rows[x].mark.count + 1), g.rows[x].createdAt, now)
                   else StateRow(HighWater(Some(e.sequence), Some(e.observedAt), 1), now, now)]
            case Rejected(reason, highest) =>
              && after.receipts == g.receipts
              && after.rejections == g.rejections + [
                   Rejection(x, e.subject, reason, Sha256(e.event), Sha256(e.nonce), e.contentHash, e.sequence, e.observedAt,
                             e.expiresAt, now)]
              && after.rows == if Order(reason) < 5 || x in g.rows then g.rows
                               else g.rows[x := StateRow(HighWater(None, None, 0), now, now)]
            case _ => after == g
  {
  }
}
