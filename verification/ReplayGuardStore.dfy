/** `apply_evidence_replay_guard` as it runs: a reason variable filled in by two IF chains,
    then the writes. */
module ReplayGuardStore {
  import opened Sql
  import opened Tenancy
  import opened KeyRegistry
  import opened ReplayGuard
  import opened ReplayGuardProofs

  class GuardStore {
    var receipts: seq<Receipt>
    var rejections: seq<Rejection>
    var rows: map<Epoch, StateRow>

    function View(): Guard
      reads this
    {
      Guard(receipts, rejections, rows)
    }

    constructor ()
      ensures View() == NO_EVIDENCE && forall now :: Valid(View(), now)
    {
      receipts, rejections, rows := [], [], map[];
    }

    /** The EXISTS lookup by primary key. */
    method HasEvent(t: TenantId, event: EvidenceId) returns (found: bool)
      ensures found == EventSeen(receipts, t, event)
    {
      for i := 0 to |receipts|
        invariant forall j :: 0 <= j < i ==> !(receipts[j].tenant == t && receipts[j].event == event)
      {
        if receipts[i].tenant == t && receipts[i].event == event {
          return true;
        }
      }
      return false;
    }

    /** The EXISTS lookup by nonce within the key epoch. */
    method HasNonce(x: Epoch, nonce: Digest<string>) returns (found: bool)
      ensures found == NonceSeen(receipts, x, nonce)
    {
      for i := 0 to |receipts|
        invariant forall j :: 0 <= j < i ==> !(ReceiptEpoch(receipts[j]) == x && receipts[j].nonce == nonce)
      {
        if ReceiptEpoch(receipts[i]) == x && receipts[i].nonce == nonce {
          return true;
        }
      }
      return false;
    }

    /** The first IF chain: it finds a reason exactly outside the freshness window, and the
        reason names a bound that the envelope really misses. */
    static method CheckFreshness(e: Envelope, now: int, age: int) returns (reason: Option<Reason>)
      ensures reason == Freshness(e, now, age)
      ensures reason.None? <==>
                && e.observedAt - now <= 30 * SECOND && now < e.expiresAt
                && now - e.observedAt <= age * SECOND && 0 < e.expiresAt - e.observedAt <= age * SECOND
      ensures reason == Some(TimeWindowInvalid) <==> e.expiresAt <= e.observedAt
      ensures reason == Some(ObservedInFuture) ==> now + 30 * SECOND < e.observedAt
      ensures reason == Some(Stale) ==> age * SECOND < now - e.observedAt
      ensures reason == Some(Expired) ==> e.expiresAt <= now
      ensures reason == Some(TtlExceeded) ==> age * SECOND < e.expiresAt - e.observedAt
    {
      FreshIff(e, now, age);
      reason := None;
      if e.observedAt >= e.expiresAt {
        reason := Some(TimeWindowInvalid);
      } else if e.observedAt > now + 30 * SECOND {
        reason := Some(ObservedInFuture);
      } else if e.observedAt < now - age * SECOND {
        reason := Some(Stale);
      } else if e.expiresAt <= now {
        reason := Some(Expired);
      } else if e.expiresAt > e.observedAt + age * SECOND {
        reason := Some(TtlExceeded);
      }
    }

    /** The second IF chain. */
    method CheckOrdering(e: Envelope, mark: HighWater) returns (reason: Option<Reason>)
      ensures reason == Ordering(receipts, mark, e)
    {
      reason := None;
      var eventSeen := HasEvent(e.tenant, e.event);
      if eventSeen {
        reason := Some(EventReplayed);
      } else {
        var nonceSeen := HasNonce(EpochOf(e), Sha256(e.nonce));
        if nonceSeen {
          reason := Some(NonceReplayed);
        } else if Equal(Some(e.sequence), mark.sequence).True? {
          reason := Some(SequenceReplayed);
        } else if Less(Some(e.sequence), mark.sequence).True? {
          reason := Some(SequenceReordered);
        } else if Less(Some(e.observedAt), mark.observedAt).True? {
          reason := Some(ObservationReordered);
        }
      }
    }

    /** The whole function. The verdict is the one a scan of all receipts gives. */
    method ApplyGuard(r: Registry, e: Envelope, now: int) returns (verdict: Verdict)
      requires Valid(View(), now)
      modifies this
      ensures Valid(View(), now)
      ensures (View(), verdict) == Judge(old(View()), r, e, now)
      ensures verdict == ScanVerdict(old(receipts), r, e, now)
      ensures receipts == ScanReceipts(old(receipts), r, e, now)
    {
      GuardIsScan(View(), r, e, now);
      ApplyKeepsValid(View(), r, e, now);
      if !InputOk(e) {
        return InputInvalid;
      }
      var age := MaximumAge(r, e);
      if age.None? {
        return ContextNotFound;
      }
      var reason := CheckFreshness(e, now, age.value);
      var highest := None;
      if reason.None? {
        if EpochOf(e) !in rows {
          rows := rows[EpochOf(e) := StateRow(NOTHING, now, now)];
        }
        var mark := rows[EpochOf(e)].mark;
        highest := mark.sequence;
        reason := CheckOrdering(e, mark);
      }
      if reason.Some? {
        rejections := rejections + [NewRejection(e, reason.value, now)];
        return Rejected(reason.value, highest);
      }
      receipts := receipts + [NewReceipt(e, now)];
      rows := rows[EpochOf(e) := RaisedRow(rows[EpochOf(e)], e, now)];
      return Accepted(now, e.sequence);
    }
  }
}
