/** Two independence theorems about runs of the replay guard: rejected calls leave no trace,
    and tenants do not see each other. */
module ReplayGuardRuns {
  import opened Tenancy
  import opened KeyRegistry
  import opened ReplayGuard
  import opened ReplayGuardProofs

  /** The items whose flag is set, in order. */
  function Kept<T>(items: seq<T>, keep: seq<bool>): seq<T>
    requires |items| == |keep|
  {
    if |items| == 0 then [] else (if keep[0] then [items[0]] else []) + Kept(items[1..], keep[1..])
  }

  lemma {:induction false} KeptClockRuns(earlier: int, now: int, calls: seq<GuardCall>, keep: seq<bool>)
    requires earlier <= now && ClockRuns(now, calls) && |keep| == |calls|
    ensures ClockRuns(earlier, Kept(calls, keep))
    decreases |calls|
  {
    if |calls| != 0 {
      if keep[0] {
        KeptClockRuns(calls[0].now, calls[0].now, calls[1..], keep[1..]);
        assert Kept(calls, keep)[1..] == Kept(calls[1..], keep[1..]);
      } else {
        KeptClockRuns(earlier, calls[0].now, calls[1..], keep[1..]);
        assert Kept(calls, keep) == Kept(calls[1..], keep[1..]);
      }
    }
  }

  // ----- Erasing rejected calls -----

  lemma {:induction false} ErasureInScan(receipts: seq<Receipt>, calls: seq<GuardCall>, keep: seq<bool>)
    requires |keep| == |calls|
    requires forall i :: 0 <= i < |calls| && !keep[i] ==> !ScanVerdicts(receipts, calls)[i].Accepted?
    ensures ScanVerdicts(receipts, Kept(calls, keep)) == Kept(ScanVerdicts(receipts, calls), keep)
    ensures ScanRun(receipts, Kept(calls, keep)) == ScanRun(receipts, calls)
    decreases |calls|
  {
    if |calls| != 0 {
      var c := calls[0];
      var after := ScanReceipts(receipts, c.registry, c.envelope, c.now);
      var verdicts := ScanVerdicts(receipts, calls);
      assert verdicts[1..] == ScanVerdicts(after, calls[1..]);
      forall i | 0 <= i < |calls| - 1 && !keep[1..][i] ensures !verdicts[1..][i].Accepted? {
        assert !keep[i + 1];
      }
      ErasureInScan(after, calls[1..], keep[1..]);
      if keep[0] {
        assert Kept(calls, keep)[1..] == Kept(calls[1..], keep[1..]);
      } else {
        assert !verdicts[0].Accepted?;
        assert Kept(calls, keep) == Kept(calls[1..], keep[1..]);
      }
    }
  }

  lemma OutcomesAreScan(g: Guard, now: int, calls: seq<GuardCall>)
    requires Valid(g, now) && ClockRuns(now, calls)
    ensures Verdicts(g, calls) == ScanVerdicts(g.receipts, calls)
    ensures GuardRun(g, calls).receipts == ScanRun(g.receipts, calls)
  {
    RunIsScan(g, now, calls);
  }

  /** Leave out any of the rejected calls of a run: the receipts and every remaining verdict
      are the same, although a rejected call may have left a state row behind. */
  lemma ErasingRejectedCalls(g: Guard, now: int, calls: seq<GuardCall>, keep: seq<bool>)
    requires Valid(g, now) && ClockRuns(now, calls) && |keep| == |calls|
    requires forall i :: 0 <= i < |calls| && !keep[i] ==> !Verdicts(g, calls)[i].Accepted?
    ensures Verdicts(g, Kept(calls, keep)) == Kept(Verdicts(g, calls), keep)
    ensures GuardRun(g, Kept(calls, keep)).receipts == GuardRun(g, calls).receipts
  {
    KeptClockRuns(now, now, calls, keep);
    OutcomesAreScan(g, now, calls);
    OutcomesAreScan(g, now, Kept(calls, keep));
    ErasureInScan(g.receipts, calls, keep);
  }

  // ----- One tenant at a time -----

  function OfTenant(receipts: seq<Receipt>, t: TenantId): seq<Receipt> {
    if |receipts| == 0 then []
    else
      var y := receipts[|receipts| - 1];
      OfTenant(receipts[..|receipts| - 1], t) + if y.tenant == t then [y] else []
  }

  lemma {:induction false} OfTenantHas(receipts: seq<Receipt>, t: TenantId, y: Receipt)
    ensures y in OfTenant(receipts, t) <==> y in receipts && y.tenant == t
    decreases |receipts|
  {
    if |receipts| != 0 {
      OfTenantHas(receipts[..|receipts| - 1], t, y);
      assert receipts == receipts[..|receipts| - 1] + [receipts[|receipts| - 1]];
    }
  }

  lemma OfTenantAppend(receipts: seq<Receipt>, y: Receipt, t: TenantId)
    ensures OfTenant(receipts + [y], t) == OfTenant(receipts, t) + if y.tenant == t then [y] else []
  {
    assert (receipts + [y])[..|receipts|] == receipts;
  }

  lemma {:induction false} HighWaterOfTenant(receipts: seq<Receipt>, x: Epoch)
    ensures HighWaterOf(OfTenant(receipts, x.0), x) == HighWaterOf(receipts, x)
    decreases |receipts|
  {
    if |receipts| != 0 {
      var rest, y := receipts[..|receipts| - 1], receipts[|receipts| - 1];
      HighWaterOfTenant(rest, x);
      if y.tenant == x.0 {
        HighWaterAppend(OfTenant(rest, x.0), y, x);
      } else {
        assert OfTenant(receipts, x.0) == OfTenant(rest, x.0);
      }
    }
  }

  lemma ScanReasonOfTenant(receipts: seq<Receipt>, e: Envelope)
    ensures ScanReason(receipts, e) == ScanReason(OfTenant(receipts, e.tenant), e)
  {
    forall y ensures y in OfTenant(receipts, e.tenant) <==> y in receipts && y.tenant == e.tenant {
      OfTenantHas(receipts, e.tenant, y);
    }
  }

  /** A verdict depends on the tenant's own receipts only. */
  lemma ScanVerdictOfTenant(a: seq<Receipt>, b: seq<Receipt>, r: Registry, e: Envelope, now: int)
    requires OfTenant(a, e.tenant) == OfTenant(b, e.tenant)
    ensures ScanVerdict(a, r, e, now) == ScanVerdict(b, r, e, now)
    ensures OfTenant(ScanReceipts(a, r, e, now), e.tenant) == OfTenant(ScanReceipts(b, r, e, now), e.tenant)
  {
    ScanReasonOfTenant(a, e);
    ScanReasonOfTenant(b, e);
    HighWaterOfTenant(a, EpochOf(e));
    HighWaterOfTenant(b, EpochOf(e));
    OfTenantAppend(a, NewReceipt(e, now), e.tenant);
    OfTenantAppend(b, NewReceipt(e, now), e.tenant);
  }

  function CallsBy(calls: seq<GuardCall>, t: TenantId): (keep: seq<bool>)
    ensures |keep| == |calls|
  {
    seq(|calls|, i requires 0 <= i < |calls| => calls[i].envelope.tenant == t)
  }

  lemma {:induction false} TenantInScan(a: seq<Receipt>, b: seq<Receipt>, calls: seq<GuardCall>, t: TenantId)
    requires OfTenant(a, t) == OfTenant(b, t)
    ensures ScanVerdicts(b, Kept(calls, CallsBy(calls, t))) == Kept(ScanVerdicts(a, calls), CallsBy(calls, t))
    ensures OfTenant(ScanRun(b, Kept(calls, CallsBy(calls, t))), t) == OfTenant(ScanRun(a, calls), t)
    decreases |calls|
  {
    if |calls| != 0 {
      var c, keep := calls[0], CallsBy(calls, t);
      var after := ScanReceipts(a, c.registry, c.envelope, c.now);
      var verdicts := ScanVerdicts(a, calls);
      assert verdicts[1..] == ScanVerdicts(after, calls[1..]);
      assert keep[1..] == CallsBy(calls[1..], t);
      if c.envelope.tenant == t {
        ScanVerdictOfTenant(a, b, c.registry, c.envelope, c.now);
        TenantInScan(after, ScanReceipts(b, c.registry, c.envelope, c.now), calls[1..], t);
        assert Kept(calls, keep)[1..] == Kept(calls[1..], keep[1..]);
      } else {
        OfTenantAppend(a, NewReceipt(c.envelope, c.now), t);
        TenantInScan(after, b, calls[1..], t);
        assert Kept(calls, keep) == Kept(calls[1..], keep[1..]);
      }
    }
  }

  /** What one tenant's calls get in an interleaved run is what they get when the other
      tenants' calls are left out. */
  lemma TenantsDoNotInterfere(g: Guard, now: int, calls: seq<GuardCall>, t: TenantId)
    requires Valid(g, now) && ClockRuns(now, calls)
    ensures Verdicts(g, Kept(calls, CallsBy(calls, t))) == Kept(Verdicts(g, calls), CallsBy(calls, t))
    ensures OfTenant(GuardRun(g, Kept(calls, CallsBy(calls, t))).receipts, t) == OfTenant(GuardRun(g, calls).receipts, t)
  {
    KeptClockRuns(now, now, calls, CallsBy(calls, t));
    RunIsScan(g, now, calls);
    RunIsScan(g, now, Kept(calls, CallsBy(calls, t)));
    TenantInScan(g.receipts, g.receipts, calls, t);
  }
}
