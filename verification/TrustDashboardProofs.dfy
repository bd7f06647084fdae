/** The clamped fold is a single clamped subtraction, and denials never raise trust. */
module TrustDashboardProofs {
  import opened Sql
  import opened TrustDashboard

  // ----- One subtraction -----

  predicate InRange(c: Vector) {
    && 0 <= c.identity <= 100 && 0 <= c.device <= 100 && 0 <= c.behaviour <= 100
    && 0 <= c.certificate <= 100 && 0 <= c.compliance <= 100
  }

  predicate AtMost(a: Vector, b: Vector) {
    && a.identity <= b.identity && a.device <= b.device && a.behaviour <= b.behaviour
    && a.certificate <= b.certificate && a.compliance <= b.compliance
  }

  function Plus(a: Vector, b: Vector): Vector {
    Vector(a.identity + b.identity, a.device + b.device, a.behaviour + b.behaviour,
           a.certificate + b.certificate, a.compliance + b.compliance)
  }

  const ZERO: Vector := Vector(0, 0, 0, 0, 0)

  function Total(f: Adjuster, observations: seq<Observation>): Vector {
    if |observations| == 0 then ZERO else Plus(f(observations[0]), Total(f, observations[1..]))
  }

  /** Observations only lower components. */
  ghost predicate Lowers(f: Adjuster) {
    forall o :: AtMost(f(o), ZERO)
  }

  lemma AdjustmentLowers()
    ensures Lowers(Adjustment)
  {
  }

  lemma {:induction false} TotalIsNotPositive(f: Adjuster, observations: seq<Observation>)
    requires Lowers(f)
    ensures AtMost(Total(f, observations), ZERO)
    decreases |observations|
  {
    if |observations| != 0 {
      TotalIsNotPositive(f, observations[1..]);
    }
  }

  lemma AdjustedTwice(c: Vector, a: Vector, b: Vector)
    requires InRange(c) && AtMost(a, ZERO) && AtMost(b, ZERO)
    ensures InRange(Adjusted(c, a)) && Adjusted(Adjusted(c, a), b) == Adjusted(c, Plus(a, b))
  {
  }

  /** Clamping after every observation or once at the end gives the same components. */
  lemma {:induction false} FoldIsOneSubtraction(f: Adjuster, c: Vector, observations: seq<Observation>)
    requires InRange(c) && Lowers(f)
    ensures Fold(f, c, observations) == Adjusted(c, Total(f, observations))
    decreases |observations|
  {
    if |observations| != 0 {
      var first, rest := f(observations[0]), observations[1..];
      TotalIsNotPositive(f, rest);
      assert AtMost(first, ZERO);
      AdjustedTwice(c, first, Total(f, rest));
      FoldIsOneSubtraction(f, Adjusted(c, first), rest);
    }
  }

  // ----- Order -----

  function Without(b: seq<Observation>, i: nat): seq<Observation>
    requires i < |b|
  {
    b[..i] + b[i + 1..]
  }

  lemma {:induction false} TotalWithout(f: Adjuster, b: seq<Observation>, i: nat)
    requires i < |b|
    ensures Total(f, b) == Plus(f(b[i]), Total(f, Without(b, i)))
    decreases i
  {
    if i == 0 {
      assert Without(b, 0) == b[1..];
    } else {
      TotalWithout(f, b[1..], i - 1);
      assert Without(b, i)[1..] == Without(b[1..], i - 1);
    }
  }

  lemma MultisetWithout(b: seq<Observation>, i: nat)
    requires i < |b|
    ensures multiset(b) == multiset(Without(b, i)) + multiset{b[i]}
  {
    assert b == b[..i] + ([b[i]] + b[i + 1..]);
  }

  lemma CancelOne(a: multiset<Observation>, b: multiset<Observation>, o: Observation)
    requires a + multiset{o} == b + multiset{o}
    ensures a == b
  {
    forall x ensures a[x] == b[x] {
      assert (a + multiset{o})[x] == (b + multiset{o})[x];
    }
  }

  lemma {:induction false} TotalOfPermutation(f: Adjuster, a: seq<Observation>, b: seq<Observation>)
    requires multiset(a) == multiset(b)
    ensures Total(f, a) == Total(f, b)
    decreases |a|
  {
    assert |multiset(a)| == |a| && |multiset(b)| == |b|;
    if |a| != 0 {
      assert a[0] in multiset(a);
      assert a[0] in b;
      var i :| 0 <= i < |b| && b[i] == a[0];
      MultisetWithout(a, 0);
      MultisetWithout(b, i);
      assert Without(a, 0) == a[1..];
      CancelOne(multiset(a[1..]), multiset(Without(b, i)), a[0]);
      TotalOfPermutation(f, a[1..], Without(b, i));
      TotalWithout(f, b, i);
    }
  }

  /** The final components do not depend on the order of the observations. */
  lemma OrderDoesNotMatter(f: Adjuster, c: Vector, a: seq<Observation>, b: seq<Observation>)
    requires InRange(c) && Lowers(f) && multiset(a) == multiset(b)
    ensures Fold(f, c, a) == Fold(f, c, b)
  {
    FoldIsOneSubtraction(f, c, a);
    FoldIsOneSubtraction(f, c, b);
    TotalOfPermutation(f, a, b);
  }

  // ----- Trust only falls -----

  ghost predicate Monotone(score: Vector -> int) {
    forall a, b :: AtMost(a, b) ==> score(a) <= score(b)
  }

  lemma {:induction false} FoldAppend(f: Adjuster, c: Vector, observations: seq<Observation>, o: Observation)
    ensures Fold(f, c, observations + [o]) == Adjusted(Fold(f, c, observations), f(o))
    decreases |observations|
  {
    if |observations| == 0 {
      assert observations + [o] == [o];
    } else {
      FoldAppend(f, Adjusted(c, f(observations[0])), observations[1..], o);
      assert (observations + [o])[1..] == observations[1..] + [o];
    }
  }

  lemma {:induction false} FoldStaysInRange(f: Adjuster, c: Vector, observations: seq<Observation>)
    requires InRange(c) && Lowers(f)
    ensures InRange(Fold(f, c, observations)) && AtMost(Fold(f, c, observations), c)
    decreases |observations|
  {
    if |observations| != 0 {
      FoldStaysInRange(f, Adjusted(c, f(observations[0])), observations[1..]);
    }
  }

  lemma OneMoreIsLower(f: Adjuster, c: Vector, observations: seq<Observation>, o: Observation)
    requires InRange(c) && Lowers(f)
    ensures AtMost(Fold(f, c, observations + [o]), Fold(f, c, observations))
  {
    FoldAppend(f, c, observations, o);
    FoldStaysInRange(f, c, observations);
    assert AtMost(f(o), ZERO);
  }

  lemma CurrentIsFold(b: Baseline, observations: seq<Observation>)
    ensures CurrentComponents(b, observations) == Fold(Adjustment, b.components, observations)
  {
    assert observations[..|observations|] == observations;
  }

  /** A recorded denial never raises the last known score. */
  lemma DenialNeverRaisesScore(score: Vector -> int, b: Baseline, all: Observations, s: SubjectId, r: Scenario, now: int)
    requires Monotone(score) && InRange(b.components)
    ensures LastKnownScore(score, b, ObservationsOf(Recorded(all, s, r, now), s))
              <= LastKnownScore(score, b, ObservationsOf(all, s))
  {
    var before := ObservationsOf(all, s);
    if r.outcome == "deny" {
      var o := ObservedAs(r, now);
      CurrentIsFold(b, before);
      CurrentIsFold(b, before + [o]);
      AdjustmentLowers();
      OneMoreIsLower(Adjustment, b.components, before, o);
    }
  }

  /** The scores of the runtime transitions never rise along the history. */
  lemma ScoresFallAlongHistory(f: Adjuster, score: Vector -> int, c: Vector, observations: seq<Observation>, i: nat, j: nat)
    requires Monotone(score) && Lowers(f) && InRange(c) && i <= j < |observations|
    ensures score(Transitions(f, c, observations)[j].components) <= score(Transitions(f, c, observations)[i].components)
    decreases j - i
  {
    if i < j {
      ScoresFallAlongHistory(f, score, c, observations, i, j - 1);
      OneMoreIsLower(f, c, observations[..j], observations[j]);
      assert observations[..j] + [observations[j]] == observations[..j + 1];
    }
  }

  /** Once a certificate was rejected, the certificate component is zero for the rest of
      every run. */
  lemma {:induction false} RejectionZeroesCertificate(c: Vector, observations: seq<Observation>, i: nat)
    requires InRange(c) && i < |observations| && CertificateRejected(observations[i])
    ensures Fold(Adjustment, c, observations).certificate == 0
    decreases |observations|
  {
    AdjustmentLowers();
    var next := Adjusted(c, Adjustment(observations[0]));
    assert AtMost(Adjustment(observations[0]), ZERO);
    if i == 0 {
      assert next.certificate == 0;
      FoldStaysInRange(Adjustment, next, observations[1..]);
    } else {
      RejectionZeroesCertificate(next, observations[1..], i - 1);
    }
  }

  /** A component stays as it is when the adjustment is zero or the component is already at
      the bottom. */
  predicate Untouched(v: int, a: int) {
    a == 0 || v == 0
  }

  /** A denial lowers nothing if and only if each component has no adjustment or is zero
      already. */
  lemma DenialLowersNothingIff(c: Vector, o: Observation)
    requires InRange(c)
    ensures var a := Adjustment(o);
            Adjusted(c, a) == c <==>
              (Untouched(c.identity, a.identity) && Untouched(c.device, a.device) && Untouched(c.behaviour, a.behaviour)
               && Untouched(c.certificate, a.certificate) && Untouched(c.compliance, a.compliance))
  {
    AdjustmentLowers();
    LowersNothingIff(c, Adjustment(o));
  }

  lemma LowersNothingIff(c: Vector, a: Vector)
    requires InRange(c) && AtMost(a, ZERO)
    ensures Adjusted(c, a) == c <==>
              (Untouched(c.identity, a.identity) && Untouched(c.device, a.device) && Untouched(c.behaviour, a.behaviour)
               && Untouched(c.certificate, a.certificate) && Untouched(c.compliance, a.compliance))
  {
  }

  /** The adjustment itself is zero exactly for the property names that object literals
      inherit; then no components are touched, whatever they are. */
  lemma ZeroAdjustmentIffInherited(o: Observation)
    ensures Adjustment(o) == ZERO <==> !CertificateRejected(o) && IsInherited(o.scenarioId)
    ensures Adjustment(o) == ZERO <==> forall c :: InRange(c) ==> Adjusted(c, Adjustment(o)) == c
  {
    AdjustmentLowers();
    var top := Vector(100, 100, 100, 100, 100);
    LowersNothingIff(top, Adjustment(o));
    if Adjustment(o) == ZERO {
      forall c | InRange(c) ensures Adjusted(c, ZERO) == c {
        LowersNothingIff(c, ZERO);
      }
    }
    assert InRange(top);
  }

  /** One such name: the observation is recorded, and every component stays. */
  lemma InheritedNameLowersNothing(c: Vector, at: int, action: string)
    requires InRange(c)
    ensures Fold(Adjustment, c, [Observation(at, "toString", action, "ACCESS_DENIED")]) == c
  {
    var o := Observation(at, "toString", action, "ACCESS_DENIED");
    assert "ACCESS_DENIED"[0] != "CERTIFICATE_NOT_ACCEPTED"[0];
    assert !CertificateRejected(o) && IsInherited(o.scenarioId);
    ZeroAdjustmentIffInherited(o);
    assert [o][1..] == [];
  }

  function Repeated(o: Observation, n: nat): (observations: seq<Observation>)
    ensures |observations| == n
  {
    if n == 0 then [] else [o] + Repeated(o, n - 1)
  }

  function Times(n: nat, a: Vector): Vector {
    Vector(n * a.identity, n * a.device, n * a.behaviour, n * a.certificate, n * a.compliance)
  }

  lemma TimesNext(n: nat, a: Vector)
    ensures Times(n + 1, a) == Plus(a, Times(n, a))
  {
  }

  lemma {:induction false} TotalOfRepeated(f: Adjuster, o: Observation, n: nat)
    ensures Total(f, Repeated(o, n)) == Times(n, f(o))
  {
    if n != 0 {
      TotalOfRepeated(f, o, n - 1);
      TimesNext(n - 1, f(o));
      assert Repeated(o, n)[0] == o && Repeated(o, n)[1..] == Repeated(o, n - 1);
    }
  }

  /** No adjustment of a component is smaller than five. */
  lemma AdjustmentsAreSteps(o: Observation)
    ensures var a := Adjustment(o);
            && (a.identity == 0 || a.identity <= -5) && (a.device == 0 || a.device <= -5)
            && (a.behaviour == 0 || a.behaviour <= -5) && (a.certificate == 0 || a.certificate <= -5)
            && (a.compliance == 0 || a.compliance <= -5)
  {
  }

  lemma StepsExhaust(c: Vector, a: Vector)
    requires InRange(c) && AtMost(a, ZERO)
    requires && (a.identity == 0 || a.identity <= -5) && (a.device == 0 || a.device <= -5)
             && (a.behaviour == 0 || a.behaviour <= -5) && (a.certificate == 0 || a.certificate <= -5)
             && (a.compliance == 0 || a.compliance <= -5)
    ensures var end := Adjusted(c, Times(20, a));
            InRange(end) && Adjusted(end, a) == end
  {
  }

  /** Whatever the components and the denial: after it was recorded twenty times, one more
      lowers nothing. */
  lemma RepeatedDenialExhausts(c: Vector, o: Observation)
    requires InRange(c)
    ensures var end := Fold(Adjustment, c, Repeated(o, 20));
            Adjusted(end, Adjustment(o)) == end
  {
    AdjustmentLowers();
    assert AtMost(Adjustment(o), ZERO);
    AdjustmentsAreSteps(o);
    FoldIsOneSubtraction(Adjustment, c, Repeated(o, 20));
    TotalOfRepeated(Adjustment, o, 20);
    StepsExhaust(c, Adjustment(o));
  }

  /** An input that the server sends: the member of the first tenant presents a revoked
      certificate nine times, and the tenth denial lowers nothing. */
  lemma ExhaustedComponentLowersNothing(at: int)
    ensures var alice := Vector(90, 84, 72, 100, 92);
            var o := Observation(at, "revoked-certificate", "profile:read", "CERTIFICATE_NOT_ACCEPTED");
            var end := Fold(Adjustment, alice, Repeated(o, 9));
            end == Vector(0, 84, 0, 0, 92) && Adjusted(end, Adjustment(o)) == end
  {
    var o := Observation(at, "revoked-certificate", "profile:read", "CERTIFICATE_NOT_ACCEPTED");
    AdjustmentLowers();
    FoldIsOneSubtraction(Adjustment, Vector(90, 84, 72, 100, 92), Repeated(o, 9));
    TotalOfRepeated(Adjustment, o, 9);
    assert CertificateRejected(o);
  }

  // ----- What a denial does to the policy -----

  /** The policy score, unlike the last known score, can come up from nothing: a denial does
      that exactly when the last observation is more than an hour old. A policy score that
      was there does not rise. */
  lemma DenialRefreshesIff(score: Vector -> int, b: Baseline, all: Observations, s: SubjectId, r: Scenario, now: int)
    requires r.outcome == "deny"
    ensures var before := PolicyScore(score, b, ObservationsOf(all, s), now);
            var after := PolicyScore(score, b, ObservationsOf(Recorded(all, s, r, now), s), now);
            var observations := if s in all then all[s] else [];
            var last := if observations == [] then b.observedAt else observations[|observations| - 1].observedAt;
            && after.Some?
            && (before.None? <==> now - last > 3_600_000)
            && (before.Some? && Monotone(score) && InRange(b.components) ==> after.value <= before.value)
  {
    assert CurrentTime(b, ObservationsOf(Recorded(all, s, r, now), s)) == now;
    if Monotone(score) && InRange(b.components) {
      DenialNeverRaisesScore(score, b, all, s, r, now);
    }
  }

  function Permissiveness(o: Outcome): nat {
    match o case Quarantine => 0 case Deny => 1 case StepUp => 2 case Allow => 3
  }

  /** For a fresh state a lower score never gives a more permissive decision. */
  lemma LowerScoreIsNotMorePermissive(role: string, low: int, high: int, stepUp: bool, rule: Rule, quarantineBelow: int)
    requires low <= high
    ensures Permissiveness(EvaluateDecision(role, low, stepUp, rule, quarantineBelow, true).0)
              <= Permissiveness(EvaluateDecision(role, high, stepUp, rule, quarantineBelow, true).0)
  {
  }

  /** Every decision on the role, the score, the step-up and the age of the state: which
      outcome it has, and for what reason. */
  lemma DecisionIff(role: string, score: int, stepUp: bool, rule: Rule, quarantineBelow: int, isFresh: bool)
    ensures var (outcome, reason) := EvaluateDecision(role, score, stepUp, rule, quarantineBelow, isFresh);
            var eligible := isFresh && role in rule.roles;
            && (outcome == Quarantine <==> eligible && score < quarantineBelow)
            && (outcome == StepUp <==> eligible && quarantineBelow <= score && rule.minimumScore <= score
                                       && rule.stepUpRequired && !stepUp)
            && (outcome == Allow <==> eligible && quarantineBelow <= score && rule.minimumScore <= score
                                      && (rule.stepUpRequired ==> stepUp))
            && (outcome == Deny <==> !eligible || quarantineBelow <= score < rule.minimumScore)
            && reason == match outcome
                 case Quarantine => "TRUST_SCORE_QUARANTINE"
                 case StepUp => "STEP_UP_REQUIRED"
                 case Allow => "POLICY_ALLOW"
                 case Deny => if !isFresh then "TRUST_STATE_STALE"
                              else if role !in rule.roles then "ROLE_NOT_ELIGIBLE"
                              else "TRUST_SCORE_BELOW_ACTION_MINIMUM"
  {
  }

  // ----- The components in closed form -----

  datatype DenialKind = RejectedCertificate | CrossTenant | ForgedHeader | SensitiveExport | Unlisted | Harmless

  /** What kind of denial an observation is: by its reason, then by its scenario. */
  function KindOf(o: Observation): DenialKind {
    if o.reasonCode == "CERTIFICATE_NOT_ACCEPTED" || o.scenarioId in ["revoked-certificate", "same-tenant-record"]
    then RejectedCertificate
    else if o.scenarioId == "cross-tenant-record" then CrossTenant
    else if o.scenarioId == "forged-identity-header" then ForgedHeader
    else if o.scenarioId == "sensitive-export" then SensitiveExport
    else if IsInherited(o.scenarioId) then Harmless
    else Unlisted
  }

  /** How many denials of each kind that lowers something. */
  datatype Tally = Tally(rejected: nat, crossed: nat, forged: nat, exported: nat, unlisted: nat)

  function OneMore(tally: Tally, kind: DenialKind): Tally {
    match kind
    case RejectedCertificate => tally.(rejected := tally.rejected + 1)
    case CrossTenant => tally.(crossed := tally.crossed + 1)
    case ForgedHeader => tally.(forged := tally.forged + 1)
    case SensitiveExport => tally.(exported := tally.exported + 1)
    case Unlisted => tally.(unlisted := tally.unlisted + 1)
    case Harmless => tally
  }

  function TallyOf(observations: seq<Observation>): Tally {
    if |observations| == 0 then Tally(0, 0, 0, 0, 0) else OneMore(TallyOf(observations[1..]), KindOf(observations[0]))
  }

  function OfKind(kind: DenialKind): Vector {
    match kind
    case RejectedCertificate => Vector(-10, 0, -10, -100, 0)
    case CrossTenant => Vector(-12, -5, -30, 0, -15)
    case ForgedHeader => Vector(-18, -10, -40, 0, -20)
    case SensitiveExport => Vector(-5, 0, -20, 0, -12)
    case Unlisted => Vector(0, 0, -10, 0, 0)
    case Harmless => ZERO
  }

  lemma AdjustmentOfKind(o: Observation)
    ensures Adjustment(o) == OfKind(KindOf(o))
  {
  }

  /** The vector takes from each component what the counted denials cost it. */
  predicate Weighs(v: Vector, n: Tally) {
    && v.identity + 10 * n.rejected + 12 * n.crossed + 18 * n.forged + 5 * n.exported == 0
    && v.device + 5 * n.crossed + 10 * n.forged == 0
    && v.behaviour + 10 * n.rejected + 30 * n.crossed + 40 * n.forged + 20 * n.exported + 10 * n.unlisted == 0
    && v.certificate + 100 * n.rejected == 0
    && v.compliance + 15 * n.crossed + 20 * n.forged + 12 * n.exported == 0
  }

  lemma OneMoreOfKind(v: Vector, n: Tally, kind: DenialKind)
    requires Weighs(v, n)
    ensures Weighs(Plus(OfKind(kind), v), OneMore(n, kind))
  {
    match kind {
      case RejectedCertificate =>
      case CrossTenant =>
      case ForgedHeader =>
      case SensitiveExport =>
      case Unlisted =>
      case Harmless =>
    }
  }

  lemma {:induction false} TotalByCounts(observations: seq<Observation>)
    ensures Weighs(Total(Adjustment, observations), TallyOf(observations))
    decreases |observations|
  {
    if |observations| != 0 {
      AdjustmentOfKind(observations[0]);
      TotalByCounts(observations[1..]);
      OneMoreOfKind(Total(Adjustment, observations[1..]), TallyOf(observations[1..]), KindOf(observations[0]));
    }
  }

  /** The start less the weighted tally, or zero. */
  predicate Spent(c: Vector, n: Tally, end: Vector) {
    && end.identity == Max(0, c.identity - 10 * n.rejected - 12 * n.crossed - 18 * n.forged - 5 * n.exported)
    && end.device == Max(0, c.device - 5 * n.crossed - 10 * n.forged)
    && end.behaviour == Max(0, c.behaviour - 10 * n.rejected - 30 * n.crossed - 40 * n.forged - 20 * n.exported - 10 * n.unlisted)
    && end.certificate == Max(0, c.certificate - 100 * n.rejected)
    && end.compliance == Max(0, c.compliance - 15 * n.crossed - 20 * n.forged - 12 * n.exported)
  }

  lemma AdjustedIsSpent(c: Vector, v: Vector, n: Tally)
    requires InRange(c) && AtMost(v, ZERO) && Weighs(v, n)
    ensures Spent(c, n, Adjusted(c, v))
  {
  }

  /** Whatever the history, the components are given by how many denials of each kind it
      has. */
  lemma ComponentsByCounts(c: Vector, observations: seq<Observation>)
    requires InRange(c)
    ensures Spent(c, TallyOf(observations), Fold(Adjustment, c, observations))
  {
    AdjustmentLowers();
    FoldIsOneSubtraction(Adjustment, c, observations);
    TotalIsNotPositive(Adjustment, observations);
    TotalByCounts(observations);
    AdjustedIsSpent(c, Total(Adjustment, observations), TallyOf(observations));
  }

  // ----- The dashboard object -----

  class TrustBoard {
    var observationsBySubject: Observations

    constructor ()
      ensures observationsBySubject == map[]
    {
      observationsBySubject := map[];
    }

    /** `runtimeTransitionDefinitions`: one variable holds the components so far. */
    static method RuntimeTransitionDefinitions(f: Adjuster, start: Vector, observations: seq<Observation>) returns (ts: seq<Transition>)
      ensures ts == Transitions(f, start, observations)
    {
      var components := start;
      ts := [];
      for i := 0 to |observations|
        invariant components == Fold(f, start, observations[..i])
        invariant ts == Transitions(f, start, observations)[..i]
      {
        FoldAppend(f, start, observations[..i], observations[i]);
        assert observations[..i] + [observations[i]] == observations[..i + 1];
        components := Adjusted(components, f(observations[i]));
        assert NewTransition(observations[i], components) == Transitions(f, start, observations)[i];
        ts := ts + [NewTransition(observations[i], components)];
      }
    }

    /** `recordScenario`: the scores before and after, or nothing for a result that is not a
        denial. */
    method RecordScenario(score: Vector -> int, b: Baseline, s: SubjectId, r: Scenario, now: int)
      returns (scores: Option<(int, int)>)
      requires InRange(b.components)
      modifies this
      ensures observationsBySubject == Recorded(old(observationsBySubject), s, r, now)
      ensures scores == if r.outcome != "deny" then None
                        else Some((LastKnownScore(score, b, ObservationsOf(old(observationsBySubject), s)),
                                   LastKnownScore(score, b, ObservationsOf(observationsBySubject, s))))
      ensures scores.Some? && Monotone(score) ==> scores.value.1 <= scores.value.0
    {
      if Monotone(score) {
        DenialNeverRaisesScore(score, b, observationsBySubject, s, r, now);
      }
      if r.outcome != "deny" {
        return None;
      }
      var observations := ObservationsOf(observationsBySubject, s);
      var before := LastKnownScore(score, b, observations);
      observations := observations + [ObservedAs(r, now)];
      observationsBySubject := observationsBySubject[s := observations];
      var after := LastKnownScore(score, b, observations);
      return Some((before, after));
    }
  }
}
