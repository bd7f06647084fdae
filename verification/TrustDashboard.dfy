/** The trust dashboard of the review application: every denied access lowers the components
    of a subject's trust, clamped to 0..100 after each observation. Times are milliseconds. */
module TrustDashboard {
  import opened Sql

  type SubjectId = nat

  /** One number per trust component. */
  datatype Vector = Vector(identity: int, device: int, behaviour: int, certificate: int, compliance: int)

  datatype Observation = Observation(observedAt: int, scenarioId: string, action: string, reasonCode: string)

  datatype Transition = Transition(observedAt: int, trigger: string, reasonCode: string, action: string,
                                   stepUpSatisfied: bool, components: Vector)

  const STALE_AFTER: int := 3_600 * 1000

  // ----- Adjustments -----

  function Clamp(v: int): int {
    if v < 0 then 0 else if v > 100 then 100 else v
  }

  /** Property names that an object literal inherits: looking one up finds a function or the
      prototype, none of which has a component to adjust. */
  predicate IsInherited(name: string) {
    name in ["constructor", "toString", "toLocaleString", "valueOf", "hasOwnProperty", "isPrototypeOf",
             "propertyIsEnumerable", "__proto__", "__defineGetter__", "__defineSetter__", "__lookupGetter__",
             "__lookupSetter__"]
  }

  const REJECTED_CERTIFICATE: Vector := Vector(-10, 0, -10, -100, 0)

  predicate CertificateRejected(o: Observation) {
    o.reasonCode == "CERTIFICATE_NOT_ACCEPTED"
  }

  /** `runtimeAdjustments`, with the default for an unknown scenario */
  function Adjustment(o: Observation): Vector {
    if CertificateRejected(o) then REJECTED_CERTIFICATE
    else if o.scenarioId == "cross-tenant-record" then Vector(-12, -5, -30, 0, -15)
    else if o.scenarioId == "forged-identity-header" then Vector(-18, -10, -40, 0, -20)
    else if o.scenarioId == "sensitive-export" then Vector(-5, 0, -20, 0, -12)
    else if o.scenarioId == "revoked-certificate" then REJECTED_CERTIFICATE
    else if o.scenarioId == "same-tenant-record" then REJECTED_CERTIFICATE
    else if IsInherited(o.scenarioId) then Vector(0, 0, 0, 0, 0)
    else Vector(0, 0, -10, 0, 0)
  }

  function Adjusted(c: Vector, a: Vector): Vector {
    Vector(Clamp(c.identity + a.identity), Clamp(c.device + a.device), Clamp(c.behaviour + a.behaviour),
           Clamp(c.certificate + a.certificate), Clamp(c.compliance + a.compliance))
  }

  /** What an observation does to the components: `Adjustment` in the program. */
  type Adjuster = Observation -> Vector

  /** The components after all observations. */
  function Fold(f: Adjuster, c: Vector, observations: seq<Observation>): Vector
    decreases |observations|
  {
    if |observations| == 0 then c else Fold(f, Adjusted(c, f(observations[0])), observations[1..])
  }

  function NewTransition(o: Observation, components: Vector): Transition {
    Transition(o.observedAt,
               if CertificateRejected(o) then "Invalid certificate use reduced trust" else "Denied access attempt reduced trust",
               if CertificateRejected(o) then "CERTIFICATE_REJECTION_EVIDENCE" else "SUSPICIOUS_ACCESS_EVIDENCE",
               o.action, false, components)
  }

  /** One transition per observation, with the components reached by then. */
  function Transitions(f: Adjuster, c: Vector, observations: seq<Observation>): (ts: seq<Transition>)
    ensures |ts| == |observations|
    ensures forall i :: 0 <= i < |ts| ==> ts[i] == NewTransition(observations[i], Fold(f, c, observations[..i + 1]))
  {
    seq(|observations|, i requires 0 <= i < |observations| => NewTransition(observations[i], Fold(f, c, observations[..i + 1])))
  }

  // ----- Decisions -----

  datatype Rule = Rule(roles: set<string>, minimumScore: int, stepUpRequired: bool)

  datatype Outcome = Allow | StepUp | Deny | Quarantine

  /** `evaluateDecision` */
  function EvaluateDecision(role: string, score: int, stepUpSatisfied: bool, rule: Rule, quarantineBelow: int, isFresh: bool)
    : (Outcome, string)
  {
    if !isFresh then (Deny, "TRUST_STATE_STALE")
    else if role !in rule.roles then (Deny, "ROLE_NOT_ELIGIBLE")
    else if score < quarantineBelow then (Quarantine, "TRUST_SCORE_QUARANTINE")
    else if score < rule.minimumScore then (Deny, "TRUST_SCORE_BELOW_ACTION_MINIMUM")
    else if rule.stepUpRequired && !stepUpSatisfied then (StepUp, "STEP_UP_REQUIRED")
    else (Allow, "POLICY_ALLOW")
  }

  // ----- A subject's current state -----

  /** A subject's last scripted transition, with its time resolved against the anchor. */
  datatype Baseline = Baseline(components: Vector, observedAt: int)

  function CurrentComponents(b: Baseline, observations: seq<Observation>): Vector {
    if |observations| == 0 then b.components else Transitions(Adjustment, b.components, observations)[|observations| - 1].components
  }

  function CurrentTime(b: Baseline, observations: seq<Observation>): int {
    if |observations| == 0 then b.observedAt else observations[|observations| - 1].observedAt
  }

  predicate IsFresh(b: Baseline, observations: seq<Observation>, now: int) {
    now - CurrentTime(b, observations) <= STALE_AFTER
  }

  /** The weighted score is not part of this model; `score` stands for it. */
  function LastKnownScore(score: Vector -> int, b: Baseline, observations: seq<Observation>): int {
    score(CurrentComponents(b, observations))
  }

  function PolicyScore(score: Vector -> int, b: Baseline, observations: seq<Observation>, now: int): Option<int> {
    if IsFresh(b, observations, now) then Some(LastKnownScore(score, b, observations)) else None
  }

  // ----- recordScenario -----

  datatype Scenario = Scenario(outcome: string, scenarioId: string, action: string, reasonCode: string)

  type Observations = map<SubjectId, seq<Observation>>

  function ObservationsOf(all: Observations, s: SubjectId): seq<Observation> {
    if s in all then all[s] else []
  }

  function ObservedAs(r: Scenario, now: int): Observation {
    Observation(now, r.scenarioId, r.action, r.reasonCode)
  }

  /** Only a denial is recorded. */
  function Recorded(all: Observations, s: SubjectId, r: Scenario, now: int): Observations {
    if r.outcome != "deny" then all else all[s := ObservationsOf(all, s) + [ObservedAs(r, now)]]
  }
}
