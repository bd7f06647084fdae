/** The in-memory certificate dashboard of the review application: what it shows as permitted
    and what its operations do. Times are milliseconds. */
module CertificateDashboard {
  import opened Sql

  type Identifier = nat

  datatype Subject = Subject(tenant: Identifier, id: Identifier, active: bool)

  datatype CertificateState = Active | Superseded | Revoked

  datatype Certificate = Certificate(tenant: Identifier, id: Identifier, subject: Identifier, issuer: string,
                                     state: CertificateState, notBefore: int, expiresOn: int, updatedAt: int,
                                     renewalOf: Option<Identifier>, revokedAt: Option<int>)

  datatype Dashboard = Dashboard(subjects: seq<Subject>, certificates: seq<Certificate>, eventSequence: nat)

  /** The resolved persona: tenant, subject, whether its roles include tenant-admin, and the
      issuer of its tenant. */
  datatype Context = Context(tenant: Identifier, subject: Identifier, admin: bool, issuer: string)

  datatype Permission = Allowed | NotPermitted(reason: string)

  datatype Request = Issue(subject: Identifier)
                   | Renew(subject: Identifier, certificate: Identifier)
                   | Revoke(subject: Identifier, certificate: Identifier)
                   | Other(operation: string)

  datatype Reply = Done(certificate: Certificate, event: nat) | Refused(reason: string, status: int)

  const YEAR: int := 365 * 24 * 60 * 60 * 1000

  // ----- Permissions -----

  predicate CanManage(x: Context, s: Subject) {
    s.tenant == x.tenant && s.active && x.admin
  }

  /** `now >= notAfter - validity / 4`, without the fraction */
  predicate RenewalWindowOpen(c: Certificate, now: int) {
    var validity := c.expiresOn - c.notBefore;
    && c.state == Active && validity > 0 && c.notBefore <= now < c.expiresOn
    && 4 * now >= 4 * c.expiresOn - validity
  }

  function IssuePermission(x: Context, s: Subject): Permission {
    if CanManage(x, s) then Allowed else NotPermitted("SUBJECT_ENROLLMENT_UNAUTHORIZED")
  }

  function CertificatePermission(x: Context, s: Subject, c: Certificate, renew: bool, now: int): Permission {
    if !CanManage(x, s) || c.tenant != x.tenant then NotPermitted("CERTIFICATE_OPERATION_UNAUTHORIZED")
    else if c.state != Active then NotPermitted("CERTIFICATE_NOT_ACTIVE")
    else if renew && !RenewalWindowOpen(c, now) then NotPermitted("RENEWAL_WINDOW_CLOSED")
    else Allowed
  }

  // ----- getState -----

  predicate SeesSubject(x: Context, s: Subject) {
    s.tenant == x.tenant && (s.id == x.subject || x.admin)
  }

  function VisibleSubjects(x: Context, subjects: seq<Subject>): seq<Subject> {
    if |subjects| == 0 then []
    else (if SeesSubject(x, subjects[0]) then [subjects[0]] else []) + VisibleSubjects(x, subjects[1..])
  }

  /** The first subject with the identifier. */
  function SubjectNamed(subjects: seq<Subject>, id: Identifier): (r: Option<Subject>)
    ensures r.Some? ==> r.value in subjects && r.value.id == id
    ensures r.None? ==> forall s :: s in subjects ==> s.id != id
  {
    if |subjects| == 0 then None
    else if subjects[0].id == id then Some(subjects[0])
    else
      assert forall s :: s in subjects ==> s == subjects[0] || s in subjects[1..];
      SubjectNamed(subjects[1..], id)
  }

  function VisibleCertificates(x: Context, visible: seq<Subject>, certificates: seq<Certificate>): seq<Certificate> {
    if |certificates| == 0 then []
    else
      (if certificates[0].tenant == x.tenant && SubjectNamed(visible, certificates[0].subject).Some? then [certificates[0]] else [])
      + VisibleCertificates(x, visible, certificates[1..])
  }

  /** The permission shown beside a visible certificate. */
  function ShownPermission(x: Context, visible: seq<Subject>, c: Certificate, renew: bool, now: int): Permission
    requires SubjectNamed(visible, c.subject).Some?
  {
    CertificatePermission(x, SubjectNamed(visible, c.subject).value, c, renew, now)
  }

  function CountIssue(x: Context, visible: seq<Subject>): nat {
    if |visible| == 0 then 0 else (if IssuePermission(x, visible[0]).Allowed? then 1 else 0) + CountIssue(x, visible[1..])
  }

  function CountOperations(x: Context, visible: seq<Subject>, shown: seq<Certificate>, now: int): nat
    requires forall c :: c in shown ==> SubjectNamed(visible, c.subject).Some?
  {
    if |shown| == 0 then 0
    else (if ShownPermission(x, visible, shown[0], true, now).Allowed? then 1 else 0)
         + (if ShownPermission(x, visible, shown[0], false, now).Allowed? then 1 else 0)
         + CountOperations(x, visible, shown[1..], now)
  }

  lemma {:induction false} VisibleHas(x: Context, subjects: seq<Subject>, s: Subject)
    ensures s in VisibleSubjects(x, subjects) <==> s in subjects && SeesSubject(x, s)
    decreases |subjects|
  {
    if |subjects| != 0 {
      VisibleHas(x, subjects[1..], s);
      assert s in subjects <==> s == subjects[0] || s in subjects[1..];
    }
  }

  lemma {:induction false} VisibleCertificatesHave(x: Context, visible: seq<Subject>, certificates: seq<Certificate>, c: Certificate)
    ensures c in VisibleCertificates(x, visible, certificates) <==>
            c in certificates && c.tenant == x.tenant && SubjectNamed(visible, c.subject).Some?
    decreases |certificates|
  {
    if |certificates| != 0 {
      VisibleCertificatesHave(x, visible, certificates[1..], c);
      assert c in certificates <==> c == certificates[0] || c in certificates[1..];
    }
  }

  /** `certificateSummary.permittedOperations` */
  function PermittedOperations(d: Dashboard, x: Context, now: int): nat {
    var visible := VisibleSubjects(x, d.subjects);
    var shown := VisibleCertificates(x, visible, d.certificates);
    assert forall c :: c in shown ==> SubjectNamed(visible, c.subject).Some? by {
      forall c | c in shown ensures SubjectNamed(visible, c.subject).Some? {
        VisibleCertificatesHave(x, visible, d.certificates, c);
      }
    }
    CountIssue(x, visible) + CountOperations(x, visible, shown, now)
  }

  // ----- execute -----

  /** `subjects.find` */
  function SubjectOf(subjects: seq<Subject>, t: Identifier, id: Identifier): (r: Option<Subject>)
    ensures r.Some? ==> r.value in subjects && r.value.id == id && r.value.tenant == t
    ensures r.None? ==> forall s :: s in subjects ==> !(s.id == id && s.tenant == t)
  {
    if |subjects| == 0 then None
    else if subjects[0].id == id && subjects[0].tenant == t then Some(subjects[0])
    else
      assert forall s :: s in subjects ==> s == subjects[0] || s in subjects[1..];
      SubjectOf(subjects[1..], t, id)
  }

  predicate Matches(c: Certificate, t: Identifier, s: Identifier, id: Identifier) {
    c.id == id && c.subject == s && c.tenant == t
  }

  /** `certificates.find`: the position of the first match */
  function PositionOf(certificates: seq<Certificate>, t: Identifier, s: Identifier, id: Identifier): (r: Option<nat>)
    ensures r.Some? ==> r.value < |certificates| && Matches(certificates[r.value], t, s, id)
    ensures r.Some? ==> forall j :: 0 <= j < r.value ==> !Matches(certificates[j], t, s, id)
    ensures r.None? ==> forall j :: 0 <= j < |certificates| ==> !Matches(certificates[j], t, s, id)
  {
    if |certificates| == 0 then None
    else if Matches(certificates[0], t, s, id) then Some(0)
    else match PositionOf(certificates[1..], t, s, id)
      case None => None
      case Some(i) => Some(i + 1)
  }

  function Generated(t: Identifier, s: Identifier, issuer: string, renewalOf: Option<Identifier>, now: int, newId: Identifier)
    : Certificate
  {
    Certificate(t, newId, s, issuer, Active, now, now + YEAR, now, renewalOf, None)
  }

  function RefusedBy(p: Permission): Reply
    requires p.NotPermitted?
  {
    Refused(p.reason, if p.reason == "CERTIFICATE_OPERATION_UNAUTHORIZED" then 403 else 409)
  }

  function ExecuteIssue(d: Dashboard, x: Context, subject: Identifier, now: int, newId: Identifier): (Dashboard, Reply) {
    match SubjectOf(d.subjects, x.tenant, subject)
    case None => (d, Refused("ACCESS_DENIED", 403))
    case Some(s) =>
      if !IssuePermission(x, s).Allowed? then (d, Refused("ACCESS_DENIED", 403))
      else
        var c := Generated(x.tenant, s.id, x.issuer, None, now, newId);
        (d.(certificates := d.certificates + [c], eventSequence := d.eventSequence + 1), Done(c, d.eventSequence + 1))
  }

  function ExecuteOn(d: Dashboard, x: Context, subject: Identifier, id: Identifier, renew: bool, now: int, newId: Identifier)
    : (Dashboard, Reply)
  {
    match SubjectOf(d.subjects, x.tenant, subject)
    case None => (d, Refused("ACCESS_DENIED", 403))
    case Some(s) =>
      match PositionOf(d.certificates, x.tenant, s.id, id)
      case None => (d, Refused("ACCESS_DENIED", 403))
      case Some(i) =>
        var target := d.certificates[i];
        var p := CertificatePermission(x, s, target, renew, now);
        if p.NotPermitted? then (d, RefusedBy(p))
        else if renew then
          var c := Generated(x.tenant, s.id, target.issuer, Some(target.id), now, newId);
          (d.(certificates := d.certificates[i := target.(state := Superseded, updatedAt := now)] + [c],
              eventSequence := d.eventSequence + 1),
           Done(c, d.eventSequence + 1))
        else
          var c := target.(state := Revoked, updatedAt := now, revokedAt := Some(now));
          (d.(certificates := d.certificates[i := c], eventSequence := d.eventSequence + 1), Done(c, d.eventSequence + 1))
  }

  function Execute(d: Dashboard, x: Context, r: Request, now: int, newId: Identifier): (Dashboard, Reply) {
    match r
    case Issue(s) => ExecuteIssue(d, x, s, now, newId)
    case Renew(s, c) => ExecuteOn(d, x, s, c, true, now, newId)
    case Revoke(s, c) => ExecuteOn(d, x, s, c, false, now, newId)
    case Other(_) => (d, Refused("CERTIFICATE_OPERATION_INVALID", 400))
  }

  // ----- Runs -----

  datatype DashboardCall = DashboardCall(context: Context, request: Request, now: int, newId: Identifier)

  function ExecuteAll(d: Dashboard, calls: seq<DashboardCall>): Dashboard
    decreases |calls|
  {
    if |calls| == 0 then d
    else ExecuteAll(Execute(d, calls[0].context, calls[0].request, calls[0].now, calls[0].newId).0, calls[1..])
  }

  predicate Unused(d: Dashboard, id: Identifier) {
    forall c :: c in d.certificates ==> c.id != id
  }

  /** `idFactory` never returns an identifier twice. */
  predicate IdsAreFresh(d: Dashboard, calls: seq<DashboardCall>)
    decreases |calls|
  {
    |calls| == 0 ||
    (Unused(d, calls[0].newId)
     && IdsAreFresh(Execute(d, calls[0].context, calls[0].request, calls[0].now, calls[0].newId).0, calls[1..]))
  }
}
