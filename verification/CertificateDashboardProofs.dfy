/** What the dashboard shows is what it does, and its certificates form renewal chains. */
module CertificateDashboardProofs {
  import opened Sql
  import opened CertificateDashboard

  // ----- Invariant -----

  predicate SubjectsDistinct(subjects: seq<Subject>) {
    forall i, j :: 0 <= i < j < |subjects| ==> (subjects[i].tenant, subjects[i].id) != (subjects[j].tenant, subjects[j].id)
  }

  predicate CertificatesDistinct(certificates: seq<Certificate>) {
    forall i, j :: 0 <= i < j < |certificates| ==> certificates[i].id != certificates[j].id
  }

  /** Every certificate belongs to a known subject. */
  predicate Owned(d: Dashboard) {
    forall c :: c in d.certificates ==> SubjectOf(d.subjects, c.tenant, c.subject).Some?
  }

  /** A certificate is superseded exactly when another one renews it, and only one does. */
  predicate RenewalsPair(certificates: seq<Certificate>) {
    && (forall i :: 0 <= i < |certificates| ==>
          (certificates[i].state == Superseded <==> IsRenewed(certificates, certificates[i].id)))
    && (forall i, j :: 0 <= i < j < |certificates| && certificates[i].renewalOf.Some? ==>
          certificates[i].renewalOf != certificates[j].renewalOf)
    && (forall i :: 0 <= i < |certificates| && certificates[i].renewalOf.Some? ==>
          HasId(certificates, certificates[i].renewalOf.value))
  }

  predicate IsRenewed(certificates: seq<Certificate>, id: Identifier) {
    exists j :: 0 <= j < |certificates| && certificates[j].renewalOf == Some(id)
  }

  predicate HasId(certificates: seq<Certificate>, id: Identifier) {
    exists j :: 0 <= j < |certificates| && certificates[j].id == id
  }

  predicate Sound(d: Dashboard) {
    SubjectsDistinct(d.subjects) && CertificatesDistinct(d.certificates) && Owned(d) && RenewalsPair(d.certificates)
  }

  // ----- Shown is done -----

  predicate Succeeds(d: Dashboard, x: Context, r: Request, now: int, newId: Identifier) {
    Execute(d, x, r, now, newId).1.Done?
  }

  lemma SubjectIsFound(subjects: seq<Subject>, s: Subject)
    requires SubjectsDistinct(subjects) && s in subjects
    ensures SubjectOf(subjects, s.tenant, s.id) == Some(s)
  {
    var i :| 0 <= i < |subjects| && subjects[i] == s;
    var f := SubjectOf(subjects, s.tenant, s.id).value;
    var j :| 0 <= j < |subjects| && subjects[j] == f;
  }

  lemma CertificateIsFound(certificates: seq<Certificate>, i: nat)
    requires CertificatesDistinct(certificates) && i < |certificates|
    ensures var c := certificates[i]; PositionOf(certificates, c.tenant, c.subject, c.id) == Some(i)
  {
  }

  lemma VisibleSubjectIsItself(x: Context, subjects: seq<Subject>, s: Subject)
    requires SubjectsDistinct(subjects) && s in subjects && SeesSubject(x, s)
    ensures SubjectNamed(VisibleSubjects(x, subjects), s.id) == Some(s)
  {
    VisibleHas(x, subjects, s);
    var f := SubjectNamed(VisibleSubjects(x, subjects), s.id).value;
    VisibleHas(x, subjects, f);
    var i :| 0 <= i < |subjects| && subjects[i] == s;
    var j :| 0 <= j < |subjects| && subjects[j] == f;
  }

  /** Issuing is shown as allowed for a visible subject exactly when executing it succeeds. */
  lemma IssueShownIffDone(d: Dashboard, x: Context, s: Subject, now: int, newId: Identifier)
    requires Sound(d) && s in VisibleSubjects(x, d.subjects)
    ensures IssuePermission(x, s).Allowed? <==> Succeeds(d, x, Issue(s.id), now, newId)
  {
    VisibleHas(x, d.subjects, s);
    SubjectIsFound(d.subjects, s);
  }

  /** Renewal and revocation are shown as allowed for a visible certificate exactly when
      executing them at the same time succeeds. */
  lemma OperationShownIffDone(d: Dashboard, x: Context, c: Certificate, renew: bool, now: int, newId: Identifier)
    requires Sound(d)
    requires c in VisibleCertificates(x, VisibleSubjects(x, d.subjects), d.certificates)
    ensures SubjectNamed(VisibleSubjects(x, d.subjects), c.subject).Some?
    ensures ShownPermission(x, VisibleSubjects(x, d.subjects), c, renew, now).Allowed?
            <==> Succeeds(d, x, if renew then Renew(c.subject, c.id) else Revoke(c.subject, c.id), now, newId)
  {
    var visible := VisibleSubjects(x, d.subjects);
    VisibleCertificatesHave(x, visible, d.certificates, c);
    var s := SubjectNamed(visible, c.subject).value;
    VisibleHas(x, d.subjects, s);
    SubjectIsFound(d.subjects, s);
    var i :| 0 <= i < |d.certificates| && d.certificates[i] == c;
    CertificateIsFound(d.certificates, i);
  }

  /** The documentation lets a subject operate on its own certificates; the code does so
      exactly for administrators. */
  lemma OwnOperationNeedsAdmin(d: Dashboard, x: Context, i: nat, now: int, newId: Identifier)
    requires Sound(d) && i < |d.certificates|
    requires var c := d.certificates[i];
             c.tenant == x.tenant && c.subject == x.subject && c.state == Active && SubjectOf(d.subjects, c.tenant, c.subject).value.active
    ensures var c := d.certificates[i];
            && (Succeeds(d, x, Revoke(c.subject, c.id), now, newId) <==> x.admin)
            && (Succeeds(d, x, Renew(c.subject, c.id), now, newId) <==> x.admin && RenewalWindowOpen(c, now))
  {
    CertificateIsFound(d.certificates, i);
  }

  // ----- Answers on the rows -----

  /** Who sees what: its own subject, or as administrator every subject of its tenant, and the
      certificates of the subjects it sees. */
  lemma VisibleIff(d: Dashboard, x: Context, s: Subject, c: Certificate)
    requires SubjectsDistinct(d.subjects)
    ensures var visible := VisibleSubjects(x, d.subjects);
            && (s in visible <==> s in d.subjects && s.tenant == x.tenant && (x.admin || s.id == x.subject))
            && (c in VisibleCertificates(x, visible, d.certificates) <==>
                  && c in d.certificates && c.tenant == x.tenant && (x.admin || c.subject == x.subject)
                  && exists o :: o in d.subjects && o.tenant == x.tenant && o.id == c.subject)
  {
    var visible := VisibleSubjects(x, d.subjects);
    VisibleHas(x, d.subjects, s);
    VisibleCertificatesHave(x, visible, d.certificates, c);
    if o :| o in d.subjects && o.tenant == x.tenant && o.id == c.subject {
      VisibleHas(x, d.subjects, o);
    }
    var named := SubjectNamed(visible, c.subject);
    if named.Some? {
      VisibleHas(x, d.subjects, named.value);
    }
  }

  /** Issuing answers with a certificate of one year if and only if an administrator issues it
      for an active subject of its tenant. */
  lemma IssueIff(d: Dashboard, x: Context, s: Subject, now: int, newId: Identifier)
    requires SubjectsDistinct(d.subjects) && s in d.subjects && s.tenant == x.tenant
    ensures var c := Certificate(x.tenant, newId, s.id, x.issuer, Active, now, now + 31_536_000_000, now, None, None);
            Execute(d, x, Issue(s.id), now, newId) ==
            if x.admin && s.active
            then (Dashboard(d.subjects, d.certificates + [c], d.eventSequence + 1), Done(c, d.eventSequence + 1))
            else (d, Refused("ACCESS_DENIED", 403))
  {
    SubjectIsFound(d.subjects, s);
  }

  /** The last quarter of a certificate's life. */
  predicate InLastQuarter(c: Certificate, now: int) {
    c.notBefore <= now < c.expiresOn && 4 * (c.expiresOn - now) <= c.expiresOn - c.notBefore
  }

  /** Renewing or revoking a certificate of a subject of the tenant: refused to all but
      administrators and for inactive subjects, then unless the certificate is active, then,
      for a renewal, outside the last quarter of its life; otherwise done. */
  lemma OperationIff(d: Dashboard, x: Context, s: Subject, i: nat, renew: bool, now: int, newId: Identifier)
    requires Sound(d) && s in d.subjects && s.tenant == x.tenant
    requires i < |d.certificates| && d.certificates[i].tenant == x.tenant && d.certificates[i].subject == s.id
    ensures var c := d.certificates[i];
            var successor := Certificate(x.tenant, newId, s.id, c.issuer, Active, now, now + 31_536_000_000, now, Some(c.id), None);
            var revoked := c.(state := Revoked, updatedAt := now, revokedAt := Some(now));
            Execute(d, x, if renew then Renew(s.id, c.id) else Revoke(s.id, c.id), now, newId) ==
            if !(x.admin && s.active) then (d, Refused("CERTIFICATE_OPERATION_UNAUTHORIZED", 403))
            else if c.state != Active then (d, Refused("CERTIFICATE_NOT_ACTIVE", 409))
            else if !renew
            then (Dashboard(d.subjects, d.certificates[i := revoked], d.eventSequence + 1), Done(revoked, d.eventSequence + 1))
            else if !InLastQuarter(c, now) then (d, Refused("RENEWAL_WINDOW_CLOSED", 409))
            else (Dashboard(d.subjects, d.certificates[i := c.(state := Superseded, updatedAt := now)] + [successor],
                            d.eventSequence + 1),
                  Done(successor, d.eventSequence + 1))
  {
    SubjectIsFound(d.subjects, s);
    CertificateIsFound(d.certificates, i);
    assert "CERTIFICATE_NOT_ACTIVE"[12] != "CERTIFICATE_OPERATION_UNAUTHORIZED"[12];
    assert "RENEWAL_WINDOW_CLOSED"[0] != "CERTIFICATE_OPERATION_UNAUTHORIZED"[0];
  }

  /** A target of another tenant and a target that does not exist get the same answer, and
      nothing changes. */
  lemma ForeignTargetLooksUnknown(d: Dashboard, x: Context, r: Request, now: int, newId: Identifier)
    requires !r.Other?
    requires forall s :: s in d.subjects && s.id == r.subject ==> s.tenant != x.tenant
    ensures Execute(d, x, r, now, newId) == (d, Refused("ACCESS_DENIED", 403))
  {
  }

  predicate KnownSubject(d: Dashboard, x: Context, id: Identifier) {
    exists s :: s in d.subjects && s.id == id && s.tenant == x.tenant
  }

  predicate KnownCertificate(d: Dashboard, x: Context, subject: Identifier, id: Identifier) {
    exists c :: c in d.certificates && Matches(c, x.tenant, subject, id)
  }

  /** A renewal or revocation is answered with the uniform denial if and only if its subject
      is not one of the tenant or its certificate is not one of that subject, be the
      identifier foreign or unknown. */
  lemma UniformDenialIff(d: Dashboard, x: Context, r: Request, now: int, newId: Identifier)
    requires r.Renew? || r.Revoke?
    ensures Execute(d, x, r, now, newId) == (d, Refused("ACCESS_DENIED", 403)) <==>
            !KnownSubject(d, x, r.subject) || !KnownCertificate(d, x, r.subject, r.certificate)
  {
    if !KnownSubject(d, x, r.subject) {
      ForeignTargetLooksUnknown(d, x, r, now, newId);
    }
    var position := PositionOf(d.certificates, x.tenant, r.subject, r.certificate);
    if position.None? {
      forall c | c in d.certificates ensures !Matches(c, x.tenant, r.subject, r.certificate) {
        var i :| 0 <= i < |d.certificates| && d.certificates[i] == c;
      }
    } else {
      assert d.certificates[position.value] in d.certificates;
    }
    var subject := SubjectOf(d.subjects, x.tenant, r.subject);
    assert subject.Some? ==> subject.value in d.subjects;
    assert "ACCESS_DENIED"[0] != "CERTIFICATE_NOT_ACTIVE"[0] && "ACCESS_DENIED"[0] != "RENEWAL_WINDOW_CLOSED"[0];
    assert "ACCESS_DENIED"[0] != "CERTIFICATE_OPERATION_UNAUTHORIZED"[0];
  }

  // ----- Counting -----

  /** The request is one that the dashboard shows as allowed for this subject. */
  predicate ShownIssue(x: Context, s: Subject, r: Request) {
    r == Issue(s.id) && IssuePermission(x, s).Allowed?
  }

  /** The request is one that the dashboard shows as allowed for this certificate. */
  predicate ShownFor(x: Context, visible: seq<Subject>, c: Certificate, now: int, r: Request)
    requires SubjectNamed(visible, c.subject).Some?
  {
    || (r == Renew(c.subject, c.id) && ShownPermission(x, visible, c, true, now).Allowed?)
    || (r == Revoke(c.subject, c.id) && ShownPermission(x, visible, c, false, now).Allowed?)
  }

  function IssueRequests(x: Context, visible: seq<Subject>): set<Request> {
    if |visible| == 0 then {}
    else (if IssuePermission(x, visible[0]).Allowed? then {Issue(visible[0].id)} else {}) + IssueRequests(x, visible[1..])
  }

  function RequestsFor(x: Context, visible: seq<Subject>, c: Certificate, now: int): (rs: set<Request>)
    requires SubjectNamed(visible, c.subject).Some?
    ensures forall r :: r in rs <==> ShownFor(x, visible, c, now, r)
    ensures |rs| == (if ShownPermission(x, visible, c, true, now).Allowed? then 1 else 0)
                    + (if ShownPermission(x, visible, c, false, now).Allowed? then 1 else 0)
  {
    (if ShownPermission(x, visible, c, true, now).Allowed? then {Renew(c.subject, c.id)} else {})
    + (if ShownPermission(x, visible, c, false, now).Allowed? then {Revoke(c.subject, c.id)} else {})
  }

  function CertificateRequests(x: Context, visible: seq<Subject>, shown: seq<Certificate>, now: int): set<Request>
    requires forall c :: c in shown ==> SubjectNamed(visible, c.subject).Some?
  {
    if |shown| == 0 then {} else RequestsFor(x, visible, shown[0], now) + CertificateRequests(x, visible, shown[1..], now)
  }

  predicate NamesDistinct(visible: seq<Subject>) {
    forall i, j :: 0 <= i < j < |visible| ==> visible[i].id != visible[j].id
  }

  lemma {:induction false} VisibleNamesDistinct(x: Context, subjects: seq<Subject>)
    requires SubjectsDistinct(subjects)
    ensures NamesDistinct(VisibleSubjects(x, subjects))
    decreases |subjects|
  {
    if |subjects| != 0 {
      VisibleNamesDistinct(x, subjects[1..]);
      var rest := VisibleSubjects(x, subjects[1..]);
      forall j | 0 <= j < |rest| && SeesSubject(x, subjects[0]) ensures rest[j].id != subjects[0].id {
        VisibleHas(x, subjects[1..], rest[j]);
        var k :| 0 <= k < |subjects| - 1 && subjects[1..][k] == rest[j];
        assert subjects[k + 1] == rest[j];
      }
    }
  }

  lemma {:induction false} VisibleCertificatesDistinct(x: Context, visible: seq<Subject>, certificates: seq<Certificate>)
    requires CertificatesDistinct(certificates)
    ensures CertificatesDistinct(VisibleCertificates(x, visible, certificates))
    decreases |certificates|
  {
    if |certificates| != 0 {
      VisibleCertificatesDistinct(x, visible, certificates[1..]);
      var rest := VisibleCertificates(x, visible, certificates[1..]);
      forall j | 0 <= j < |rest| ensures rest[j].id != certificates[0].id {
        VisibleCertificatesHave(x, visible, certificates[1..], rest[j]);
        var k :| 0 <= k < |certificates| - 1 && certificates[1..][k] == rest[j];
        assert certificates[k + 1] == rest[j];
      }
    }
  }

  lemma {:induction false} IssueRequestsHave(x: Context, visible: seq<Subject>, r: Request)
    ensures r in IssueRequests(x, visible) <==> exists s :: s in visible && ShownIssue(x, s, r)
    decreases |visible|
  {
    if |visible| != 0 {
      IssueRequestsHave(x, visible[1..], r);
      assert forall s :: s in visible <==> s == visible[0] || s in visible[1..];
      assert ShownIssue(x, visible[0], r) ==> visible[0] in visible;
    }
  }

  lemma {:induction false} IssueRequestsCount(x: Context, visible: seq<Subject>)
    requires NamesDistinct(visible)
    ensures |IssueRequests(x, visible)| == CountIssue(x, visible)
    decreases |visible|
  {
    if |visible| != 0 {
      var first, rest := visible[0], visible[1..];
      IssueRequestsCount(x, rest);
      IssueRequestsHave(x, rest, Issue(first.id));
      assert forall i :: 0 <= i < |rest| ==> rest[i] == visible[i + 1];
      assert forall s :: s in rest ==> s.id != first.id;
    }
  }

  lemma {:induction false} CertificateRequestsHave(x: Context, visible: seq<Subject>, shown: seq<Certificate>, now: int, r: Request)
    requires forall c :: c in shown ==> SubjectNamed(visible, c.subject).Some?
    ensures r in CertificateRequests(x, visible, shown, now) <==> exists c :: c in shown && ShownFor(x, visible, c, now, r)
    decreases |shown|
  {
    if |shown| != 0 {
      CertificateRequestsHave(x, visible, shown[1..], now, r);
      assert forall c :: c in shown <==> c == shown[0] || c in shown[1..];
      assert ShownFor(x, visible, shown[0], now, r) ==> shown[0] in shown;
    }
  }

  lemma DisjointSum<A>(a: set<A>, b: set<A>)
    requires a !! b
    ensures |a + b| == |a| + |b|
  {
  }

  lemma {:induction false} CertificateRequestsCount(x: Context, visible: seq<Subject>, shown: seq<Certificate>, now: int)
    requires CertificatesDistinct(shown)
    requires forall c :: c in shown ==> SubjectNamed(visible, c.subject).Some?
    ensures |CertificateRequests(x, visible, shown, now)| == CountOperations(x, visible, shown, now)
    decreases |shown|
  {
    if |shown| != 0 {
      var c, rest := shown[0], shown[1..];
      CertificateRequestsCount(x, visible, rest, now);
      assert forall i :: 0 <= i < |rest| ==> rest[i] == shown[i + 1];
      assert forall b :: b in rest ==> b.id != c.id;
      forall r | r in RequestsFor(x, visible, c, now) ensures r !in CertificateRequests(x, visible, rest, now) {
        CertificateRequestsHave(x, visible, rest, now, r);
      }
      DisjointSum(RequestsFor(x, visible, c, now), CertificateRequests(x, visible, rest, now));
    }
  }

  // ----- The summary -----

  lemma SuccessIsForManaged(d: Dashboard, x: Context, r: Request, now: int, newId: Identifier)
    requires Succeeds(d, x, r, now, newId)
    ensures !r.Other? && SubjectOf(d.subjects, x.tenant, r.subject).Some?
    ensures CanManage(x, SubjectOf(d.subjects, x.tenant, r.subject).value)
    ensures r.Issue? || PositionOf(d.certificates, x.tenant, r.subject, r.certificate).Some?
  {
  }

  lemma ShownIssueIffSucceeds(d: Dashboard, x: Context, r: Request, now: int, newId: Identifier)
    requires Sound(d) && r.Issue?
    ensures r in IssueRequests(x, VisibleSubjects(x, d.subjects)) <==> Succeeds(d, x, r, now, newId)
  {
    var visible := VisibleSubjects(x, d.subjects);
    IssueRequestsHave(x, visible, r);
    if Succeeds(d, x, r, now, newId) {
      SuccessIsForManaged(d, x, r, now, newId);
      var s := SubjectOf(d.subjects, x.tenant, r.subject).value;
      VisibleHas(x, d.subjects, s);
      assert ShownIssue(x, s, r);
    }
    if r in IssueRequests(x, visible) {
      var s :| s in visible && ShownIssue(x, s, r);
      IssueShownIffDone(d, x, s, now, newId);
    }
  }

  lemma ShownOperationIffSucceeds(d: Dashboard, x: Context, shown: seq<Certificate>, r: Request, now: int, newId: Identifier)
    requires Sound(d) && (r.Renew? || r.Revoke?)
    requires shown == VisibleCertificates(x, VisibleSubjects(x, d.subjects), d.certificates)
    requires forall c :: c in shown ==> SubjectNamed(VisibleSubjects(x, d.subjects), c.subject).Some?
    ensures r in CertificateRequests(x, VisibleSubjects(x, d.subjects), shown, now) <==> Succeeds(d, x, r, now, newId)
  {
    var visible := VisibleSubjects(x, d.subjects);
    CertificateRequestsHave(x, visible, shown, now, r);
    if Succeeds(d, x, r, now, newId) {
      SuccessIsForManaged(d, x, r, now, newId);
      var s := SubjectOf(d.subjects, x.tenant, r.subject).value;
      var c := d.certificates[PositionOf(d.certificates, x.tenant, r.subject, r.certificate).value];
      VisibleSubjectIsItself(x, d.subjects, s);
      VisibleCertificatesHave(x, visible, d.certificates, c);
      OperationShownIffDone(d, x, c, r.Renew?, now, newId);
      assert ShownFor(x, visible, c, now, r);
    }
    if r in CertificateRequests(x, visible, shown, now) {
      var c :| c in shown && ShownFor(x, visible, c, now, r);
      OperationShownIffDone(d, x, c, r.Renew?, now, newId);
    }
  }

  /** `permittedOperations` is the number of distinct requests that would succeed at the
      time of the reading. */
  lemma PermittedCountsSucceeding(d: Dashboard, x: Context, now: int, newId: Identifier) returns (succeeding: set<Request>)
    requires Sound(d)
    ensures forall r :: r in succeeding <==> Succeeds(d, x, r, now, newId)
    ensures PermittedOperations(d, x, now) == |succeeding|
  {
    var visible := VisibleSubjects(x, d.subjects);
    var shown := VisibleCertificates(x, visible, d.certificates);
    forall c | c in shown ensures SubjectNamed(visible, c.subject).Some? {
      VisibleCertificatesHave(x, visible, d.certificates, c);
    }
    VisibleNamesDistinct(x, d.subjects);
    VisibleCertificatesDistinct(x, visible, d.certificates);
    IssueRequestsCount(x, visible);
    CertificateRequestsCount(x, visible, shown, now);
    var issues, operations := IssueRequests(x, visible), CertificateRequests(x, visible, shown, now);
    forall r ensures r in issues + operations <==> Succeeds(d, x, r, now, newId) {
      IssueRequestsHave(x, visible, r);
      CertificateRequestsHave(x, visible, shown, now, r);
      if r.Issue? {
        ShownIssueIffSucceeds(d, x, r, now, newId);
      } else if !r.Other? {
        ShownOperationIffSucceeds(d, x, shown, r, now, newId);
      }
    }
    forall r | r in issues ensures r !in operations {
      IssueRequestsHave(x, visible, r);
      CertificateRequestsHave(x, visible, shown, now, r);
    }
    DisjointSum(issues, operations);
    succeeding := issues + operations;
  }
}
