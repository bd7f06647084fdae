/** Runs of the dashboard: its certificates form chains, and what is over stays over. */
module CertificateDashboardRuns {
  import opened Sql
  import opened CertificateDashboard
  import opened CertificateDashboardProofs

  /** A dashboard as it is created: active certificates that renew nothing. */
  lemma InitialDashboardIsSound(d: Dashboard)
    requires SubjectsDistinct(d.subjects) && CertificatesDistinct(d.certificates) && Owned(d)
    requires forall c :: c in d.certificates ==> c.state == Active && c.renewalOf.None?
    ensures Sound(d)
  {
  }

  // ----- Chains -----

  lemma UnusedIdIsNotRenewed(certificates: seq<Certificate>, id: Identifier)
    requires RenewalsPair(certificates) && forall b :: b in certificates ==> b.id != id
    ensures !IsRenewed(certificates, id)
  {
    forall j | 0 <= j < |certificates| && certificates[j].renewalOf.Some? ensures certificates[j].renewalOf.value != id {
      assert HasId(certificates, certificates[j].renewalOf.value);
      var m :| 0 <= m < |certificates| && certificates[m].id == certificates[j].renewalOf.value;
      assert certificates[m] in certificates;
    }
  }

  lemma IssueKeepsPairs(certificates: seq<Certificate>, c: Certificate)
    requires RenewalsPair(certificates) && c.state == Active && c.renewalOf.None?
    requires forall b :: b in certificates ==> b.id != c.id
    ensures RenewalsPair(certificates + [c])
  {
    var after := certificates + [c];
    UnusedIdIsNotRenewed(certificates, c.id);
    forall k: Identifier ensures IsRenewed(after, k) <==> IsRenewed(certificates, k) {
      if IsRenewed(certificates, k) {
        var j :| 0 <= j < |certificates| && certificates[j].renewalOf == Some(k);
        assert after[j].renewalOf == Some(k);
      }
    }
    forall i | 0 <= i < |after| && after[i].renewalOf.Some? ensures HasId(after, after[i].renewalOf.value) {
      assert HasId(certificates, certificates[i].renewalOf.value);
      var j :| 0 <= j < |certificates| && certificates[j].id == after[i].renewalOf.value;
      assert after[j].id == after[i].renewalOf.value;
    }
  }

  /** Changing the state of an active certificate, and nothing else that pairs it. */
  predicate SamePairing(c: Certificate, later: Certificate) {
    later.id == c.id && later.renewalOf == c.renewalOf
  }

  lemma RevokeKeepsPairs(certificates: seq<Certificate>, i: nat, c: Certificate)
    requires RenewalsPair(certificates) && i < |certificates| && certificates[i].state == Active
    requires SamePairing(certificates[i], c) && c.state == Revoked
    ensures RenewalsPair(certificates[i := c])
  {
    var after := certificates[i := c];
    assert forall j :: 0 <= j < |after| ==> SamePairing(certificates[j], after[j]);
    forall k: Identifier ensures IsRenewed(after, k) <==> IsRenewed(certificates, k) {
      if IsRenewed(certificates, k) {
        var j :| 0 <= j < |certificates| && certificates[j].renewalOf == Some(k);
        assert after[j].renewalOf == Some(k);
      }
    }
    forall j | 0 <= j < |after| && after[j].renewalOf.Some? ensures HasId(after, after[j].renewalOf.value) {
      assert HasId(certificates, certificates[j].renewalOf.value);
      var m :| 0 <= m < |certificates| && certificates[m].id == after[j].renewalOf.value;
      assert after[m].id == after[j].renewalOf.value;
    }
  }

  lemma RenewedBy(certificates: seq<Certificate>, i: nat, ended: Certificate, c: Certificate, k: Identifier)
    requires i < |certificates| && SamePairing(certificates[i], ended) && c.renewalOf == Some(ended.id)
    ensures IsRenewed(certificates[i := ended] + [c], k) <==> IsRenewed(certificates, k) || k == ended.id
  {
    var after := certificates[i := ended] + [c];
    if IsRenewed(certificates, k) {
      var j :| 0 <= j < |certificates| && certificates[j].renewalOf == Some(k);
      assert after[j].renewalOf == Some(k);
    }
    assert after[|certificates|].renewalOf == Some(ended.id);
    if IsRenewed(after, k) && k != ended.id {
      var j :| 0 <= j < |after| && after[j].renewalOf == Some(k);
      assert certificates[j].renewalOf == Some(k);
    }
  }

  lemma RenewKeepsPairs(certificates: seq<Certificate>, i: nat, ended: Certificate, c: Certificate)
    requires RenewalsPair(certificates) && CertificatesDistinct(certificates)
    requires i < |certificates| && certificates[i].state == Active
    requires SamePairing(certificates[i], ended) && ended.state == Superseded
    requires c.state == Active && c.renewalOf == Some(ended.id) && forall b :: b in certificates ==> b.id != c.id
    ensures RenewalsPair(certificates[i := ended] + [c])
  {
    var after := certificates[i := ended] + [c];
    assert !IsRenewed(certificates, certificates[i].id);
    forall j | 0 <= j < |after| ensures after[j].state == Superseded <==> IsRenewed(after, after[j].id) {
      RenewedBy(certificates, i, ended, c, after[j].id);
      UnusedIdIsNotRenewed(certificates, c.id);
      assert certificates[i] in certificates;
    }
    forall j, m | 0 <= j < m < |after| && after[j].renewalOf.Some? ensures after[j].renewalOf != after[m].renewalOf {
      if m == |certificates| {
        assert certificates[j].renewalOf != Some(ended.id);
      } else {
        assert certificates[j].renewalOf != certificates[m].renewalOf;
      }
    }
    forall j | 0 <= j < |after| && after[j].renewalOf.Some? ensures HasId(after, after[j].renewalOf.value) {
      if j == |certificates| {
        assert after[i].id == ended.id;
      } else {
        assert HasId(certificates, certificates[j].renewalOf.value);
        var m :| 0 <= m < |certificates| && certificates[m].id == after[j].renewalOf.value;
        assert after[m].id == after[j].renewalOf.value;
      }
    }
  }

  // ----- Every call -----

  /** Certificates keep their place and owner; only active ones change. */
  predicate Ages(certificates: seq<Certificate>, after: seq<Certificate>) {
    && |certificates| <= |after|
    && forall i :: 0 <= i < |certificates| ==>
         && SamePairing(certificates[i], after[i])
         && (after[i].tenant, after[i].subject) == (certificates[i].tenant, certificates[i].subject)
         && (certificates[i].state != Active ==> after[i] == certificates[i])
  }

  lemma IssueKeepsSound(d: Dashboard, x: Context, subject: Identifier, now: int, newId: Identifier)
    requires Sound(d) && Unused(d, newId)
    ensures Sound(ExecuteIssue(d, x, subject, now, newId).0)
    ensures Ages(d.certificates, ExecuteIssue(d, x, subject, now, newId).0.certificates)
  {
    var (after, reply) := ExecuteIssue(d, x, subject, now, newId);
    if reply.Done? {
      var c := reply.certificate;
      IssueKeepsPairs(d.certificates, c);
      assert after.certificates == d.certificates + [c];
      assert forall b :: b in after.certificates ==> b in d.certificates || b == c;
      assert SubjectOf(d.subjects, c.tenant, c.subject).Some?;
    }
  }

  lemma OperationAges(d: Dashboard, x: Context, subject: Identifier, id: Identifier, renew: bool, now: int, newId: Identifier)
    requires CertificatesDistinct(d.certificates) && Unused(d, newId)
    ensures var after := ExecuteOn(d, x, subject, id, renew, now, newId).0;
            CertificatesDistinct(after.certificates) && Ages(d.certificates, after.certificates)
  {
  }

  lemma OperationKeepsOwners(d: Dashboard, x: Context, subject: Identifier, id: Identifier, renew: bool, now: int, newId: Identifier)
    requires CertificatesDistinct(d.certificates) && Unused(d, newId) && Owned(d)
    ensures Owned(ExecuteOn(d, x, subject, id, renew, now, newId).0)
  {
    var (after, reply) := ExecuteOn(d, x, subject, id, renew, now, newId);
    OperationAges(d, x, subject, id, renew, now, newId);
    forall c | c in after.certificates ensures SubjectOf(d.subjects, c.tenant, c.subject).Some? {
      var i :| 0 <= i < |after.certificates| && after.certificates[i] == c;
      if i < |d.certificates| {
        assert d.certificates[i] in d.certificates;
      }
    }
  }

  lemma OperationKeepsPairs(d: Dashboard, x: Context, subject: Identifier, id: Identifier, renew: bool, now: int, newId: Identifier)
    requires Sound(d) && Unused(d, newId)
    ensures RenewalsPair(ExecuteOn(d, x, subject, id, renew, now, newId).0.certificates)
  {
    if ExecuteOn(d, x, subject, id, renew, now, newId).1.Done? {
      var s := SubjectOf(d.subjects, x.tenant, subject).value;
      var i := PositionOf(d.certificates, x.tenant, s.id, id).value;
      var target := d.certificates[i];
      if renew {
        RenewKeepsPairs(d.certificates, i, target.(state := Superseded, updatedAt := now),
                        Generated(x.tenant, s.id, target.issuer, Some(target.id), now, newId));
      } else {
        RevokeKeepsPairs(d.certificates, i, target.(state := Revoked, updatedAt := now, revokedAt := Some(now)));
      }
    }
  }

  lemma ExecuteKeepsSound(d: Dashboard, x: Context, r: Request, now: int, newId: Identifier)
    requires Sound(d) && Unused(d, newId)
    ensures Sound(Execute(d, x, r, now, newId).0) && Ages(d.certificates, Execute(d, x, r, now, newId).0.certificates)
  {
    match r {
      case Issue(s) => IssueKeepsSound(d, x, s, now, newId);
      case Renew(s, c) =>
        OperationAges(d, x, s, c, true, now, newId);
        OperationKeepsOwners(d, x, s, c, true, now, newId);
        OperationKeepsPairs(d, x, s, c, true, now, newId);
      case Revoke(s, c) =>
        OperationAges(d, x, s, c, false, now, newId);
        OperationKeepsOwners(d, x, s, c, false, now, newId);
        OperationKeepsPairs(d, x, s, c, false, now, newId);
      case Other(_) =>
    }
  }

  lemma AgesIsTransitive(a: seq<Certificate>, b: seq<Certificate>, c: seq<Certificate>)
    requires Ages(a, b) && Ages(b, c)
    ensures Ages(a, c)
  {
  }

  /** Over every run superseded and revoked certificates never change again, no certificate
      disappears or changes hands, and the invariant holds. */
  lemma {:induction false} EndedCertificatesStayEnded(d: Dashboard, calls: seq<DashboardCall>)
    requires Sound(d) && IdsAreFresh(d, calls)
    ensures Sound(ExecuteAll(d, calls)) && Ages(d.certificates, ExecuteAll(d, calls).certificates)
    decreases |calls|
  {
    if |calls| != 0 {
      var next := Execute(d, calls[0].context, calls[0].request, calls[0].now, calls[0].newId).0;
      ExecuteKeepsSound(d, calls[0].context, calls[0].request, calls[0].now, calls[0].newId);
      EndedCertificatesStayEnded(next, calls[1..]);
      AgesIsTransitive(d.certificates, next.certificates, ExecuteAll(next, calls[1..]).certificates);
    }
  }

  /** In every reachable dashboard a certificate is superseded exactly when one certificate,
      and no second one, renews it. */
  lemma RenewedAtMostOnce(d: Dashboard, calls: seq<DashboardCall>, i: nat, j: nat, k: nat)
    requires Sound(d) && IdsAreFresh(d, calls)
    ensures var certs := ExecuteAll(d, calls).certificates;
            && (i < |certs| ==> (certs[i].state == Superseded <==> exists m :: 0 <= m < |certs| && certs[m].renewalOf == Some(certs[i].id)))
            && (i < |certs| && j < |certs| && k < |certs| && certs[j].renewalOf == Some(certs[i].id) == certs[k].renewalOf ==> j == k)
  {
    EndedCertificatesStayEnded(d, calls);
    var certs := ExecuteAll(d, calls).certificates;
    if i < |certs| {
      assert certs[i].state == Superseded <==> IsRenewed(certs, certs[i].id);
    }
    if j < k < |certs| {
      assert certs[j].renewalOf.Some? ==> certs[j].renewalOf != certs[k].renewalOf;
    }
    if k < j < |certs| {
      assert certs[k].renewalOf.Some? ==> certs[k].renewalOf != certs[j].renewalOf;
    }
  }

  /** A certificate that the dashboard made at time `made` can be renewed in the last quarter
      of its year and at no other time. */
  lemma GeneratedIsRenewableIff(t: Identifier, s: Identifier, issuer: string, renewalOf: Option<Identifier>, made: int,
                                newId: Identifier, now: int)
    ensures RenewalWindowOpen(Generated(t, s, issuer, renewalOf, made, newId), now) <==> made + 3 * (YEAR / 4) <= now < made + YEAR
  {
  }

  // ----- The dashboard object -----

  class CertificateBoard {
    const subjects: seq<Subject>
    var certificates: seq<Certificate>
    var eventSequence: nat

    constructor (subjects: seq<Subject>, certificates: seq<Certificate>)
      requires SubjectsDistinct(subjects) && CertificatesDistinct(certificates)
      requires Owned(Dashboard(subjects, certificates, 0))
      requires forall c :: c in certificates ==> c.state == Active && c.renewalOf.None?
      ensures View() == Dashboard(subjects, certificates, 0) && Sound(View())
    {
      this.subjects, this.certificates, eventSequence := subjects, certificates, 0;
      InitialDashboardIsSound(Dashboard(subjects, certificates, 0));
    }

    function View(): Dashboard
      reads this
    {
      Dashboard(subjects, certificates, eventSequence)
    }

    /** `certificates.find` */
    method FindCertificate(t: Identifier, s: Identifier, id: Identifier) returns (position: Option<nat>)
      ensures position == PositionOf(certificates, t, s, id)
    {
      for i := 0 to |certificates|
        invariant forall j :: 0 <= j < i ==> !Matches(certificates[j], t, s, id)
      {
        if Matches(certificates[i], t, s, id) {
          return Some(i);
        }
      }
      return None;
    }

    /** `execute` */
    method ExecuteRequest(x: Context, r: Request, now: int, newId: Identifier) returns (reply: Reply)
      requires Sound(View()) && Unused(View(), newId)
      modifies this
      ensures Sound(View())
      ensures (View(), reply) == Execute(old(View()), x, r, now, newId)
    {
      ExecuteKeepsSound(View(), x, r, now, newId);
      if r.Other? {
        return Refused("CERTIFICATE_OPERATION_INVALID", 400);
      }
      var subject := SubjectOf(subjects, x.tenant, r.subject);
      if subject.None? {
        return Refused("ACCESS_DENIED", 403);
      }
      var certificate;
      if r.Issue? {
        if !IssuePermission(x, subject.value).Allowed? {
          return Refused("ACCESS_DENIED", 403);
        }
        certificate := Generated(x.tenant, subject.value.id, x.issuer, None, now, newId);
        certificates := certificates + [certificate];
      } else {
        var position := FindCertificate(x.tenant, subject.value.id, r.certificate);
        if position.None? {
          return Refused("ACCESS_DENIED", 403);
        }
        var target := certificates[position.value];
        var decision := CertificatePermission(x, subject.value, target, r.Renew?, now);
        if !decision.Allowed? {
          return RefusedBy(decision);
        }
        if r.Renew? {
          certificates := certificates[position.value := target.(state := Superseded, updatedAt := now)];
          certificate := Generated(x.tenant, subject.value.id, target.issuer, Some(target.id), now, newId);
          certificates := certificates + [certificate];
        } else {
          certificate := target.(state := Revoked, updatedAt := now, revokedAt := Some(now));
          certificates := certificates[position.value := certificate];
        }
      }
      eventSequence := eventSequence + 1;
      return Done(certificate, eventSequence);
    }
  }
}
