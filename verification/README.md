# Tenant trust platform: a verified model

A Dafny 4.11 model of the state machines at the centre of a multi-tenant trust platform:
the PL/pgSQL functions over its append-only logs, the audit chaincode, and three small
JavaScript cores. `dafny verify dfyconfig.toml` checks everything.

A database function is one atomic step that commits or changes nothing. Primary keys,
UNIQUE, CHECK and trigger failures are outcomes of the model, not assumptions. Each component
has a specification on values (functions and lemmas over runs) and, where the program
updates rows or fields in place, a class whose methods carry out the statements in order and
are proved equal to that specification. The `Outcomes` modules say of the rows alone, without
the specification's own predicates, which call gets which answer and what it leaves.

| files | component |
|---|---|
| `Sql`, `Tenancy`, `TenancyOutcomes` | NULL and three-valued comparison; tenants, memberships, roles, lifecycle and its audit log |
| `Certificates`, `CertificateHistory`, `CertificateChains`, `CertificateRetries`, `CertificateOutcomes`, `CertificateStore` | certificate inventory and its lifecycle log |
| `Outbox`, `OutboxFencing`, `OutboxDelivery`, `OutboxOutcomes`, `OutboxTable` | leased outbox for lifecycle events |
| `KeyRegistry`, `KeyRegistryHistory`, `KeyRegistryEpochs`, `KeyRegistryOutcomes`, `KeyRegistryStore` | evidence source keys |
| `ReplayGuard`, `ReplayGuardProofs`, `ReplayGuardRuns`, `ReplayGuardOutcomes`, `ReplayGuardStore` | evidence replay guard |
| `EvidenceVault`, `EvidenceVaultProofs`, `EvidenceVaultOutcomes`, `EvidenceVaultStore` | encrypted evidence, checked at commit |
| `Patterns` | the text formats as regular expressions |
| `Platform`, `TeardownFinality` | all components on one database; finality of teardown |
| `Json`, `JsonGrammar`, `AuditContract`, `AuditCodec`, `AuditLedger` | audit chaincode and its JSON codec |
| `CertificateDashboard`, `CertificateDashboardProofs`, `CertificateDashboardRuns` | in-memory certificate dashboard |
| `TrustDashboard`, `TrustDashboardProofs` | clamped trust fold |
| `WorkerPool` | bounded worker pool |

Conventions. Times are microseconds in the database part and milliseconds in the JavaScript
part. A call reads the clock once and is given the value; run theorems about the replay guard
ask that the clock does not go back. SHA-256 is a free constructor, hence injective.
Identifiers are numbers. Identifiers and claim tokens a client generates are fresh only where
a theorem says so. A public key stands for its 32 decoded bytes. JSON text is a sequence of
UTF-16 code units, and the bytes of the ASCII-only ledger values are the code units.

## Where code and documentation differ

- Revocation admits a confirmation time up to two seconds ahead (010), but the CHECK on
  `recorded_at` in 007 rejects the event: `CertificateRetries.SkewAllowanceIsVoid`, with the
  run `CertificateChains.SkewedRevocationRun`.
- The certificate dashboard's documentation lets a subject operate on its own certificates;
  the code asks for tenant-admin: `CertificateDashboardProofs.OwnOperationNeedsAdmin`.
- "A suspended source has no active key" holds for migration 014 and fails from migration 018
  on: `KeyRegistryEpochs.SuspendedStaysKeylessIff`.
- The last-administrator trigger does not look at the subject's own state, so an active tenant
  may be left with nobody who can act for it: `Tenancy.SomeoneAdministersIff`.
- Renewal to a NULL public key passes the comparison with the old key. Adjacent keys are known
  to differ exactly when the successor has one: `CertificateChains.AdjacentKeysDifferIff`,
  with the run `CertificateChains.KeylessRenewalRun`.
- A renewal with a NULL predecessor, the fields and the key of an issued certificate passes as
  a retry: it returns that certificate, no event, and `superseded` for a predecessor that does
  not exist. The event lookups succeed exactly when a predecessor is named:
  `CertificateRetries.RenewalReply`, with the run `CertificateChains.NullPredecessorRun`.
- The shape CHECK on stored evidence is unknown, and passes, when the key identifier, vector,
  tag or ciphertext of an active row is NULL, and the deferred trigger only asks for a row:
  `EvidenceVaultProofs.StoredIsDecryptableIff` and `EvidenceVaultProofs.HollowRecordCommits`.
- A claim whose earliest due row is younger than the claim time is rolled back by a CHECK:
  `OutboxDelivery.ClaimIsRolledBackIff`, with the run `OutboxDelivery.OldFailureRollsClaimBack`.
- Nothing keeps claim tokens distinct. `OutboxDelivery.TokenRevivesIff` says exactly when a claim
  revives a dead token, with the run `OutboxFencing.ReusedTokenOpensTheFence`.
- A recorded denial never raises the trust score but makes a stale state usable again:
  `TrustDashboardProofs.DenialRefreshesIff`.
- A denial can lower nothing: exactly when every component it adjusts is zero already
  (`TrustDashboardProofs.DenialLowersNothingIff`). Any denial gets there by repetition
  (`TrustDashboardProofs.RepeatedDenialExhausts`); ten denials of one revoked certificate are an
  example the server sends (`TrustDashboardProofs.ExhaustedComponentLowersNothing`). A scenario
  identifier that names a property inherited by object literals lowers nothing at once, unless
  a certificate was rejected; the server refuses such identifiers (apps/review-demo/demo-domain.mjs:290-291), a direct caller of
  `recordScenario` can send them.

## Model

| member | source | states |
|---|---|---|
| Tenancy.AdministratorIsNeverLost | database/migrations/006_tenant_lifecycle_controls.sql:146-205 | Over every run of role and membership statements, suspensions, reactivations, teardowns and subject changes, a tenant that had an active administrator has one whenever it is active, suspend-then-reactivate included although the trigger is silent while the tenant is suspended |
| Tenancy.StepKeepsAdministered | database/migrations/004_tenant_resources_and_membership_rules.sql:154-180 | Each single step keeps "not retired implies administered, retired implies suspended" |
| Tenancy.AdminSurvivesEdit | database/migrations/006_tenant_lifecycle_controls.sql:159-204 | No statement on roles or memberships that the triggers let through leaves the tenant without an administrator |
| Tenancy.SuspendedTenantIsFrozen | database/migrations/004_tenant_resources_and_membership_rules.sql:309-374 | Nobody changes a membership or a role of a tenant that is not active |
| Tenancy.AdministratorMayBeUnableToAct | database/migrations/006_tenant_lifecycle_controls.sql:176-190 | One step, a change of the subject, leads from a tenant whose administrator can act to one that is active and has a counted administrator while nobody can act for it |
| Tenancy.SomeoneAdministersIff | database/migrations/004_tenant_resources_and_membership_rules.sql:40-85 | The exact condition: somebody can act as administrator of a tenant if and only if it is active and the subject of some counted administrator is active |
| Tenancy.AuditLogExplainsState | database/migrations/006_tenant_lifecycle_controls.sql:229-256 | Over every run, reading a tenant's audit events from its first row gives its present state, version and retirement |
| Tenancy.ReadableLogIsNumbered | database/migrations/006_tenant_lifecycle_controls.sql:282-309 | In such a log versions rise by one per event, each previous state is the next state of the event before, and teardown is the last event and occurs at most once |
| Tenancy.StepAddsReadableEvent | database/migrations/006_tenant_lifecycle_controls.sql:342-404 | Each step appends nothing or exactly one event that leads from the old row to the new one |
| Tenancy.NextVersionIsFree | database/migrations/006_tenant_lifecycle_controls.sql:245-256 | The UNIQUE tenant version of the audit log never rejects a lifecycle call |
| Tenancy.SuspensionAppendsOnlyChanges | database/migrations/006_tenant_lifecycle_controls.sql:207-258 | A suspension never fails on a constraint, is a no-op on a suspended tenant, and otherwise appends one event and raises the version by one |
| Tenancy.ReactivationAppendsOnlyChanges | database/migrations/006_tenant_lifecycle_controls.sql:260-311 | The same for reactivation, a no-op on active and on retired tenants |
| Tenancy.TeardownAppendsOnlyChanges | database/migrations/006_tenant_lifecycle_controls.sql:313-406 | The same for teardown, a no-op on active and on retired tenants |
| Tenancy.TenantStore.ExecuteStatement | database/migrations/004_tenant_resources_and_membership_rules.sql:309-374 | A statement commits only for the administrator of its tenant, touches no other tenant, costs no tenant its last counted administrator, and otherwise changes nothing; the log keeps explaining the rows |
| Tenancy.TenantStore.SuspendTenantRow | database/migrations/006_tenant_lifecycle_controls.sql:207-258 | The call ends with a suspended tenant of the returned version or changes nothing; it appends one event exactly when the state changes, never fails on a constraint, changes no other tenant and no administrator, and the log keeps explaining every row |
| Tenancy.TenantStore.ReactivateTenantRow | database/migrations/006_tenant_lifecycle_controls.sql:260-311 | The same for reactivation, which ends with an active tenant |
| Tenancy.StripSparesOthers | database/migrations/006_tenant_lifecycle_controls.sql:362-380 | The row statements of a teardown leave the tenant no role, no active membership, issuer or source and no administrator, and touch no row or administrator of another tenant |
| Tenancy.TenantStore.TeardownTenantRows | database/migrations/006_tenant_lifecycle_controls.sql:313-406 | The call ends with a retired tenant of the returned version, stripped if it was not retired before, or changes nothing; it never fails on a constraint or the administrator trigger, touches no other tenant, and the log keeps explaining every row |
| TenancyOutcomes.ActorRightsIff | database/migrations/004_tenant_resources_and_membership_rules.sql:40-85 | On the rows: an actor acts if and only if tenant, membership and subject are active and it has a role, administers if and only if TenantAdmin is one of them; a platform actor if and only if it is active and listed |
| TenancyOutcomes.InsertMembershipIff | database/migrations/004_tenant_resources_and_membership_rules.sql:127-152 | A membership is inserted, with the state given, if and only if an administrator inserts it, the subject is active and not yet a member; nothing else changes |
| TenancyOutcomes.SetMembershipStateIff | database/migrations/006_tenant_lifecycle_controls.sql:159-204 | Memberships are suspended in one statement if and only if an active membership with the admin role remains outside the set; activating them is always let through |
| TenancyOutcomes.MoveMembershipIff | database/migrations/004_tenant_resources_and_membership_rules.sql:127-152 | When a membership moves to another subject, and that it then is the only row changed; a missing row is no error |
| TenancyOutcomes.DeleteMembershipsIff | database/migrations/004_tenant_resources_and_membership_rules.sql:309-343 | Memberships are deleted if and only if none of those subjects has a role in the tenant, so no administrator ever is |
| TenancyOutcomes.InsertRoleIff | database/migrations/004_tenant_resources_and_membership_rules.sql:154-180 | The role row given, and no other, is added if and only if an administrator inserts it for an active membership that does not have it |
| TenancyOutcomes.UpdateRoleIff | database/migrations/006_tenant_lifecycle_controls.sql:159-204 | When a role row moves, demotes or promotes, and which row goes and comes: the last administrator is not demoted |
| TenancyOutcomes.DeleteRolesIff | database/migrations/006_tenant_lifecycle_controls.sql:159-204 | Roles are deleted in one statement if and only if an active membership with the admin role remains, although the trigger looks only after an admin role went |
| TenancyOutcomes.UnboundActorEditsNothing | database/migrations/004_tenant_resources_and_membership_rules.sql:30-38 | Without a bound tenant and subject no statement commits |
| TenancyOutcomes.SuspensionIff | database/migrations/006_tenant_lifecycle_controls.sql:207-258 | In an explained state: which reply every call gets, on the rows; a suspension that happens sets the state, raises the version by one and appends one event with reason, requesting subject and time, and changes nothing else |
| TenancyOutcomes.ReactivationIff | database/migrations/006_tenant_lifecycle_controls.sql:260-311 | The same for reactivation: the reply is a version if and only if an active platform administrator gives a well-formed reason for a tenant that is known and not retired, and a suspended one is active then |
| TenancyOutcomes.TeardownIff | database/migrations/006_tenant_lifecycle_controls.sql:313-406 | The same for teardown, with every row of the tenant afterwards |
| CertificateHistory.RunKeepsValid | database/migrations/007_certificate_inventory.sql:74-80 | Every run of issue, renew, revoke and expire keeps the inventory invariant: rows and log explain each other, and supersession links pair up |
| CertificateHistory.CallKeepsValid | database/migrations/008_certificate_renewal.sql:260-326 | Each call keeps the invariant, whatever its arguments, actor and clock |
| CertificateHistory.IssueKeepsValid | database/migrations/008_certificate_renewal.sql:55-160 | Issuance keeps the invariant |
| CertificateHistory.RenewKeepsValid | database/migrations/008_certificate_renewal.sql:162-331 | Renewal keeps the invariant: one new row, one ended row, two events, the links between them |
| CertificateHistory.RevokeKeepsValid | database/migrations/010_revocation_confirmation_time.sql:1-108 | Revocation keeps the invariant |
| CertificateHistory.ExpireKeepsValid | database/migrations/011_signed_certificate_event_outbox.sql:132-211 | Expiry keeps the invariant |
| CertificateHistory.CausesReachIssuance | database/migrations/008_certificate_renewal.sql:266-325 | From every event, following causes reaches an issuance in finitely many steps |
| CertificateHistory.CauseIsUnique | database/migrations/007_certificate_inventory.sql:110-117 | The cause that an event names is one event only, so its causal path is the only one |
| CertificateHistory.CausalPathHasNoCycle | database/migrations/010_revocation_confirmation_time.sql:67-103 | A causal path never meets an event twice, and the time of occurrence never rises along it towards the cause |
| CertificateChains.ChainsAreLinear | database/migrations/008_certificate_renewal.sql:260-311 | Two certificates with the same root lie on one line, although nothing makes `supersedes_certificate_id` unique |
| CertificateChains.LineHasOneHolder | database/migrations/008_certificate_renewal.sql:225-258 | Along a line tenant, subject and profile are the same and all but the newest certificate are superseded |
| CertificateChains.OnlyTheNewestIsActive | database/migrations/009_certificate_revocation.sql:71-75 | In a chain with an active certificate every other one is older and superseded |
| CertificateChains.SupersededIffOneSuccessor | database/migrations/008_certificate_renewal.sql:260-311 | A certificate is superseded if and only if it has a successor, and it has at most one |
| CertificateChains.AdjacentKeysDifferIffInEveryRun | database/migrations/008_certificate_renewal.sql:266-275 | In every run a certificate and its successor are known to have different keys if and only if the successor has a key |
| CertificateChains.AdjacentKeysDifferIff | database/migrations/008_certificate_renewal.sql:266-275 | The same in every valid inventory: the three-valued comparison is unknown exactly when the successor has no key |
| CertificateChains.RenewalChangesKeyIff | database/migrations/008_certificate_renewal.sql:266-275 | A renewal that succeeds is known to change the key if and only if the caller gave a key |
| CertificateChains.KeylessRenewalIsTheLast | database/migrations/008_certificate_renewal.sql:266-275 | In no later state does a certificate without a key have a successor, and every renewal of it fails and changes nothing |
| CertificateChains.KeylessRenewalRun | database/migrations/008_certificate_renewal.sql:266-275 | The run from the empty inventory on which adjacent keys are not known to differ: issue with a key, renew without; every renewal of the successor is denied |
| CertificateRetries.IssuanceRetry | database/migrations/008_certificate_renewal.sql:110-132 | After any run of calls and with fresh identifiers, an authorized identical issuance changes nothing and returns the original certificate and event |
| CertificateRetries.RenewalRetry | database/migrations/008_certificate_renewal.sql:225-258 | The same for renewal, with a predecessor or a NULL one: the reply is the original one with the successor's present state, and the state it repeats for a named predecessor is the true one |
| CertificateRetries.RenewalEventsAreFound | database/migrations/008_certificate_renewal.sql:242-256 | For a certificate that supersedes a named predecessor both event lookups of a renewal retry succeed, and find the successor's first and the predecessor's last event; the predecessor is superseded |
| CertificateRetries.RenewalReply | database/migrations/008_certificate_renewal.sql:162-331 | The exact condition: a successful renewal, first or retried, returns the two event identifiers if and only if the call named a predecessor; then they are the successor's first and the predecessor's last event and `superseded` is the predecessor's state. Otherwise both are NULL |
| CertificateRetries.NullRenewalReply | database/migrations/008_certificate_renewal.sql:242-256 | A successful renewal with a NULL predecessor changes nothing and returns an issued certificate with the same fields, no event and the constant `superseded` |
| CertificateChains.NullPredecessorRun | database/migrations/008_certificate_renewal.sql:242-256 | A run from the empty inventory that brings this about: issue, then renew with the same fields and key and a NULL predecessor |
| CertificateRetries.RevocationRetry | database/migrations/010_revocation_confirmation_time.sql:32-59 | The same caller's retry of a revocation returns exactly the first reply at any later point and with any revocation time |
| CertificateRetries.ExpiryRetry | database/migrations/011_signed_certificate_event_outbox.sql:166-178 | A repeated expiry returns exactly the first reply |
| CertificateRetries.RevocationNeverFindsInconsistency | database/migrations/010_revocation_confirmation_time.sql:32-59 | The error for an inconsistent durable state is unreachable in revocation |
| CertificateRetries.ExpiryNeverFindsInconsistency | database/migrations/011_signed_certificate_event_outbox.sql:166-178 | The error for an inconsistent durable state is unreachable in expiry |
| CertificateOutcomes.RunKeepsChecks | database/migrations/007_certificate_inventory.sql:77-98 | Over every run the stored rows meet their CHECKs, and expiry events have the key of their certificate |
| CertificateOutcomes.FirstIssuanceIff | database/migrations/008_certificate_renewal.sql:55-160 | With an unused key, on the rows: denied if and only if the actor is not entitled, recorded if and only if moreover certificate, fingerprint, serial, request and event are new and the fields in order; what row and event are written |
| CertificateOutcomes.UsedIssuanceKeyIff | database/migrations/008_certificate_renewal.sql:110-132 | With a used key: the stored certificate if and only if it is an issued one with the same fields, else a conflict |
| CertificateOutcomes.FirstRenewalIff | database/migrations/008_certificate_renewal.sql:162-331 | With an unused key, on the rows: granted if and only if the actor is entitled and the predecessor is the tenant's, active, of the same subject and profile, with a key not known equal, and the issuance in the last quarter of its validity; recorded if and only if moreover rows and events are new and in order |
| CertificateOutcomes.FirstRenewalLeaves | database/migrations/008_certificate_renewal.sql:277-329 | What a granted renewal answers and leaves: both rows and both events, column by column, and all other rows as they were |
| CertificateOutcomes.UsedRenewalKeyIff | database/migrations/008_certificate_renewal.sql:225-258 | With a used key: the stored certificate if and only if fields and predecessor are those of the call, else a conflict |
| CertificateOutcomes.FirstRevocationIff | database/migrations/010_revocation_confirmation_time.sql:60-107 | With an unused key, on the rows: permitted if and only if the certificate is the tenant's and active, the time in its life and at most two seconds ahead, the actor its subject or an administrator and the issuer active; recorded if and only if moreover the time has come and event, request and confirmation are new |
| CertificateOutcomes.UsedRevocationKeyIff | database/migrations/010_revocation_confirmation_time.sql:34-58 | With a used key: the stored revocation if and only if certificate, request, reason, actor and confirmation are those of the call, else a conflict |
| CertificateOutcomes.ExpiryIff | database/migrations/011_signed_certificate_event_outbox.sql:132-211 | Recorded if and only if the tenant's active certificate is past its end at a time that has come and the event is new; a recorded one is returned; everything else is denied or rejected |
| CertificateOutcomes.UnboundActorIsDenied | database/migrations/004_tenant_resources_and_membership_rules.sql:30-38 | Without a bound tenant and subject every client call is denied |
| CertificateRetries.RunExtends | database/migrations/009_certificate_revocation.sql:42-78 | Over every run the log is append-only, identities never change, and a certificate that is not active never changes again |
| CertificateRetries.SkewAllowanceIsVoid | database/migrations/010_revocation_confirmation_time.sql:60-103 | The two seconds of clock skew that revocation admits are cancelled by the CHECK on the recording time: a permitted revocation meets its CHECKs if and only if its time is not in the future, and is rejected otherwise |
| CertificateChains.SkewedRevocationRun | database/migrations/010_revocation_confirmation_time.sql:60-103 | A run from the empty inventory with a revocation one microsecond ahead of the clock that is permitted and rejected |
| CertificateStore.InventoryStore.RecordIssuance | database/migrations/008_certificate_renewal.sql:55-160 | The in-place issuance is the specified call and keeps the invariant |
| CertificateStore.InventoryStore.RecordRenewal | database/migrations/008_certificate_renewal.sql:162-331 | The in-place renewal, with a predecessor or a NULL one, is the specified call; a row rejected late undoes the rows before it |
| CertificateStore.InventoryStore.FindEvent | database/migrations/008_certificate_renewal.sql:236-258 | The scan by tenant, key and event type finds the one event there is |
| CertificateStore.InventoryStore.RecordRevocation | database/migrations/010_revocation_confirmation_time.sql:1-108 | The in-place revocation is the specified call and never finds the state inconsistent |
| CertificateStore.InventoryStore.RecordExpiry | database/migrations/011_signed_certificate_event_outbox.sql:132-211 | The in-place expiry is the specified call and never finds the state inconsistent |
| OutboxFencing.RunKeepsSound | database/migrations/011_signed_certificate_event_outbox.sql:255-290 | Over every run of enqueue, claim, confirm and fail with fresh tokens, attempt counts equal the claims granted and a row being published is held by its latest claimant |
| OutboxFencing.OneTokenPerRowOneRowPerToken | database/migrations/011_signed_certificate_event_outbox.sql:332-344 | A token is good for at most one row and a row for one token |
| OutboxFencing.DeadTokenStaysDead | database/migrations/011_signed_certificate_event_outbox.sql:332-344 | A token that is not good for a row stays so over every run in which no claim offers this token, whatever happens to the other tokens |
| OutboxDelivery.TokenRevivesIff | database/migrations/011_signed_certificate_event_outbox.sql:213-290 | The exact condition, on the state before the call: a claim makes a dead token good for a row if and only if it offers this token, worker and time pass the checks, and the row is, after recovery, the first due one of the tenant and not younger than the claim time |
| OutboxFencing.ClaimTakesOnlyStaleRows | database/migrations/011_signed_certificate_event_outbox.sql:255-270 | A claim takes a row from its holder if and only if the row is the tenant's and was claimed more than five minutes before the new claim time |
| OutboxFencing.RecoveredWorkerIsFencedOff | database/migrations/011_signed_certificate_event_outbox.sql:332-383 | However the run goes on, a worker whose row was recovered can neither confirm nor fail it as long as its token is not offered again |
| OutboxFencing.FreshTokensFenceOff | database/migrations/011_signed_certificate_event_outbox.sql:332-383 | With fresh tokens, in particular: a worker that holds a row and loses it to another claim is refused for ever, whatever the run |
| OutboxFencing.SpentTokenIsRefused | database/migrations/011_signed_certificate_event_outbox.sql:332-383 | A token that was confirmed or failed is refused for ever, unless it is offered again |
| OutboxFencing.ReusedTokenOpensTheFence | database/migrations/011_signed_certificate_event_outbox.sql:68-96 | With a reused token the fence is open: a run from the empty outbox in which the second worker holds the row and the recovered first one confirms it |
| OutboxFencing.ConfirmedIff | database/migrations/011_signed_certificate_event_outbox.sql:307-348 | A confirmation succeeds if and only if the token is the latest grant of a row still being published and arguments and times allow it |
| OutboxFencing.FailedRowIsDueIff | database/migrations/011_signed_certificate_event_outbox.sql:350-386 | A reported failure makes the row due again from the retry time on and not before, one to 600 seconds later, and changes nothing else |
| OutboxFencing.PublishedRowIsFinal | database/migrations/011_signed_certificate_event_outbox.sql:372-383 | A published row is never changed again |
| OutboxDelivery.OutboxMatchesEvents | database/migrations/011_signed_certificate_event_outbox.sql:108-130 | In every run of lifecycle calls and workers outbox rows and lifecycle events are in bijection, and pending, publishing and published rows add up to the number of events |
| OutboxDelivery.RoundPublishesFirst | database/migrations/011_signed_certificate_event_outbox.sql:255-344 | One claim-and-confirm round publishes the first row that was due or stale, leaves the rest of the work, and changes nothing when there is none |
| OutboxDelivery.DrainPublishesWorkInOrder | database/migrations/011_signed_certificate_event_outbox.sql:255-344 | Repeated rounds at a fixed time end, publish exactly the rows that were due or stale, one per round, in strict order of creation time and event identifier |
| OutboxDelivery.ClaimIsRolledBackIff | database/migrations/011_signed_certificate_event_outbox.sql:68-96 | An accepted claim is rolled back by a CHECK if and only if the first due row is younger than the claim time |
| OutboxDelivery.OldFailureRollsClaimBack | database/migrations/011_signed_certificate_event_outbox.sql:350-386 | The run from the empty outbox that brings it about: a failure reported with an old time, then a claim before the row was created |
| OutboxTable.OutboxStore.EnqueueLifecycleEvent | database/migrations/011_signed_certificate_event_outbox.sql:108-130 | Afterwards the event has a row, rows that were there are as they were, and a new row is due from now on |
| OutboxTable.OutboxStore.FindFirstDue | database/migrations/011_signed_certificate_event_outbox.sql:272-282 | The scan finds the due row that is first by creation time and event identifier |
| OutboxTable.OutboxStore.ClaimNext | database/migrations/011_signed_certificate_event_outbox.sql:213-305 | The in-place claim with stale-lease recovery is the specified one |
| OutboxTable.OutboxStore.MarkPublished | database/migrations/011_signed_certificate_event_outbox.sql:307-348 | Accepted if and only if the token holds the row and position and time are admissible; then the row is published, no token is good for it any more, and nothing else changed |
| OutboxTable.OutboxStore.MarkFailed | database/migrations/011_signed_certificate_event_outbox.sql:350-386 | Accepted if and only if the token holds the row and code, delay and times are admissible; then the row is due exactly from the retry time, no token is good for it, and nothing else changed |
| OutboxOutcomes.ClaimIff | database/migrations/011_signed_certificate_event_outbox.sql:245-290 | Each reply of a claim on the rows before it: it gets the tenant's first row, by creation and event identifier, that is due or was claimed over five minutes ago, unless that row is younger than the claim |
| OutboxOutcomes.ClaimLeaves | database/migrations/011_signed_certificate_event_outbox.sql:255-290 | Every row after a granted claim: the claimed one with one attempt more, other stale ones pending again, the rest as it was |
| OutboxOutcomes.UngrantedClaimLeaves | database/migrations/011_signed_certificate_event_outbox.sql:245-290 | A claim that is not granted leaves every row as it was |
| OutboxOutcomes.EnqueueLeaves | database/migrations/011_signed_certificate_event_outbox.sql:108-128 | An event waits in a pending row that is due at once; one that is there stays |
| OutboxOutcomes.ConfirmIff | database/migrations/011_signed_certificate_event_outbox.sql:307-348 | Each reply of a confirmation on the row, and the row it leaves |
| OutboxOutcomes.FailIff | database/migrations/011_signed_certificate_event_outbox.sql:350-386 | Each reply of a failure report on the row, and the row it leaves, due after the delay |
| KeyRegistryHistory.RunKeepsOk | database/migrations/014_evidence_source_key_registry.sql:93-95 | Over every run (key functions, direct source statements, both suspensions, tenancy steps): versions are 1..n, a planned source has no keys, a suspended one has some, and a source's fingerprint is that of its one active key, the newest |
| KeyRegistryHistory.StepKeepsOk | database/migrations/014_evidence_source_key_registry.sql:131-168 | Each step keeps the registry invariant |
| KeyRegistryHistory.EnrollKeepsOk | database/migrations/014_evidence_source_key_registry.sql:170-238 | Enrolment keeps it |
| KeyRegistryHistory.RotateKeepsOk | database/migrations/014_evidence_source_key_registry.sql:240-336 | Rotation keeps it |
| KeyRegistryHistory.RevokeKeepsOk | database/migrations/014_evidence_source_key_registry.sql:338-420 | Revocation keeps it |
| KeyRegistryHistory.SuspensionKeepsOk | database/migrations/018_evidence_source_safeguards.sql:234-304 | The suspension switch keeps it |
| KeyRegistryHistory.AutoSuspendKeepsOk | database/migrations/018_evidence_source_safeguards.sql:409-421 | The automatic suspension keeps it |
| KeyRegistryEpochs.ActiveSourceHasOneKey | database/migrations/014_evidence_source_key_registry.sql:93-95 | An active source has exactly one active key, with the highest version and the source's fingerprint |
| KeyRegistryEpochs.HasActiveKeyIffFingerprint | database/migrations/014_evidence_source_key_registry.sql:384-415 | Whatever its state, a source has an active key if and only if it has a fingerprint |
| KeyRegistryEpochs.LookupNeedsNoFingerprint | database/migrations/015_evidence_ingestion_verification.sql:29-66 | In every run, on the rows: the verification lookup answers if and only if tenant, membership, subject, source and key are active and the algorithm is supported, with that source's and key's columns; its fingerprint test never decides anything and a planned source has no keys |
| KeyRegistryEpochs.RotationFindsTheActiveKey | database/migrations/014_evidence_source_key_registry.sql:296-298 | The error for an active source without active key is unreachable |
| KeyRegistryEpochs.RotationRejectsOnlyReuse | database/migrations/014_evidence_source_key_registry.sql:312-323 | The indexes reject a rotation only when identifier or material is in the source's history; a rotation that succeeds gets version n + 1 |
| KeyRegistryEpochs.RunAdvancesKeys | database/migrations/014_evidence_source_key_registry.sql:100-129 | Over every run no key row disappears or changes identity, and keys move only from active to rotated to revoked or from active to revoked |
| KeyRegistryEpochs.RetiredKeyIsNeverUsable | database/migrations/015_evidence_ingestion_verification.sql:29-66 | A key that has left the active state never verifies anything again |
| KeyRegistryEpochs.SuspendedSourcesStayKeyless | database/migrations/014_evidence_source_key_registry.sql:384-415 | With the functions of migration 014 alone a suspended source has keys but none active |
| KeyRegistryEpochs.SuspendedStaysKeylessIff | database/migrations/018_evidence_source_safeguards.sql:234-304 | One step keeps "suspended sources have no active key" if and only if it is not a suspension of migration 018 |
| KeyRegistryEpochs.FloodLimitLeavesActiveKey | database/migrations/018_evidence_source_safeguards.sql:409-421 | The concrete run on which the unrestricted claim fails: enrol, then automatic suspension |
| KeyRegistryStore.RegistryStore.EnrollSource | database/migrations/014_evidence_source_key_registry.sql:170-238 | The in-place enrolment is the specified one and keeps the invariant |
| KeyRegistryStore.RegistryStore.FindHighestVersion | database/migrations/014_evidence_source_key_registry.sql:312-314 | The scan returns the highest version |
| KeyRegistryStore.RegistryStore.FindActiveKey | database/migrations/014_evidence_source_key_registry.sql:289-294 | The lookup returns the one active key if there is one |
| KeyRegistryStore.RegistryStore.RotateInOrder | database/migrations/014_evidence_source_key_registry.sql:274-335 | Rotating the old key before computing and inserting the next one gives the specified rows |
| KeyRegistryStore.RegistryStore.RotateKey | database/migrations/014_evidence_source_key_registry.sql:240-336 | The in-place rotation is the specified one and keeps the invariant |
| KeyRegistryStore.RegistryStore.RevokeSourceKey | database/migrations/014_evidence_source_key_registry.sql:338-420 | The in-place revocation is the specified one and keeps the invariant |
| KeyRegistryOutcomes.EnrolmentIff | database/migrations/014_evidence_source_key_registry.sql:170-238 | A source gets its first key if and only if an administrator enrols it in time and the source is planned and of the supported algorithm; the rows written |
| KeyRegistryOutcomes.RotationReplyIff | database/migrations/014_evidence_source_key_registry.sql:274-323 | Each reply of a rotation on the rows: done if and only if the source is active or suspended with at least one key, no active key was enrolled later, and identifier and material are new |
| KeyRegistryOutcomes.RotationIff | database/migrations/014_evidence_source_key_registry.sql:240-336 | The whole function: who may call it, when it is done, and that then the source is active with the new fingerprint, the old active key rotated and the new one of version n + 1 |
| KeyRegistryOutcomes.RevocationIff | database/migrations/014_evidence_source_key_registry.sql:338-420 | A key is revoked if and only if it is the source's, not revoked and not enrolled later; the source is suspended without fingerprint exactly when the key was active |
| KeyRegistryOutcomes.RevocationMakesRotatable | database/migrations/014_evidence_source_key_registry.sql:279-286 | After its only active key was revoked a source is suspended and meets all conditions of a rotation to a new key |
| KeyRegistryOutcomes.SuspensionIff | database/migrations/018_evidence_source_safeguards.sql:234-304 | When the switch of migration 018 changes a source, and that it changes state and version only |
| KeyRegistryOutcomes.SourceEditIff | database/migrations/018_evidence_source_safeguards.sql:38-73 | What an administrator's direct statement on a source row can and cannot write |
| KeyRegistryOutcomes.UnboundActorWritesNothing | database/migrations/004_tenant_resources_and_membership_rules.sql:30-38 | Without a bound tenant and subject no function of the registry writes |
| ReplayGuardProofs.GuardIsScan | database/migrations/016_evidence_replay_and_ordering.sql:198-289 | Verdict, reason, reported high water and new receipt equal those of a scan of all receipts, and no key, UNIQUE or CHECK constraint ever fires |
| ReplayGuardOutcomes.AcceptedIff | database/migrations/016_evidence_replay_and_ordering.sql:163-251 | On the rows: an envelope is accepted if and only if it is well formed, tenant, membership, subject, source and key are active with the announced type and flag, it is in the time window of that source's age in seconds, and every receipt is of another event and, in the epoch, of another nonce, lower sequence and no later observation |
| ReplayGuardOutcomes.RejectedIff | database/migrations/016_evidence_replay_and_ordering.sql:163-251 | An envelope is rejected for a reason if and only if that is the first thing wrong with it, each of the ten reasons said on its own; the two other refusals are for ill-formed envelopes and inactive sources |
| ReplayGuardOutcomes.ReportedSequence | database/migrations/016_evidence_replay_and_ordering.sql:210-268 | The sequence reported with a rejection is the highest of the epoch's receipts, and none for a freshness reason |
| ReplayGuardOutcomes.GuardLeaves | database/migrations/016_evidence_replay_and_ordering.sql:210-290 | What each verdict leaves: the receipt and the raised row, the rejection with digests only and possibly an empty row, or nothing |
| ReplayGuardProofs.FreshIff | database/migrations/016_evidence_replay_and_ordering.sql:198-208 | Which envelopes pass the freshness checks, as one window condition |
| ReplayGuardProofs.AcceptedFits | database/migrations/016_evidence_replay_and_ordering.sql:54-72 | An accepted receipt meets the primary key, both UNIQUE constraints and the CHECKs, and the raised row its CHECKs |
| ReplayGuardProofs.RunIsScan | database/migrations/016_evidence_replay_and_ordering.sql:122-291 | Over every run with a clock that does not go back, all verdicts and the receipts are those of the scan, and the invariant holds |
| ReplayGuardProofs.ReachableRowsAreHighWater | database/migrations/016_evidence_replay_and_ordering.sql:29-36 | Every reachable state row is (maximum sequence, maximum observation time, count) of its epoch's receipts |
| ReplayGuardProofs.HighWaterIsMaximum | database/migrations/016_evidence_replay_and_ordering.sql:17-38 | The high-water value is empty without receipts and otherwise made of attained maxima |
| ReplayGuardRuns.ErasingRejectedCalls | database/migrations/016_evidence_replay_and_ordering.sql:210-268 | Leaving out any of the rejected calls of a run leaves the receipts and every remaining verdict unchanged |
| ReplayGuardRuns.TenantsDoNotInterfere | database/migrations/016_evidence_replay_and_ordering.sql:191-194 | A tenant's verdicts and receipts in an interleaved run are those of the run restricted to its calls |
| ReplayGuardStore.GuardStore.CheckFreshness | database/migrations/016_evidence_replay_and_ordering.sql:198-208 | The first IF chain finds a reason exactly outside the freshness window, and the reason names a bound that the envelope misses |
| ReplayGuardStore.GuardStore.CheckOrdering | database/migrations/016_evidence_replay_and_ordering.sql:229-251 | The second IF chain computes the replay and ordering reason |
| ReplayGuardStore.GuardStore.ApplyGuard | database/migrations/016_evidence_replay_and_ordering.sql:122-291 | The in-place guard is the specified step, its verdict is that of the scan, and it keeps the invariant |
| EvidenceVaultProofs.ReceiptsAndRecordsBiject | database/migrations/017_encrypted_evidence_storage.sql:108-131 | In every state reached by transactions receipts and encrypted records are in bijection, and each record carries its receipt's subject, source, hash and times |
| EvidenceVaultProofs.TransactionStaysPaired | database/migrations/017_encrypted_evidence_storage.sql:108-131 | Every commit keeps receipts and records paired and only appends receipts, adds records and buries records |
| EvidenceVaultProofs.ReceiptAndRecordAreBornTogether | database/migrations/017_encrypted_evidence_storage.sql:86-131 | A transaction creates a receipt if and only if it creates the record |
| EvidenceVaultProofs.VaultStaysPaired | database/migrations/017_encrypted_evidence_storage.sql:22-54 | Over every run of transactions no record disappears, a tombstone is final, and everything but the ciphertext is constant |
| EvidenceVaultProofs.PurgeHitsExactlyTheDue | database/migrations/017_encrypted_evidence_storage.sql:219-233 | The sweep buries exactly the tenant's expired active records, with its reason, and returns their number |
| EvidenceVaultProofs.PurgeIsIdempotent | database/migrations/017_encrypted_evidence_storage.sql:208-235 | A second sweep at the same time finds nothing |
| EvidenceVaultProofs.ReadableOrDue | database/migrations/017_encrypted_evidence_storage.sql:133-171 | For an administrator a stored record is readable or due for the sweep, never both, and a tombstone is neither |
| EvidenceVaultProofs.DeletedStaysUnreadable | database/migrations/017_encrypted_evidence_storage.sql:173-206 | Nobody of the tenant reads a deleted record in any later state |
| EvidenceVaultProofs.StoredEventIsNeverAcceptedAgain | database/migrations/016_evidence_replay_and_ordering.sql:229-235 | No deletion, sweep or other transaction opens an event identifier to the guard again |
| EvidenceVaultProofs.StoredIsDecryptableIff | database/migrations/017_encrypted_evidence_storage.sql:33-106 | The exact condition: a stored record can be decrypted (key identifier, 12-byte vector, 16-byte tag and ciphertext of the declared length are there) if and only if the call gave all four, which the shape CHECK does not ask for |
| EvidenceVaultProofs.HollowRecordCommits | database/migrations/017_encrypted_evidence_storage.sql:108-131 | A record without them commits together with any envelope the guard accepts: the deferred trigger sees a row |
| EvidenceVaultStore.VaultStore.StoreEncrypted | database/migrations/017_encrypted_evidence_storage.sql:64-106 | The in-place store is the specified one, NULL payload columns included, with a deadline of 30 days after acceptance |
| EvidenceVaultStore.VaultStore.DeleteEncrypted | database/migrations/017_encrypted_evidence_storage.sql:173-206 | The in-place deletion is the specified one |
| EvidenceVaultStore.VaultStore.SweepRows | database/migrations/017_encrypted_evidence_storage.sql:220-232 | The row-by-row sweep buries the due rows and counts them |
| EvidenceVaultStore.VaultStore.PurgeExpired | database/migrations/017_encrypted_evidence_storage.sql:208-235 | The in-place purge is the specified one |
| EvidenceVaultStore.VaultStore.RequireStorage | database/migrations/017_encrypted_evidence_storage.sql:108-131 | The deferred trigger passes if and only if every receipt inserted since has a record |
| EvidenceVaultOutcomes.StoreIff | database/migrations/017_encrypted_evidence_storage.sql:64-106 | Evidence is stored if and only if its receipt is there, no record is and the payload meets the CHECKs; the record's columns, kept for 30 days after acceptance |
| EvidenceVaultOutcomes.RetrieveIff | database/migrations/017_encrypted_evidence_storage.sql:133-171 | A record is read if and only if the reader acts for the tenant, the record is neither deleted nor past its deadline, and the reader is its subject or an administrator |
| EvidenceVaultOutcomes.DeleteIff | database/migrations/017_encrypted_evidence_storage.sql:173-206 | A record is deleted if and only if an administrator gives a trimmed reason of 1 to 160 characters and it is not deleted yet; everything but the ciphertext stays |
| EvidenceVaultOutcomes.PurgeIff | database/migrations/017_encrypted_evidence_storage.sql:208-235 | An administrator's sweep deletes the tenant's expired records and no others, and returns their number |
| EvidenceVaultOutcomes.StoreNeedsReceipt | database/migrations/017_encrypted_evidence_storage.sql:86-104 | Without a receipt nothing is stored |
| EvidenceVaultOutcomes.UnboundActorReadsNothing | database/migrations/004_tenant_resources_and_membership_rules.sql:30-38 | Without a bound tenant and subject nothing is read, deleted or swept |
| TeardownFinality.TeardownIsFinal | database/migrations/006_tenant_lifecycle_controls.sql:349-384 | After teardown no run of steps of any component changes the tenant's row, roles, memberships, issuers, sources, keys, state rows, receipts or stored evidence; its certificates go at most from active to expired |
| TeardownFinality.TeardownCloses | database/migrations/006_tenant_lifecycle_controls.sql:342-404 | A teardown that succeeds leaves the tenant suspended, retired, without roles and with every membership suspended and every issuer and source retired |
| TeardownFinality.StepFreezes | database/migrations/014_evidence_source_key_registry.sql:364-366 | Each single step of any component spares a torn-down tenant |
| TeardownFinality.RetiredSourceIsNeverRevived | database/migrations/014_evidence_source_key_registry.sql:399-408 | The assignment of suspended to a retired source is unreachable: such a key revocation is denied in every run |
| TeardownFinality.RetiredKeyFreezesEpoch | database/migrations/016_evidence_replay_and_ordering.sql:178-194 | A key that has left the active state has its epoch frozen: its state row stays and no receipt is added, over every run |
| Json.RenderedObjectReads | chaincode/audit/src/audit-contract.ts:82-91 | JSON.parse undoes JSON.stringify on every flat record of strings, by a full parser of RFC 8259 |
| Json.QuotedCharsRead | chaincode/audit/src/audit-contract.ts:138-140 | Every string of UTF-16 code units, lone surrogates included, is read back from its quoted form (sections 4 and 7 of RFC 8259) |
| JsonGrammar.ParseIff | chaincode/audit/src/audit-contract.ts:82-91 | JSON.parse accepts a text if and only if the grammar of RFC 8259 (sections 2 to 7), as concrete syntax trees with their spellings, has it, and returns the value that the text denotes; white space, numbers, escapes and nesting included |
| AuditCodec.AcceptedIff | chaincode/audit/src/audit-contract.ts:82-120 | A text is accepted as a commitment if and only if it has 1 to 2048 characters and is JSON for an object with exactly the six properties of that commitment |
| AuditCodec.AcceptedTextIff | chaincode/audit/src/audit-contract.ts:82-120 | On the text itself: accepted if and only if it has 1 to 2048 characters, the grammar reads it as an object, and that object has the six members of the commitment, the last of each name counting, and no others |
| AuditCodec.AnyOrderParses | chaincode/audit/src/audit-contract.ts:92-120 | Parsing undoes serialization in any order of the keys; the limit of 2048 characters is never in the way |
| AuditCodec.SerializedParses | chaincode/audit/src/audit-contract.ts:138-140 | Parsing undoes serialization |
| AuditCodec.SerializeIsInjective | chaincode/audit/src/audit-contract.ts:138-140 | Equal ledger bytes come from equal commitments |
| AuditCodec.TypeNameIsInjective | chaincode/audit/src/audit-contract.ts:122-124 | Record types and their names correspond one to one |
| AuditLedger.CommitmentKeyIsInjective | chaincode/audit/src/audit-contract.ts:130-132 | Commitment keys determine record type and event key |
| AuditLedger.AnchorIsNoCommitmentKey | chaincode/audit/src/audit-contract.ts:134-136 | No anchor key is a commitment key |
| AuditLedger.CommitRefinesEnter | chaincode/audit/src/audit-contract.ts:147-184 | Each submission has the outcome it has in a book with one entry per event key; the two-key ledger keeps representing the book |
| AuditLedger.RunRefinesBook | chaincode/audit/src/audit-contract.ts:147-184 | Over every run of submissions all outcomes are those of the book |
| AuditLedger.InconsistencyIsUnreachable | chaincode/audit/src/audit-contract.ts:165-167 | INCONSISTENT_STATE is never reported |
| AuditLedger.AnchorsMatchCommitments | chaincode/audit/src/audit-contract.ts:159-175 | In every reachable ledger an event key has an anchor if and only if it has a commitment, of one record type only, and the anchor names it |
| AuditLedger.WrittenOnce | chaincode/audit/src/audit-contract.ts:174-175 | A key once written keeps its bytes for ever |
| AuditLedger.ResubmissionIsDuplicate | chaincode/audit/src/audit-contract.ts:186-194 | What a read returned, submitted again with its keys in any order, is a duplicate and changes nothing |
| AuditLedger.AuditState.CommitCommitment | chaincode/audit/src/audit-contract.ts:147-184 | The contract method is the specified transaction on ledger and book |
| AuditLedger.AuditState.ReadCommitment | chaincode/audit/src/audit-contract.ts:186-194 | A read returns the serialized book entry of that type and key, or the specified error |
| AuditLedger.CommitIff | chaincode/audit/src/audit-contract.ts:147-184 | On the ledger: a submission is written if and only if its event key has no anchor; otherwise the answer is conflicting anchor, conflicting commitment or duplicate exactly for another type, other bytes, the same bytes |
| AuditLedger.ReadIff | chaincode/audit/src/audit-contract.ts:186-194 | A query is invalid if and only if it is not one of five type names and 64 lower-case hexadecimal digits; a valid one finds the entry if and only if the event key is recorded under that type |
| CertificateDashboardProofs.IssueShownIffDone | apps/review-demo/certificate-dashboard.mjs:139-145 | Issuing is shown as allowed for a visible subject if and only if executing it succeeds |
| CertificateDashboardProofs.OperationShownIffDone | apps/review-demo/certificate-dashboard.mjs:147-162 | Renewal and revocation are shown as allowed for a visible certificate if and only if executing them at the same time succeeds |
| CertificateDashboardProofs.PermittedCountsSucceeding | apps/review-demo/certificate-dashboard.mjs:254-257 | `permittedOperations` is the number of distinct requests that would succeed |
| CertificateDashboardProofs.OwnOperationNeedsAdmin | apps/review-demo/certificate-dashboard.mjs:115-119 | A subject's operation on its own active certificate succeeds if and only if it is an administrator (and the window is open, for renewal) |
| CertificateDashboardProofs.UniformDenialIff | apps/review-demo/certificate-dashboard.mjs:277-298 | A renewal or revocation gets the uniform denial if and only if its subject is not one of the tenant or its certificate is not one of that subject, be the identifier foreign or unknown |
| CertificateDashboardProofs.VisibleIff | apps/review-demo/certificate-dashboard.mjs:234-257 | Which subjects and certificates a persona sees |
| CertificateDashboardProofs.IssueIff | apps/review-demo/certificate-dashboard.mjs:272-293 | Issuing makes a certificate of one year if and only if an administrator issues it for an active subject of its tenant |
| CertificateDashboardProofs.OperationIff | apps/review-demo/certificate-dashboard.mjs:294-336 | Each answer and effect of renewing and revoking a certificate of the tenant: who, which state, which quarter of its life |
| CertificateDashboardRuns.EndedCertificatesStayEnded | apps/review-demo/certificate-dashboard.mjs:294-322 | Over every run superseded and revoked certificates never change again and no certificate disappears or changes hands |
| CertificateDashboardRuns.RenewedAtMostOnce | apps/review-demo/certificate-dashboard.mjs:304-315 | A certificate is superseded if and only if one certificate renews it, and no second one does |
| CertificateDashboardRuns.GeneratedIsRenewableIff | apps/review-demo/certificate-dashboard.mjs:121-130 | A certificate made by the dashboard is renewable exactly in the last quarter of its year |
| CertificateDashboardRuns.CertificateBoard.FindCertificate | apps/review-demo/certificate-dashboard.mjs:295-297 | The search returns the first matching certificate |
| CertificateDashboardRuns.CertificateBoard.ExecuteRequest | apps/review-demo/certificate-dashboard.mjs:272-336 | The in-place operation is the specified one and keeps the invariant |
| TrustDashboardProofs.FoldIsOneSubtraction | apps/review-demo/trust-dashboard.mjs:176-200 | Clamping after every observation equals one clamped subtraction of the total |
| TrustDashboardProofs.OrderDoesNotMatter | apps/review-demo/trust-dashboard.mjs:176-200 | The final components do not depend on the order of the observations |
| TrustDashboardProofs.AdjustmentLowers | apps/review-demo/trust-dashboard.mjs:168-182 | No observation raises a component, prototype property names and unknown scenarios included |
| TrustDashboardProofs.DenialNeverRaisesScore | apps/review-demo/trust-dashboard.mjs:354-379 | With a monotone weighted score no recorded denial raises the last known score |
| TrustDashboardProofs.ScoresFallAlongHistory | apps/review-demo/trust-dashboard.mjs:202-245 | Scores never rise along the runtime transitions |
| TrustDashboardProofs.RejectionZeroesCertificate | apps/review-demo/trust-dashboard.mjs:168-187 | Once a certificate was rejected the certificate component is zero for the rest of every run |
| TrustDashboardProofs.DenialLowersNothingIff | apps/review-demo/trust-dashboard.mjs:179-187 | A denial lowers nothing if and only if every component it adjusts is zero already |
| TrustDashboardProofs.ZeroAdjustmentIffInherited | apps/review-demo/trust-dashboard.mjs:179-187 | A denial that lowers nothing whatever the components are: one whose scenario identifier names a property that object literals inherit, and no certificate was rejected |
| TrustDashboardProofs.InheritedNameLowersNothing | apps/review-demo/trust-dashboard.mjs:179-187 | One such name, as a direct caller of `recordScenario` can send it: every component stays |
| TrustDashboardProofs.RepeatedDenialExhausts | apps/review-demo/trust-dashboard.mjs:168-200 | For all components and every denial: after it was recorded twenty times, one more lowers nothing |
| TrustDashboardProofs.ExhaustedComponentLowersNothing | apps/review-demo/trust-dashboard.mjs:168-187 | An input the server sends: nine denials of alpha-member's revoked certificate bring its three adjusted components to zero, and a tenth lowers nothing |
| TrustDashboardProofs.DenialRefreshesIff | apps/review-demo/trust-dashboard.mjs:230-232 | A denial brings the policy score from none to a number if and only if the last observation is older than an hour; a policy score that was there does not rise |
| TrustDashboardProofs.LowerScoreIsNotMorePermissive | apps/review-demo/trust-dashboard.mjs:152-166 | For a fresh state a lower score never gives a more permissive decision |
| TrustDashboardProofs.DecisionIff | apps/review-demo/trust-dashboard.mjs:152-166 | Which outcome and reason every role, score, step-up and freshness gets |
| TrustDashboardProofs.ComponentsByCounts | apps/review-demo/trust-dashboard.mjs:168-200 | The components in closed form: whatever the history, the start less weighted counts of five kinds of denial, or zero |
| TrustDashboardProofs.TrustBoard.RuntimeTransitionDefinitions | apps/review-demo/trust-dashboard.mjs:176-200 | The loop over one components variable produces the specified transitions |
| TrustDashboardProofs.TrustBoard.RecordScenario | apps/review-demo/trust-dashboard.mjs:354-379 | The method records denials only and returns the scores before and after |
| WorkerPool.PoolIsBoundedMap | scripts/measure-performance-recovery.mjs:117-129 | Whatever the interleaving: at most `concurrency` in flight, indices started once and in order, at most 3 * items + workers steps, and the in-order map when all workers have returned if and only if there is a worker or nothing to do |
| WorkerPool.StepKeepsSound | scripts/measure-performance-recovery.mjs:121-127 | Every worker step keeps the pool invariant |
| WorkerPool.SchedulesAreBounded | scripts/measure-performance-recovery.mjs:121-127 | No schedule is longer than the bound |
| WorkerPool.RunBounded | scripts/measure-performance-recovery.mjs:117-129 | The loop over an undetermined schedule ends and fills the results array in order |
| Patterns.ReasonCodeIff | database/migrations/006_tenant_lifecycle_controls.sql:225 | Reason codes are the strings that match the regular expression of the schema, by a matcher of classes and repetition bounds |
| Patterns.WorkerIff | database/migrations/011_signed_certificate_event_outbox.sql:250 | The same for worker names |
| Patterns.NonceIff | database/migrations/016_evidence_replay_and_ordering.sql:158 | The same for nonces |
| Patterns.HashIff | database/migrations/016_evidence_replay_and_ordering.sql:159 | The same for hashes |
| Patterns.KeyIdIff | database/migrations/017_encrypted_evidence_storage.sql:38 | The same for encryption key identifiers |
| Platform.IssuerEditIff | database/migrations/004_tenant_resources_and_membership_rules.sql:40-85 | Only an administrator changes an issuer mapping, and only one of its tenant |

## Left out

- Concurrency inside the database (READ COMMITTED anomalies, lock waits, advisory locks): calls are serial.
- NULL passed as an argument, except the public key and the predecessor of a renewal and the payload of stored evidence.
- Identifier, name and text formats other than reason codes, worker names, nonces, hashes and encryption key identifiers.
- Resources, trust configurations and policy versions, which teardown counts or supersedes.
- Row columns that no modelled decision reads: names, timestamps and versions of memberships and issuers, the count details of a teardown event, control events and influence limits.
- Several clock readings inside one call: the model reads the clock once, so a recording time equals the time the call was checked against.
- The rate limiter and influence snapshot that migration 018 wraps around the replay guard; its two ways to suspend a source are in the key registry. The erasure and scan theorems are about the guard of migration 016 itself.
- Application updates of `identity.tenants.version`, and updates of a primary key of an outbox or evidence row: no function does them.
- Foreign keys that keep a membership row alive while certificates, keys, receipts or records name it; a model run may delete such a membership, which the database refuses.
- Integer widths: sequence numbers are limited as the CHECK says, versions and counters are unbounded.
- The chaincode's identity and channel checks, and the payload of its created event.
- The dashboard's display fields (names, serials, fingerprints, headlines) and invalid clocks.
- The trust dashboard's weighted score, bands, policy bundles and history rendering: the score is any monotone function.
- `execute` rejecting in `runBounded`: every call settles with a value that depends on the item only.
- Migrations 001 to 003, 005, 012, 013 and from 019 on, HTTP servers, scripted scenarios and the plumbing of the scripts.
- Cryptography: signatures, AES-GCM and X.509 contents are opaque data.
- The value of a JSON number: no accepted commitment contains one.
