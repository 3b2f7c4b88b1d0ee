/**
 Journal records of Semantic Mutation (`src/application/semantic-mutation-recovery.ts`) and the
 transitions between them. Digests, revisions and names are opaque.
 */
module MutationRecord {
  import opened Options

  type Digest = nat
  type Revision = nat
  type Path = nat
  type Id = nat

  datatype State = Prepared | AuthoringCommitted | Verified | RolledBack | RecoveryRequired

  datatype FailureState = RollbackFailed | RestoreValidationFailed | RebuildFailed | ConcurrentWrite

  /** The input and semantic revisions of a workspace. */
  datatype Endpoint = Endpoint(input: Revision, semantic: Revision)

  datatype Verification = Verification(passed: bool, execution: Revision, report: Revision)

  datatype Plan = Plan(revision: Revision, requestRevision: Revision, authorizationRevision: Revision, base: Endpoint,
                       staged: Endpoint)

  datatype EditPlan = EditPlan(revision: Revision, path: Path, before: Digest, staged: Digest)

  datatype Result =
    | Accepted(transaction: Id, accepted: Endpoint)
    | RolledBackResult(transaction: Id)
    | Rejected(planRevision: Revision, attempt: Option<Id>)
    | RecoveryResult(transaction: Id, failure: FailureState)

  datatype Record = Record(
    state: State,
    transactionId: Id,
    requestIdentity: Id,
    requestRevision: Revision,
    authorizationRevision: Revision,
    expectedPlanRevision: Revision,
    planRevision: Revision,
    editPlanRevision: Revision,
    rollbackManifest: Digest,
    path: Path,
    before: Digest,
    committed: Digest,
    base: Endpoint,
    staged: Endpoint,
    verificationExecution: Revision,
    verificationReport: Revision,
    request: Digest,
    authorization: Digest,
    plan: Plan,
    verification: Verification,
    result: Option<Result>,
    recoveryState: Option<FailureState>)

  /** What a caller asks for. */
  datatype Request = Request(identity: Id, revision: Revision, expectedPlanRevision: Revision, request: Digest,
                             authorization: Digest)

  /** A ready plan with its staged evidence; `manifest` is the digest of the rollback manifest. */
  datatype Ready = Ready(plan: Plan, edit: EditPlan, manifest: Digest, original: Digest, stagedBytes: Digest)

  datatype Derivation = Derived(ready: Ready) | PlanRejected(revision: Revision, atRequest: bool) | EvidenceMissing

  datatype Artifacts = Artifacts(edit: EditPlan, manifest: Digest, original: Digest, stagedBytes: Digest)

  /** `buildPreparedSemanticMutationRecoveryRecord` */
  function PreparedRecord(q: Request, d: Ready, transaction: Id, v: Verification): Record {
    Record(Prepared, transaction, q.identity, d.plan.requestRevision, d.plan.authorizationRevision,
           q.expectedPlanRevision,
           d.plan.revision, d.edit.revision, d.manifest, d.edit.path, d.edit.before, d.edit.staged, d.plan.base,
           d.plan.staged,
           v.execution, v.report, q.request, q.authorization, d.plan, v, None, None)
  }

  /** `advanceSemanticMutationRecoveryRecord` */
  function Advance(r: Record, state: State, result: Option<Result>, failure: Option<FailureState>): Record {
    Record(state, r.transactionId, r.requestIdentity, r.requestRevision, r.authorizationRevision,
           r.expectedPlanRevision,
           r.planRevision, r.editPlanRevision, r.rollbackManifest, r.path, r.before, r.committed, r.base, r.staged,
           r.verificationExecution, r.verificationReport, r.request, r.authorization, r.plan, r.verification, result,
           failure)
  }

  /** Two records of one transaction: everything but state, result and failure agrees. */
  predicate SameTransaction(a: Record, b: Record) {
    a == b.(state := a.state, result := a.result, recoveryState := a.recoveryState)
  }

  /** The state machine of one transaction. */
  predicate Allowed(from: Option<State>, to: State) {
    match from
    case None => to.Prepared?
    case Some(Prepared) => to.AuthoringCommitted? || to.RecoveryRequired?
    case Some(AuthoringCommitted) => to.Verified? || to.RolledBack? || to.RecoveryRequired?
    case Some(_) => false
  }

  function Committed(r: Record): Record {
    Advance(r, AuthoringCommitted, None, None)
  }

  function AcceptedRecord(r: Record, live: Endpoint): Record {
    Advance(r, Verified, Some(Accepted(r.transactionId, live)), None)
  }

  function RolledBackRecord(r: Record): Record {
    Advance(r, RolledBack, Some(RolledBackResult(r.transactionId)), None)
  }

  function RequiredRecord(r: Record, failure: FailureState): Record {
    Advance(r, RecoveryRequired, Some(RecoveryResult(r.transactionId, failure)), Some(failure))
  }

  function PreparedRejection(r: Record): Result {
    Rejected(r.plan.revision, Some(r.transactionId))
  }

  /** `exactPreparedSemanticMutationRecoveryBinding` */
  predicate ExactBinding(r: Record, d: Ready, v: Verification, a: Artifacts) {
    && d.plan == r.plan
    && d.plan.revision == r.planRevision
    && d.edit.revision == r.editPlanRevision
    && d.manifest == r.rollbackManifest
    && d.edit.path == r.path
    && d.edit.before == r.before
    && d.edit.staged == r.committed
    && d.plan.base == r.base
    && d.plan.staged == r.staged
    && v == r.verification
    && a.edit == d.edit
    && a.manifest == d.manifest
    && a.original == r.before
    && a.stagedBytes == r.committed
    && d.original == r.before
    && d.stagedBytes == r.committed
  }
}
