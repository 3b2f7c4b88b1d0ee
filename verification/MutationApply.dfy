/**
 Applying a mutation under the workspace write lease (`src/application/semantic-mutation-apply.ts`):
 recover, answer retries, derive, verify, journal, publish, settle.
 */
module MutationApply {
  import opened Options
  import opened MutationRecord
  import opened MutationLedger
  import opened MutationWorld
  import opened MutationRecovery

  datatype ApplyOutcome = Finished(result: Result) | RequestRejected | ApplyEscaped

  /** The result is what the workspace retains for the request. */
  ghost predicate Durable(l: Ledger, id: Id, result: Result) {
    RetainedResult(RetainedOf(l, id)) == Some(result)
  }

  /** The publication failed: find out what is live, then roll back, stop or reject. */
  method PublicationFailed(w: World, r: Record, revision: Revision) returns (o: Outcome)
    requires w.Valid() && Current(w.View(), r) && r.state.Prepared?
    modifies w
    ensures w.Valid() && Handled(old(w.trace), w.View(), w.trace, r, o)
    ensures o.Terminal? ==> !o.result.Accepted?
    ensures w.troubles >= old(w.troubles) && (o.Escaped? ==> w.troubles > old(w.troubles))
  {
    var current := w.Observe(r.path);
    if current.Crashed? {
      return Escaped;
    }
    if current.Threw? {
      o := MarkRecoveryRequired(w, r, RebuildFailed);
      return;
    }
    if current.value == r.committed {
      o := UndoPublication(w, r);
      return;
    }
    if current.value != r.before {
      o := MarkRecoveryRequired(w, r, ConcurrentWrite);
      return;
    }
    o := RejectWith(w, r, Rejection(revision, r.planRevision, PreparedRejection(r)));
  }

  /** The staged bytes are live although the publication failed: commit, roll back, prune. */
  method UndoPublication(w: World, r: Record) returns (o: Outcome)
    requires w.Valid() && Current(w.View(), r) && r.state.Prepared? && LiveIs(w.View(), r.path, r.committed)
    modifies w
    ensures w.Valid() && Handled(old(w.trace), w.View(), w.trace, r, o)
    ensures o.Terminal? ==> o.result.RolledBackResult?
    ensures w.troubles >= old(w.troubles) && (o.Escaped? ==> w.troubles > old(w.troubles))
  {
    ghost var t := w.trace;
    var committed := RecordCommit(w, r);
    if !committed.Done? {
      return Escaped;
    }
    ghost var t1 := w.trace;
    o := RollbackCommitted(w, committed.value);
    HandledLater(t, t1, w.View(), w.trace, r, committed.value, o);
    if o.Terminal? {
      o := PruneAfter(w, t, r, o);
    }
  }

  /** Publish a prepared transaction and bring it to its end. */
  method RunPrepared(w: World, r: Record, revision: Revision, withProof: bool) returns (o: Outcome)
    requires w.Valid() && Current(w.View(), r) && r.state.Prepared?
    modifies w
    ensures w.Valid() && Handled(old(w.trace), w.View(), w.trace, r, o)
    ensures w.troubles >= old(w.troubles) && (o.Escaped? ==> w.troubles > old(w.troubles))
    ensures w.troubles == old(w.troubles) && old(LiveIs(w.View(), r.path, r.before)) ==>
              o == Terminal(Accepted(r.transactionId, r.plan.staged))
  {
    ghost var t := w.trace;
    var afterPrepared := w.Ask<()>();
    if !afterPrepared.Done? {
      return Escaped;
    }
    var published := SwapSource(w, r, r.path, r.before, r.committed);
    if published.Crashed? {
      return Escaped;
    }
    ghost var t1 := w.trace;
    if published.Threw? {
      o := PublicationFailed(w, r, revision);
      HandledLater(t, t1, w.View(), w.trace, r, r, o);
      return;
    }
    o := SettlePublished(w, r, withProof);
    HandledLater(t, t1, w.View(), w.trace, r, r, o);
  }

  /** The staged bytes are published: record the commit, complete, prune. */
  method SettlePublished(w: World, r: Record, withProof: bool) returns (o: Outcome)
    requires w.Valid() && Current(w.View(), r) && r.state.Prepared? && LiveIs(w.View(), r.path, r.committed)
    modifies w
    ensures w.Valid() && Handled(old(w.trace), w.View(), w.trace, r, o)
    ensures w.troubles >= old(w.troubles) && (o.Escaped? ==> w.troubles > old(w.troubles))
    ensures w.troubles == old(w.troubles) ==> o == Terminal(Accepted(r.transactionId, r.plan.staged))
  {
    ghost var t := w.trace;
    var committed := RecordCommit(w, r);
    if committed.Crashed? || (committed.Threw? && committed.kind.Boundary?) {
      return Escaped;
    }
    ghost var t1 := w.trace;
    if committed.Threw? {
      o := MarkRecoveryRequired(w, r, RebuildFailed);
      OwnThen(t, t1, w.trace, r);
      return;
    }
    o := CompleteCommitted(w, committed.value, withProof);
    HandledLater(t, t1, w.View(), w.trace, r, committed.value, o);
    if !o.Escaped? {
      o := PruneAfter(w, t, r, o);
    }
  }

  /** How a call that prepared the record `r` may report its end. */
  ghost predicate Reported(l: Ledger, r: Record, o: ApplyOutcome) {
    o.Finished? ==>
      && Durable(l, r.requestIdentity, o.result)
      && (Truthful(l, r, o.result) || (o.result.RecoveryResult? && Blocked(l, r.requestIdentity)))
  }

  /** Everything that happened is a step for this request, or a retirement. */
  ghost predicate StepsFor(id: Id, before: seq<Event>, after: seq<Event>) {
    before <= after && forall i :: |before| <= i < |after| ==>
      match after[i]
      case Append(x) => x.requestIdentity == id
      case Reject(k, _) => k == id
      case Replace(owner, _, _, _) => owner == id
      case Retire(_, _) => true
      case Foreign(_, _) => false
  }

  function AsReported(o: Outcome): ApplyOutcome {
    match o
    case Terminal(result) => Finished(result)
    case NeedsRecovery(record) => if record.result.Some? then Finished(record.result.value) else ApplyEscaped
    case _ => ApplyEscaped
  }

  lemma HandledIsReported(t: seq<Event>, l: Ledger, t': seq<Event>, r: Record, o: Outcome)
    requires Consistent(l) && Handled(t, l, t', r, o)
    ensures Reported(l, r, AsReported(o)) && StepsFor(r.requestIdentity, t, t')
  {
    assert forall i :: |t| <= i < |t'| ==> Own(t'[i], r);
  }

  /** A request without a transaction of its own is rejected. */
  method RejectRequest(w: World, q: Request, planRevision: Revision, transaction: Option<Id>) returns (o: ApplyOutcome)
    requires w.Valid() && RetainedOf(w.View(), q.identity) == Nothing
    modifies w
    ensures w.Valid() && StepsFor(q.identity, old(w.trace), w.trace) && w.live == old(w.live)
    ensures o.Finished? ==> o.result.Rejected? && Durable(w.View(), q.identity, o.result)
    ensures !o.RequestRejected?
    ensures w.troubles >= old(w.troubles) && (o.ApplyEscaped? ==> w.troubles > old(w.troubles))
  {
    var rejection := Rejection(q.revision, planRevision, Rejected(planRevision, transaction));
    ghost var t := w.trace;
    var reply := PublishRejected(w, q.identity, rejection);
    if w.trace != t {
      RejectionStands(w.initial, t, w.trace, q.identity, rejection);
      assert w.trace[|t|] == Reject(q.identity, rejection);
    }
    return if reply.Done? then Finished(rejection.result) else ApplyEscaped;
  }

  /** Derive, check the plan revision, verify: `None` with a passed verification. */
  method Admit(w: World, q: Request) returns (o: Option<ApplyOutcome>, ready: Ready, verification: Verification,
               transaction: Id)
    requires w.Valid() && RetainedOf(w.View(), q.identity) == Nothing
    modifies w
    ensures w.Valid() && StepsFor(q.identity, old(w.trace), w.trace) && w.live == old(w.live)
    ensures o.Some? && o.value.Finished? ==> o.value.result.Rejected? && Durable(w.View(), q.identity, o.value.result)
    ensures o.None? ==> w.Idle() && verification.passed && ready.plan.revision == q.expectedPlanRevision
    ensures o.None? ==> LiveIs(w.View(), ready.edit.path, ready.edit.before) && ready.edit.before != ready.edit.staged
    ensures w.troubles >= old(w.troubles) && (o.Some? ==> w.troubles > old(w.troubles))
  {
    var noPlan := Plan(0, 0, 0, Endpoint(0, 0), Endpoint(0, 0));
    ready, verification, transaction := Ready(noPlan, EditPlan(0, 0, 0, 0), 0, 0, 0), Verification(false, 0, 0), 0;
    var derived := w.Derive();
    if !derived.Done? || derived.value.EvidenceMissing? {
      return Some(ApplyEscaped), ready, verification, transaction;
    }
    if derived.value.PlanRejected? {
      if derived.value.atRequest {
        return Some(RequestRejected), ready, verification, transaction;
      }
      var rejected := RejectRequest(w, q, derived.value.revision, None);
      return Some(rejected), ready, verification, transaction;
    }
    ready := derived.value.ready;
    if ready.plan.revision != q.expectedPlanRevision {
      w.Note();
      var rejected := RejectRequest(w, q, ready.plan.revision, None);
      return Some(rejected), ready, verification, transaction;
    }
    var verified := w.Ask<Verification>();
    if !verified.Done? {
      return Some(ApplyEscaped), ready, verification, transaction;
    }
    var issued := w.Ask<Id>();
    if !issued.Done? {
      return Some(ApplyEscaped), ready, verification, transaction;
    }
    verification, transaction := verified.value, issued.value;
    if !verification.passed {
      w.Note();
      var rejected := RejectRequest(w, q, ready.plan.revision, Some(transaction));
      return Some(rejected), ready, verification, transaction;
    }
    return None, ready, verification, transaction;
  }

  /** A request that left nothing behind, in a settled workspace. */
  method ApplyFresh(w: World, q: Request) returns (o: ApplyOutcome, ghost made: Option<Record>)
    requires w.Valid() && Settled(w.View()) && RetainedOf(w.View(), q.identity) == Nothing
    modifies w
    ensures w.Valid() && StepsFor(q.identity, old(w.trace), w.trace)
    ensures made.Some? ==> made.value.requestIdentity == q.identity && made.value.planRevision == q.expectedPlanRevision
    ensures made.Some? ==> Reported(w.View(), made.value, o)
    ensures made.None? ==>
              w.live == old(w.live) && (o.Finished? ==> o.result.Rejected? && Durable(w.View(), q.identity, o.result))
    ensures w.troubles >= old(w.troubles) && (o.ApplyEscaped? ==> w.troubles > old(w.troubles))
    ensures w.troubles == old(w.troubles) ==>
              made.Some? && o == Finished(Accepted(made.value.transactionId, made.value.plan.staged))
  {
    made := None;
    var ended, ready, verification, transaction := Admit(w, q);
    if ended.Some? {
      return ended.value, None;
    }
    var written := w.Ask<()>();
    if !written.Done? {
      return ApplyEscaped, None;
    }
    o, made := RunAdmitted(w, q, ready, verification, transaction);
  }

  lemma PreparedIsSafe(l: Ledger, q: Request, ready: Ready, v: Verification, transaction: Id)
    requires Settled(l) && RetainedOf(l, q.identity) == Nothing && v.passed
    requires LiveIs(l, ready.edit.path, ready.edit.before) && ready.edit.before != ready.edit.staged
    ensures var r := PreparedRecord(q, ready, transaction, v);
            && Safe(l, Append(r)) && Current(Next(l, Append(r)), r) && Allowed(None, r.state)
            && q.identity !in l.records && LiveIs(Next(l, Append(r)), r.path, r.before)
  {
  }

  /** Journal the admitted transaction; its record may be durable although this failed. */
  method Prepare(w: World, q: Request, r: Record) returns (ok: bool)
    requires w.Valid() && r.requestIdentity == q.identity && Allowed(None, r.state) && q.identity !in w.records
    requires Safe(w.View(), Append(r))
    modifies w
    ensures w.Valid() && w.live == old(w.live) && StepsFor(q.identity, old(w.trace), w.trace)
    ensures ok ==> w.View() == Next(old(w.View()), Append(r))
    ensures w.troubles >= old(w.troubles) && (!ok ==> w.troubles > old(w.troubles))
  {
    var appended := w.Append(r);
    return appended.Done?;
  }

  /** Journal the admitted transaction and run it. */
  method RunAdmitted(w: World, q: Request, ready: Ready, v: Verification, transaction: Id) returns (o: ApplyOutcome,
                     ghost made: Option<Record>)
    requires w.Valid() && Settled(w.View()) && RetainedOf(w.View(), q.identity) == Nothing && v.passed
    requires LiveIs(w.View(), ready.edit.path, ready.edit.before) && ready.edit.before != ready.edit.staged
    modifies w
    ensures w.Valid() && StepsFor(q.identity, old(w.trace), w.trace)
    ensures made.Some? ==> made.value == PreparedRecord(q, ready, transaction, v) && Reported(w.View(), made.value, o)
    ensures made.None? ==> w.live == old(w.live) && o.ApplyEscaped?
    ensures w.troubles >= old(w.troubles) && (o.ApplyEscaped? ==> w.troubles > old(w.troubles))
    ensures w.troubles == old(w.troubles) ==> made.Some? && o == Finished(Accepted(transaction, ready.plan.staged))
  {
    var withProof: bool := *;   // whether verification left a staged proof
    var r := PreparedRecord(q, ready, transaction, v);
    ghost var t := w.trace;
    PreparedIsSafe(w.View(), q, ready, v, transaction);
    var prepared := Prepare(w, q, r);
    if !prepared {
      return ApplyEscaped, None;
    }
    ghost var t1 := w.trace;
    var outcome := RunPrepared(w, r, q.revision, withProof);
    HandledIsReported(t1, w.View(), w.trace, r, outcome);
    StepsThen(q.identity, t, t1, w.trace);
    return AsReported(outcome), Some(r);
  }

  lemma StepsThen(id: Id, t: seq<Event>, t1: seq<Event>, t': seq<Event>)
    requires StepsFor(id, t, t1) && StepsFor(id, t1, t')
    ensures StepsFor(id, t, t')
  {
    assert forall i :: |t| <= i < |t1| ==> t'[i] == t1[i];
  }

  // ----- the whole call

  /** No source is written for this request. */
  ghost predicate NoWritesOf(id: Id, before: seq<Event>, after: seq<Event>) {
    before <= after && forall i :: |before| <= i < |after| && after[i].Replace? ==> after[i].owner != id
  }

  lemma AttributedElsewhere(l: Ledger, t: seq<Event>, t': seq<Event>, id: Id)
    requires Consistent(l) && Attributed(l, t, t') && !Unfinished(l, id)
    ensures NoWritesOf(id, t, t')
  {
    if !OnlyRetires(t, t') {
      var k :| Unfinished(l, k) && OwnEvents(t, t', l.records[k]);
      assert forall i :: |t| <= i < |t'| ==> Own(t'[i], l.records[k]);
    }
  }

  lemma ConcludedHere(l: Ledger, l': Ledger, id: Id, result: Result)
    requires Consistent(l) && Unfinished(l, id) && Concluded(l, l', result)
    ensures Truthful(l', l.records[id], result)
  {
    var k :| Unfinished(l, k) && Truthful(l', l.records[k], result);
    assert Unsettled(l, k) && Unsettled(l, id);
  }

  /** `resolveSemanticMutationRetainedRequest`: the answer to a request that the workspace retains. */
  function RetainedAnswer(x: Retained, revision: Revision): Option<ApplyOutcome> {
    match x
    case Nothing => None
    case RejectedBefore(rejection) => Some(if rejection.requestRevision != revision then RequestRejected
                                           else Finished(rejection.result))
    case Recorded(r) =>
      if r.requestRevision != revision then Some(RequestRejected)
      else if IsTerminal(r.state) && r.result.Some? then Some(Finished(r.result.value))
      else Some(ApplyEscaped)
  }

  /** After a recovery that settles the workspace, what is retained is a result. */
  lemma SettledAnswers(l: Ledger, id: Id, revision: Revision)
    requires Consistent(l) && Settled(l)
    ensures RetainedAnswer(RetainedOf(l, id), revision) != Some(ApplyEscaped)
  {
    assert !Unsettled(l, id);
  }

  /** The retained request has this revision. */
  predicate BoundTo(x: Retained, revision: Revision) {
    match x
    case Nothing => false
    case RejectedBefore(rejection) => rejection.requestRevision == revision
    case Recorded(record) => record.requestRevision == revision
  }

  function FinishedWith(x: Retained): Option<ApplyOutcome> {
    if RetainedResult(x).Some? then Some(Finished(RetainedResult(x).value)) else None
  }

  /** What a retry is owed: the same result for the same revision, a rejection for another one. */
  function OwedAnswer(x: Retained, revision: Revision): Option<ApplyOutcome> {
    if BoundTo(x, revision) then FinishedWith(x) else Some(RequestRejected)
  }

  /** The answer that a recovery outcome alone decides. */
  function RecoveryAnswer(recovery: Outcome, q: Request): Option<ApplyOutcome> {
    match recovery
    case Escaped => Some(ApplyEscaped)
    case NeedsRecovery(record) => Some(if record.requestIdentity == q.identity then AsReported(recovery)
                                       else RequestRejected)
    case _ => None
  }

  /** How many terminals, the newest first, outlive the recovery at the start of a call. */
  ghost function Room(l: Ledger): int {
    if Settled(l) then RETENTION else RETENTION - 1
  }

  lemma SettledRetires(l: Ledger, t: seq<Event>, t': seq<Event>)
    requires Settled(l) && Attributed(l, t, t')
    ensures OnlyRetires(t, t')
  {
    if !OnlyRetires(t, t') {
      var id :| Unfinished(l, id) && OwnEvents(t, t', l.records[id]);
      assert Unsettled(l, id);
    }
  }

  lemma AttributedCompletes(l: Ledger, t: seq<Event>, t': seq<Event>, id: Id)
    requires Consistent(l) && Attributed(l, t, t') && !Unfinished(l, id)
    ensures NotCompletedAgain(t', |t|, id)
  {
    if !OnlyRetires(t, t') {
      var k :| Unfinished(l, k) && OwnEvents(t, t', l.records[k]);
      assert forall i :: |t| <= i < |t'| ==> Own(t'[i], l.records[k]);
    }
  }

  lemma {:induction false} RetiresOnlyForget(initial: Ledger, t: seq<Event>, t': seq<Event>, id: Id)
    requires OnlyRetires(t, t')
    ensures RetainedOf(Replay(initial, t'), id) in {RetainedOf(Replay(initial, t), id), Nothing}
  {
    if t != t' {
      RetiresOnlyForget(initial, t, t'[..|t'| - 1], id);
    }
  }

  /** A recovery leaves every request but the unfinished one as it was, or retires it. */
  lemma AttributedKeeps(initial: Ledger, t: seq<Event>, t': seq<Event>, id: Id)
    requires Consistent(Replay(initial, t)) && Attributed(Replay(initial, t), t, t') &&
             !Unfinished(Replay(initial, t), id)
    ensures RetainedOf(Replay(initial, t'), id) in {RetainedOf(Replay(initial, t), id), Nothing}
  {
    var l := Replay(initial, t);
    if OnlyRetires(t, t') {
      RetiresOnlyForget(initial, t, t', id);
    } else {
      var k :| Unfinished(l, k) && OwnEvents(t, t', l.records[k]);
      OwnKeepsOthers(initial, t, t', l.records[k]);
    }
  }

  /** What the recovery at the start of a call leaves of a request that it does not conclude. */
  ghost predicate Left(l: Ledger, t: seq<Event>, l': Ledger, t': seq<Event>, id: Id, o: Outcome) {
    && NoWritesOf(id, t, t')
    && RetainedOf(l', id) in {RetainedOf(l, id), Nothing}
    && (Recent(l, id, Room(l)) ==> RetainedOf(l', id) == RetainedOf(l, id))
    && (Ended(l, id) && !Recent(l, id, Room(l)) && (o.Clean? || o.Terminal?) ==> RetainedOf(l', id) == Nothing)
  }

  lemma RecoveryRoom(initial: Ledger, t: seq<Event>, t': seq<Event>, o: Outcome)
    requires Consistent(initial) && Lawful(initial, t') && t <= t'
    requires Recovered(Replay(initial, t), t, Replay(initial, t'), t', o)
    ensures Room(Replay(initial, t)) + Completions(t') - Completions(t) <= RETENTION
    ensures o.Clean? || o.Terminal? ==> Room(Replay(initial, t)) + Completions(t') - Completions(t) == RETENTION
  {
    if Settled(Replay(initial, t)) {
      SettledRetires(Replay(initial, t), t, t');
      RetiresKeep(initial, t, t');
    }
  }

  lemma RecoveryLeaves(initial: Ledger, t: seq<Event>, t': seq<Event>, id: Id, o: Outcome)
    requires Consistent(initial) && Lawful(initial, t') && Consistent(Replay(initial, t)) && t <= t'
    requires Recovered(Replay(initial, t), t, Replay(initial, t'), t', o) && !Unfinished(Replay(initial, t), id)
    requires o.Clean? || o.Terminal? ==> |Replay(initial, t').completed| <= RETENTION
    ensures Left(Replay(initial, t), t, Replay(initial, t'), t', id, o)
  {
    var l, l' := Replay(initial, t), Replay(initial, t');
    assert t'[..|t|] == t;
    AttributedElsewhere(l, t, t', id);
    AttributedKeeps(initial, t, t', id);
    RecoveryRoom(initial, t, t', o);
    if Recent(l, id, Room(l)) {
      RetainedSurvives(initial, t', |t|, id, Room(l));
    } else if o.Clean? || o.Terminal? {
      AttributedCompletes(l, t, t', id);
      RetainedExactly(initial, t', |t|, id);
      assert !Unsettled(l', id);
    }
  }

  /**
   How a call without a new transaction answers, by what the request left behind; `None` where it goes on
   to run the request. A retry of an ended request is rejected if a transaction needs recovery, answered
   if the terminal is recent enough, and otherwise forgotten.
   */
  ghost predicate Answers(l: Ledger, t: seq<Event>, l': Ledger, t': seq<Event>, q: Request, o: Option<ApplyOutcome>) {
    var id := q.identity;
    && (o.None? ==> Settled(l') && RetainedOf(l', id) == Nothing && (RetainedOf(l, id) == Nothing || Ended(l, id)))
    && (o.Some? && o.value.Finished? ==> Durable(l', id, o.value.result))
    && (Ended(l, id) ==> AnsweredAgain(l, t, l', t', q, o))
    && (Unfinished(l, id) ==> o.Some? && Reported(l', l.records[id], o.value))
    && (Blocked(l, id) ==> o == Some(ApplyEscaped) || o == FinishedWith(RetainedOf(l, id)))
    && (RetainedOf(l, id) == Nothing ==>
          o.None? || o == Some(ApplyEscaped) || (o == Some(RequestRejected) && exists k :: Blocked(l', k)))
  }

  ghost predicate AnsweredAgain(l: Ledger, t: seq<Event>, l': Ledger, t': seq<Event>, q: Request,
                                o: Option<ApplyOutcome>) {
    var id := q.identity;
    && NoWritesOf(id, t, t')
    && (Recent(l, id, Room(l)) ==> RetainedOf(l', id) == RetainedOf(l, id))
    && (o == Some(ApplyEscaped) ||
        if exists k :: Blocked(l', k) then o == Some(RequestRejected)
        else if Recent(l, id, Room(l)) then o == OwedAnswer(RetainedOf(l, id), q.revision)
        else o.None?)
  }

  lemma EscapeAnswers(l: Ledger, t: seq<Event>, l': Ledger, t': seq<Event>, q: Request, o: Outcome)
    requires !Unfinished(l, q.identity) ==> Left(l, t, l', t', q.identity, o)
    ensures Answers(l, t, l', t', q, Some(ApplyEscaped))
  {
  }

  lemma BlockedAnswers(l: Ledger, t: seq<Event>, l': Ledger, t': seq<Event>, q: Request, r: Record)
    requires Consistent(l) && Consistent(l') && Blocked(l', r.requestIdentity) && l'.records[r.requestIdentity] == r
    requires !Unfinished(l, q.identity) ==> Left(l, t, l', t', q.identity, NeedsRecovery(r))
    requires Blocked(l, q.identity) ==> r.requestIdentity == q.identity
    ensures var o := RecoveryAnswer(NeedsRecovery(r), q);
            Answers(l, t, l', t', q, o) && o.Some? && !o.value.ApplyEscaped?
  {
  }

  lemma SettledUnblocked(l: Ledger)
    requires Settled(l)
    ensures forall k :: !Blocked(l, k)
  {
    forall k
      ensures !Blocked(l, k)
    {
      assert !Unsettled(l, k);
    }
  }

  lemma RetainedAnswers(l: Ledger, t: seq<Event>, l': Ledger, t': seq<Event>, q: Request, recovery: Outcome)
    requires Consistent(l) && Consistent(l') && Settled(l') && (recovery.Clean? || recovery.Terminal?)
    requires !Unfinished(l, q.identity) ==> Left(l, t, l', t', q.identity, recovery)
    requires Unfinished(l, q.identity) ==> recovery.Terminal? && Truthful(l', l.records[q.identity], recovery.result)
    requires !Blocked(l, q.identity)
    ensures var a := RetainedAnswer(RetainedOf(l', q.identity), q.revision);
            Answers(l, t, l', t', q, a) && a != Some(ApplyEscaped)
  {
    SettledAnswers(l', q.identity, q.revision);
    SettledUnblocked(l');
    if Recent(l, q.identity, Room(l)) {
      RecentHasEnded(l, q.identity, Room(l));
    }
  }

  lemma RecentHasEnded(l: Ledger, id: Id, n: int)
    requires Consistent(l) && Recent(l, id, n)
    ensures Ended(l, id) && !Unfinished(l, id) && !Blocked(l, id) && RetainedOf(l, id) != Nothing
  {
    var i :| 0 <= i < |l.completed| && l.completed[i] == id;
    assert id in l.completed;
  }

  /** Recover, then answer a request that is blocked, unresolved or retained; `None` for a fresh request. */
  method RecoverAndAnswer(w: World, q: Request) returns (o: Option<ApplyOutcome>)
    requires w.Valid()
    modifies w
    ensures w.Valid() && NoForeign(old(w.trace), w.trace)
    ensures Answers(old(w.View()), old(w.trace), w.View(), w.trace, q, o)
    ensures w.troubles >= old(w.troubles) && (o == Some(ApplyEscaped) ==> w.troubles > old(w.troubles))
    ensures w.troubles == old(w.troubles) ==> ((exists k :: Blocked(w.View(), k)) <==> old(Hindered(w.View())))
  {
    ghost var t := w.trace;
    var recovery := Recover(w);
    RecoveryAnswers(w.initial, t, w.trace, q, recovery);
    o := RecoveryAnswer(recovery, q);
    if o.Some? {
      return;
    }
    var retained := w.ReadRetained(q.identity);
    if !retained.Done? {
      return Some(ApplyEscaped);
    }
    o := RetainedAnswer(retained.value, q.revision);
  }

  /** Whatever the recovery came to, the answer that follows from it is the right one. */
  lemma RecoveryAnswers(initial: Ledger, t: seq<Event>, t': seq<Event>, q: Request, recovery: Outcome)
    requires Consistent(initial) && Lawful(initial, t') && t <= t'
    requires Consistent(Replay(initial, t)) && Consistent(Replay(initial, t'))
    requires Recovered(Replay(initial, t), t, Replay(initial, t'), t', recovery)
    requires recovery.Clean? || recovery.Terminal? ==> |Replay(initial, t').completed| <= RETENTION
    ensures NoForeign(t, t')
    ensures var l, l' := Replay(initial, t), Replay(initial, t');
            && Answers(l, t, l', t', q, Some(ApplyEscaped))
            && (recovery.NeedsRecovery? ==>
                  && Answers(l, t, l', t', q, RecoveryAnswer(recovery, q)) &&
                     RecoveryAnswer(recovery, q) != Some(ApplyEscaped)
                  && exists k :: Blocked(l', k))
            && (recovery.Clean? || recovery.Terminal? ==>
                  var a := RetainedAnswer(RetainedOf(l', q.identity), q.revision);
                  Answers(l, t, l', t', q, a) && a != Some(ApplyEscaped) && forall k :: !Blocked(l', k))
  {
    var l, l' := Replay(initial, t), Replay(initial, t');
    AttributedNoForeign(l, t, t');
    if !Unfinished(l, q.identity) {
      RecoveryLeaves(initial, t, t', q.identity, recovery);
    }
    EscapeAnswers(l, t, l', t', q, recovery);
    StillBlocked(initial, l, t, t', q.identity, recovery);
    if recovery.NeedsRecovery? {
      BlockedAnswers(l, t, l', t', q, recovery.record);
    } else if !recovery.Escaped? {
      if Unfinished(l, q.identity) {
        assert Unsettled(l, q.identity);
        ConcludedHere(l, l', q.identity, recovery.result);
      }
      SettledUnblocked(l');
      RetainedAnswers(l, t, l', t', q, recovery);
    }
  }

  /** A blocked transaction stays blocked, so the recovery reports it. */
  lemma StillBlocked(initial: Ledger, l: Ledger, t: seq<Event>, t': seq<Event>, id: Id, recovery: Outcome)
    requires Consistent(initial) && Lawful(initial, t') && l == Replay(initial, t) && Consistent(l) && t <= t'
    requires Consistent(Replay(initial, t')) && Recovered(l, t, Replay(initial, t'), t', recovery)
    ensures Blocked(l, id) && !recovery.Escaped? ==> recovery.NeedsRecovery? && recovery.record.requestIdentity == id
  {
    if Blocked(l, id) && !recovery.Escaped? {
      assert Unsettled(l, id);
      BlockedRetires(l, t, t', id);
      RetiresKeep(initial, t, t');
      assert Unsettled(Replay(initial, t'), id);
      if recovery.NeedsRecovery? {
        assert Unsettled(Replay(initial, t'), recovery.record.requestIdentity);
      }
    }
  }

  lemma BlockedRetires(l: Ledger, t: seq<Event>, t': seq<Event>, id: Id)
    requires Consistent(l) && Attributed(l, t, t') && Blocked(l, id)
    ensures OnlyRetires(t, t')
  {
    if !OnlyRetires(t, t') {
      var k :| Unfinished(l, k) && OwnEvents(t, t', l.records[k]);
      assert Unsettled(l, k) && Unsettled(l, id);
    }
  }

  /**
   The exact answer of a call in which nothing fails or deviates, to a request that has ended: rejected if
   a transaction needs recovery, else the retained result if fewer than 256 others completed after it,
   the one that this call recovers included, and else a new transaction.
   */
  ghost predicate ExactRetry(l: Ledger, q: Request, o: ApplyOutcome, made: Option<Record>) {
    if Hindered(l) then o == RequestRejected && made.None?
    else if Recent(l, q.identity, Room(l)) then
      Some(o) == OwedAnswer(RetainedOf(l, q.identity), q.revision) && made.None?
    else made.Some? && o == Finished(Accepted(made.value.transactionId, made.value.plan.staged))
  }

  /**
   `executePreparedSemanticMutationApply`. In every run, with any failures and any crash:
   - the history stays lawful, so whatever is recovered later starts from a consistent workspace;
   - a reported result is durable;
   - a transaction that this call finishes, its own or the same request's from an earlier run, is
     reported truthfully;
   - a retry of a recent terminal keeps it, writes no source, and gets the same result unless a
     transaction needs recovery;
   - an error escapes only after a port failed.
   When nothing fails or deviates, the answer is exact: see `ExactRetry` for ended requests; a request
   that left nothing behind is accepted, unless a transaction needs recovery.
   */
  method Apply(w: World, q: Request) returns (o: ApplyOutcome, ghost made: Option<Record>)
    requires w.Valid()
    modifies w
    ensures w.Valid() && NoForeign(old(w.trace), w.trace)
    ensures o.Finished? ==> Durable(w.View(), q.identity, o.result)
    ensures made.Some? ==> made.value.requestIdentity == q.identity && made.value.planRevision == q.expectedPlanRevision
    ensures made.Some? ==> Reported(w.View(), made.value, o)
    ensures old(Unfinished(w.View(), q.identity)) ==> made.None? && Reported(w.View(), old(w.records[q.identity]), o)
    ensures old(Blocked(w.View(), q.identity)) ==>
              made.None? && (o.ApplyEscaped? || Some(o) == FinishedWith(old(RetainedOf(w.View(), q.identity))))
    ensures old(Ended(w.View(), q.identity) && Recent(w.View(), q.identity, Room(w.View()))) ==>
              made.None? && AnsweredAgain(old(w.View()), old(w.trace), w.View(), w.trace, q, Some(o))
    ensures w.troubles >= old(w.troubles) && (o.ApplyEscaped? ==> w.troubles > old(w.troubles))
    ensures w.troubles == old(w.troubles) && old(Ended(w.View(), q.identity)) ==> ExactRetry(old(w.View()), q, o, made)
    ensures w.troubles == old(w.troubles) && old(RetainedOf(w.View(), q.identity)) == Nothing ==>
              if old(Hindered(w.View())) then o == RequestRejected && made.None?
              else made.Some? && o == Finished(Accepted(made.value.transactionId, made.value.plan.staged))
  {
    ghost var t := w.trace;
    var answer := RecoverAndAnswer(w, q);
    SettledOrBlocked(w.View());
    if answer.Some? {
      return answer.value, None;
    }
    ghost var t1 := w.trace;
    o, made := ApplyFresh(w, q);
    assert NoForeign(t1, w.trace);
    NoForeignThen(t, t1, w.trace);
  }

  lemma SettledOrBlocked(l: Ledger)
    ensures Settled(l) ==> forall k :: !Blocked(l, k)
  {
    if Settled(l) {
      SettledUnblocked(l);
    }
  }

  ghost predicate NoForeign(before: seq<Event>, after: seq<Event>) {
    before <= after && forall i :: |before| <= i < |after| ==> !after[i].Foreign?
  }

  lemma AttributedNoForeign(l: Ledger, t: seq<Event>, t': seq<Event>)
    requires Attributed(l, t, t')
    ensures NoForeign(t, t')
  {
    if !OnlyRetires(t, t') {
      var k :| Unfinished(l, k) && OwnEvents(t, t', l.records[k]);
      assert forall i :: |t| <= i < |t'| ==> Own(t'[i], l.records[k]);
    }
  }

  lemma NoForeignThen(t: seq<Event>, t1: seq<Event>, t': seq<Event>)
    requires NoForeign(t, t1) && NoForeign(t1, t')
    ensures NoForeign(t, t')
  {
    assert forall i :: |t| <= i < |t1| ==> t'[i] == t1[i];
  }
}
