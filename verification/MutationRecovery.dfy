/**
 Crash recovery of one journal record and of the workspace
 (`src/application/semantic-mutation-record-recovery.ts`,
 `src/application/semantic-mutation-recovery-coordinator.ts`).
 */
module MutationRecovery {
  import opened Options
  import opened MutationRecord
  import opened MutationLedger
  import opened MutationWorld

  /** Escaped: an error left the operation, or the process crashed. */
  datatype Outcome = Clean | Terminal(result: Result) | NeedsRecovery(record: Record) | Escaped

  /** `r` is the latest record of an unfinished transaction. */
  ghost predicate Current(l: Ledger, r: Record) {
    Unfinished(l, r.requestIdentity) && l.records[r.requestIdentity] == r
  }

  function RetainedResult(x: Retained): Option<Result> {
    match x
    case Nothing => None
    case RejectedBefore(rejection) => Some(rejection.result)
    case Recorded(record) => record.result
  }

  /** A reported terminal is durable and tells the truth about the live bytes. */
  ghost predicate Truthful(l: Ledger, r: Record, result: Result) {
    && RetainedResult(RetainedOf(l, r.requestIdentity)) == Some(result)
    && Recent(l, r.requestIdentity, 1)
    && match result
       case Accepted(_, _) => LiveIs(l, r.path, r.committed)
       case RolledBackResult(_) => LiveIs(l, r.path, r.before)
       case Rejected(_, _) => LiveIs(l, r.path, r.before)
       case RecoveryResult(_, _) => false
  }

  /** What may happen while one transaction is handled: its own steps, and retirement of old terminals. */
  predicate Own(e: Event, r: Record) {
    match e
    case Append(x) => SameTransaction(x, r)
    case Reject(id, _) => id == r.requestIdentity
    case Replace(owner, path, _, _) => owner == r.requestIdentity && path == r.path
    case Retire(_, _) => true
    case Foreign(_, _) => false
  }

  ghost predicate OwnEvents(before: seq<Event>, after: seq<Event>, r: Record) {
    before <= after && forall i :: |before| <= i < |after| ==> Own(after[i], r)
  }

  /** Every way in which handling the record `r` may end. */
  ghost predicate Handled(t: seq<Event>, l': Ledger, t': seq<Event>, r: Record, o: Outcome) {
    && OwnEvents(t, t', r)
    && Completions(t) <= Completions(t') <= Completions(t) + 1
    && match o
       case Clean => false
       case Terminal(result) => Truthful(l', r, result) && Settled(l') && Completions(t') == Completions(t) + 1
       case NeedsRecovery(x) => Blocked(l', r.requestIdentity) && l'.records[r.requestIdentity] == x &&
                                SameTransaction(x, r)
       case Escaped => true
  }

  /** Nothing is written to any source. */
  ghost predicate NoWrites(before: seq<Event>, after: seq<Event>) {
    before <= after && forall i :: |before| <= i < |after| ==> !after[i].Replace? && !after[i].Foreign?
  }

  lemma EndSettles(l: Ledger, r: Record, e: Event)
    requires Consistent(l) && Current(l, r) && Safe(l, e) && Completes(e)
    requires e.Reject? ==> e.id == r.requestIdentity
    requires e.Append? ==> e.record.requestIdentity == r.requestIdentity
    ensures Settled(Next(l, e)) && Recent(Next(l, e), r.requestIdentity, 1)
  {
    var n := Next(l, e);
    var id := r.requestIdentity;
    assert Unsettled(l, id);
    assert forall k :: k != id ==> (Unsettled(n, k) <==> Unsettled(l, k));
    assert n.completed[|n.completed| - 1] == id;
  }

  /** The latest record of the root is one of this transaction. */
  ghost predicate Latest(l: Ledger, r: Record) {
    r.requestIdentity in l.records && r.requestIdentity !in l.rejected &&
    SameTransaction(l.records[r.requestIdentity], r)
  }

  /** Append a safe record of this transaction; it may take effect and still throw. */
  method AppendOwn(w: World, r: Record, draft: Record) returns (reply: Reply<Record>)
    requires w.Valid() && Latest(w.View(), r) && SameTransaction(draft, r) && Safe(w.View(), Append(draft))
    requires !draft.state.Prepared?
    modifies w
    ensures w.Valid() && Latest(w.View(), r) && w.live == old(w.live)
    ensures w.Idle() || w.View() == Next(old(w.View()), Append(draft))
    ensures reply.Done? ==> reply.value == draft && w.View() == Next(old(w.View()), Append(draft))
    ensures OwnEvents(old(w.trace), w.trace, r) && NoWrites(old(w.trace), w.trace)
    ensures Completions(old(w.trace)) <= Completions(w.trace)
    ensures Completions(w.trace) <= Completions(old(w.trace)) + (if IsTerminal(draft.state) then 1 else 0)
    ensures reply.Done? && IsTerminal(draft.state) ==> Completions(w.trace) == Completions(old(w.trace)) + 1
    ensures w.troubles >= old(w.troubles) && (reply.Done? || w.troubles > old(w.troubles))
  {
    reply := w.Append(draft);
  }

  /** `markRecoveryRequired`; the journal refuses it for a transaction that ended after all. */
  method MarkRecoveryRequired(w: World, r: Record, failure: FailureState) returns (o: Outcome)
    requires w.Valid() && Latest(w.View(), r)
    modifies w
    ensures w.Valid() && Handled(old(w.trace), w.View(), w.trace, r, o)
    ensures !o.Terminal? && w.live == old(w.live) && NoWrites(old(w.trace), w.trace)
    ensures Completions(w.trace) == Completions(old(w.trace))
    ensures w.troubles >= old(w.troubles)
    ensures old(Unfinished(w.View(), r.requestIdentity)) ==>
              o == NeedsRecovery(RequiredRecord(r, failure)) || w.troubles > old(w.troubles)
  {
    var draft := RequiredRecord(r, failure);
    assert Unfinished(w.View(), r.requestIdentity) ==> Safe(w.View(), Append(draft));
    var reply := w.Append(draft);
    return if reply.Done? then NeedsRecovery(reply.value) else Escaped;
  }

  /** Append a terminal record; failing to append it leaves the transaction for recovery. */
  method AppendTerminal(w: World, r: Record, draft: Record, failure: FailureState) returns (o: Outcome)
    requires w.Valid() && Current(w.View(), r) && Safe(w.View(), Append(draft))
    requires IsTerminal(draft.state) && draft.result.Some? && SameTransaction(draft, r)
    requires Truthful(Next(w.View(), Append(draft)), r, draft.result.value)
    modifies w
    ensures w.Valid() && Handled(old(w.trace), w.View(), w.trace, r, o)
    ensures o.Terminal? ==> o.result == draft.result.value
    ensures w.live == old(w.live) && NoWrites(old(w.trace), w.trace)
    ensures w.troubles >= old(w.troubles) && (o.Terminal? || w.troubles > old(w.troubles))
  {
    EndSettles(w.View(), r, Append(draft));
    ghost var t := w.trace;
    var reply := AppendOwn(w, r, draft);
    if reply.Done? {
      return Terminal(draft.result.value);
    }
    if reply.Crashed? || reply.kind.Boundary? {
      return Escaped;
    }
    ghost var t1 := w.trace;
    o := MarkRecoveryRequired(w, r, failure);
    OwnThen(t, t1, w.trace, r);
  }

  lemma OwnThen(t: seq<Event>, t1: seq<Event>, t': seq<Event>, r: Record)
    requires OwnEvents(t, t1, r) && OwnEvents(t1, t', r)
    ensures OwnEvents(t, t', r)
    ensures NoWrites(t, t1) && NoWrites(t1, t') ==> NoWrites(t, t')
  {
    assert forall i :: |t| <= i < |t1| ==> t'[i] == t1[i];
  }

  lemma RolledBackIsTruthful(l: Ledger, r: Record)
    requires Consistent(l) && Current(l, r) && r.state.AuthoringCommitted? && LiveIs(l, r.path, r.before)
    ensures Safe(l, Append(RolledBackRecord(r)))
    ensures Truthful(Next(l, Append(RolledBackRecord(r))), r, RolledBackResult(r.transactionId))
  {
    EndSettles(l, r, Append(RolledBackRecord(r)));
  }

  lemma AcceptedIsTruthful(l: Ledger, r: Record, live: Endpoint)
    requires Consistent(l) && Current(l, r) && r.state.AuthoringCommitted? && LiveIs(l, r.path, r.committed)
    ensures Safe(l, Append(AcceptedRecord(r, live)))
    ensures Truthful(Next(l, Append(AcceptedRecord(r, live))), r, Accepted(r.transactionId, live))
  {
    EndSettles(l, r, Append(AcceptedRecord(r, live)));
  }

  /** Swap the live bytes of a transaction, forwards while it is prepared and backwards while it is committed. */
  method SwapSource(w: World, r: Record, path: Path, from: Digest, to: Digest) returns (reply: Reply<()>)
    requires w.Valid() && Current(w.View(), r) && path == r.path
    requires if r.state.Prepared? then from == r.before && to == r.committed else from == r.committed && to == r.before
    modifies w
    ensures w.Valid() && Current(w.View(), r)
    ensures OwnEvents(old(w.trace), w.trace, r) && Completions(w.trace) == Completions(old(w.trace))
    ensures reply.Done? ==> LiveIs(w.View(), r.path, to)
    ensures w.troubles >= old(w.troubles)
    ensures reply.Done? || w.troubles > old(w.troubles) ||
            (reply == Threw(NotOurs) && old(!LiveIs(w.View(), r.path, from)))
  {
    assert LiveIs(w.View(), path, from) ==> Safe(w.View(), Replace(r.requestIdentity, path, from, to));
    reply := w.ReplaceSource(r.requestIdentity, path, from, to);
  }

  /** `rollbackCommitted` */
  method RollbackCommitted(w: World, r: Record) returns (o: Outcome)
    requires w.Valid() && Current(w.View(), r) && r.state.AuthoringCommitted?
    modifies w
    ensures w.Valid() && Handled(old(w.trace), w.View(), w.trace, r, o)
    ensures o.Terminal? ==> o.result == RolledBackResult(r.transactionId)
    ensures w.troubles >= old(w.troubles) && (o.Escaped? ==> w.troubles > old(w.troubles))
    ensures w.troubles == old(w.troubles) && old(LiveIs(w.View(), r.path, r.committed)) ==> o.Terminal?
  {
    ghost var t := w.trace;
    var restored := SwapSource(w, r, r.path, r.committed, r.before);
    if restored.Crashed? || (restored.Threw? && restored.kind.Boundary?) {
      return Escaped;
    }
    ghost var t1 := w.trace;
    if restored.Threw? {
      o := MarkRecoveryRequired(w, r, if restored.kind.NotOurs? then ConcurrentWrite else RollbackFailed);
    } else {
      o := ConcludeRollback(w, r);
    }
    HandledLater(t, t1, w.View(), w.trace, r, r, o);
  }

  /** The original bytes are live again: confirm that they rebuild the base, and record the rollback. */
  method ConcludeRollback(w: World, r: Record) returns (o: Outcome)
    requires w.Valid() && Current(w.View(), r) && r.state.AuthoringCommitted? && LiveIs(w.View(), r.path, r.before)
    modifies w
    ensures w.Valid() && Handled(old(w.trace), w.View(), w.trace, r, o)
    ensures o.Terminal? ==> o.result == RolledBackResult(r.transactionId)
    ensures w.troubles >= old(w.troubles) && (o.Terminal? || w.troubles > old(w.troubles))
  {
    var rebuilt := w.AskFor(r.plan.base);
    if rebuilt.Crashed? || (rebuilt.Threw? && rebuilt.kind.Boundary?) {
      return Escaped;
    }
    if rebuilt.Threw? {
      o := MarkRecoveryRequired(w, r, if rebuilt.kind.NotOurs? then ConcurrentWrite else RollbackFailed);
      return;
    }
    if rebuilt.value != r.plan.base {
      o := MarkRecoveryRequired(w, r, RebuildFailed);
      return;
    }
    RolledBackIsTruthful(w.View(), r);
    o := AppendTerminal(w, r, RolledBackRecord(r), RollbackFailed);
  }

  /** `completeCommitted` */
  method CompleteCommitted(w: World, r: Record, withProof: bool) returns (o: Outcome)
    requires w.Valid() && Current(w.View(), r) && r.state.AuthoringCommitted?
    modifies w
    ensures w.Valid() && Handled(old(w.trace), w.View(), w.trace, r, o)
    ensures o.Terminal? ==>
              o.result == RolledBackResult(r.transactionId) || o.result == Accepted(r.transactionId, r.plan.staged)
    ensures w.troubles >= old(w.troubles) && (o.Escaped? ==> w.troubles > old(w.troubles))
    ensures w.troubles == old(w.troubles) && old(LiveIs(w.View(), r.path, r.committed)) ==>
              o == Terminal(Accepted(r.transactionId, r.plan.staged))
  {
    if withProof {
      var bound := w.Ask<()>();
      if bound.Crashed? || (bound.Threw? && bound.kind.Boundary?) {
        return Escaped;
      }
      if bound.Threw? {
        o := RollbackCommitted(w, r);
        return;
      }
    }
    var accepted := w.AskFor(r.plan.staged);
    if accepted.Crashed? || (accepted.Threw? && accepted.kind.Boundary?) {
      return Escaped;
    }
    if accepted.Threw? {
      o := RollbackCommitted(w, r);
      return;
    }
    var current := w.Observe(r.path);
    if current.Crashed? || (current.Threw? && current.kind.Boundary?) {
      return Escaped;
    }
    if current.Threw? || accepted.value != r.plan.staged || current.value != r.committed {
      o := RollbackCommitted(w, r);
      return;
    }
    AcceptedIsTruthful(w.View(), r, accepted.value);
    o := AppendTerminal(w, r, AcceptedRecord(r, accepted.value), RebuildFailed);
  }

  // ----- rejecting a prepared transaction

  /** The rejection was written, and then at most old terminals were retired. */
  ghost predicate RejectedThenPruned(t: seq<Event>, t': seq<Event>, id: Id, rejection: Rejection) {
    OnlyRetires(t + [Reject(id, rejection)], t')
  }

  /** Write the rejected terminal, then prune; `publishRejected` settles its transaction atomically. */
  method PublishRejected(w: World, id: Id, rejection: Rejection) returns (reply: Reply<()>)
    requires w.Valid() && Safe(w.View(), Reject(id, rejection))
    modifies w
    ensures w.Valid()
    ensures w.Idle() || RejectedThenPruned(old(w.trace), w.trace, id, rejection)
    ensures reply.Done? ==> RejectedThenPruned(old(w.trace), w.trace, id, rejection)
    ensures w.troubles >= old(w.troubles) && (reply.Done? || w.troubles > old(w.troubles))
  {
    reply := w.WriteRejected(id, rejection);
    if !reply.Done? {
      return;
    }
    reply := w.Prune();
  }

  lemma RejectedLast(l: Ledger, n: Ledger, id: Id, rejection: Rejection)
    requires n == Next(l, Reject(id, rejection))
    ensures Recent(n, id, 1) && RetainedOf(n, id) == RejectedBefore(rejection) && n.live == l.live
    ensures forall k :: Unsettled(n, k) <==> Unsettled(l, k) && k != id
  {
    assert n.completed[|n.completed| - 1] == id;
  }

  /** What a published rejection leaves behind. */
  lemma RejectionStands(initial: Ledger, t: seq<Event>, t': seq<Event>, id: Id, rejection: Rejection)
    requires Consistent(initial) && Lawful(initial, t') && RejectedThenPruned(t, t', id, rejection)
    ensures var l, l' := Replay(initial, t), Replay(initial, t');
            && l'.live == l.live && Recent(l', id, 1) && RetainedOf(l', id) == RejectedBefore(rejection)
            && (forall k :: Unsettled(l', k) <==> Unsettled(l, k) && k != id)
    ensures Completions(t') == Completions(t) + 1
  {
    var t1 := t + [Reject(id, rejection)];
    assert t1[..|t|] == t && t'[..|t1|] == t1;
    RejectedLast(Replay(initial, t), Replay(initial, t1), id, rejection);
    RetiresKeep(initial, t1, t');
    RetainedSurvives(initial, t', |t1|, id, 1);
  }

  lemma RejectionIsOwn(t: seq<Event>, t': seq<Event>, r: Record, rejection: Rejection)
    requires RejectedThenPruned(t, t', r.requestIdentity, rejection)
    ensures OwnEvents(t, t', r) && NoWrites(t, t')
  {
    assert t'[|t|] == Reject(r.requestIdentity, rejection);
  }

  /** Rejecting a transaction whose original bytes are live ends it truthfully. */
  lemma RejectionHandles(initial: Ledger, t: seq<Event>, t': seq<Event>, r: Record, rejection: Rejection)
    requires Consistent(initial) && Lawful(initial, t') && RejectedThenPruned(t, t', r.requestIdentity, rejection)
    requires rejection.result.Rejected? && LiveIs(Replay(initial, t), r.path, r.before)
    requires Consistent(Replay(initial, t)) && Current(Replay(initial, t), r)
    ensures Handled(t, Replay(initial, t'), t', r, Terminal(rejection.result))
  {
    RejectionStands(initial, t, t', r.requestIdentity, rejection);
    RejectionIsOwn(t, t', r, rejection);
    assert Unsettled(Replay(initial, t), r.requestIdentity);
  }

  /** Publish a rejection of the prepared transaction `r`. */
  method RejectWith(w: World, r: Record, rejection: Rejection) returns (o: Outcome)
    requires w.Valid() && Current(w.View(), r) && r.state.Prepared? && LiveIs(w.View(), r.path, r.before)
    requires rejection.result.Rejected?
    modifies w
    ensures w.Valid() && Handled(old(w.trace), w.View(), w.trace, r, o)
    ensures o.Terminal? ==> o.result == rejection.result
    ensures w.live == old(w.live) && NoWrites(old(w.trace), w.trace)
    ensures w.troubles >= old(w.troubles) && (o.Terminal? || w.troubles > old(w.troubles))
  {
    ghost var t := w.trace;
    var reply := PublishRejected(w, r.requestIdentity, rejection);
    if w.trace != t {
      RejectionHandles(w.initial, t, w.trace, r, rejection);
      RejectionIsOwn(t, w.trace, r, rejection);
      RejectionStands(w.initial, t, w.trace, r.requestIdentity, rejection);
    }
    return if reply.Done? then Terminal(rejection.result) else Escaped;
  }

  /** `rejectPrepared` */
  method RejectPrepared(w: World, r: Record) returns (o: Outcome)
    requires w.Valid() && Current(w.View(), r) && r.state.Prepared? && LiveIs(w.View(), r.path, r.before)
    modifies w
    ensures w.Valid() && Handled(old(w.trace), w.View(), w.trace, r, o)
    ensures o.Terminal? ==> o.result == PreparedRejection(r)
    ensures w.live == old(w.live) && NoWrites(old(w.trace), w.trace)
    ensures w.troubles >= old(w.troubles) && (o.Terminal? || w.troubles > old(w.troubles))
  {
    o := RejectWith(w, r, Rejection(r.requestRevision, r.planRevision, PreparedRejection(r)));
  }

  // ----- one record

  datatype Evidence = Reproduced(artifacts: Artifacts) | Irreproducible | Abandoned

  /** Reproduce the evidence of a prepared transaction and compare it with the record. */
  method ReproduceEvidence(w: World, r: Record) returns (p: Evidence)
    modifies w`troubles
    ensures w.troubles >= old(w.troubles) && (p.Reproduced? || w.troubles > old(w.troubles))
    ensures p.Reproduced? ==>
              p.artifacts.edit.path == r.path && p.artifacts.edit.before == r.before &&
              p.artifacts.edit.staged == r.committed
    ensures p.Reproduced? ==>
              p.artifacts.edit.revision == r.editPlanRevision && p.artifacts.manifest == r.rollbackManifest
    ensures p.Reproduced? ==> p.artifacts.original == r.before && p.artifacts.stagedBytes == r.committed
  {
    var derived := w.Ask<Derivation>();
    if derived.Crashed? || (derived.Threw? && derived.kind.Boundary?) {
      return Abandoned;
    }
    if derived.Threw? || !derived.value.Derived? {
      w.Note();
      return Irreproducible;
    }
    var verification := w.Ask<Verification>();
    if verification.Crashed? || (verification.Threw? && verification.kind.Boundary?) {
      return Abandoned;
    }
    if verification.Threw? {
      return Irreproducible;
    }
    var artifacts := w.Ask<Artifacts>();
    if artifacts.Crashed? || (artifacts.Threw? && artifacts.kind.Boundary?) {
      return Abandoned;
    }
    if artifacts.Threw? || !ExactBinding(r, derived.value.ready, verification.value, artifacts.value) {
      w.Note();
      return Irreproducible;
    }
    return Reproduced(artifacts.value);
  }

  /** Publish a prepared transaction again, or end it: `None` when it is published. */
  method RepublishPrepared(w: World, r: Record) returns (o: Option<Outcome>)
    requires w.Valid() && Current(w.View(), r) && r.state.Prepared? && LiveIs(w.View(), r.path, r.before)
    modifies w
    ensures w.Valid()
    ensures o.Some? ==>
              Handled(old(w.trace), w.View(), w.trace, r, o.value) && (o.value.Terminal? ==> o.value.result.Rejected?)
    ensures o.None? ==> Current(w.View(), r) && LiveIs(w.View(), r.path, r.committed)
    ensures o.None? ==> OwnEvents(old(w.trace), w.trace, r) && Completions(w.trace) == Completions(old(w.trace))
    ensures w.troubles >= old(w.troubles) && (o.None? || w.troubles > old(w.troubles))
  {
    var base := w.Ask<()>();
    if base.Crashed? || (base.Threw? && base.kind.Boundary?) {
      return Some(Escaped);
    }
    if base.Threw? {
      var marked := MarkRecoveryRequired(w, r, RebuildFailed);
      return Some(marked);
    }
    var evidence := ReproduceEvidence(w, r);
    if evidence.Abandoned? {
      return Some(Escaped);
    }
    if evidence.Irreproducible? {
      var rejected := RejectPrepared(w, r);
      return Some(rejected);
    }
    var edit := evidence.artifacts.edit;
    var published := SwapSource(w, r, edit.path, edit.before, edit.staged);
    return if published.Done? then None else Some(Escaped);
  }

  /** Record the commit of a transaction whose staged bytes are live. */
  method RecordCommit(w: World, r: Record) returns (reply: Reply<Record>)
    requires w.Valid() && Current(w.View(), r) && r.state.Prepared? && LiveIs(w.View(), r.path, r.committed)
    modifies w
    ensures w.Valid() && w.live == old(w.live)
    ensures OwnEvents(old(w.trace), w.trace, r) && Completions(w.trace) == Completions(old(w.trace))
    ensures NoWrites(old(w.trace), w.trace)
    ensures reply.Done? ==> reply.value == Committed(r) && Current(w.View(), Committed(r))
    ensures Latest(w.View(), r) && Unfinished(w.View(), r.requestIdentity)
    ensures w.troubles >= old(w.troubles) && (reply.Done? || w.troubles > old(w.troubles))
  {
    reply := AppendOwn(w, r, Committed(r));
  }

  /** An authoring-committed transaction whose original bytes are live again. */
  method ConfirmRestored(w: World, r: Record) returns (o: Outcome)
    requires w.Valid() && Current(w.View(), r) && r.state.AuthoringCommitted? && LiveIs(w.View(), r.path, r.before)
    modifies w
    ensures w.Valid() && Handled(old(w.trace), w.View(), w.trace, r, o)
    ensures o.Terminal? ==> o.result == RolledBackResult(r.transactionId)
    ensures w.troubles >= old(w.troubles) && (o.Terminal? || w.troubles > old(w.troubles))
  {
    var restored := w.AskFor(r.plan.base);
    if restored.Crashed? || (restored.Threw? && restored.kind.Boundary?) {
      return Escaped;
    }
    if restored.Threw? || restored.value != r.plan.base {
      o := MarkRecoveryRequired(w, r, RestoreValidationFailed);
      return;
    }
    RolledBackIsTruthful(w.View(), r);
    EndSettles(w.View(), r, Append(RolledBackRecord(r)));
    var reply := AppendOwn(w, r, RolledBackRecord(r));
    return if reply.Done? then Terminal(RolledBackResult(r.transactionId)) else Escaped;
  }

  lemma HandledLater(t: seq<Event>, t1: seq<Event>, l': Ledger, t': seq<Event>, r: Record, r1: Record, o: Outcome)
    requires OwnEvents(t, t1, r) && Completions(t1) == Completions(t) && SameTransaction(r1, r)
    requires Handled(t1, l', t', r1, o)
    ensures Handled(t, l', t', r, o)
  {
    forall i | |t| <= i < |t'|
      ensures Own(t'[i], r)
    {
      if i < |t1| {
        assert t'[i] == t1[i];
      } else {
        assert Own(t'[i], r1);
      }
    }
  }

  /**
   `recoverSemanticMutationRecord`. Bytes that belong to neither digest of the transaction are never
   overwritten and never end it. When no port fails and every answer is the expected one, a prepared or
   published transaction is accepted, a restored one is rolled back, and foreign bytes need recovery.
   */
  method RecoverRecord(w: World, r: Record) returns (o: Outcome)
    requires w.Valid() && r.requestIdentity in w.records && w.records[r.requestIdentity] == r &&
             r.requestIdentity !in w.rejected
    modifies w
    ensures w.Valid()
    ensures IsTerminal(r.state) ==> o.Escaped? && w.Idle()
    ensures r.state.RecoveryRequired? ==> o == NeedsRecovery(r) && w.Idle()
    ensures IsUnfinished(r.state) ==> Handled(old(w.trace), w.View(), w.trace, r, o)
    ensures old(!LiveIs(w.View(), r.path, r.before) && !LiveIs(w.View(), r.path, r.committed)) ==>
              !o.Terminal? && w.live == old(w.live) && NoWrites(old(w.trace), w.trace)
    ensures w.troubles >= old(w.troubles)
    ensures w.troubles == old(w.troubles) && IsUnfinished(r.state) ==> old(SmoothEnd(w.View(), r)) == EndOf(o)
  {
    if IsTerminal(r.state) {
      return Escaped;
    }
    if r.state.RecoveryRequired? {
      return NeedsRecovery(r);
    }
    var residue := w.Ask<()>();
    if residue.Crashed? || (residue.Threw? && residue.kind.Boundary?) {
      return Escaped;
    }
    if residue.Threw? {
      o := MarkRecoveryRequired(w, r, RollbackFailed);
      return;
    }
    var digest := w.Observe(r.path);
    if digest.Crashed? || (digest.Threw? && digest.kind.Boundary?) {
      return Escaped;
    }
    if digest.Threw? || (digest.value != r.before && digest.value != r.committed) {
      o := MarkRecoveryRequired(w, r, ConcurrentWrite);
      return;
    }
    o := RecoverOwned(w, r, digest.value);
  }

  datatype End = Accepts | RollsBack | Rejects | Stops | Escapes | NothingDone

  /** How an outcome ends. */
  function EndOf(o: Outcome): End {
    match o
    case Clean => NothingDone
    case Escaped => Escapes
    case NeedsRecovery(_) => Stops
    case Terminal(result) => if result.Accepted? then Accepts else if result.RolledBackResult? then RollsBack
                             else Rejects
  }

  /** How recovering an unfinished transaction ends when nothing goes wrong. */
  predicate Owned(l: Ledger, r: Record) {
    LiveIs(l, r.path, r.before) || LiveIs(l, r.path, r.committed)
  }

  function SmoothEnd(l: Ledger, r: Record): End {
    if !Owned(l, r) then Stops
    else if r.state.AuthoringCommitted? && LiveIs(l, r.path, r.before) then RollsBack
    else Accepts
  }

  /** The live bytes are one of the transaction's own. */
  method RecoverOwned(w: World, r: Record, digest: Digest) returns (o: Outcome)
    requires w.Valid() && Current(w.View(), r) && LiveIs(w.View(), r.path, digest) &&
             (digest == r.before || digest == r.committed)
    modifies w
    ensures w.Valid() && Handled(old(w.trace), w.View(), w.trace, r, o)
    ensures w.troubles >= old(w.troubles)
    ensures w.troubles == old(w.troubles) ==> old(SmoothEnd(w.View(), r)) == EndOf(o)
  {
    if r.state.AuthoringCommitted? {
      if digest == r.before {
        o := ConfirmRestored(w, r);
      } else {
        o := CompleteCommitted(w, r, false);
      }
      return;
    }
    ghost var t := w.trace;
    if digest == r.before {
      var ended := RepublishPrepared(w, r);
      if ended.Some? {
        return ended.value;
      }
    }
    ghost var t1 := w.trace;
    var committed := RecordCommit(w, r);
    ghost var t2 := w.trace;
    assert OwnEvents(t, t2, r) && Completions(t2) == Completions(t);
    if !committed.Done? {
      return Escaped;
    }
    o := CompleteCommitted(w, committed.value, false);
    HandledLater(t, t2, w.View(), w.trace, r, committed.value, o);
  }

  // ----- the workspace

  /** Everything a recovery does belongs to the transaction that was unfinished when it began. */
  ghost predicate Attributed(l: Ledger, before: seq<Event>, after: seq<Event>) {
    OnlyRetires(before, after) || exists id :: Unfinished(l, id) && OwnEvents(before, after, l.records[id])
  }

  /** Nothing happens to the other roots, except that old terminals may be retired. */
  ghost predicate OthersKept(l: Ledger, l': Ledger, owner: Id) {
    forall id :: id != owner ==> RetainedOf(l', id) == RetainedOf(l, id) || RetainedOf(l', id) == Nothing
  }

  lemma {:induction false} OwnKeepsOthers(initial: Ledger, before: seq<Event>, after: seq<Event>, r: Record)
    requires OwnEvents(before, after, r)
    ensures OthersKept(Replay(initial, before), Replay(initial, after), r.requestIdentity)
  {
    if before != after {
      var n := |after| - 1;
      assert Own(after[n], r);
      OwnKeepsOthers(initial, before, after[..n], r);
    }
  }

  /** A terminal that a recovery reports belongs to the transaction that was unfinished when it began. */
  ghost predicate Concluded(l: Ledger, l': Ledger, result: Result) {
    exists id :: Unfinished(l, id) && Truthful(l', l.records[id], result)
  }

  lemma PrunedStillTruthful(initial: Ledger, t: seq<Event>, t': seq<Event>, r: Record, result: Result)
    requires Consistent(initial) && Lawful(initial, t') && OnlyRetires(t, t') && Truthful(Replay(initial, t), r, result)
    ensures Truthful(Replay(initial, t'), r, result)
  {
    RetiresKeep(initial, t, t');
    assert t'[..|t|] == t;
    RetainedSurvives(initial, t', |t|, r.requestIdentity, 1);
  }

  lemma HandledPruned(initial: Ledger, t: seq<Event>, t1: seq<Event>, t': seq<Event>, r: Record, o: Outcome)
    requires Consistent(initial) && Lawful(initial, t') && OnlyRetires(t1, t')
    requires Handled(t, Replay(initial, t1), t1, r, o)
    ensures Handled(t, Replay(initial, t'), t', r, o)
  {
    RetiresKeep(initial, t1, t');
    OwnThenRetires(t, t1, t', r);
    if o.Terminal? {
      PrunedStillTruthful(initial, t1, t', r, o.result);
    }
    if o.NeedsRecovery? {
      assert Unsettled(Replay(initial, t1), r.requestIdentity);
    }
  }

  /** Prune, and keep what was concluded before. */
  method PruneAfter(w: World, ghost t: seq<Event>, r: Record, o: Outcome) returns (last: Outcome)
    requires w.Valid() && Handled(t, w.View(), w.trace, r, o)
    modifies w
    ensures w.Valid() && Handled(t, w.View(), w.trace, r, last) && (last == o || last.Escaped?)
    ensures w.troubles >= old(w.troubles) && (last == o || w.troubles > old(w.troubles))
  {
    ghost var t1 := w.trace;
    var pruned := w.Prune();
    HandledPruned(w.initial, t, t1, w.trace, r, o);
    return if pruned.Done? then o else Escaped;
  }

  /** Recover one authority; accepted and rolled-back terminals are pruned before the next is considered. */
  method RecoverAuthority(w: World, r: Record) returns (o: Outcome)
    requires w.Valid() && Current(w.View(), r)
    modifies w
    ensures w.Valid() && Handled(old(w.trace), w.View(), w.trace, r, o)
    ensures w.troubles >= old(w.troubles) && (o.Escaped? ==> w.troubles > old(w.troubles))
    ensures w.troubles == old(w.troubles) ==> EndOf(o) == old(SmoothEnd(w.View(), r))
  {
    ghost var t := w.trace;
    o := RecoverRecord(w, r);
    if o.Terminal? && (o.result.Accepted? || o.result.RolledBackResult?) {
      o := PruneAfter(w, t, r, o);
    }
  }

  /** A transaction needs recovery by hand, or will once its foreign bytes are seen. */
  ghost predicate Hindered(l: Ledger) {
    exists k :: Blocked(l, k) || (Unfinished(l, k) && !Owned(l, l.records[k]))
  }

  lemma HinderedBy(l: Ledger, r: Record)
    requires Consistent(l) && Current(l, r)
    ensures Hindered(l) <==> !Owned(l, r)
  {
    assert Unsettled(l, r.requestIdentity);
    forall k | Blocked(l, k) || Unfinished(l, k)
      ensures k == r.requestIdentity
    {
      assert Unsettled(l, k);
    }
    if !Owned(l, r) {
      assert Unfinished(l, r.requestIdentity) && !Owned(l, l.records[r.requestIdentity]);
    }
  }

  lemma SettledNotHindered(l: Ledger)
    requires Settled(l)
    ensures !Hindered(l)
  {
    forall k
      ensures !Blocked(l, k) && !Unfinished(l, k)
    {
      assert !Unsettled(l, k);
    }
  }

  /** What a recovery that returned an outcome has done since the ledger was `l` and the history `t`. */
  ghost predicate Recovered(l: Ledger, t: seq<Event>, l': Ledger, t': seq<Event>, o: Outcome) {
    && Attributed(l, t, t') && Completions(t) <= Completions(t') <= Completions(t) + 1
    && match o
       case Clean => Settled(l) && Settled(l') && Completions(t') == Completions(t)
       case Terminal(result) => !Settled(l) && Settled(l') && Completions(t') == Completions(t) + 1 &&
                                Concluded(l, l', result)
       case NeedsRecovery(r) => !Settled(l) && Blocked(l', r.requestIdentity) && l'.records[r.requestIdentity] == r
       case Escaped => true
  }

  lemma RecoveredPruned(initial: Ledger, l: Ledger, t: seq<Event>, t1: seq<Event>, t': seq<Event>, o: Outcome)
    requires Consistent(initial) && Lawful(initial, t') && OnlyRetires(t1, t') && (o.Clean? || o.Terminal?)
    requires Recovered(l, t, Replay(initial, t1), t1, o)
    ensures Recovered(l, t, Replay(initial, t'), t', o) && Recovered(l, t, Replay(initial, t'), t', Escaped)
  {
    PrunedAttributed(initial, l, t, t1, t');
    if o.Terminal? {
      ConcludedLater(initial, l, t1, t', o.result);
    }
  }

  lemma HandledIsRecovered(l: Ledger, t: seq<Event>, l': Ledger, t': seq<Event>, r: Record, o: Outcome)
    requires Consistent(l) && Current(l, r) && Handled(t, l', t', r, o)
    requires o.NeedsRecovery? ==> o.record.requestIdentity == r.requestIdentity
    ensures Recovered(l, t, l', t', o)
  {
    assert Unsettled(l, r.requestIdentity);
    assert Unfinished(l, r.requestIdentity) && OwnEvents(t, t', l.records[r.requestIdentity]);
    if o.Terminal? {
      assert Truthful(l', l.records[r.requestIdentity], o.result);
    }
  }

  /** The loop over the unfinished authorities, of which there is at most one. */
  method RecoverUnfinished(w: World, unfinished: seq<Record>) returns (o: Outcome)
    requires w.Valid() && |unfinished| <= 1
    requires forall r :: r in unfinished ==> Current(w.View(), r)
    requires unfinished == [] ==> Settled(w.View())
    modifies w
    ensures w.Valid() && Recovered(old(w.View()), old(w.trace), w.View(), w.trace, o)
    ensures unfinished == [] ==> o.Clean? && w.Idle()
    ensures w.troubles >= old(w.troubles) && (o.Escaped? ==> w.troubles > old(w.troubles))
    ensures w.troubles == old(w.troubles) ==> (o.NeedsRecovery? <==> old(Hindered(w.View())))
  {
    o := Clean;
    if unfinished == [] {
      SettledNotHindered(w.View());
    }
    for i := 0 to |unfinished|
      invariant w.Valid() && w.troubles >= old(w.troubles)
      invariant i == 0 ==> w.Idle() && o.Clean? && w.troubles == old(w.troubles)
      invariant i == 1 ==> o.Terminal? && Recovered(old(w.View()), old(w.trace), w.View(), w.trace, o)
      invariant i == 1 && w.troubles == old(w.troubles) ==> !old(Hindered(w.View()))
    {
      ghost var l := w.View();
      var r := unfinished[i];
      assert r in unfinished;
      HinderedBy(l, r);
      o := RecoverAuthority(w, r);
      HandledIsRecovered(l, old(w.trace), w.View(), w.trace, r, o);
      if !o.Terminal? {
        return;
      }
    }
  }

  /**
   `coordinateSemanticMutationRecovery`. A clean or terminal outcome leaves a settled, pruned workspace;
   when nothing fails or deviates, recovery is needed exactly when a transaction is blocked already or
   finds foreign bytes.
   */
  method Recover(w: World) returns (o: Outcome)
    requires w.Valid()
    modifies w
    ensures w.Valid() && Recovered(old(w.View()), old(w.trace), w.View(), w.trace, o)
    ensures o.Clean? || o.Terminal? ==> |w.completed| <= RETENTION
    ensures w.troubles >= old(w.troubles) && (o.Escaped? ==> w.troubles > old(w.troubles))
    ensures w.troubles == old(w.troubles) ==> (o.NeedsRecovery? <==> old(Hindered(w.View())))
    ensures (forall id :: !old(Unfinished(w.View(), id))) && |old(w.completed)| <= RETENTION ==> w.Idle()
  {
    var authority := w.InspectAuthority();
    if !authority.Done? {
      return Escaped;
    }
    if authority.value.blocked.Some? {
      var r := authority.value.blocked.value;
      assert Unsettled(w.View(), r.requestIdentity);
      assert Hindered(w.View());
      return NeedsRecovery(r);
    }
    if authority.value.unfinished == [] {
      AllSettled(w.View());
    } else {
      assert authority.value.unfinished[0] in authority.value.unfinished;
    }
    o := RecoverUnfinished(w, authority.value.unfinished);
    if o.Clean? || o.Terminal? {
      ghost var t := w.trace;
      var last := w.Prune();
      RecoveredPruned(w.initial, old(w.View()), old(w.trace), t, w.trace, o);
      if !last.Done? {
        return Escaped;
      }
    }
  }

  lemma OwnThenRetires(t: seq<Event>, t1: seq<Event>, t': seq<Event>, r: Record)
    requires OwnEvents(t, t1, r) && OnlyRetires(t1, t')
    ensures OwnEvents(t, t', r)
  {
    forall i | |t| <= i < |t'|
      ensures Own(t'[i], r)
    {
      assert i < |t1| ==> t'[i] == t1[i];
    }
  }

  lemma PrunedAttributed(initial: Ledger, l: Ledger, t: seq<Event>, t1: seq<Event>, t': seq<Event>)
    requires Consistent(initial) && Lawful(initial, t') && OnlyRetires(t1, t') && Attributed(l, t, t1)
    ensures Attributed(l, t, t') && Completions(t') == Completions(t1)
    ensures Settled(Replay(initial, t1)) ==> Settled(Replay(initial, t'))
  {
    RetiresKeep(initial, t1, t');
    if OnlyRetires(t, t1) {
      assert OnlyRetires(t, t') by {
        forall i | |t| <= i < |t'|
          ensures t'[i].Retire?
        {
          assert i < |t1| ==> t'[i] == t1[i];
        }
      }
    } else {
      var id :| Unfinished(l, id) && OwnEvents(t, t1, l.records[id]);
      OwnThenRetires(t, t1, t', l.records[id]);
    }
  }

  lemma ConcludedLater(initial: Ledger, l: Ledger, t: seq<Event>, t': seq<Event>, result: Result)
    requires Consistent(initial) && Lawful(initial, t') && OnlyRetires(t, t') &&
             Concluded(l, Replay(initial, t), result)
    ensures Concluded(l, Replay(initial, t'), result)
  {
    var id :| Unfinished(l, id) && Truthful(Replay(initial, t), l.records[id], result);
    PrunedStillTruthful(initial, t, t', l.records[id], result);
  }

  lemma AllSettled(l: Ledger)
    requires (forall id :: !Unfinished(l, id)) && forall id :: !Blocked(l, id)
    ensures Settled(l)
  {
    forall id
      ensures !Unsettled(l, id)
    {
      assert !Unfinished(l, id) && !Blocked(l, id);
    }
  }
}
