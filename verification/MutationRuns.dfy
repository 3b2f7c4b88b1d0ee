/**
 Whole runs of Semantic Mutation: any sequence of calls over one workspace, with any failures and a
 crash at any step of any call.
 */
module MutationRuns {
  import opened Options
  import opened MutationRecord
  import opened MutationLedger
  import opened MutationWorld
  import opened MutationRecovery
  import opened MutationApply

  /** One call, or a foreign write between two calls. */
  datatype Call = ApplyRequest(request: Request) | RecoverWorkspace | ForeignWrite(path: Path, digest: Digest)

  /**
   Every run keeps the history lawful, whenever foreign writers write between two calls. A path that they
   do not write while an unsettled transaction works on it holds exactly the bytes of its beginning with
   all accepted mutations and foreign writes applied in order, or one of the two digests of the unsettled
   transaction on it.
   */
  method Run(w: World, calls: seq<Call>)
    requires w.Valid()
    modifies w
    ensures w.Valid() && old(w.trace) <= w.trace
    ensures forall path, start :: Balanced(w.initial, start, path) && ForeignApart(w.initial, w.trace, path) ==>
              Balanced(w.View(), Owed(start, w.trace, path), path)
  {
    for i := 0 to |calls|
      invariant w.Valid() && old(w.trace) <= w.trace
    {
      match calls[i]
      case ApplyRequest(q) => var _, _ := Apply(w, q);
      case RecoverWorkspace => var _ := Recover(w);
      case ForeignWrite(path, digest) => w.WriteForeign(path, digest);
    }
    forall path, start | Balanced(w.initial, start, path) && ForeignApart(w.initial, w.trace, path)
      ensures Balanced(w.View(), Owed(start, w.trace, path), path)
    {
      LiveBytesConserved(w.initial, start, w.trace, path);
    }
  }

  lemma SettledHasNone(l: Ledger)
    requires Settled(l)
    ensures forall id :: !Unfinished(l, id) && !Blocked(l, id)
  {
    assert forall id :: (Unfinished(l, id) ==> Unsettled(l, id)) && (Blocked(l, id) ==> Unsettled(l, id));
  }

  /** Recovering a recovered workspace changes nothing. */
  method RecoverTwice(w: World) returns (first: Outcome, second: Outcome, ghost between: Ledger)
    requires w.Valid()
    modifies w
    ensures w.Valid()
    ensures first.Clean? || first.Terminal? ==> w.View() == between && (second.Clean? || second.Escaped?)
  {
    first := Recover(w);
    between := w.View();
    if first.Clean? || first.Terminal? {
      SettledHasNone(between);
    }
    second := Recover(w);
  }

  // ----- workspaces in which a retry does not get its result

  /** The record of an accepted request. */
  function AcceptedExample(id: Id): Record {
    var q := Request(id, 0, 0, 0, 0);
    var plan := Plan(0, 0, 0, Endpoint(0, 0), Endpoint(1, 1));
    var prepared := PreparedRecord(q, Ready(plan, EditPlan(0, 0, 0, 1), 0, 0, 1), id, Verification(true, 0, 0));
    AcceptedRecord(Committed(prepared), Endpoint(1, 1))
  }

  /** A workspace with `n` accepted requests, in the order of their identities. */
  function AcceptedLedger(n: nat): Ledger {
    Ledger(map[0 := 1], map id: nat | 0 <= id < n :: AcceptedExample(id), map[], seq(n, i requires 0 <= i < n => i))
  }

  lemma AcceptedIsConsistent(n: nat)
    ensures Consistent(AcceptedLedger(n)) && Settled(AcceptedLedger(n))
    ensures forall id, m :: 0 <= id < n ==> (Recent(AcceptedLedger(n), id, m) <==> n - 1 - id < m)
  {
    var l := AcceptedLedger(n);
    forall id, m | 0 <= id < n
      ensures Recent(l, id, m) <==> n - 1 - id < m
    {
      assert l.completed[id] == id;
    }
    forall id: Id
      ensures id in l.completed <==> Ended(l, id)
    {
      if Ended(l, id) {
        assert l.completed[id] == id;
      }
    }
  }

  /** One more request whose latest record is in the given state, over the bytes that it committed. */
  function WithLatest(n: nat, r: Record): Ledger
    requires r.requestIdentity == n
  {
    AcceptedLedger(n).(records := AcceptedLedger(n).records[n := r])
  }

  lemma WithLatestIsConsistent(n: nat, r: Record)
    requires r.requestIdentity == n && !IsTerminal(r.state) && ResultFits(r) && r.verification.passed &&
             r.before != r.committed
    ensures Consistent(WithLatest(n, r)) && !Settled(WithLatest(n, r)) && Unsettled(WithLatest(n, r), n)
    ensures forall id, m :: 0 <= id < n ==> (Recent(WithLatest(n, r), id, m) <==> n - 1 - id < m)
  {
    var l, base := WithLatest(n, r), AcceptedLedger(n);
    AcceptedIsConsistent(n);
    assert Unsettled(l, n);
    forall id: Id
      ensures id in l.completed <==> Ended(l, id)
    {
      assert id in base.completed <==> Ended(base, id);
      assert n !in base.completed;
    }
    forall a | Unsettled(l, a)
      ensures a == n
    {
      assert !Unsettled(base, a);
    }
    forall id, m | 0 <= id < n
      ensures Recent(l, id, m) <==> n - 1 - id < m
    {
      assert Recent(l, id, m) <==> Recent(base, id, m);
    }
  }

  /** A request that needs recovery, behind `n` accepted ones. */
  function BlockedExample(n: nat): Ledger {
    WithLatest(n, RequiredRecord(Committed(AcceptedExample(n)), RollbackFailed))
  }

  /** A committed request that a crash left unfinished, behind `n` accepted ones. */
  function UnfinishedExample(n: nat): Ledger {
    WithLatest(n, Committed(AcceptedExample(n)))
  }

  /** The retried request has just been accepted, but another one needs recovery: the retry is rejected. */
  lemma RetryWhenBlocked()
    ensures var l, q := BlockedExample(1), Request(0, 0, 0, 0, 0);
            && Consistent(l) && Ended(l, 0) && Recent(l, 0, 1) && Hindered(l)
            && OwedAnswer(RetainedOf(l, 0), q.revision) != Some(RequestRejected)
            && forall o, made :: ExactRetry(l, q, o, made) ==> o == RequestRejected
  {
    var l := BlockedExample(1);
    WithLatestIsConsistent(1, RequiredRecord(Committed(AcceptedExample(1)), RollbackFailed));
    assert Blocked(l, 1);
  }

  /** A retry of the oldest of `n` accepted requests is answered up to `n` = 256; then it runs again. */
  lemma RetryWhenOld(n: nat)
    requires n > 0
    ensures var l, q := AcceptedLedger(n), Request(0, 0, 0, 0, 0);
            && Consistent(l) && Ended(l, 0) && !Hindered(l)
            && forall o, made :: ExactRetry(l, q, o, made) ==>
                 && (made.Some? <==> n > 256)
                 && (n <= 256 ==> Some(o) == FinishedWith(RetainedOf(l, 0)))
  {
    AcceptedIsConsistent(n);
    SettledNotHindered(AcceptedLedger(n));
  }

  /** Behind an unfinished transaction the bound is one lower: the call completes that one first. */
  lemma RetryWhenCrowdedOut(n: nat)
    requires n > 0
    ensures var l, q := UnfinishedExample(n), Request(0, 0, 0, 0, 0);
            && Consistent(l) && Ended(l, 0) && !Hindered(l)
            && forall o, made :: ExactRetry(l, q, o, made) ==>
                 && (made.Some? <==> n > 255)
                 && (n <= 255 ==> Some(o) == FinishedWith(RetainedOf(l, 0)))
  {
    UnfinishedIsNotHindered(n);
  }

  lemma UnfinishedIsNotHindered(n: nat)
    ensures Consistent(UnfinishedExample(n)) && !Settled(UnfinishedExample(n)) && !Hindered(UnfinishedExample(n))
    ensures forall id, m :: 0 <= id < n ==> (Recent(UnfinishedExample(n), id, m) <==> n - 1 - id < m)
  {
    var l, r := UnfinishedExample(n), Committed(AcceptedExample(n));
    WithLatestIsConsistent(n, r);
    HinderedBy(l, r);
    assert LiveIs(l, r.path, r.committed);
  }
}
