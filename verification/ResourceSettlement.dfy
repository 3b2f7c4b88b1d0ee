/**
 The settlement protocol of `src/execution/resource-settlement.ts`: every cleanup is attempted, and no
 failure replaces another.
 */
module ResourceSettlement {
  import opened Options

  type Label = nat
  type Error = nat

  datatype Failure = Failure(name: Label, error: Error)

  /** A cleanup action and how it ends. */
  datatype Action = Action(name: Label, fails: Option<Error>)

  datatype Thrown = Nothing | Identity(error: Error) | Composite(failures: seq<Failure>)

  /** The failures of the actions, in caller order. */
  function FailuresOf(actions: seq<Action>): seq<Failure> {
    if actions == [] then []
    else FailuresOf(actions[..|actions| - 1]) + FailureOf(actions[|actions| - 1])
  }

  function AllFailures(primary: Option<Failure>, actions: seq<Action>): seq<Failure> {
    (if primary.Some? then [primary.value] else []) + FailuresOf(actions)
  }

  /** The failure is the primary one, or an action ended with it. */
  ghost predicate Happened(primary: Option<Failure>, actions: seq<Action>, f: Failure) {
    primary == Some(f) || Action(f.name, Some(f.error)) in actions
  }

  ghost predicate NoneFails(actions: seq<Action>) {
    forall i :: 0 <= i < |actions| ==> actions[i].fails.None?
  }

  function FailureOf(a: Action): seq<Failure> {
    if a.fails.Some? then [Failure(a.name, a.fails.value)] else []
  }

  lemma AllButLast<T>(s: seq<T>)
    requires s != []
    ensures s == s[..|s| - 1] + [s[|s| - 1]]
  {
  }

  /** The failures of the actions are exactly the ones that happened. */
  lemma {:induction false} FailuresHappened(actions: seq<Action>, f: Failure)
    ensures f in FailuresOf(actions) <==> Action(f.name, Some(f.error)) in actions
  {
    if actions != [] {
      AllButLast(actions);
      FailuresHappened(actions[..|actions| - 1], f);
    }
  }

  /** A failure is among them exactly when it happened. */
  lemma NoFailureLost(primary: Option<Failure>, actions: seq<Action>, f: Failure)
    ensures f in AllFailures(primary, actions) <==> Happened(primary, actions, f)
  {
    FailuresHappened(actions, f);
  }

  lemma {:induction false} NoFailures(actions: seq<Action>)
    ensures FailuresOf(actions) == [] <==> NoneFails(actions)
  {
    if actions != [] {
      var n := |actions| - 1;
      var before := actions[..n];
      NoFailures(before);
      assert NoneFails(actions) <==> NoneFails(before) && actions[n].fails.None? by {
        assert forall i :: 0 <= i < n ==> before[i] == actions[i];
      }
    }
  }

  lemma OneMore(primary: Option<Failure>, cleanup: seq<Action>, k: nat)
    requires k < |cleanup|
    ensures AllFailures(primary, cleanup[..k + 1]) == AllFailures(primary, cleanup[..k]) + FailureOf(cleanup[k])
  {
    assert cleanup[..k + 1][..k] == cleanup[..k];
  }

  /** `throwSettlementFailures` */
  function ThrownFor(failures: seq<Failure>, primary: Option<Failure>): Thrown {
    if failures == [] then Nothing
    else if |failures| == 1 && primary.Some? then Identity(primary.value.error)
    else Composite(failures)
  }

  lemma ThrownMeans(primary: Option<Failure>, cleanup: seq<Action>)
    ensures var thrown := ThrownFor(AllFailures(primary, cleanup), primary);
            && (thrown.Nothing? <==> primary.None? && NoneFails(cleanup))
            && (thrown.Identity? ==> primary.Some? && thrown.error == primary.value.error && NoneFails(cleanup))
            && (thrown.Composite? ==> forall f :: f in thrown.failures <==> Happened(primary, cleanup, f))
  {
    NoFailures(cleanup);
    forall f
      ensures f in AllFailures(primary, cleanup) <==> Happened(primary, cleanup, f)
    {
      NoFailureLost(primary, cleanup, f);
    }
  }

  /** `settleResourcesAsync`: all actions are attempted in order; the thrown value holds every failure. */
  method Settle(primary: Option<Failure>, cleanup: seq<Action>) returns (thrown: Thrown, attempted: seq<Label>)
    ensures |attempted| == |cleanup| && forall i :: 0 <= i < |cleanup| ==> attempted[i] == cleanup[i].name
    ensures thrown.Nothing? <==> primary.None? && NoneFails(cleanup)
    ensures thrown.Identity? ==> primary.Some? && thrown.error == primary.value.error && NoneFails(cleanup)
    ensures thrown.Composite? ==> forall f :: f in thrown.failures <==> Happened(primary, cleanup, f)
  {
    var failures: seq<Failure> := if primary.Some? then [primary.value] else [];
    attempted := [];
    for k := 0 to |cleanup|
      invariant |attempted| == k && forall i :: 0 <= i < k ==> attempted[i] == cleanup[i].name
      invariant failures == AllFailures(primary, cleanup[..k])
    {
      attempted := attempted + [cleanup[k].name];
      OneMore(primary, cleanup, k);
      failures := failures + FailureOf(cleanup[k]);
    }
    assert cleanup[..|cleanup|] == cleanup;
    ThrownMeans(primary, cleanup);
    thrown := ThrownFor(failures, primary);
  }
}
