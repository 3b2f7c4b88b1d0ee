/**
 `withLeaseObservationMonitor` (`src/execution/lease-observation-monitor.ts`) as an object whose
 callbacks run in any order: timer ticks, settling observations, and the continuations of the monitored
 operation.
 */
module LeaseMonitor {
  import opened Options

  /** Thrown values; `Cancellation` is the abort reason of this monitor's own signal. */
  datatype Value = Cancellation | Other(id: nat)

  datatype Settled = Fulfilled | Rejected(reason: Value)

  /** One failure with its identity kept, or two labelled ones. */
  datatype Thrown = Single(error: Value) | Composite(first: Value, second: Value)

  function Parts(t: Thrown): set<Value> {
    match t
    case Single(e) => {e}
    case Composite(a, b) => {a, b}
  }

  datatype Phase = Starting | Active | Closing | Closed

  /** An admitted observation: waiting for the assertion, or settled but still referenced. */
  datatype Observation = NoObservation | InFlight | Done

  /** Where the monitored operation is suspended. */
  datatype Point =
    | AssertingFirst
    | Executing
    | DrainingResult
    | AssertingLast
    | DrainingError(error: Value, failureBefore: Option<Value>)
    | Returned
    | Threw(thrown: Thrown)

  datatype Event =
    | FirstAssertion(outcome: Settled)
    | Tick
    | ObservationSettles(outcome: Settled)
    | ObservationForgotten
    | BodySettles(outcome: Settled)
    | ResultDrained
    | LastAssertion(outcome: Settled)
    | ErrorDrained

  class Monitor {
    var phase: Phase
    var failure: Option<Value>
    var pending: Observation
    var timer: bool
    var point: Point
    // what happened, for the statement of what is never lost
    ghost var inFlight: nat   // observations admitted and not yet settled
    ghost var firstHeld: bool
    ghost var lastHeld: bool
    ghost var observed: seq<Settled>
    ghost var operationFailure: Option<Value>   // the rejection of the body or of a direct assertion

    ghost predicate Finished()
      reads this
    {
      point.Returned? || point.Threw?
    }

    /** The first observed lease failure is the recorded one, and it is the last observation. */
    ghost predicate Recorded()
      reads this
    {
      && (failure.None? ==> forall i :: 0 <= i < |observed| ==> observed[i].Fulfilled?)
      && (failure.Some? ==>
            && observed != [] && observed[|observed| - 1] == Rejected(failure.value) && !pending.InFlight?
            && forall i :: 0 <= i < |observed| - 1 ==> observed[i].Fulfilled?)
    }

    ghost predicate Phased()
      reads this
    {
      match point
      case AssertingFirst => phase == Starting && !timer && pending.NoObservation? && failure.None? &&
                             operationFailure.None? && !lastHeld
      case Executing => phase == Active && timer && firstHeld && operationFailure.None? && !lastHeld
      case DrainingResult => phase == Closing && !timer && firstHeld && operationFailure.None? && !lastHeld
      case AssertingLast => phase == Closing && !timer && firstHeld && failure.None? && !pending.InFlight? &&
                            operationFailure.None? && !lastHeld
      case DrainingError(error, before) =>
        && phase == Closing && !timer && !lastHeld
        && (operationFailure == Some(error) || (operationFailure.None? && failure == Some(error) == before))
        && (before.Some? ==> failure == before)
      case Returned => phase == Closed && !timer && !pending.InFlight? && firstHeld && lastHeld && failure.None? &&
                       operationFailure.None?
      case Threw(thrown) =>
        && phase == Closed && !timer && !pending.InFlight?
        && (failure.Some? ==> failure.value in Parts(thrown))
        && (operationFailure.Some? ==>
              operationFailure.value in Parts(thrown) || (failure.Some? && operationFailure.value == Cancellation))
    }

    ghost predicate Valid()
      reads this
    {
      Recorded() && Phased() && inFlight == if pending.InFlight? then 1 else 0
    }

    constructor ()
      ensures Valid() && point == AssertingFirst
    {
      phase, failure, pending, timer, point := Starting, None, NoObservation, false, AssertingFirst;
      inFlight, firstHeld, lastHeld, observed, operationFailure := 0, false, false, [], None;
    }

    /** The catch clause: stop ticking, remember whether a lease failure was already there, drain. */
    method Fail(error: Value)
      modifies this`phase, this`timer, this`point
      ensures phase == Closing && !timer && point == DrainingError(error, failure)
    {
      phase, timer, point := Closing, false, DrainingError(error, failure);
    }

    method OnFirstAssertion(outcome: Settled)
      requires Valid() && point.AssertingFirst?
      modifies this
      ensures Valid() && point == (if outcome.Fulfilled? then Executing else DrainingError(outcome.reason, None))
    {
      match outcome
      case Fulfilled =>
        firstHeld := true;
        phase, timer, point := Active, true, Executing;
      case Rejected(reason) =>
        operationFailure := Some(reason);
        Fail(reason);
    }

    /** A tick admits an observation only when active, unfailed and not already observing. */
    method OnTick()
      requires Valid()
      modifies this`pending, this`inFlight
      ensures Valid() && point == old(point)
      ensures pending == if old(timer && phase.Active? && failure.None? && pending.NoObservation?) then InFlight
              else old(pending)
    {
      if !timer || phase != Active || failure.Some? || !pending.NoObservation? {
        return;
      }
      pending := InFlight;
      inFlight := inFlight + 1;
    }

    method OnObservationSettles(outcome: Settled)
      requires Valid() && pending.InFlight?
      modifies this
      ensures Valid() && observed == old(observed) + [outcome] && pending == Done && point == old(point)
    {
      pending := Done;
      inFlight := inFlight - 1;
      observed := observed + [outcome];
      if outcome.Rejected? && phase != Closed && failure.None? {
        failure := Some(outcome.reason);
      }
    }

    method OnObservationForgotten()
      requires Valid() && pending.Done?
      modifies this`pending
      ensures Valid() && pending == NoObservation
    {
      pending := NoObservation;
    }

    method OnBodySettles(outcome: Settled)
      requires Valid() && point.Executing?
      modifies this
      ensures Valid() &&
              point == (if outcome.Fulfilled? then DrainingResult else DrainingError(outcome.reason, old(failure)))
    {
      match outcome
      case Fulfilled => phase, timer, point := Closing, false, DrainingResult;
      case Rejected(reason) =>
        operationFailure := Some(reason);
        Fail(reason);
    }

    method OnResultDrained()
      requires Valid() && point.DrainingResult? && !pending.InFlight?
      modifies this
      ensures Valid() &&
              point == (if old(failure).None? then AssertingLast else DrainingError(old(failure).value, old(failure)))
    {
      if failure.Some? {
        Fail(failure.value);
      } else {
        point := AssertingLast;
      }
    }

    method OnLastAssertion(outcome: Settled)
      requires Valid() && point.AssertingLast?
      modifies this
      ensures Valid() && point == (if outcome.Fulfilled? then Returned else DrainingError(outcome.reason, None))
    {
      match outcome
      case Fulfilled =>
        lastHeld := true;
        phase, point := Closed, Returned;
      case Rejected(reason) =>
        operationFailure := Some(reason);
        Fail(reason);
    }

    method OnErrorDrained()
      requires Valid() && point.DrainingError? && !pending.InFlight?
      modifies this
      ensures Valid() && point.Threw?
    {
      var error, before := point.error, point.failureBefore;
      var thrown;
      if before.Some? {
        if error == before.value || error == Cancellation {
          thrown := Single(before.value);
        } else {
          thrown := Composite(before.value, error);
        }
      } else if failure.Some? {
        thrown := Composite(error, failure.value);
      } else {
        thrown := Single(error);
      }
      phase, timer, point := Closed, false, Threw(thrown);
    }

    /** The event can happen now. */
    predicate Enabled(e: Event)
      reads this
    {
      match e
      case FirstAssertion(_) => point.AssertingFirst?
      case Tick => timer
      case ObservationSettles(_) => pending.InFlight?
      case ObservationForgotten => pending.Done?
      case BodySettles(_) => point.Executing?
      case ResultDrained => point.DrainingResult? && !pending.InFlight?
      case LastAssertion(_) => point.AssertingLast?
      case ErrorDrained => point.DrainingError? && !pending.InFlight?
    }

    method Dispatch(e: Event)
      requires Valid() && Enabled(e)
      modifies this
      ensures Valid()
    {
      match e
      case FirstAssertion(outcome) => OnFirstAssertion(outcome);
      case Tick => OnTick();
      case ObservationSettles(outcome) => OnObservationSettles(outcome);
      case ObservationForgotten => OnObservationForgotten();
      case BodySettles(outcome) => OnBodySettles(outcome);
      case ResultDrained => OnResultDrained();
      case LastAssertion(outcome) => OnLastAssertion(outcome);
      case ErrorDrained => OnErrorDrained();
    }

    /** Until the scope ends, some event can happen: it never waits for an observation that is not there. */
    lemma NeverStuck()
      requires Valid() && !Finished()
      ensures exists e :: Enabled(e) && !e.Tick? && !e.ObservationForgotten?
    {
      if pending.InFlight? {
        assert Enabled(ObservationSettles(Fulfilled));
      } else {
        match point
        case AssertingFirst => assert Enabled(FirstAssertion(Fulfilled));
        case Executing => assert Enabled(BodySettles(Fulfilled));
        case DrainingResult => assert Enabled(ResultDrained);
        case AssertingLast => assert Enabled(LastAssertion(Fulfilled));
        case DrainingError(_, _) => assert Enabled(ErrorDrained);
      }
    }
  }

  /**
   Every interleaving. At most one observation is in flight,
   and none when the scope has ended; a result is delivered only
   if the first, every completed and the last assertion held; and a thrown value keeps the lease failure
   and every other failure except this monitor's own cancellation.
   */
  method Interleave(schedule: seq<Event>) returns (m: Monitor)
    ensures m.Valid() && m.inFlight <= 1 && (m.Finished() ==> m.inFlight == 0)
    ensures m.point.Returned? ==>
              m.firstHeld && m.lastHeld && forall i :: 0 <= i < |m.observed| ==> m.observed[i].Fulfilled?
    ensures m.point.Threw? ==>
              && (forall i :: 0 <= i < |m.observed| && m.observed[i].Rejected? ==>
                    m.observed[i].reason in Parts(m.point.thrown))
              && (m.operationFailure.Some? && m.operationFailure.value != Cancellation ==>
                    m.operationFailure.value in Parts(m.point.thrown))
  {
    m := new Monitor();
    for i := 0 to |schedule|
      invariant fresh(m) && m.Valid()
    {
      if m.Enabled(schedule[i]) {
        m.Dispatch(schedule[i]);
      }
    }
  }
}
