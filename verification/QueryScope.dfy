/**
 `createRuntimeQueryScope` (`src/execution/runtime-query-scope.ts`). A query is admitted, prepares its
 input, is scheduled, starts executing in a later microtask and settles; other calls may run at any
 point between, also from inside `prepare`.
 */
module QueryScope {
  import opened Options

  type Ticket = nat

  datatype Stage = Preparing | Scheduled | Executing

  datatype Admission = Admitted(ticket: Ticket) | ClosedScope | Busy

  /** Every admitted ticket is pending or was released, exactly once; a scheduled one only after it started. */
  ghost predicate Accounted(next: Ticket, admitted: set<Ticket>, pending: set<Ticket>, scheduled: set<Ticket>,
                            started: set<Ticket>, released: seq<Ticket>) {
    && (forall t :: t in admitted ==> t < next)
    && (forall t :: t in admitted <==> t in pending || t in released)
    && (forall t :: t in released ==> t !in pending)
    && (forall i, j :: 0 <= i < j < |released| ==> released[i] != released[j])
    && (forall t :: t in scheduled && t in released ==> t in started)
  }

  lemma AdmittedAccounted(next: Ticket, admitted: set<Ticket>, pending: set<Ticket>, scheduled: set<Ticket>,
                          started: set<Ticket>, released: seq<Ticket>)
    requires Accounted(next, admitted, pending, scheduled, started, released) && scheduled <= admitted
    ensures next !in admitted
    ensures Accounted(next + 1, admitted + {next}, pending + {next}, scheduled, started, released)
  {
    assert next !in released;
  }

  lemma ReleasedAccounted(next: Ticket, admitted: set<Ticket>, pending: set<Ticket>, scheduled: set<Ticket>,
                          started: set<Ticket>, released: seq<Ticket>, ticket: Ticket)
    requires Accounted(next, admitted, pending, scheduled, started, released)
    requires ticket in pending && (ticket in scheduled ==> ticket in started)
    ensures Accounted(next, admitted, pending - {ticket}, scheduled, started, released + [ticket])
  {
    assert ticket !in released;
  }

  class Scope {
    const maximum: nat
    var accepting: bool
    var closed: Option<set<Ticket>>    // the tickets that the close promise waits for
    var closeResolved: bool
    var pending: set<Ticket>
    var stages: map<Ticket, Stage>     // where each pending call is suspended
    var next: Ticket
    // what happened
    ghost var admitted: set<Ticket>
    ghost var scheduled: set<Ticket>
    ghost var started: set<Ticket>
    ghost var released: seq<Ticket>
    ghost var admittedAtClose: set<Ticket>
    ghost var scheduledAtClose: set<Ticket>
    ghost var startedAtClose: set<Ticket>

    /** Where a pending ticket is suspended says what happened to it. */
    ghost predicate Staged()
      reads this
    {
      && stages.Keys == pending && pending <= admitted && started <= scheduled <= admitted
      && (forall t :: t in stages ==> (stages[t].Preparing? <==> t !in scheduled))
      && (forall t :: t in stages ==> (stages[t].Executing? <==> t in started))
    }

    /** After closing began nothing is admitted or scheduled, and only what was scheduled still starts. */
    ghost predicate Closing()
      reads this
    {
      && (closed.Some? <==> !accepting)
      && (!accepting ==> admitted == admittedAtClose && scheduled == scheduledAtClose && pending <= closed.value)
      && (!accepting ==> startedAtClose <= started)
      && (closeResolved ==> closed.Some? && pending == {})
    }

    ghost predicate Valid()
      reads this
    {
      0 < maximum && |pending| <= maximum && Staged() && Closing() &&
      Accounted(next, admitted, pending, scheduled, started, released)
    }

    constructor (maximumPendingQueries: nat)
      requires maximumPendingQueries >= 1
      ensures Valid() && maximum == maximumPendingQueries && accepting && !closeResolved
      ensures admitted == {} && scheduled == {} && started == {} && pending == {} && next == 0
    {
      maximum, accepting, closed, closeResolved, pending, next := maximumPendingQueries, true, None, false, {}, 0;
      stages, admitted, scheduled, started, released := map[], {}, {}, {}, [];
      admittedAtClose, scheduledAtClose, startedAtClose := {}, {}, {};
    }

    /** The synchronous part of `run` before `prepare`. */
    method Admit() returns (r: Admission)
      requires Valid()
      modifies this
      ensures Valid()
      ensures r.ClosedScope? <==> !old(accepting)
      ensures r.Busy? <==> old(accepting) && |old(pending)| >= maximum
      ensures r.Admitted? ==>
                r.ticket == old(next) && r.ticket !in old(admitted) && admitted == old(admitted) + {r.ticket}
      ensures r.Admitted? ==> stages == old(stages)[r.ticket := Preparing] && pending == old(pending) + {r.ticket}
      ensures !r.Admitted? ==> admitted == old(admitted) && pending == old(pending) && stages == old(stages)
      ensures accepting == old(accepting) && scheduled == old(scheduled) && started == old(started)
    {
      if !accepting {
        return ClosedScope;
      }
      if |pending| >= maximum {
        return Busy;
      }
      var ticket := Reserve();
      return Admitted(ticket);
    }

    /** The slot is taken before the input is captured. */
    method Reserve() returns (ticket: Ticket)
      requires Valid() && accepting && |pending| < maximum
      modifies this`next, this`pending, this`stages, this`admitted
      ensures Valid() && ticket == old(next) && ticket !in old(admitted)
      ensures admitted == old(admitted) + {ticket} && pending == old(pending) + {ticket}
      ensures stages == old(stages)[ticket := Preparing]
    {
      AdmittedAccounted(next, admitted, pending, scheduled, started, released);
      ticket := next;
      next := next + 1;
      pending := pending + {ticket};
      stages := stages[ticket := Preparing];
      admitted := admitted + {ticket};
    }

    method Release(ticket: Ticket)
      requires Valid() && ticket in pending && (ticket in scheduled ==> ticket in started)
      modifies this`pending, this`stages, this`released
      ensures Valid() && pending == old(pending) - {ticket} && released == old(released) + [ticket]
    {
      ReleasedAccounted(next, admitted, pending, scheduled, started, released, ticket);
      pending := pending - {ticket};
      stages := stages - {ticket};
      released := released + [ticket];
    }

    /** `prepare` returned or threw; a scope that closed meanwhile refuses to schedule the execution. */
    method Prepared(ticket: Ticket, threw: bool) returns (schedules: bool)
      requires Valid() && ticket in stages && stages[ticket].Preparing?
      modifies this
      ensures Valid() && schedules == (!threw && old(accepting))
      ensures schedules ==> pending == old(pending) && scheduled == old(scheduled) + {ticket}
      ensures schedules ==> stages == old(stages)[ticket := Scheduled]
      ensures !schedules ==> pending == old(pending) - {ticket} && scheduled == old(scheduled)
      ensures accepting == old(accepting) && admitted == old(admitted) && started == old(started)
    {
      if threw || !accepting {
        Release(ticket);
        return false;
      }
      stages := stages[ticket := Scheduled];
      scheduled := scheduled + {ticket};
      return true;
    }

    /** The microtask of a scheduled query calls `execute`, whether or not the scope still accepts. */
    method Starts(ticket: Ticket)
      requires Valid() && ticket in stages && stages[ticket].Scheduled?
      modifies this`stages, this`started
      ensures Valid() && stages == old(stages)[ticket := Executing] && started == old(started) + {ticket}
    {
      stages := stages[ticket := Executing];
      started := started + {ticket};
    }

    /** The execution settled, either way. */
    method Settled(ticket: Ticket)
      requires Valid() && ticket in stages && stages[ticket].Executing?
      modifies this`pending, this`stages, this`released
      ensures Valid() && pending == old(pending) - {ticket} && released == old(released) + [ticket]
    {
      Release(ticket);
    }

    /** Closing again returns the same promise. */
    method Close()
      requires Valid()
      modifies this
      ensures Valid() && !accepting && admitted == old(admitted) && pending == old(pending) && stages == old(stages)
      ensures closed == if old(closed).Some? then old(closed) else Some(old(pending))
      ensures scheduled == old(scheduled) && started == old(started)
      ensures old(accepting) ==> scheduledAtClose == scheduled && startedAtClose == started
    {
      if accepting {
        admittedAtClose, scheduledAtClose, startedAtClose := admitted, scheduled, started;
      }
      accepting := false;
      if closed.None? {
        closed := Some(pending);
      }
    }

    /** The close promise settles once every ticket it waits for was released. */
    method CloseSettles() returns (resolved: bool)
      requires Valid()
      modifies this`closeResolved
      ensures Valid() && (resolved <==> closed.Some? && closed.value !! pending)
      ensures resolved ==> closeResolved && forall t :: t in admitted ==> t in released
    {
      resolved := closed.Some? && closed.value !! pending;
      if resolved {
        closeResolved := true;
      }
    }

    /**
     Once the close promise has resolved, the tickets that started after closing began are exactly those
     that were scheduled and had not started when it began.
     */
    lemma StartedAfterClose()
      requires Valid() && closeResolved
      ensures started - startedAtClose == scheduledAtClose - startedAtClose
    {
      assert forall t :: t in scheduled ==> t in released;
    }
  }

  datatype Event =
    | RunCalled
    | PrepareEnds(ticket: Ticket, threw: bool)
    | ExecutionStarts(ticket: Ticket)
    | ExecutionSettles(ticket: Ticket)
    | CloseCalled
    | CloseWaits

  /**
   Every interleaving: pending tickets never exceed the maximum; every admitted ticket is pending or
   released, and released once; after closing began nothing is admitted or scheduled, and what starts
   had been scheduled before; and the close promise is resolved only when every admitted ticket was
   released, by then every scheduled one having started.
   */
  method Interleave(maximum: nat, schedule: seq<Event>) returns (s: Scope)
    requires maximum >= 1
    ensures s.Valid() && |s.pending| <= maximum
    ensures forall t :: t in s.admitted <==> t in s.pending || t in s.released
    ensures forall t :: t in s.released ==> t !in s.pending
    ensures forall i, j :: 0 <= i < j < |s.released| ==> s.released[i] != s.released[j]
    ensures !s.accepting ==> s.admitted == s.admittedAtClose && s.scheduled == s.scheduledAtClose
    ensures !s.accepting ==> s.started - s.startedAtClose <= s.scheduledAtClose - s.startedAtClose
    ensures s.closeResolved ==> forall t :: t in s.admitted ==> t in s.released
    ensures s.closeResolved ==> s.started - s.startedAtClose == s.scheduledAtClose - s.startedAtClose
  {
    s := new Scope(maximum);
    for i := 0 to |schedule|
      invariant fresh(s) && s.Valid() && s.maximum == maximum
    {
      Dispatch(s, schedule[i]);
    }
    if s.closeResolved {
      s.StartedAfterClose();
    }
  }

  /** The event happens if it can. */
  method Dispatch(s: Scope, e: Event)
    requires s.Valid()
    modifies s
    ensures s.Valid()
  {
    match e
    case RunCalled => var _ := s.Admit();
    case PrepareEnds(ticket, threw) =>
      if ticket in s.stages && s.stages[ticket].Preparing? {
        var _ := s.Prepared(ticket, threw);
      }
    case ExecutionStarts(ticket) =>
      if ticket in s.stages && s.stages[ticket].Scheduled? {
        s.Starts(ticket);
      }
    case ExecutionSettles(ticket) =>
      if ticket in s.stages && s.stages[ticket].Executing? {
        s.Settled(ticket);
      }
    case CloseCalled => s.Close();
    case CloseWaits => var _ := s.CloseSettles();
  }

  /** A query that is scheduled when the scope closes starts after that, as the drain has to let it. */
  method StartsAfterClose() returns (s: Scope)
    ensures s.Valid() && !s.accepting && 0 in s.started && 0 !in s.startedAtClose && 0 in s.pending
  {
    s := new Scope(1);
    var admission := s.Admit();
    var _ := s.Prepared(admission.ticket, false);
    s.Close();
    s.Starts(admission.ticket);
  }
}
