/**
 `resumeVerificationSession` (`src/application/verification-session-resume.ts`): a ten-stage reducer that
 advances a durable journal until it has to wait, stops, or completes. Every answer from outside is
 arbitrary, and a crash may strike before or after every durable step.
 */
module SessionResume {
  import opened Options
  import opened CodeUnits   // Distinct

  type Stage = n: nat | n < 10
  type Operation = nat
  type Tree = nat
  type Marker = nat

  const FROZEN: Stage := 0
  const ACTIONS_TERMINAL: Stage := 1
  const PRE_GATE_REVIEW_CLEAR: Stage := 2
  const HOSTED_TERMINAL: Stage := 3
  const PRE_MERGE_REVIEW_CLEAR: Stage := 4
  const AUTHORIZED: Stage := 5
  const MERGE_ATTEMPTED: Stage := 6
  const MERGE_READBACK: Stage := 7
  const TREE_PARITY: Stage := 8
  const CLOSEOUT_TERMINAL: Stage := 9

  datatype Event = StageCompleted(stage: Stage) | StageWaiting(stage: Stage)

  /** The number of completed stages; the source's `completedStageIndex` is one less. */
  function Count(events: seq<Event>): nat {
    if events == [] then 0
    else Count(events[..|events| - 1]) + (if events[|events| - 1].StageCompleted? then 1 else 0)
  }

  /** Stages complete in order, without skip or repeat; the next stage may wait, or the latest be noted again. */
  ghost predicate InOrder(events: seq<Event>) {
    events == [] ||
    var before, last := events[..|events| - 1], events[|events| - 1];
    InOrder(before) && Follows(last, Count(before))
  }

  /** What the journal takes after `count` completed stages: no skipped, repeated or superseded stage. */
  predicate Follows(e: Event, count: nat) {
    if e.StageCompleted? then e.stage == count else e.stage <= count <= e.stage + 1
  }

  /** The `k`-th completed stage of an ordered journal is stage `k`. */
  lemma {:induction false} StagesInSequence(events: seq<Event>, i: nat)
    requires InOrder(events) && i < |events| && events[i].StageCompleted?
    ensures events[i].stage == Count(events[..i])
  {
    if i < |events| - 1 {
      StagesInSequence(events[..|events| - 1], i);
      assert events[..|events| - 1][..i] == events[..i];
    }
  }

  lemma CountNext(events: seq<Event>, e: Event)
    ensures Count(events + [e]) == Count(events) + (if e.StageCompleted? then 1 else 0)
    ensures InOrder(events + [e]) <==> InOrder(events) && Follows(e, Count(events))
  {
    assert (events + [e])[..|events|] == events;
  }

  /** A pull request as GitHub shows it. */
  datatype Candidate = Candidate(merged: bool, tree: Option<Tree>, lines: Option<set<Marker>>)

  datatype Session = Session(headTree: Tree)

  datatype Status =
    | WaitingActions | WaitingReview | WaitingHosted | WaitingAuthorization | WaitingMergeReadback | WaitingCloseout
    | ReadyToIntegrate | ReadyToCloseout | BlockedStatus | CompletedStatus

  datatype Outcome = Outcome(status: Status) | Escaped

  datatype Answer = Clear | Waiting | Blocked

  class World {
    var events: seq<Event>
    var claims: set<Operation>
    ghost var woken: seq<Operation>
    ghost var refusals: nat       // appends that the journal refuses as out of order
    ghost var clockReadings: nat
    ghost var troubles: nat       // crashes, ports that threw, and answers that do not let the session advance

    ghost predicate Valid()
      reads this
    {
      InOrder(events) && Distinct(woken) && (forall x :: x in woken ==> x in claims) && refusals == 0
    }

    constructor ()
      ensures Valid() && events == [] && clockReadings == 0
    {
      events, claims, woken, refusals, clockReadings, troubles := [], {}, [], 0, 0, 0;
    }

    /** `appendJournal`: refuses to complete anything but the next stage, and a note on a later or superseded one. */
    method Append(e: Event) returns (done: bool)
      requires Valid()
      modifies this`events, this`refusals, this`troubles
      ensures e.stage == Count(old(events)) ==> Valid()
      ensures done ==>
                events == old(events) + [e] &&
                Count(events) == Count(old(events)) + (if e.StageCompleted? then 1 else 0)
      ensures old(events) <= events && Count(old(events)) <= Count(events)
      ensures troubles >= old(troubles) && (e.stage == Count(old(events)) && !done ==> troubles > old(troubles))
    {
      CountNext(events, e);
      if !Follows(e, Count(events)) {
        refusals := refusals + 1;
        return false;
      }
      if * {
        troubles := troubles + 1;
        return false;
      }
      events := events + [e];
      if * {
        troubles := troubles + 1;
        return false;
      }
      return true;
    }

    /** `claimOperation`: a durable claim is given once. */
    method Claim(operation: Operation) returns (claimed: Option<bool>)
      requires Valid()
      modifies this`claims, this`troubles
      ensures Valid() && (claimed == Some(true) ==> operation !in old(claims) && operation in claims)
      ensures old(claims) <= claims && troubles >= old(troubles) && (claimed.None? ==> troubles > old(troubles))
      ensures claimed.Some? ==> claimed.value == (operation !in old(claims))
    {
      if * {
        troubles := troubles + 1;
        return None;
      }
      var given := operation !in claims;
      claims := claims + {operation};
      if * {
        troubles := troubles + 1;
        return None;
      }
      return Some(given);
    }

    method Wake(operation: Operation) returns (done: bool)
      requires Valid() && operation in claims && operation !in woken
      modifies this`woken, this`troubles
      ensures Valid() && (woken == old(woken) || woken == old(woken) + [operation])
      ensures done ==> woken == old(woken) + [operation]
      ensures troubles >= old(troubles) && (!done ==> troubles > old(troubles))
    {
      if * {
        troubles := troubles + 1;
        return false;
      }
      woken := woken + [operation];
      if * {
        troubles := troubles + 1;
        return false;
      }
      return true;
    }

    /** A port without durable effect here. */
    method Ask<T(0)>() returns (reply: Option<T>)
      modifies this`troubles
      ensures troubles >= old(troubles) && (reply.None? ==> troubles > old(troubles))
    {
      if * {
        troubles := troubles + 1;
        return None;
      }
      var answer: T := *;
      return Some(answer);
    }

    /** A port whose expected answer lets the session advance. */
    method AskFor<T(0)>(expected: T) returns (reply: Option<T>)
      modifies this`troubles
      ensures troubles >= old(troubles) && (reply != Some(expected) ==> troubles > old(troubles))
    {
      reply := *;
      if reply != Some(expected) {
        Note();
      }
    }

    ghost method Note()
      modifies this`troubles
      ensures troubles == old(troubles) + 1
    {
      troubles := troubles + 1;
    }

    method Now() returns (time: nat)
      modifies this`clockReadings
      ensures clockReadings == old(clockReadings) + 1
    {
      clockReadings := clockReadings + 1;
      time := *;
    }
  }

  /** Complete a stage unless the journal already did. */
  method Reach(w: World, stage: Stage) returns (done: bool)
    requires w.Valid() && Count(w.events) >= stage
    modifies w`events, w`refusals, w`troubles
    ensures w.Valid() && old(w.events) <= w.events
    ensures Count(old(w.events)) <= Count(w.events) && (done ==> Count(w.events) > stage)
    ensures w.troubles >= old(w.troubles) && (!done ==> w.troubles > old(w.troubles))
  {
    if Count(w.events) > stage {
      return true;
    }
    done := w.Append(StageCompleted(stage));
  }

  /** A validity check against the clock; a merged candidate is judged at the recorded time instead. */
  method CurrentAt(w: World, merged: bool, recorded: nat) returns (valid: bool)
    requires w.Valid()
    modifies w`clockReadings, w`troubles
    ensures w.Valid() && w.events == old(w.events) && (merged ==> w.clockReadings == old(w.clockReadings))
    ensures w.troubles >= old(w.troubles) && (!valid ==> w.troubles > old(w.troubles))
  {
    var time := recorded;
    if !merged {
      time := w.Now();
    }
    var reply := w.Ask<()>();
    valid := reply.Some?;
  }

  /** Runtime, identity and scope of the candidate; the first two stages. */
  method Begin(w: World, merged: bool) returns (o: Option<Outcome>)
    requires w.Valid()
    modifies w
    ensures w.Valid() && old(w.events) <= w.events && (merged ==> w.clockReadings == old(w.clockReadings))
    ensures o.None? ==> Count(w.events) > ACTIONS_TERMINAL
    ensures o.Some? ==> o.value != Outcome(CompletedStatus)
    ensures w.troubles >= old(w.troubles) && (o.Some? ==> w.troubles > old(w.troubles))
  {
    var trusted := w.Ask<()>();
    var identity := w.Ask<()>();
    if trusted.None? || identity.None? {
      return Some(Escaped);
    }
    var issued := w.Ask<nat>();
    var current := CurrentAt(w, merged, if issued.Some? then issued.value else 0);
    if issued.None? || !current {
      return Some(Escaped);
    }
    var done := Reach(w, FROZEN);
    if !done {
      return Some(Escaped);
    }
    if Count(w.events) <= ACTIONS_TERMINAL {
      var actions := w.AskFor(Clear);
      if actions.None? {
        return Some(Escaped);
      }
      if !actions.value.Clear? {
        return Some(Outcome(if actions.value.Waiting? then WaitingActions else BlockedStatus));
      }
      done := Reach(w, ACTIONS_TERMINAL);
      if !done {
        return Some(Escaped);
      }
    }
    return None;
  }

  method PreGateReview(w: World, merged: bool, hosted: bool) returns (o: Option<Outcome>)
    requires w.Valid() && Count(w.events) > ACTIONS_TERMINAL
    modifies w
    ensures w.Valid() && old(w.events) <= w.events && w.clockReadings == old(w.clockReadings)
    ensures o.None? ==> Count(w.events) > PRE_GATE_REVIEW_CLEAR
    ensures o.Some? ==> o.value != Outcome(CompletedStatus)
    ensures w.troubles >= old(w.troubles) && (o.Some? ==> w.troubles > old(w.troubles))
  {
    if Count(w.events) > PRE_GATE_REVIEW_CLEAR {
      return None;
    }
    if merged {
      if !hosted {
        w.Note();
        return Some(Outcome(WaitingHosted));
      }
    } else {
      var barrier := w.AskFor(Clear);
      if barrier.None? {
        return Some(Escaped);
      }
      if !barrier.value.Clear? {
        return Some(Outcome(if barrier.value.Waiting? then WaitingReview else BlockedStatus));
      }
      var saved := w.Ask<()>();
      if saved.None? {
        return Some(Escaped);
      }
    }
    var done := Reach(w, PRE_GATE_REVIEW_CLEAR);
    return if done then None else Some(Escaped);
  }

  /** Dispatch hosted verification once, and note that it is awaited. */
  method Dispatch(w: World) returns (o: Outcome)
    requires w.Valid() && Count(w.events) == HOSTED_TERMINAL
    modifies w
    ensures w.Valid() && old(w.events) <= w.events && w.clockReadings == old(w.clockReadings)
    ensures old(w.woken) <= w.woken && |w.woken| <= |old(w.woken)| + 1
    ensures o == Escaped || o == Outcome(WaitingHosted)
    ensures w.troubles >= old(w.troubles) && (o == Escaped ==> w.troubles > old(w.troubles))
  {
    var request := w.Ask<Operation>();
    if request.None? {
      return Escaped;
    }
    var claimed := w.Claim(request.value);
    if claimed.None? {
      return Escaped;
    }
    if claimed.value {
      var woke := w.Wake(request.value);
      if !woke {
        return Escaped;
      }
    }
    var noted := w.Append(StageWaiting(HOSTED_TERMINAL));
    return if noted then Outcome(WaitingHosted) else Escaped;
  }

  method HostedVerification(w: World, hosted: bool) returns (o: Option<Outcome>)
    requires w.Valid() && Count(w.events) > PRE_GATE_REVIEW_CLEAR
    modifies w
    ensures w.Valid() && old(w.events) <= w.events && w.clockReadings == old(w.clockReadings)
    ensures o.None? ==> hosted && Count(w.events) > HOSTED_TERMINAL
    ensures o.Some? ==> o.value != Outcome(CompletedStatus)
    ensures w.troubles >= old(w.troubles) && (o.Some? ==> w.troubles > old(w.troubles))
  {
    if Count(w.events) <= HOSTED_TERMINAL {
      if !hosted {
        w.Note();
        var waiting := Dispatch(w);
        return Some(waiting);
      }
      var provenance := w.Ask<()>();
      if provenance.None? {
        return Some(Escaped);
      }
      var passed: bool := *;   // the evidence of the hosted artifact
      if !passed {
        w.Note();
        return Some(Outcome(BlockedStatus));
      }
      var done := Reach(w, HOSTED_TERMINAL);
      if !done {
        return Some(Escaped);
      }
    }
    if !hosted {
      w.Note();
      return Some(Outcome(WaitingHosted));
    }
    var again := w.Ask<()>();
    return if again.None? then Some(Escaped) else None;
  }

  /** The markers of the authorization, once it is available, verified and published. */
  method Authorization(w: World) returns (o: Option<Outcome>, markers: set<Marker>)
    modifies w`troubles
    ensures o.Some? ==> o.value != Outcome(CompletedStatus)
    ensures w.troubles >= old(w.troubles) && (o.Some? ==> w.troubles > old(w.troubles))
  {
    markers := {};
    var policy := w.Ask<()>();
    if policy.None? {
      return Some(Escaped), markers;
    }
    var source := w.AskFor(true);
    if source == Some(false) {
      return Some(Outcome(WaitingAuthorization)), markers;
    }
    var verified := w.Ask<()>();
    if source.None? || verified.None? {
      return Some(Escaped), markers;
    }
    var remote := w.AskFor(true);
    if remote == Some(false) {
      return Some(Outcome(WaitingAuthorization)), markers;
    }
    var issued := w.Ask<set<Marker>>();
    if remote.None? || issued.None? {
      return Some(Escaped), markers;
    }
    return None, issued.value;
  }

  /** Review, health and authorization are usable now, or were when they were recorded. */
  method PreMerge(w: World, merged: bool) returns (o: Option<Outcome>)
    requires w.Valid() && Count(w.events) > HOSTED_TERMINAL
    modifies w
    ensures w.Valid() && old(w.events) <= w.events && (merged ==> w.clockReadings == old(w.clockReadings))
    ensures o.None? ==> Count(w.events) > AUTHORIZED
    ensures o.Some? ==> o.value != Outcome(CompletedStatus)
    ensures w.troubles >= old(w.troubles) && (o.Some? ==> w.troubles > old(w.troubles))
  {
    if !merged {
      var barrier := w.AskFor(Clear);
      if barrier.None? {
        return Some(Escaped);
      }
      if !barrier.value.Clear? {
        return Some(Outcome(if barrier.value.Waiting? then WaitingReview else BlockedStatus));
      }
    }
    var enforcement := w.AskFor(true);
    if enforcement != Some(true) {
      return Some(if enforcement.None? then Escaped else Outcome(BlockedStatus));
    }
    var recorded := w.Ask<nat>();
    if recorded.None? {
      return Some(Escaped);
    }
    var reviewed := CurrentAt(w, merged, recorded.value);
    if !reviewed {
      return Some(Escaped);
    }
    var healthy := CurrentAt(w, merged, recorded.value);
    if !healthy {
      return Some(Escaped);
    }
    var same := w.Ask<()>();
    if same.None? {
      return Some(Escaped);
    }
    var done := Reach(w, PRE_MERGE_REVIEW_CLEAR);
    if !done {
      return Some(Escaped);
    }
    var usable := CurrentAt(w, merged, recorded.value);
    if !usable {
      return Some(Escaped);
    }
    done := Reach(w, AUTHORIZED);
    return if done then None else Some(Escaped);
  }

  ghost predicate Carries(c: Candidate, markers: set<Marker>) {
    c.lines.Some? && markers <= c.lines.value
  }

  /** The authorized merge has happened: read it back, compare trees, close out. */
  method Finish(w: World, session: Session, markers: set<Marker>) returns (o: Outcome, readback: Option<Candidate>)
    requires w.Valid() && Count(w.events) > AUTHORIZED
    modifies w
    ensures w.Valid() && old(w.events) <= w.events && w.clockReadings == old(w.clockReadings)
    ensures o == Outcome(CompletedStatus) ==>
              && readback.Some? && readback.value.merged && readback.value.tree == Some(session.headTree)
              && Carries(readback.value, markers) && Count(w.events) > CLOSEOUT_TERMINAL
    ensures w.troubles >= old(w.troubles) && (o == Outcome(CompletedStatus) || w.troubles > old(w.troubles))
  {
    var done := Reach(w, MERGE_ATTEMPTED);
    if !done {
      return Escaped, None;
    }
    readback := w.Ask<Candidate>();
    if readback.None? {
      return Escaped, None;
    }
    var merged := readback.value;
    if !merged.merged || merged.tree.None? || merged.lines.None? {
      w.Note();
      return Outcome(WaitingMergeReadback), readback;
    }
    if !(markers <= merged.lines.value) {
      w.Note();
      return Outcome(BlockedStatus), readback;
    }
    var canonical := w.Ask<()>();
    if canonical.None? {
      return Escaped, readback;
    }
    done := Reach(w, MERGE_READBACK);
    if !done {
      return Escaped, readback;
    }
    if merged.tree.value != session.headTree {
      w.Note();
      return Outcome(BlockedStatus), readback;
    }
    done := Reach(w, TREE_PARITY);
    if !done {
      return Escaped, readback;
    }
    o := CloseOut(w);
  }

  method CloseOut(w: World) returns (o: Outcome)
    requires w.Valid() && Count(w.events) > TREE_PARITY
    modifies w
    ensures w.Valid() && old(w.events) <= w.events && w.clockReadings == old(w.clockReadings)
    ensures o == Outcome(CompletedStatus) ==> Count(w.events) > CLOSEOUT_TERMINAL
    ensures w.troubles >= old(w.troubles) && (o == Outcome(CompletedStatus) || w.troubles > old(w.troubles))
  {
    var binding := w.AskFor(Clear);
    if binding.None? {
      return Escaped;
    }
    if !binding.value.Clear? {
      return Outcome(if binding.value.Waiting? then ReadyToCloseout else BlockedStatus);
    }
    var bound := w.Ask<()>();
    var closeout := w.AskFor(Clear);
    if bound.None? || closeout.None? {
      return Escaped;
    }
    if !closeout.value.Clear? {
      return Outcome(if closeout.value.Waiting? then ReadyToCloseout else BlockedStatus);
    }
    var done := Reach(w, CLOSEOUT_TERMINAL);
    return if done then Outcome(CompletedStatus) else Escaped;
  }

  /** The stages up to the hosted verification. */
  method ThroughHosted(w: World, merged: bool) returns (o: Option<Outcome>)
    requires w.Valid()
    modifies w
    ensures w.Valid() && old(w.events) <= w.events && (merged ==> w.clockReadings == old(w.clockReadings))
    ensures o.None? ==> Count(w.events) > HOSTED_TERMINAL
    ensures o.Some? ==> o.value != Outcome(CompletedStatus)
    ensures w.troubles >= old(w.troubles) && (o.Some? ==> w.troubles > old(w.troubles))
  {
    o := Begin(w, merged);
    if o.Some? {
      return;
    }
    var hosted := w.Ask<bool>();
    if hosted.None? {
      return Some(Escaped);
    }
    o := PreGateReview(w, merged, hosted.value);
    if o.Some? {
      return;
    }
    o := HostedVerification(w, hosted.value);
  }

  /** The stages up to the authorization, with the markers that it issued. */
  method ThroughAuthorized(w: World, candidate: Candidate) returns (o: Option<Outcome>, markers: set<Marker>)
    requires w.Valid() && Count(w.events) > HOSTED_TERMINAL
    modifies w
    ensures w.Valid() && old(w.events) <= w.events && (candidate.merged ==> w.clockReadings == old(w.clockReadings))
    ensures o.None? ==> Count(w.events) > AUTHORIZED && (candidate.merged ==> Carries(candidate, markers))
    ensures o.Some? ==> o.value != Outcome(CompletedStatus)
    ensures w.troubles >= old(w.troubles) && (o.Some? ==> w.troubles > old(w.troubles))
  {
    o, markers := Authorization(w);
    if o.Some? {
      return;
    }
    if candidate.merged && (candidate.lines.None? || !(markers <= candidate.lines.value)) {
      w.Note();
      return Some(Outcome(BlockedStatus)), markers;
    }
    o := PreMerge(w, candidate.merged);
    if o.Some? {
      return;
    }
    var preparation := w.AskFor(Clear);
    if preparation.None? {
      return Some(Escaped), markers;
    }
    if !preparation.value.Clear? {
      return Some(Outcome(if preparation.value.Blocked? then BlockedStatus
                          else if candidate.merged then WaitingCloseout else ReadyToIntegrate)), markers;
    }
    var prepared := w.Ask<()>();
    return if prepared.None? then Some(Escaped) else None, markers;
  }

  /**
   One resume. Completion implies that this very run saw the markers on the merged candidate and again
   on its readback, and that the merged tree is the candidate tree; a merged candidate never reads the
   clock. When no port fails and every answer lets the session advance, a merged candidate completes and
   an open one becomes ready to integrate.
   */
  method Resume(w: World, session: Session) returns (o: Outcome, candidate: Option<Candidate>,
                readback: Option<Candidate>, markers: set<Marker>)
    requires w.Valid()
    modifies w
    ensures w.Valid() && old(w.events) <= w.events
    ensures candidate.Some? && candidate.value.merged ==> w.clockReadings == old(w.clockReadings)
    ensures o == Outcome(CompletedStatus) ==>
              && candidate.Some? && candidate.value.merged && Carries(candidate.value, markers)
              && readback.Some? && readback.value.merged && Carries(readback.value, markers)
              && readback.value.tree == Some(session.headTree) && Count(w.events) > CLOSEOUT_TERMINAL
    ensures w.troubles >= old(w.troubles)
    ensures w.troubles == old(w.troubles) ==>
              candidate.Some? && o == Outcome(if candidate.value.merged then CompletedStatus else ReadyToIntegrate)
  {
    readback, markers := None, {};
    candidate := w.Ask<Candidate>();
    if candidate.None? {
      return Escaped, candidate, readback, markers;
    }
    var ended := ThroughHosted(w, candidate.value.merged);
    if ended.Some? {
      return ended.value, candidate, readback, markers;
    }
    ended, markers := ThroughAuthorized(w, candidate.value);
    if ended.Some? {
      return ended.value, candidate, readback, markers;
    }
    if !candidate.value.merged {
      return Outcome(ReadyToIntegrate), candidate, readback, markers;
    }
    o, readback := Finish(w, session, markers);
  }

  /** Any number of resumes: stages complete in order, and no hosted dispatch is woken twice. */
  method Resumes(session: Session, rounds: nat) returns (w: World)
    ensures InOrder(w.events) && w.refusals == 0 && Distinct(w.woken) && Count(w.events) <= 10
  {
    w := new World();
    for i := 0 to rounds
      invariant fresh(w) && w.Valid()
    {
      var _, _, _, _ := Resume(w, session);
    }
    CountBounded(w.events);
  }

  lemma {:induction false} CountBounded(events: seq<Event>)
    requires InOrder(events)
    ensures Count(events) <= 10
  {
    if events != [] {
      CountBounded(events[..|events| - 1]);
    }
  }
}
