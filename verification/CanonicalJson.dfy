/**
 `canonicalJson` as a method over its mutable frames, ancestry set and output containers.
 */
module CanonicalJson {
  import opened Options
  import opened CodeUnits
  import opened JsonGrammar
  import opened CanonicalValue
  import opened CanonicalNormaliser

  /** What `normalize` decides about one entry. */
  datatype Visit = Fails(error: Error) | Yields(json: Json) | Enters(ref: Ref)

  function VisitValue(h: Heap, v: Value, ancestors: set<Ref>): Visit
    requires v.Reference? ==> v.ref in h
  {
    if v.Reference? then
      if h[v.ref].ForeignObject? then Fails(NotPlain)
      else if v.ref in ancestors then Fails(Circular)
      else Enters(v.ref)
    else
      match NormalScalar(v)
      case Err(e) => Fails(e)
      case Ok(j) => Yields(j)
  }

  function VisitEntry(h: Heap, e: Entry, ancestors: set<Ref>): Visit
    requires e.value.Reference? ==> e.value.ref in h
  {
    if e.key.Some? && e.value.Unsupported? then Fails(UnsupportedProperty) else VisitValue(h, e.value, ancestors)
  }

  /** The state after the innermost frame has taken the entry `e`, unless that fails. */
  ghost predicate EntryTurned(h: Heap, s: State, s': State, e: Entry, failure: Option<Error>)
    requires s.frames != [] && s.frames[|s.frames| - 1].output < |s.out| && Known(h, e.value)
  {
    var visit := VisitEntry(h, e, s.ancestors);
    if visit.Fails? then failure == Some(visit.error)
    else if visit.Yields? then failure == None && s' == Passed(s, OutEntry(e.key, Scalar(visit.json)))
    else failure == None && visit.ref in h && s' == Descended(s, e.key, visit.ref, h[visit.ref])
  }

  /** The state after one turn of the loop, unless the turn fails. */
  ghost predicate Turned(h: Heap, s: State, s': State, failure: Option<Error>)
    requires Closed(h) && AllSuspended(h, s.frames) && s.frames != []
    requires s.frames[|s.frames| - 1].output < |s.out|
  {
    var k := |s.frames| - 1;
    var f := s.frames[k];
    if f.cursor == |f.entries| then
      failure == None && s' == State(s.out, s.frames[..k], s.ancestors - {f.input})
    else
      EntryTurned(h, s, s', f.entries[f.cursor], failure)
  }

  // ----- one turn keeps the outcome

  /** The outcome of the run that has the given frames. */
  ghost predicate Promises(h: Heap, frames: seq<Frame>, value: map<nat, Json>, dones: seq<seq<Json>>, root: nat,
                           outcome: Outcome<Json>)
    requires Resumable(h, frames, dones)
  {
    if frames == [] then root in value && outcome == Ok(value[root])
    else
      PathOpen(h, frames, dones);
      frames[0].output == root && outcome == Resume(h, Path(frames), dones)
  }

  /** A value finished inside the open containers `path` goes to the innermost of them. */
  lemma DeliverTo(h: Heap, frames: seq<Frame>, dones: seq<seq<Json>>, v: Json)
    requires Resumable(h, frames, dones) && Resumable(h, frames, Handed(dones, v)) && frames != []
    requires |dones[|frames| - 1]| < |frames[|frames| - 1].entries|
    ensures Open(h, Path(frames), dones) && Open(h, Path(frames), Handed(dones, v))
    ensures Deliver(h, Path(frames), dones, v) == Resume(h, Path(frames), Handed(dones, v))
  {
    PathOpen(h, frames, dones);
    PathOpen(h, frames, Handed(dones, v));
    assert Suspended(h, frames[|frames| - 1]);
  }

  lemma PathTop(below: seq<Frame>, f: Frame)
    ensures Path(below + [f]) == Path(below) + [f.input]
    ensures (below + [f])[0] == if below == [] then f else below[0]
  {
  }

  lemma PoppedPromises(h: Heap, value: map<nat, Json>, below: seq<Frame>, f: Frame, ds: seq<seq<Json>>, done: seq<Json>,
                       root: nat, outcome: Outcome<Json>)
    requires Resumable(h, below, ds) && Suspended(h, f) && |done| == |f.entries|
    requires below != [] ==> |ds[|below| - 1]| < |below[|below| - 1].entries|
    requires Open(h, Path(below) + [f.input], ds + [done])
    requires outcome == Resume(h, Path(below) + [f.input], ds + [done])
    requires root == if below == [] then f.output else below[0].output
    requires Resumable(h, below, Handed(ds, FinishedValue(h, f, done)))
    ensures var v := FinishedValue(h, f, done);
            Promises(h, below, value[f.output := v], Handed(ds, v), root, outcome)
  {
    PathOpen(h, below, ds);
    ResumePop(h, Path(below), ds, f.input, done);
    if below != [] {
      DeliverTo(h, below, ds, FinishedValue(h, f, done));
    }
  }

  lemma VisitIsNormal(h: Heap, e: Entry, ancestors: set<Ref>)
    requires Closed(h) && Known(h, e.value)
    ensures var visit := VisitEntry(h, e, ancestors);
            && (visit.Fails? ==> NormalEntry(h, e, ancestors) == Err(visit.error))
            && (visit.Yields? ==> NormalEntry(h, e, ancestors) == Ok(visit.json))
            && (visit.Enters? ==> e.value == Reference(visit.ref) && visit.ref in h && visit.ref !in ancestors &&
                                  !h[visit.ref].ForeignObject?)
  {
  }

  /** The entry that the innermost frame is at. */
  ghost predicate AtEntry(h: Heap, s: State, dones: seq<seq<Json>>, e: Entry) {
    && Resumable(h, s.frames, dones) && s.frames != [] && s.ancestors == Inputs(s.frames)
    && var k := |s.frames| - 1;
       s.frames[k].cursor < |s.frames[k].entries| && s.frames[k].cursor == |dones[k]| &&
       e == s.frames[k].entries[s.frames[k].cursor]
  }

  lemma AtEntryUnfinished(h: Heap, s: State, dones: seq<seq<Json>>, e: Entry)
    requires AtEntry(h, s, dones, e)
    ensures Unfinished(h, Path(s.frames), dones, e) && Members(Path(s.frames)) == s.ancestors && Known(h, e.value)
  {
    var k := |s.frames| - 1;
    PathOpen(h, s.frames, dones);
    PathMembers(s.frames);
    SuspendedLast(h, s.frames);
    LastUnfinished(h, Path(s.frames), dones, e);
    EntryKnown(h, s.frames[k].input, |dones[k]|);
  }

  lemma SuspendedLast(h: Heap, frames: seq<Frame>)
    requires AllSuspended(h, frames) && frames != []
    ensures var f := frames[|frames| - 1];
            Suspended(h, f) && |Path(frames)| == |frames| && Path(frames)[|frames| - 1] == f.input
  {
  }

  lemma LastUnfinished(h: Heap, path: seq<Ref>, dones: seq<seq<Json>>, e: Entry)
    requires Open(h, path, dones) && path != []
    requires var k := |path| - 1; var entries := Entries(h[path[k]]); |dones[k]| < |entries| && e == entries[|dones[k]|]
    ensures Unfinished(h, path, dones, e)
  {
  }

  lemma PassedPromises(h: Heap, s: State, s': State, value: map<nat, Json>, dones: seq<seq<Json>>, root: nat,
                       outcome: Outcome<Json>, e: Entry, j: Json)
    requires AtEntry(h, s, dones, e) && Promises(h, s.frames, value, dones, root, outcome)
    requires Known(h, e.value) && NormalEntry(h, e, s.ancestors) == Ok(j)
    requires |s'.frames| == |s.frames| && Path(s'.frames) == Path(s.frames) && s'.frames[0].output == s.frames[0].output
    requires Resumable(h, s'.frames, dones[|s.frames| - 1 := dones[|s.frames| - 1] + [j]])
    ensures Promises(h, s'.frames, value, dones[|s.frames| - 1 := dones[|s.frames| - 1] + [j]], root, outcome)
  {
    AtEntryUnfinished(h, s, dones, e);
    ResumePasses(h, Path(s.frames), dones, e, j);
  }

  lemma DescendedPromises(h: Heap, s: State, s': State, value: map<nat, Json>, dones: seq<seq<Json>>, root: nat,
                          outcome: Outcome<Json>, e: Entry, x: Ref)
    requires AtEntry(h, s, dones, e) && Promises(h, s.frames, value, dones, root, outcome)
    requires e.value == Reference(x) && x in h && !h[x].ForeignObject? && x !in s.ancestors
    requires Path(s'.frames) == Path(s.frames) + [x] && s'.frames != [] && s'.frames[0].output == s.frames[0].output
    requires Resumable(h, s'.frames, dones + [[]])
    ensures Promises(h, s'.frames, value, dones + [[]], root, outcome)
  {
    AtEntryUnfinished(h, s, dones, e);
    ResumePush(h, Path(s.frames), dones, e, x);
  }

  lemma FailedPromises(h: Heap, s: State, value: map<nat, Json>, dones: seq<seq<Json>>, root: nat,
                       outcome: Outcome<Json>, e: Entry, error: Error)
    requires AtEntry(h, s, dones, e) && Promises(h, s.frames, value, dones, root, outcome)
    requires Known(h, e.value) && NormalEntry(h, e, s.ancestors) == Err(error)
    ensures outcome == Err(error)
  {
    AtEntryUnfinished(h, s, dones, e);
    ResumeFails(h, Path(s.frames), dones, e, error);
  }

  // ----- one turn leaves less to do

  lemma PassedLeft(h: Heap, frames: seq<Frame>, f: Frame)
    requires Closed(h) && AllSuspended(h, frames) && frames != [] && f == frames[|frames| - 1] && f.cursor < |f.entries|
    ensures AllSuspended(h, frames[|frames| - 1 := f.(cursor := f.cursor + 1)])
    ensures Left(h, frames[|frames| - 1 := f.(cursor := f.cursor + 1)]) + 1 +
            Cost(h, f.entries[f.cursor].value, Inputs(frames)) == Left(h, frames)
  {
    var below := frames[..|frames| - 1];
    assert frames == below + [f];
    assert frames[|frames| - 1 := f.(cursor := f.cursor + 1)] == below + [f.(cursor := f.cursor + 1)];
    InputsTop(below, f);
    LeftPassed(h, below, f);
  }

  lemma DescendedLeft(h: Heap, frames: seq<Frame>, f: Frame, g: Frame)
    requires Closed(h) && AllSuspended(h, frames) && frames != [] && f == frames[|frames| - 1] && f.cursor < |f.entries|
    requires Suspended(h, g) && g.cursor == 0 && f.entries[f.cursor].value == Reference(g.input) &&
             g.input !in Inputs(frames)
    ensures AllSuspended(h, frames[|frames| - 1 := f.(cursor := f.cursor + 1)] + [g])
    ensures Left(h, frames[|frames| - 1 := f.(cursor := f.cursor + 1)] + [g]) < Left(h, frames)
  {
    var k := |frames| - 1;
    PassedLeft(h, frames, f);
    LeftTop(h, frames[k := f.(cursor := f.cursor + 1)], g);
    InputsUpdate(frames, k, f.(cursor := f.cursor + 1));
    assert g.entries[0..] == g.entries;
  }

  // ----- all of it, turn by turn

  ghost predicate Continues(h: Heap, s: State, value: map<nat, Json>, dones: seq<seq<Json>>, root: nat,
                            outcome: Outcome<Json>) {
    Running(h, s, value, dones) && Promises(h, s.frames, value, dones, root, outcome)
  }

  lemma PoppedContinues(h: Heap, s: State, value: map<nat, Json>, dones: seq<seq<Json>>,
                        below: seq<Frame>, f: Frame, ds: seq<seq<Json>>, done: seq<Json>, root: nat,
                        outcome: Outcome<Json>)
    requires Ending(h, s, value, dones, below, f, ds, done) && Promises(h, s.frames, value, dones, root, outcome)
    ensures Suspended(h, f) && |done| == |f.entries|
    ensures var v := FinishedValue(h, f, done);
            Continues(h, State(s.out, below, s.ancestors - {f.input}), value[f.output := v], Handed(ds, v), root,
                      outcome)
  {
    EndingParts(h, s, value, dones, below, f, ds, done);
    if below != [] {
      EndingWaits(h, s, value, dones, below, f, ds, done);
      assert Suspended(h, below[|below| - 1]);
    }
    Pop(h, s, value, dones, below, f, ds, done);
    PathOpen(h, s.frames, dones);
    PathTop(below, f);
    PoppedPromises(h, value, below, f, ds, done, root, outcome);
  }

  lemma PassedPath(s: State, e: OutEntry)
    requires s.frames != [] && s.frames[|s.frames| - 1].output < |s.out|
    ensures var s' := Passed(s, e);
            |s'.frames| == |s.frames| && Path(s'.frames) == Path(s.frames) && s'.frames[0].output == s.frames[0].output
  {
    var s' := Passed(s, e);
    assert forall i :: 0 <= i < |s.frames| ==> s'.frames[i].input == s.frames[i].input;
  }

  /** The frame of a container that was just allocated and has passed nothing yet. */
  function NewFrame(s: State, x: Ref, o: Object): Frame {
    Frame(x, |s.out|, Entries(o), 0)
  }

  lemma DescendedFrames(s: State, key: Option<Text>, x: Ref, o: Object)
    requires s.frames != [] && s.frames[|s.frames| - 1].output < |s.out|
    ensures var k := |s.frames| - 1;
            Descended(s, key, x, o).frames ==
            s.frames[k := s.frames[k].(cursor := s.frames[k].cursor + 1)] + [NewFrame(s, x, o)]
  {
  }

  lemma DescendedPath(s: State, key: Option<Text>, x: Ref, o: Object)
    requires s.frames != [] && s.frames[|s.frames| - 1].output < |s.out|
    ensures var s' := Descended(s, key, x, o);
            s'.frames != [] && Path(s'.frames) == Path(s.frames) + [x] && s'.frames[0].output == s.frames[0].output
  {
    var s' := Descended(s, key, x, o);
    DescendedFrames(s, key, x, o);
    assert forall i :: 0 <= i < |s.frames| ==> s'.frames[i].input == s.frames[i].input;
  }

  lemma PassedContinues(h: Heap, s: State, value: map<nat, Json>, dones: seq<seq<Json>>, root: nat,
                        outcome: Outcome<Json>, e: Entry, j: Json)
    requires Continues(h, s, value, dones, root, outcome) && AtEntry(h, s, dones, e)
    requires Known(h, e.value) && NormalEntry(h, e, s.ancestors) == Ok(j) && s.frames[|s.frames| - 1].output < |s.out|
    ensures Continues(h, Passed(s, OutEntry(e.key, Scalar(j))), value,
                      dones[|s.frames| - 1 := dones[|s.frames| - 1] + [j]], root, outcome)
  {
    PassScalar(h, s, value, dones, j);
    PassedPath(s, OutEntry(e.key, Scalar(j)));
    PassedPromises(h, s, Passed(s, OutEntry(e.key, Scalar(j))), value, dones, root, outcome, e, j);
  }

  lemma DescendedContinues(h: Heap, s: State, value: map<nat, Json>, dones: seq<seq<Json>>, root: nat,
                           outcome: Outcome<Json>, e: Entry, x: Ref)
    requires Continues(h, s, value, dones, root, outcome) && AtEntry(h, s, dones, e)
    requires e.value == Reference(x) && x in h && !h[x].ForeignObject? && x !in s.ancestors &&
             s.frames[|s.frames| - 1].output < |s.out|
    ensures Continues(h, Descended(s, e.key, x, h[x]), value, dones + [[]], root, outcome)
  {
    Descend(h, s, value, dones, x);
    DescendedPath(s, e.key, x, h[x]);
    DescendedPromises(h, s, Descended(s, e.key, x, h[x]), value, dones, root, outcome, e, x);
  }

  // ----- the run

  class Normaliser {
    const heap: Heap
    var out: Output
    var frames: seq<Frame>
    var ancestors: set<Ref>

    ghost function View(): State
      reads this
    {
      State(out, frames, ancestors)
    }

    constructor (h: Heap)
      ensures heap == h && View() == State([], [], {})
    {
      heap := h;
      out, frames, ancestors := [], [], {};
    }

    /** The inner `normalize`: a scalar is returned, a container is opened and its frame pushed. */
    method Normalize(entry: Value) returns (r: Outcome<OutValue>)
      requires entry.Reference? ==> entry.ref in heap
      modifies this
      ensures var visit := VisitValue(heap, entry, old(ancestors)); var s := old(View());
              && (visit.Fails? ==> r == Err(visit.error) && View() == s)
              && (visit.Yields? ==> r == Ok(Scalar(visit.json)) && View() == s)
              && (visit.Enters? ==> visit.ref in heap && r == Ok(OutRef(|s.out|)) &&
                                    View() == Pushed(Allocated(s, heap[visit.ref]), visit.ref, heap[visit.ref]))
    {
      if !entry.Reference? {
        var scalar := NormalScalar(entry);
        match scalar
        case Err(e) => return Err(e);
        case Ok(j) => return Ok(Scalar(j));
      }
      var container := heap[entry.ref];
      if container.ForeignObject? {
        return Err(NotPlain);
      }
      if entry.ref in ancestors {
        return Err(Circular);
      }
      ancestors := ancestors + {entry.ref};
      var output := |out|;
      out := out + [OutNode(container.ArrayObject?, [])];
      frames := frames + [Frame(entry.ref, output, Entries(container), 0)];
      return Ok(OutRef(output));
    }

    /** The innermost frame takes its next entry. */
    method Take(e: Entry) returns (failure: Option<Error>)
      requires frames != [] && frames[|frames| - 1].output < |out| && Known(heap, e.value)
      modifies this
      ensures EntryTurned(heap, old(View()), View(), e, failure)
    {
      var k := |frames| - 1;
      var f := frames[k];
      frames := frames[k := f.(cursor := f.cursor + 1)];
      if e.key.Some? && e.value.Unsupported? {
        return Some(UnsupportedProperty);
      }
      var r := Normalize(e.value);
      match r
      case Err(error) => return Some(error);
      case Ok(v) =>
        out := Defined(out, f.output, OutEntry(e.key, v));
        return None;
    }

    /** One turn of the loop over the pending frames. */
    method Turn() returns (failure: Option<Error>)
      requires Closed(heap) && AllSuspended(heap, frames) && frames != []
      requires frames[|frames| - 1].output < |out|
      modifies this
      ensures Turned(heap, old(View()), View(), failure)
    {
      var k := |frames| - 1;
      var f := frames[k];
      assert Suspended(heap, f);
      if f.cursor >= |f.entries| {
        ancestors := ancestors - {f.input};
        frames := frames[..k];
        failure := None;
      } else {
        assert Known(heap, f.entries[f.cursor].value);
        failure := Take(f.entries[f.cursor]);
      }
    }
  }

  lemma EntryContinues(h: Heap, s: State, s': State, failure: Option<Error>, e: Entry,
                       value: map<nat, Json>, dones: seq<seq<Json>>, root: nat, outcome: Outcome<Json>)
    returns (dones': seq<seq<Json>>)
    requires Continues(h, s, value, dones, root, outcome) && AtEntry(h, s, dones, e) && Known(h, e.value)
    requires s.frames[|s.frames| - 1].output < |s.out| && EntryTurned(h, s, s', e, failure)
    ensures failure.Some? ==> outcome == Err(failure.value)
    ensures failure.None? ==> Continues(h, s', value, dones', root, outcome)
  {
    var k := |s.frames| - 1;
    dones' := dones;
    VisitIsNormal(h, e, s.ancestors);
    var visit := VisitEntry(h, e, s.ancestors);
    if visit.Fails? {
      FailedPromises(h, s, value, dones, root, outcome, e, visit.error);
    } else if visit.Yields? {
      PassedContinues(h, s, value, dones, root, outcome, e, visit.json);
      dones' := dones[k := dones[k] + [visit.json]];
    } else {
      DescendedContinues(h, s, value, dones, root, outcome, e, visit.ref);
      dones' := dones + [[]];
    }
  }

  lemma RunningAtEntry(h: Heap, s: State, value: map<nat, Json>, dones: seq<seq<Json>>)
    requires Running(h, s, value, dones) && s.frames != []
    ensures var f := s.frames[|s.frames| - 1];
            f.output < |s.out| && f.cursor <= |f.entries| && |dones[|s.frames| - 1]| == f.cursor &&
            (f.cursor < |f.entries| ==>
               AtEntry(h, s, dones, f.entries[f.cursor]) && Known(h, f.entries[f.cursor].value))
  {
    var k := |s.frames| - 1;
    assert Suspended(h, s.frames[k]) && Faithful(h, s.out, value, s.frames[k], dones[k]);
  }

  lemma TurnedContinues(h: Heap, s: State, s': State, failure: Option<Error>,
                        value: map<nat, Json>, dones: seq<seq<Json>>, root: nat, outcome: Outcome<Json>)
    returns (value': map<nat, Json>, dones': seq<seq<Json>>)
    requires Continues(h, s, value, dones, root, outcome) && s.frames != []
    requires s.frames[|s.frames| - 1].output < |s.out| && Turned(h, s, s', failure)
    ensures failure.Some? ==> outcome == Err(failure.value)
    ensures failure.None? ==> Continues(h, s', value', dones', root, outcome)
  {
    var k := |s.frames| - 1;
    var f := s.frames[k];
    RunningAtEntry(h, s, value, dones);
    if f.cursor == |f.entries| {
      value', dones' := LastTurn(h, s, value, dones, root, outcome);
    } else {
      value' := value;
      dones' := EntryContinues(h, s, s', failure, f.entries[f.cursor], value, dones, root, outcome);
    }
  }

  lemma LastSplit<T>(s: seq<T>)
    requires s != []
    ensures s == s[..|s| - 1] + [s[|s| - 1]]
  {
  }

  lemma LastTurn(h: Heap, s: State, value: map<nat, Json>, dones: seq<seq<Json>>, root: nat, outcome: Outcome<Json>)
    returns (value': map<nat, Json>, dones': seq<seq<Json>>)
    requires Continues(h, s, value, dones, root, outcome) && s.frames != []
    requires s.frames[|s.frames| - 1].cursor == |s.frames[|s.frames| - 1].entries|
    ensures Continues(h, State(s.out, s.frames[..|s.frames| - 1], s.ancestors - {s.frames[|s.frames| - 1].input}),
                      value', dones', root, outcome)
  {
    var k := |s.frames| - 1;
    var below, f, ds, done := s.frames[..k], s.frames[k], dones[..k], dones[k];
    LastSplit(s.frames);
    LastSplit(dones);
    PoppedContinues(h, s, value, dones, below, f, ds, done, root, outcome);
    value', dones' := value[f.output := FinishedValue(h, f, done)], Handed(ds, FinishedValue(h, f, done));
  }

  lemma EnteredLeft(h: Heap, s: State, frames': seq<Frame>, f: Frame, x: Ref)
    requires Closed(h) && AllSuspended(h, s.frames) && s.frames != [] && f == s.frames[|s.frames| - 1]
    requires f.cursor < |f.entries| && f.entries[f.cursor].value == Reference(x)
    requires x in h && !h[x].ForeignObject? && x !in Inputs(s.frames)
    requires frames' == s.frames[|s.frames| - 1 := f.(cursor := f.cursor + 1)] + [NewFrame(s, x, h[x])]
    ensures AllSuspended(h, frames') && Left(h, frames') < Left(h, s.frames)
  {
    DescendedLeft(h, s.frames, f, NewFrame(s, x, h[x]));
  }

  lemma YieldedLeft(h: Heap, s: State, s': State, f: Frame, e: OutEntry)
    requires Closed(h) && AllSuspended(h, s.frames) && s.frames != [] && f == s.frames[|s.frames| - 1] &&
             f.output < |s.out|
    requires f.cursor < |f.entries| && s' == Passed(s, e)
    ensures AllSuspended(h, s'.frames) && Left(h, s'.frames) < Left(h, s.frames)
  {
    PassedLeft(h, s.frames, f);
  }

  lemma EntryLeft(h: Heap, s: State, s': State, f: Frame, e: Entry, failure: Option<Error>)
    requires Closed(h) && AllSuspended(h, s.frames) && s.frames != [] && f == s.frames[|s.frames| - 1] &&
             f.output < |s.out|
    requires s.ancestors == Inputs(s.frames) && Known(h, e.value) && f.cursor < |f.entries| && e == f.entries[f.cursor]
    requires EntryTurned(h, s, s', e, failure) && failure.None?
    ensures AllSuspended(h, s'.frames) && Left(h, s'.frames) < Left(h, s.frames)
  {
    var visit := VisitEntry(h, e, s.ancestors);
    if visit.Yields? {
      YieldedLeft(h, s, s', f, OutEntry(e.key, Scalar(visit.json)));
    } else {
      DescendedFrames(s, e.key, visit.ref, h[visit.ref]);
      EnteredLeft(h, s, s'.frames, f, visit.ref);
    }
  }

  lemma TurnedLeft(h: Heap, s: State, s': State, failure: Option<Error>)
    requires Closed(h) && AllSuspended(h, s.frames) && s.frames != [] && s.frames[|s.frames| - 1].output < |s.out|
    requires s.ancestors == Inputs(s.frames)
    requires Turned(h, s, s', failure) && failure.None?
    ensures AllSuspended(h, s'.frames) && Left(h, s'.frames) < Left(h, s.frames)
  {
    var k := |s.frames| - 1;
    var f := s.frames[k];
    assert Suspended(h, f);
    if f.cursor < |f.entries| {
      EntryLeft(h, s, s', f, f.entries[f.cursor], failure);
    }
  }

  /** The state in which a container has just been opened as the root. */
  ghost function Opened(h: Heap, root: Ref): State
    requires root in h
  {
    Pushed(Allocated(State([], [], {}), h[root]), root, h[root])
  }

  lemma OpenedRuns(h: Heap, root: Ref)
    requires Closed(h) && root in h && !h[root].ForeignObject?
    ensures Running(h, Opened(h, root), map[], [[]])
  {
    var a := Allocated(State([], [], {}), h[root]);
    var none: seq<seq<Json>> := [];
    assert none + [[]] == [[]];
    assert Inputs(a.frames) == {};
    PushedFrames(h, a, none, root);
    PushedFaithful(h, a, map[], none, root);
  }

  lemma OpenedPromises(h: Heap, root: Ref)
    requires Closed(h) && root in h && !h[root].ForeignObject? && Resumable(h, Opened(h, root).frames, [[]])
    ensures Promises(h, Opened(h, root).frames, map[], [[]], 0, Normal(h, Reference(root), {}))
  {
    var f := Frame(root, 0, Entries(h[root]), 0);
    var none: seq<seq<Json>> := [];
    assert Opened(h, root).frames == [f];
    assert Path([f]) == [] + [root] && none + [[]] == [[]];
    PathOpen(h, [f], [[]]);
    ResumeTop(h, [], none, root, []);
    assert Entries(h[root])[0..] == Entries(h[root]) && Members([]) + {root} == {} + {root};
    assert forall more: seq<Json> :: [] + more == more;
  }

  /**
   Normalise one value. Success yields an output value whose tree is the normal form of the recursive
   normaliser; failure is its failure.
   */
  method Canonicalise(h: Heap, entry: Value) returns (r: Outcome<OutValue>, out: Output)
    requires Closed(h) && Known(h, entry)
    ensures r.Err? <==> Normal(h, entry, {}).Err?
    ensures r.Err? ==> r.error == Normal(h, entry, {}).error
    ensures r.Ok? ==> Forward(out) && (r.value.OutRef? ==> r.value.id < |out|) &&
                      ReadBack(out, r.value) == Normal(h, entry, {}).value
  {
    var run := new Normaliser(h);
    ghost var outcome := Normal(h, entry, {});
    r := run.Normalize(entry);
    if run.frames == [] {
      return r, [];
    }
    OpenedRuns(h, entry.ref);
    OpenedPromises(h, entry.ref);
    ghost var value: map<nat, Json>, dones: seq<seq<Json>> := map[], [[]];
    while run.frames != []
      invariant run.heap == h && Continues(h, run.View(), value, dones, 0, outcome)
      decreases Left(h, run.frames)
    {
      ghost var before := run.View();
      assert Faithful(h, before.out, value, before.frames[|before.frames| - 1], dones[|before.frames| - 1]);
      var failure := run.Turn();
      value, dones := TurnedContinues(h, before, run.View(), failure, value, dones, 0, outcome);
      if failure.Some? {
        return Err(failure.value), run.out;
      }
      TurnedLeft(h, before, run.View(), failure);
    }
    out := run.out;
    CompleteReadsBack(out, value, OutRef(0));
  }
}
