/**
 `canonicalJson` as it runs: explicit frames, one mutable ancestry set, and output containers that are
 attached to their parents before they are filled. It computes the recursive normaliser.
 */
module CanonicalNormaliser {
  import opened Options
  import opened CodeUnits
  import opened JsonGrammar
  import opened CanonicalValue

  // ----- output containers

  datatype OutValue = Scalar(json: Json) | OutRef(id: nat)

  datatype OutEntry = OutEntry(key: Option<Text>, value: OutValue)

  /** An output array or object; `filled` are the slots defined so far. */
  datatype OutNode = OutNode(isArray: bool, filled: seq<OutEntry>)

  type Output = seq<OutNode>

  function AsEntries(filled: seq<OutEntry>): seq<Entry> {
    seq(|filled|, i requires 0 <= i < |filled| => Entry(filled[i].key, NullValue))
  }

  ghost predicate Forward(out: Output) {
    forall n, k :: 0 <= n < |out| && 0 <= k < |out[n].filled| && out[n].filled[k].value.OutRef? ==>
      n < out[n].filled[k].value.id < |out|
  }

  /** The tree that an output value denotes. */
  function ReadBack(out: Output, v: OutValue): Json
    requires Forward(out) && (v.OutRef? ==> v.id < |out|)
    decreases if v.OutRef? then |out| - v.id else 0
  {
    match v
    case Scalar(j) => j
    case OutRef(n) =>
      var filled := out[n].filled;
      Build(out[n].isArray, AsEntries(filled),
            seq(|filled|, k requires 0 <= k < |filled| => ReadBack(out, filled[k].value)))
  }

  // ----- finished output containers and their values

  ghost predicate Evaluable(value: map<nat, Json>, v: OutValue) {
    v.OutRef? ==> v.id in value
  }

  ghost function Eval(value: map<nat, Json>, v: OutValue): Json
    requires Evaluable(value, v)
  {
    match v
    case Scalar(j) => j
    case OutRef(n) => value[n]
  }

  ghost predicate AllEvaluable(value: map<nat, Json>, filled: seq<OutEntry>) {
    forall k :: 0 <= k < |filled| ==> Evaluable(value, filled[k].value)
  }

  ghost function EvalAll(value: map<nat, Json>, filled: seq<OutEntry>): seq<Json>
    requires AllEvaluable(value, filled)
  {
    seq(|filled|, k requires 0 <= k < |filled| => Eval(value, filled[k].value))
  }

  ghost predicate CompleteAt(out: Output, value: map<nat, Json>, n: nat)
    requires n in value
  {
    && n < |out|
    && AllEvaluable(value, out[n].filled)
    && value[n] == Build(out[n].isArray, AsEntries(out[n].filled), EvalAll(value, out[n].filled))
  }

  ghost predicate Complete(out: Output, value: map<nat, Json>) {
    forall n {:trigger CompleteAt(out, value, n)} {:trigger n in value} :: n in value ==> CompleteAt(out, value, n)
  }

  lemma {:induction false} CompleteReadsBack(out: Output, value: map<nat, Json>, v: OutValue)
    requires Forward(out) && Complete(out, value) && Evaluable(value, v)
    ensures (v.OutRef? ==> v.id < |out|) && ReadBack(out, v) == Eval(value, v)
    decreases if v.OutRef? then |out| - v.id else 0
  {
    if v.OutRef? {
      var filled := out[v.id].filled;
      forall k | 0 <= k < |filled|
        ensures ReadBack(out, filled[k].value) == Eval(value, filled[k].value)
      {
        CompleteReadsBack(out, value, filled[k].value);
      }
      assert seq(|filled|, k requires 0 <= k < |filled| => ReadBack(out, filled[k].value)) == EvalAll(value, filled);
    }
  }

  // ----- frames

  datatype Frame = Frame(input: Ref, output: nat, entries: seq<Entry>, cursor: nat)

  ghost predicate Suspended(h: Heap, f: Frame) {
    && f.input in h && !h[f.input].ForeignObject?
    && f.entries == Entries(h[f.input])
    && f.cursor <= |f.entries|
  }

  ghost predicate AllSuspended(h: Heap, frames: seq<Frame>) {
    forall i :: 0 <= i < |frames| ==> Suspended(h, frames[i])
  }

  ghost function Inputs(frames: seq<Frame>): set<Ref> {
    set i | 0 <= i < |frames| :: frames[i].input
  }

  lemma InputsTop(below: seq<Frame>, f: Frame)
    ensures Inputs(below + [f]) == Inputs(below) + {f.input}
  {
    var all := below + [f];
    assert all[|below|] == f;
    forall r | r in Inputs(below)
      ensures r in Inputs(all)
    {
      var i :| 0 <= i < |below| && below[i].input == r;
      assert all[i].input == r;
    }
  }

  /** `dones[i]` are the finished values of frame `i`; the entries behind them are still to be done. */
  ghost predicate Resumable(h: Heap, frames: seq<Frame>, dones: seq<seq<Json>>) {
    && Closed(h) && AllSuspended(h, frames) && |dones| == |frames|
    && forall i :: 0 <= i < |frames| ==> |dones[i]| <= |frames[i].entries|
  }

  // ----- what nested containers still compute

  /** The containers that are open, outermost first. */
  ghost function Path(frames: seq<Frame>): seq<Ref> {
    seq(|frames|, i requires 0 <= i < |frames| => frames[i].input)
  }

  ghost function Members(path: seq<Ref>): set<Ref> {
    set r | r in path
  }

  lemma PathMembers(frames: seq<Frame>)
    ensures Members(Path(frames)) == Inputs(frames)
  {
    forall r | r in Inputs(frames)
      ensures r in Path(frames)
    {
      var i :| 0 <= i < |frames| && frames[i].input == r;
      assert Path(frames)[i] == r;
    }
  }

  ghost predicate Open(h: Heap, path: seq<Ref>, dones: seq<seq<Json>>) {
    && Closed(h) && |dones| == |path|
    && (forall i :: 0 <= i < |path| ==> path[i] in h && !h[path[i]].ForeignObject?)
    && (forall i :: 0 <= i < |path| ==> |dones[i]| <= |Entries(h[path[i]])|)
  }

  lemma PathOpen(h: Heap, frames: seq<Frame>, dones: seq<seq<Json>>)
    requires Resumable(h, frames, dones)
    ensures Open(h, Path(frames), dones)
  {
    forall i | 0 <= i < |frames|
      ensures Suspended(h, frames[i]) && Path(frames)[i] == frames[i].input
    {
    }
  }

  /** The outcome of finishing every open container from its finished values. */
  ghost function Resume(h: Heap, path: seq<Ref>, dones: seq<seq<Json>>): Outcome<Json>
    requires Open(h, path, dones) && path != []
    decreases |path|, 0
  {
    var k := |path| - 1;
    var o, done := h[path[k]], dones[k];
    match NormalEntries(h, Entries(o)[|done|..], Members(path))
    case Err(e) => Err(e)
    case Ok(more) => Deliver(h, path[..k], dones[..k], Build(o.ArrayObject?, Entries(o), done + more))
  }

  ghost function Deliver(h: Heap, path: seq<Ref>, dones: seq<seq<Json>>, v: Json): Outcome<Json>
    requires Open(h, path, dones)
    decreases |path|, 1
  {
    if path == [] then Ok(v) else
    var k := |path| - 1;
    if |dones[k]| == |Entries(h[path[k]])| then Ok(v)
    else Resume(h, path, dones[k := dones[k] + [v]])
  }

  lemma NormalEntriesHead(h: Heap, entries: seq<Entry>, i: nat, ancestors: set<Ref>)
    requires Closed(h) && (forall k :: 0 <= k < |entries| ==> Known(h, entries[k].value)) && i < |entries|
    ensures NormalEntries(h, entries[i..], ancestors) ==
            match NormalEntry(h, entries[i], ancestors)
            case Err(e) => Err(e)
            case Ok(v) => (match NormalEntries(h, entries[i + 1..], ancestors)
                           case Err(e) => Err(e)
                           case Ok(more) => Ok([v] + more))
  {
    assert entries[i..][1..] == entries[i + 1..];
  }

  /** The innermost container and what is finished of it. */
  ghost predicate Unfinished(h: Heap, path: seq<Ref>, dones: seq<seq<Json>>, e: Entry) {
    && Open(h, path, dones) && path != []
    && var k := |path| - 1;
       |dones[k]| < |Entries(h[path[k]])| && e == Entries(h[path[k]])[|dones[k]|]
  }

  lemma ResumeFails(h: Heap, path: seq<Ref>, dones: seq<seq<Json>>, e: Entry, error: Error)
    requires Unfinished(h, path, dones, e) && NormalEntry(h, e, Members(path)) == Err(error)
    ensures Resume(h, path, dones) == Err(error)
  {
    var k := |path| - 1;
    NormalEntriesHead(h, Entries(h[path[k]]), |dones[k]|, Members(path));
  }

  lemma EntryKnown(h: Heap, r: Ref, i: nat)
    requires Closed(h) && r in h && i < |Entries(h[r])|
    ensures Known(h, Entries(h[r])[i].value)
  {
  }

  lemma EntriesKnown(h: Heap, r: Ref)
    requires Closed(h) && r in h
    ensures forall i :: 0 <= i < |Entries(h[r])| ==> Known(h, Entries(h[r])[i].value)
  {
    forall i | 0 <= i < |Entries(h[r])|
      ensures Known(h, Entries(h[r])[i].value)
    {
      EntryKnown(h, r, i);
    }
  }

  lemma GrownOpen(h: Heap, path: seq<Ref>, dones: seq<seq<Json>>, v: Json)
    requires Open(h, path, dones) && path != [] && |dones[|path| - 1]| < |Entries(h[path[|path| - 1]])|
    ensures Open(h, path, dones[|path| - 1 := dones[|path| - 1] + [v]])
  {
    var k := |path| - 1;
    var dones' := dones[k := dones[k] + [v]];
    forall i | 0 <= i < |path|
      ensures |dones'[i]| <= |Entries(h[path[i]])|
    {
      assert i < k ==> dones'[i] == dones[i];
    }
  }

  /** The two ways to read the entries behind the finished values. */
  lemma EntriesPass(h: Heap, entries: seq<Entry>, done: seq<Json>, ancestors: set<Ref>, v: Json)
    requires Closed(h) && (forall k :: 0 <= k < |entries| ==> Known(h, entries[k].value)) && |done| < |entries|
    requires NormalEntry(h, entries[|done|], ancestors) == Ok(v)
    ensures var a, b := NormalEntries(h, entries[|done|..], ancestors),
            NormalEntries(h, entries[|done| + 1..], ancestors);
            (a.Err? <==> b.Err?) && (a.Err? ==> a == b) && (a.Ok? ==> done + a.value == (done + [v]) + b.value)
  {
    NormalEntriesHead(h, entries, |done|, ancestors);
    var b := NormalEntries(h, entries[|done| + 1..], ancestors);
    if b.Ok? {
      Regrouped(done, v, b.value);
    }
  }

  lemma Regrouped<T>(s: seq<T>, x: T, t: seq<T>)
    ensures s + ([x] + t) == (s + [x]) + t
  {
  }

  /** Resuming depends on what is finished of the innermost container only through what that delivers. */
  lemma ResumeSame(h: Heap, path: seq<Ref>, dones: seq<seq<Json>>, dones': seq<seq<Json>>)
    requires Open(h, path, dones) && Open(h, path, dones') && path != []
    requires dones'[..|path| - 1] == dones[..|path| - 1]
    requires var k := |path| - 1; var entries := Entries(h[path[k]]);
             forall i :: 0 <= i < |entries| ==> Known(h, entries[i].value)
    requires var k := |path| - 1; var entries := Entries(h[path[k]]);
             var a, b := NormalEntries(h, entries[|dones[k]|..], Members(path)),
             NormalEntries(h, entries[|dones'[k]|..], Members(path));
             (a.Err? <==> b.Err?) && (a.Err? ==> a == b) && (a.Ok? ==> dones[k] + a.value == dones'[k] + b.value)
    ensures Resume(h, path, dones) == Resume(h, path, dones')
  {
  }

  /** A normal entry of the innermost container is delivered to it. */
  lemma ResumePasses(h: Heap, path: seq<Ref>, dones: seq<seq<Json>>, e: Entry, v: Json)
    requires Unfinished(h, path, dones, e) && NormalEntry(h, e, Members(path)) == Ok(v)
    ensures Open(h, path, dones[|path| - 1 := dones[|path| - 1] + [v]])
    ensures Resume(h, path, dones) == Resume(h, path, dones[|path| - 1 := dones[|path| - 1] + [v]])
  {
    var k := |path| - 1;
    var dones' := dones[k := dones[k] + [v]];
    GrownOpen(h, path, dones, v);
    EntriesKnown(h, path[k]);
    EntriesPass(h, Entries(h[path[k]]), dones[k], Members(path), v);
    assert dones'[..k] == dones[..k];
    ResumeSame(h, path, dones, dones');
  }

  lemma ResumeTop(h: Heap, path: seq<Ref>, dones: seq<seq<Json>>, x: Ref, done: seq<Json>)
    requires Open(h, path, dones) && x in h && !h[x].ForeignObject? && |done| <= |Entries(h[x])|
    ensures Open(h, path + [x], dones + [done])
    ensures Resume(h, path + [x], dones + [done]) ==
            match NormalEntries(h, Entries(h[x])[|done|..], Members(path) + {x})
            case Err(e) => Err(e)
            case Ok(more) => Deliver(h, path, dones, Build(h[x].ArrayObject?, Entries(h[x]), done + more))
  {
    TopOpens(h, path, dones, x, done);
    EntriesKnown(h, x);
    assert (path + [x])[..|path|] == path && (dones + [done])[..|dones|] == dones;
  }

  lemma TopOpens(h: Heap, path: seq<Ref>, dones: seq<seq<Json>>, x: Ref, done: seq<Json>)
    requires Open(h, path, dones) && x in h && !h[x].ForeignObject? && |done| <= |Entries(h[x])|
    ensures Open(h, path + [x], dones + [done]) && Members(path + [x]) == Members(path) + {x}
  {
  }

  /** Descending into a container changes nothing about the outcome. */
  lemma ResumePush(h: Heap, path: seq<Ref>, dones: seq<seq<Json>>, e: Entry, x: Ref)
    requires Unfinished(h, path, dones, e) && e.value == Reference(x)
    requires x in h && !h[x].ForeignObject? && x !in path
    ensures Open(h, path + [x], dones + [[]])
    ensures Resume(h, path, dones) == Resume(h, path + [x], dones + [[]])
  {
    ResumeOpened(h, path, dones, x);
    match NormalEntry(h, e, Members(path))
    case Err(error) => ResumeFails(h, path, dones, e, error);
    case Ok(v) => ResumePasses(h, path, dones, e, v);
  }

  /** A container that was just opened owes its own value. */
  lemma ResumeOpened(h: Heap, path: seq<Ref>, dones: seq<seq<Json>>, x: Ref)
    requires Open(h, path, dones) && x in h && !h[x].ForeignObject? && x !in path
    ensures Open(h, path + [x], dones + [[]])
    ensures var n := Normal(h, Reference(x), Members(path));
            Resume(h, path + [x], dones + [[]]) == if n.Err? then n else Deliver(h, path, dones, n.value)
  {
    ResumeTop(h, path, dones, x, []);
    assert Entries(h[x])[0..] == Entries(h[x]);
    var r := NormalEntries(h, Entries(h[x]), Members(path) + {x});
    if r.Ok? {
      assert [] + r.value == r.value;
    }
  }

  /** Leaving a finished container hands its value to the one around it. */
  lemma ResumePop(h: Heap, path: seq<Ref>, dones: seq<seq<Json>>, x: Ref, done: seq<Json>)
    requires Open(h, path, dones) && x in h && !h[x].ForeignObject? && |done| == |Entries(h[x])|
    ensures Open(h, path + [x], dones + [done])
    ensures Resume(h, path + [x], dones + [done]) ==
            Deliver(h, path, dones, Build(h[x].ArrayObject?, Entries(h[x]), done))
  {
    ResumeTop(h, path, dones, x, done);
    assert Entries(h[x])[|done|..] == [];
    assert done + [] == done;
  }

  // ----- the running state

  datatype State = State(out: Output, frames: seq<Frame>, ancestors: set<Ref>)

  /** The output of `f` holds exactly the entries passed so far, `done` of them finished. */
  ghost predicate Faithful(h: Heap, out: Output, value: map<nat, Json>, f: Frame, done: seq<Json>)
    requires Suspended(h, f)
  {
    && f.output < |out| && f.output !in value
    && out[f.output].isArray == h[f.input].ArrayObject?
    && |out[f.output].filled| == f.cursor && |done| <= f.cursor
    && (forall k :: 0 <= k < f.cursor ==> out[f.output].filled[k].key == f.entries[k].key)
    && (forall k :: 0 <= k < |done| ==>
          Evaluable(value, out[f.output].filled[k].value) && Eval(value, out[f.output].filled[k].value) == done[k])
  }

  ghost predicate AllFaithful(h: Heap, s: State, value: map<nat, Json>, dones: seq<seq<Json>>)
    requires Resumable(h, s.frames, dones)
  {
    forall i :: 0 <= i < |s.frames| ==> Faithful(h, s.out, value, s.frames[i], dones[i])
  }

  /** Only the innermost frame has finished all it has passed; each other one waits for the next frame. */
  ghost predicate Nested(out: Output, frames: seq<Frame>, dones: seq<seq<Json>>)
    requires |dones| == |frames|
  {
    && (frames != [] ==> |dones[|frames| - 1]| == frames[|frames| - 1].cursor)
    && (forall i {:trigger WaitsAt(out, frames, dones, i)} :: 0 <= i < |frames| - 1 ==> WaitsAt(out, frames, dones, i))
  }

  ghost predicate WaitsAt(out: Output, frames: seq<Frame>, dones: seq<seq<Json>>, i: int)
    requires |dones| == |frames| && 0 <= i < |frames| - 1
  {
    WaitsFor(out, frames[i], |dones[i]|, frames[i + 1].output)
  }

  /** `f` has passed one entry more than the `done` finished ones: a reference to the output `child`. */
  ghost predicate WaitsFor(out: Output, f: Frame, done: nat, child: nat) {
    && f.cursor == done + 1 && f.output < |out|
    && done < |out[f.output].filled| && out[f.output].filled[done].value == OutRef(child)
  }

  ghost predicate Rising(frames: seq<Frame>) {
    forall i, j :: 0 <= i < j < |frames| ==> frames[i].output < frames[j].output
  }

  ghost predicate DistinctInputs(frames: seq<Frame>) {
    forall i, j :: 0 <= i < j < |frames| ==> frames[i].input != frames[j].input
  }

  /** Everything the run keeps between two turns. */
  ghost predicate Running(h: Heap, s: State, value: map<nat, Json>, dones: seq<seq<Json>>) {
    && Resumable(h, s.frames, dones)
    && s.ancestors == Inputs(s.frames) && DistinctInputs(s.frames)
    && Rising(s.frames)
    && AllFaithful(h, s, value, dones)
    && Nested(s.out, s.frames, dones)
    && Forward(s.out) && Complete(s.out, value)
  }

  // ----- writing into an output container

  function Defined(out: Output, n: nat, e: OutEntry): Output
    requires n < |out|
  {
    out[n := OutNode(out[n].isArray, out[n].filled + [e])]
  }

  lemma DefinedForward(out: Output, n: nat, e: OutEntry)
    requires Forward(out) && n < |out| && (e.value.OutRef? ==> n < e.value.id < |out|)
    ensures Forward(Defined(out, n, e))
  {
  }

  lemma DefinedComplete(out: Output, n: nat, e: OutEntry, value: map<nat, Json>)
    requires Complete(out, value) && n < |out| && n !in value
    ensures Complete(Defined(out, n, e), value)
  {
  }

  lemma DefinedFaithful(h: Heap, out: Output, n: nat, e: OutEntry, value: map<nat, Json>, f: Frame, done: seq<Json>)
    requires Suspended(h, f) && Faithful(h, out, value, f, done) && n < |out| && n != f.output
    ensures Faithful(h, Defined(out, n, e), value, f, done)
  {
  }

  // ----- the innermost frame passes a scalar

  function Passed(s: State, e: OutEntry): State
    requires s.frames != [] && s.frames[|s.frames| - 1].output < |s.out|
  {
    var k := |s.frames| - 1;
    var f := s.frames[k];
    State(Defined(s.out, f.output, e), s.frames[k := f.(cursor := f.cursor + 1)], s.ancestors)
  }

  lemma InputsUpdate(frames: seq<Frame>, k: nat, f: Frame)
    requires k < |frames| && f.input == frames[k].input
    ensures Inputs(frames[k := f]) == Inputs(frames)
  {
    var all := frames[k := f];
    assert forall i :: 0 <= i < |frames| ==> all[i].input == frames[i].input;
  }

  ghost predicate MayPass(h: Heap, s: State, dones: seq<seq<Json>>) {
    && Resumable(h, s.frames, dones) && s.frames != []
    && var f := s.frames[|s.frames| - 1]; f.cursor < |f.entries| && f.output < |s.out|
  }

  lemma PassedFrames(h: Heap, s: State, dones: seq<seq<Json>>, e: OutEntry, done: seq<Json>)
    requires MayPass(h, s, dones) && |done| <= |s.frames[|s.frames| - 1].entries|
    requires Rising(s.frames) && DistinctInputs(s.frames)
    ensures var s' := Passed(s, e);
            Resumable(h, s'.frames, dones[|s.frames| - 1 := done]) && Rising(s'.frames) &&
            DistinctInputs(s'.frames) && Inputs(s'.frames) == Inputs(s.frames)
  {
    var k := |s.frames| - 1;
    var f := s.frames[k];
    var g := f.(cursor := f.cursor + 1);
    assert Passed(s, e).frames == s.frames[k := g];
    InputsUpdate(s.frames, k, g);
    MovedOrder(s.frames, k, g);
    assert Suspended(h, f);
    MovedResumable(h, s.frames, dones, k, g, done);
  }

  lemma MovedResumable(h: Heap, frames: seq<Frame>, dones: seq<seq<Json>>, k: nat, g: Frame, done: seq<Json>)
    requires Resumable(h, frames, dones) && k < |frames| && Suspended(h, g) && |done| <= |g.entries|
    ensures Resumable(h, frames[k := g], dones[k := done])
  {
    var moved := frames[k := g];
    forall i | 0 <= i < |frames|
      ensures Suspended(h, moved[i]) && |dones[k := done][i]| <= |moved[i].entries|
    {
      assert i != k ==> Suspended(h, frames[i]);
    }
  }

  lemma MovedOrder(frames: seq<Frame>, k: nat, g: Frame)
    requires Rising(frames) && DistinctInputs(frames) && k < |frames| && g.input == frames[k].input &&
             g.output == frames[k].output
    ensures Rising(frames[k := g]) && DistinctInputs(frames[k := g])
  {
    var moved := frames[k := g];
    assert forall i :: 0 <= i < |frames| ==> moved[i].input == frames[i].input && moved[i].output == frames[i].output;
  }

  lemma DefinedTop(h: Heap, out: Output, value: map<nat, Json>, f: Frame, before: seq<Json>, e: OutEntry,
                   done: seq<Json>)
    requires Suspended(h, f) && f.cursor < |f.entries| && e.key == f.entries[f.cursor].key &&
             Faithful(h, out, value, f, before)
    requires done == before ||
             (Evaluable(value, e.value) && done == before + [Eval(value, e.value)] && |before| == f.cursor)
    ensures Faithful(h, Defined(out, f.output, e), value, f.(cursor := f.cursor + 1), done)
  {
    var filled, filled' := out[f.output].filled, Defined(out, f.output, e)[f.output].filled;
    assert forall k :: 0 <= k < f.cursor ==> filled'[k] == filled[k];
    assert filled'[f.cursor] == e;
  }

  lemma PassedFaithful(h: Heap, s: State, value: map<nat, Json>, dones: seq<seq<Json>>, e: OutEntry, done: seq<Json>)
    requires MayPass(h, s, dones) && AllFaithful(h, s, value, dones) && Rising(s.frames)
    requires var f := s.frames[|s.frames| - 1]; e.key == f.entries[f.cursor].key
    requires done == dones[|s.frames| - 1] ||
             (Evaluable(value, e.value) && done == dones[|s.frames| - 1] + [Eval(value, e.value)] &&
              |dones[|s.frames| - 1]| == s.frames[|s.frames| - 1].cursor)
    requires Resumable(h, Passed(s, e).frames, dones[|s.frames| - 1 := done])
    ensures AllFaithful(h, Passed(s, e), value, dones[|s.frames| - 1 := done])
  {
    var k := |s.frames| - 1;
    var s' := Passed(s, e);
    forall i | 0 <= i < |s'.frames|
      ensures Faithful(h, s'.out, value, s'.frames[i], dones[k := done][i])
    {
      if i < k {
        DefinedFaithful(h, s.out, s.frames[k].output, e, value, s.frames[i], dones[i]);
      } else {
        DefinedTop(h, s.out, value, s.frames[k], dones[k], e, done);
      }
    }
  }

  lemma StillWaits(out: Output, n: nat, e: OutEntry, f: Frame, done: nat, child: nat)
    requires n < |out| && n != f.output && WaitsFor(out, f, done, child)
    ensures WaitsFor(Defined(out, n, e), f, done, child)
  {
  }

  lemma NowWaits(out: Output, e: OutEntry, f: Frame, child: nat)
    requires f.output < |out| && |out[f.output].filled| == f.cursor && e.value == OutRef(child)
    ensures WaitsFor(Defined(out, f.output, e), f.(cursor := f.cursor + 1), f.cursor, child)
  {
  }

  /** Frames below the innermost one keep waiting when it passes an entry. */
  lemma PassedWaits(s: State, dones: seq<seq<Json>>, dones': seq<seq<Json>>, e: OutEntry, i: nat)
    requires s.frames != [] && |dones| == |s.frames| == |dones'| && s.frames[|s.frames| - 1].output < |s.out|
    requires Nested(s.out, s.frames, dones) && Rising(s.frames) && i < |s.frames| - 1 && dones'[i] == dones[i]
    ensures WaitsAt(Passed(s, e).out, Passed(s, e).frames, dones', i)
  {
    var k := |s.frames| - 1;
    assert WaitsAt(s.out, s.frames, dones, i);
    StillWaits(s.out, s.frames[k].output, e, s.frames[i], |dones[i]|, s.frames[i + 1].output);
  }

  lemma PassedNested(h: Heap, s: State, dones: seq<seq<Json>>, e: OutEntry, v: Json)
    requires MayPass(h, s, dones) && Nested(s.out, s.frames, dones) && Rising(s.frames)
    ensures var s' := Passed(s, e); Nested(s'.out, s'.frames, dones[|s.frames| - 1 := dones[|s.frames| - 1] + [v]])
  {
    var k := |s.frames| - 1;
    var s', dones' := Passed(s, e), dones[|s.frames| - 1 := dones[|s.frames| - 1] + [v]];
    forall i | 0 <= i < k
      ensures WaitsAt(s'.out, s'.frames, dones', i)
    {
      PassedWaits(s, dones, dones', e, i);
    }
  }

  lemma PassScalar(h: Heap, s: State, value: map<nat, Json>, dones: seq<seq<Json>>, j: Json)
    requires Running(h, s, value, dones) && s.frames != []
    requires s.frames[|s.frames| - 1].cursor < |s.frames[|s.frames| - 1].entries|
    ensures var k := |s.frames| - 1;
            Running(h, Passed(s, OutEntry(s.frames[k].entries[s.frames[k].cursor].key, Scalar(j))), value,
                    dones[k := dones[k] + [j]])
  {
    var k := |s.frames| - 1;
    var f := s.frames[k];
    var e := OutEntry(f.entries[f.cursor].key, Scalar(j));
    assert Faithful(h, s.out, value, f, dones[k]);
    PassedFrames(h, s, dones, e, dones[k] + [j]);
    PassedFaithful(h, s, value, dones, e, dones[k] + [j]);
    PassedNested(h, s, dones, e, j);
    DefinedForward(s.out, f.output, e);
    DefinedComplete(s.out, f.output, e, value);
  }

  // ----- the innermost frame descends into a container

  function Allocated(s: State, o: Object): State {
    s.(out := s.out + [OutNode(o.ArrayObject?, [])])
  }

  /** A new frame for the container `x`, whose output has just been allocated. */
  function Pushed(s: State, x: Ref, o: Object): State
    requires s.out != []
  {
    State(s.out, s.frames + [Frame(x, |s.out| - 1, Entries(o), 0)], s.ancestors + {x})
  }

  lemma AllocatedFaithful(h: Heap, s: State, value: map<nat, Json>, dones: seq<seq<Json>>, o: Object)
    requires Resumable(h, s.frames, dones) && AllFaithful(h, s, value, dones)
    ensures AllFaithful(h, Allocated(s, o), value, dones)
  {
    var s' := Allocated(s, o);
    forall i | 0 <= i < |s.frames|
      ensures Faithful(h, s'.out, value, s'.frames[i], dones[i])
    {
      assert Faithful(h, s.out, value, s.frames[i], dones[i]);
      assert s'.out[s.frames[i].output] == s.out[s.frames[i].output];
    }
  }

  lemma AllocatedOutput(s: State, value: map<nat, Json>, dones: seq<seq<Json>>, o: Object)
    requires |dones| == |s.frames| && Nested(s.out, s.frames, dones) && Forward(s.out) && Complete(s.out, value)
    ensures Nested(Allocated(s, o).out, s.frames, dones) && Forward(Allocated(s, o).out) &&
            Complete(Allocated(s, o).out, value)
  {
    var s' := Allocated(s, o);
    assert forall n :: 0 <= n < |s.out| ==> s'.out[n] == s.out[n];
    forall i | 0 <= i < |s.frames| - 1
      ensures WaitsAt(s'.out, s.frames, dones, i)
    {
      assert WaitsAt(s.out, s.frames, dones, i);
    }
  }

  /** The frames after the innermost one has passed a reference to the newest output. */
  lemma WaitsBelow(out: Output, frames: seq<Frame>, dones: seq<seq<Json>>, top: Frame, done: seq<Json>, i: nat)
    requires |dones| == |frames| && i < |frames| - 1 && WaitsAt(out, frames, dones, i)
    ensures WaitsAt(out, frames + [top], dones + [done], i)
  {
  }

  lemma PassedNestedBelow(h: Heap, s: State, dones: seq<seq<Json>>, e: OutEntry, x: Ref, o: Object)
    requires MayPass(h, s, dones) && Nested(s.out, s.frames, dones) && Rising(s.frames) &&
             e.value == OutRef(|s.out| - 1)
    requires AllOutputsFilled(s)
    ensures var s' := Pushed(Passed(s, e), x, o); Nested(s'.out, s'.frames, dones + [[]])
  {
    var k := |s.frames| - 1;
    var p, s', dones' := Passed(s, e), Pushed(Passed(s, e), x, o), dones + [[]];
    forall i | 0 <= i <= k
      ensures WaitsAt(s'.out, s'.frames, dones', i)
    {
      if i < k {
        PassedWaits(s, dones, dones, e, i);
        WaitsBelow(p.out, p.frames, dones, s'.frames[k + 1], [], i);
      } else {
        NowWaits(s.out, e, s.frames[k], |s.out| - 1);
      }
    }
  }

  ghost predicate AllOutputsFilled(s: State) {
    forall i :: 0 <= i < |s.frames| ==>
      s.frames[i].output < |s.out| && |s.out[s.frames[i].output].filled| == s.frames[i].cursor
  }

  lemma PushedFrames(h: Heap, s: State, dones: seq<seq<Json>>, x: Ref)
    requires Resumable(h, s.frames, dones) && Rising(s.frames) && DistinctInputs(s.frames)
    requires x in h && !h[x].ForeignObject? && x !in Inputs(s.frames)
    requires s.out != [] && forall i :: 0 <= i < |s.frames| ==> s.frames[i].output < |s.out| - 1
    ensures var s' := Pushed(s, x, h[x]);
            Resumable(h, s'.frames, dones + [[]]) && Rising(s'.frames) && DistinctInputs(s'.frames) &&
            Inputs(s'.frames) == Inputs(s.frames) + {x}
  {
    var g := Frame(x, |s.out| - 1, Entries(h[x]), 0);
    InputsTop(s.frames, g);
    PushedResumable(h, s.frames, dones, g);
    PushedDistinct(s.frames, g);
  }

  lemma PushedResumable(h: Heap, frames: seq<Frame>, dones: seq<seq<Json>>, g: Frame)
    requires Resumable(h, frames, dones) && Suspended(h, g)
    ensures Resumable(h, frames + [g], dones + [[]])
  {
  }

  lemma PushedDistinct(frames: seq<Frame>, g: Frame)
    requires Rising(frames) && DistinctInputs(frames) && g.input !in Inputs(frames)
    requires forall i :: 0 <= i < |frames| ==> frames[i].output < g.output
    ensures Rising(frames + [g]) && DistinctInputs(frames + [g])
  {
    assert forall i :: 0 <= i < |frames| ==> frames[i].input in Inputs(frames);
  }

  lemma PushedFaithful(h: Heap, s: State, value: map<nat, Json>, dones: seq<seq<Json>>, x: Ref)
    requires Resumable(h, s.frames, dones) && AllFaithful(h, s, value, dones)
    requires x in h && !h[x].ForeignObject? && s.out != [] && s.out[|s.out| - 1] == OutNode(h[x].ArrayObject?, [])
    requires |s.out| - 1 !in value
    requires Resumable(h, Pushed(s, x, h[x]).frames, dones + [[]])
    ensures AllFaithful(h, Pushed(s, x, h[x]), value, dones + [[]])
  {
    var s' := Pushed(s, x, h[x]);
    forall i | 0 <= i < |s'.frames|
      ensures Faithful(h, s'.out, value, s'.frames[i], (dones + [[]])[i])
    {
      if i < |s.frames| {
        assert Faithful(h, s.out, value, s.frames[i], dones[i]);
      }
    }
  }

  /** A container entered from the innermost frame. */
  function Descended(s: State, key: Option<Text>, x: Ref, o: Object): State
    requires s.frames != [] && s.frames[|s.frames| - 1].output < |s.out|
  {
    Pushed(Passed(Allocated(s, o), OutEntry(key, OutRef(|s.out|))), x, o)
  }

  lemma Descend(h: Heap, s: State, value: map<nat, Json>, dones: seq<seq<Json>>, x: Ref)
    requires Running(h, s, value, dones) && s.frames != []
    requires s.frames[|s.frames| - 1].cursor < |s.frames[|s.frames| - 1].entries|
    requires x in h && !h[x].ForeignObject? && x !in s.ancestors
    ensures var k := |s.frames| - 1;
            Running(h, Descended(s, s.frames[k].entries[s.frames[k].cursor].key, x, h[x]), value, dones + [[]])
  {
    var k := |s.frames| - 1;
    var f := s.frames[k];
    var o := h[x];
    var e := OutEntry(f.entries[f.cursor].key, OutRef(|s.out|));
    var a := Allocated(s, o);
    AllocatedFaithful(h, s, value, dones, o);
    AllocatedOutput(s, value, dones, o);
    OutputsBelow(h, s, value, dones);
    DescendOutput(h, s, a, value, dones, e, x);
    DescendFrames(h, s, a, value, dones, e, x);
  }

  lemma OutputsBelow(h: Heap, s: State, value: map<nat, Json>, dones: seq<seq<Json>>)
    requires Resumable(h, s.frames, dones) && AllFaithful(h, s, value, dones)
    ensures forall i :: 0 <= i < |s.frames| ==> s.frames[i].output < |s.out|
    ensures AllOutputsFilled(s)
  {
    forall i | 0 <= i < |s.frames|
      ensures s.frames[i].output < |s.out| && |s.out[s.frames[i].output].filled| == s.frames[i].cursor
    {
      assert Faithful(h, s.out, value, s.frames[i], dones[i]);
    }
  }

  ghost predicate Fresh(h: Heap, s: State, a: State, dones: seq<seq<Json>>, e: OutEntry, x: Ref) {
    && MayPass(h, s, dones) && x in h && !h[x].ForeignObject? && x !in Inputs(s.frames)
    && a == Allocated(s, h[x]) && e.value == OutRef(|s.out|)
    && (forall i :: 0 <= i < |s.frames| ==> s.frames[i].output < |s.out|)
    && var f := s.frames[|s.frames| - 1]; e.key == f.entries[f.cursor].key
  }

  lemma DescendOutput(h: Heap, s: State, a: State, value: map<nat, Json>, dones: seq<seq<Json>>, e: OutEntry, x: Ref)
    requires Fresh(h, s, a, dones, e, x) && Rising(s.frames) && AllOutputsFilled(s)
    requires Nested(a.out, a.frames, dones) && Forward(a.out) && Complete(a.out, value) &&
             s.frames[|s.frames| - 1].output !in value
    ensures var s' := Pushed(Passed(a, e), x, h[x]); Nested(s'.out, s'.frames, dones + [[]])
    ensures Forward(Passed(a, e).out) && Complete(Passed(a, e).out, value)
  {
    var f := s.frames[|s.frames| - 1];
    DefinedForward(a.out, f.output, e);
    DefinedComplete(a.out, f.output, e, value);
    AllocatedFilled(s, a, h[x]);
    PassedNestedBelow(h, a, dones, e, x, h[x]);
  }

  lemma AllocatedFilled(s: State, a: State, o: Object)
    requires AllOutputsFilled(s) && a == Allocated(s, o)
    ensures AllOutputsFilled(a)
  {
    assert forall n :: 0 <= n < |s.out| ==> a.out[n] == s.out[n];
  }

  lemma DescendFrames(h: Heap, s: State, a: State, value: map<nat, Json>, dones: seq<seq<Json>>, e: OutEntry, x: Ref)
    requires Fresh(h, s, a, dones, e, x) && Rising(s.frames) && DistinctInputs(s.frames)
    requires AllFaithful(h, a, value, dones) && |s.out| !in value
    ensures var s' := Pushed(Passed(a, e), x, h[x]);
            Resumable(h, s'.frames, dones + [[]]) && Rising(s'.frames) && DistinctInputs(s'.frames) &&
            Inputs(s'.frames) == Inputs(s.frames) + {x} && AllFaithful(h, s', value, dones + [[]])
  {
    var p := Passed(a, e);
    DescendPassed(h, s, a, p, value, dones, e, x);
    PushedFrames(h, p, dones, x);
    PushedFaithful(h, p, value, dones, x);
  }

  /** The innermost frame has passed the reference to the new container, which is not open yet. */
  lemma DescendPassed(h: Heap, s: State, a: State, p: State, value: map<nat, Json>, dones: seq<seq<Json>>, e: OutEntry,
                      x: Ref)
    requires Fresh(h, s, a, dones, e, x) && Rising(s.frames) && DistinctInputs(s.frames) && p == Passed(a, e)
    requires AllFaithful(h, a, value, dones)
    ensures Resumable(h, p.frames, dones) && Rising(p.frames) && DistinctInputs(p.frames)
    ensures Inputs(p.frames) == Inputs(s.frames) && AllFaithful(h, p, value, dones)
    ensures |p.out| == |s.out| + 1 && p.out[|s.out|] == OutNode(h[x].ArrayObject?, [])
    ensures forall i :: 0 <= i < |p.frames| ==> p.frames[i].output < |s.out|
  {
    var k := |s.frames| - 1;
    assert dones[k := dones[k]] == dones;
    PassedFrames(h, a, dones, e, dones[k]);
    PassedFaithful(h, a, value, dones, e, dones[k]);
    DescendOutputs(h, s, a, p, dones, e, x);
  }

  lemma DescendOutputs(h: Heap, s: State, a: State, p: State, dones: seq<seq<Json>>, e: OutEntry, x: Ref)
    requires Fresh(h, s, a, dones, e, x) && p == Passed(a, e)
    ensures |p.out| == |s.out| + 1 && p.out[|s.out|] == OutNode(h[x].ArrayObject?, [])
    ensures forall i :: 0 <= i < |p.frames| ==> p.frames[i].output < |s.out|
  {
    PassedOutputs(a, p, e, |s.out|);
  }

  lemma PassedOutputs(a: State, p: State, e: OutEntry, n: nat)
    requires a.frames != [] && a.frames[|a.frames| - 1].output < n < |a.out| && p == Passed(a, e)
    requires forall i :: 0 <= i < |a.frames| ==> a.frames[i].output < n
    ensures |p.out| == |a.out| && p.out[n] == a.out[n]
    ensures forall i :: 0 <= i < |p.frames| ==> p.frames[i].output < n
  {
    forall i | 0 <= i < |p.frames|
      ensures p.frames[i].output < n
    {
      assert p.frames[i].output == a.frames[i].output;
    }
  }

  // ----- the innermost frame is finished

  ghost function FinishedValue(h: Heap, f: Frame, done: seq<Json>): Json
    requires Suspended(h, f) && |done| == |f.entries|
  {
    Build(h[f.input].ArrayObject?, f.entries, done)
  }

  /** The finished values below, the new one handed to the frame that waits for it. */
  ghost function Handed(dones: seq<seq<Json>>, v: Json): seq<seq<Json>> {
    if dones == [] then [] else dones[|dones| - 1 := dones[|dones| - 1] + [v]]
  }

  lemma SameEval(value: map<nat, Json>, n: nat, v: Json, filled: seq<OutEntry>)
    requires n !in value && AllEvaluable(value, filled)
    ensures AllEvaluable(value[n := v], filled) && EvalAll(value[n := v], filled) == EvalAll(value, filled)
  {
  }

  lemma FinishedOutput(h: Heap, out: Output, value: map<nat, Json>, f: Frame, done: seq<Json>)
    requires Suspended(h, f) && Faithful(h, out, value, f, done) && f.cursor == |f.entries| == |done|
    ensures AllEvaluable(value, out[f.output].filled) && EvalAll(value, out[f.output].filled) == done
    ensures Build(out[f.output].isArray, AsEntries(out[f.output].filled), done) == FinishedValue(h, f, done)
  {
    var filled := out[f.output].filled;
    assert EvalAll(value, filled) == done;
    assert BuildMembers(AsEntries(filled), done) == BuildMembers(f.entries, done);
  }

  lemma StillComplete(out: Output, value: map<nat, Json>, m: nat, v: Json, n: nat)
    requires n in value && CompleteAt(out, value, n) && m !in value
    ensures CompleteAt(out, value[m := v], n)
  {
    SameEval(value, m, v, out[n].filled);
  }

  lemma PopComplete(h: Heap, out: Output, value: map<nat, Json>, f: Frame, done: seq<Json>)
    requires Suspended(h, f) && Faithful(h, out, value, f, done) && f.cursor == |f.entries| == |done|
    requires Complete(out, value)
    ensures Complete(out, value[f.output := FinishedValue(h, f, done)])
  {
    var v := FinishedValue(h, f, done);
    var value' := value[f.output := v];
    FinishedOutput(h, out, value, f, done);
    SameEval(value, f.output, v, out[f.output].filled);
    forall n | n in value'
      ensures CompleteAt(out, value', n)
    {
      if n != f.output {
        StillComplete(out, value, f.output, v, n);
      }
    }
  }

  lemma PopInputs(below: seq<Frame>, f: Frame)
    requires DistinctInputs(below + [f])
    ensures Inputs(below) == Inputs(below + [f]) - {f.input}
  {
    var all := below + [f];
    InputsTop(below, f);
    assert all[|below|] == f;
    assert forall i :: 0 <= i < |below| ==> all[i] == below[i];
  }

  /** `s` with the innermost frame `f`, which has finished everything, above the frames `below`. */
  ghost predicate Ending(h: Heap, s: State, value: map<nat, Json>, dones: seq<seq<Json>>,
                         below: seq<Frame>, f: Frame, ds: seq<seq<Json>>, done: seq<Json>) {
    && s.frames == below + [f] && dones == ds + [done]
    && Running(h, s, value, dones) && |below| == |ds|
    && f.cursor == |f.entries|
  }

  lemma EndingParts(h: Heap, s: State, value: map<nat, Json>, dones: seq<seq<Json>>,
                    below: seq<Frame>, f: Frame, ds: seq<seq<Json>>, done: seq<Json>)
    requires Ending(h, s, value, dones, below, f, ds, done)
    ensures Suspended(h, f) && |done| == f.cursor && Faithful(h, s.out, value, f, done)
    ensures Resumable(h, below, ds)
    ensures forall i :: 0 <= i < |below| ==> Faithful(h, s.out, value, below[i], ds[i]) && below[i].output < f.output
  {
    var k := |below|;
    assert s.frames[k] == f && dones[k] == done;
    forall i | 0 <= i < k
      ensures s.frames[i] == below[i] && dones[i] == ds[i]
    {
    }
    assert Faithful(h, s.out, value, s.frames[k], dones[k]);
    forall i | 0 <= i < k
      ensures Faithful(h, s.out, value, below[i], ds[i]) && below[i].output < f.output
    {
      assert Faithful(h, s.out, value, s.frames[i], dones[i]);
    }
  }

  lemma EndingWaits(h: Heap, s: State, value: map<nat, Json>, dones: seq<seq<Json>>,
                    below: seq<Frame>, f: Frame, ds: seq<seq<Json>>, done: seq<Json>)
    requires Ending(h, s, value, dones, below, f, ds, done) && below != []
    ensures WaitsFor(s.out, below[|below| - 1], |ds[|below| - 1]|, f.output)
  {
    var k := |below| - 1;
    assert WaitsAt(s.out, s.frames, dones, k);
    assert s.frames[k] == below[k] && dones[k] == ds[k] && s.frames[k + 1] == f;
  }

  lemma StillFaithful(h: Heap, out: Output, value: map<nat, Json>, n: nat, v: Json, f: Frame, done: seq<Json>)
    requires Suspended(h, f) && Faithful(h, out, value, f, done) && n !in value && f.output != n
    ensures Faithful(h, out, value[n := v], f, done)
  {
  }

  lemma NowFaithful(h: Heap, out: Output, value: map<nat, Json>, n: nat, v: Json, f: Frame, done: seq<Json>)
    requires Suspended(h, f) && Faithful(h, out, value, f, done) && n !in value && f.output != n
    requires f.cursor == |done| + 1 && out[f.output].filled[|done|].value == OutRef(n)
    ensures Faithful(h, out, value[n := v], f, done + [v])
  {
  }

  lemma PopFaithful(h: Heap, s: State, value: map<nat, Json>, dones: seq<seq<Json>>,
                    below: seq<Frame>, f: Frame, ds: seq<seq<Json>>, done: seq<Json>, v: Json)
    requires Ending(h, s, value, dones, below, f, ds, done)
    ensures Resumable(h, below, Handed(ds, v))
    ensures AllFaithful(h, s.(frames := below), value[f.output := v], Handed(ds, v))
  {
    EndingParts(h, s, value, dones, below, f, ds, done);
    if below != [] {
      EndingWaits(h, s, value, dones, below, f, ds, done);
      HandedFaithful(h, s.out, value, below, f.output, ds, v);
    }
  }

  lemma HandedFaithful(h: Heap, out: Output, value: map<nat, Json>, below: seq<Frame>, n: nat, ds: seq<seq<Json>>,
                       v: Json)
    requires Resumable(h, below, ds) && below != [] && n !in value
    requires forall i :: 0 <= i < |below| ==> Faithful(h, out, value, below[i], ds[i]) && below[i].output < n
    requires WaitsFor(out, below[|below| - 1], |ds[|below| - 1]|, n)
    ensures Resumable(h, below, Handed(ds, v))
    ensures forall i :: 0 <= i < |below| ==> Faithful(h, out, value[n := v], below[i], Handed(ds, v)[i])
  {
    forall i | 0 <= i < |below|
      ensures Suspended(h, below[i]) && |Handed(ds, v)[i]| <= |below[i].entries|
      ensures Faithful(h, out, value[n := v], below[i], Handed(ds, v)[i])
    {
      HandedFaithfulAt(h, out, value, below[i], n, ds[i], v, i == |below| - 1);
    }
  }

  lemma HandedFaithfulAt(h: Heap, out: Output, value: map<nat, Json>, f: Frame, n: nat, done: seq<Json>, v: Json,
                         last: bool)
    requires Suspended(h, f) && Faithful(h, out, value, f, done) && f.output < n && n !in value
    requires last ==> WaitsFor(out, f, |done|, n)
    ensures var done' := if last then done + [v] else done;
            |done'| <= |f.entries| && Faithful(h, out, value[n := v], f, done')
  {
    if last {
      NowFaithful(h, out, value, n, v, f, done);
    } else {
      StillFaithful(h, out, value, n, v, f, done);
    }
  }

  lemma PopNested(out: Output, below: seq<Frame>, f: Frame, ds: seq<seq<Json>>, done: seq<Json>, v: Json)
    requires |below| == |ds| && Nested(out, below + [f], ds + [done])
    ensures Nested(out, below, Handed(ds, v))
  {
    var ds' := Handed(ds, v);
    var k := |below| - 1;
    forall i | 0 <= i <= k
      ensures WaitsFor(out, below[i], |ds[i]|, (below + [f])[i + 1].output)
    {
      assert WaitsAt(out, below + [f], ds + [done], i);
    }
    forall i | 0 <= i < k
      ensures WaitsAt(out, below, ds', i)
    {
      assert (below + [f])[i + 1] == below[i + 1];
    }
  }

  lemma PopRising(below: seq<Frame>, f: Frame)
    requires Rising(below + [f]) && DistinctInputs(below + [f])
    ensures Rising(below) && DistinctInputs(below)
  {
    assert forall i :: 0 <= i < |below| ==> (below + [f])[i] == below[i];
  }

  lemma Pop(h: Heap, s: State, value: map<nat, Json>, dones: seq<seq<Json>>,
            below: seq<Frame>, f: Frame, ds: seq<seq<Json>>, done: seq<Json>)
    requires Ending(h, s, value, dones, below, f, ds, done)
    ensures Suspended(h, f) && |done| == |f.entries|
    ensures var v := FinishedValue(h, f, done);
            Running(h, State(s.out, below, s.ancestors - {f.input}), value[f.output := v], Handed(ds, v))
  {
    EndingParts(h, s, value, dones, below, f, ds, done);
    var v := FinishedValue(h, f, done);
    PopInputs(below, f);
    PopRising(below, f);
    PopComplete(h, s.out, value, f, done);
    PopFaithful(h, s, value, dones, below, f, ds, done, v);
    PopNested(s.out, below, f, ds, done, v);
  }

  // ----- how much is left

  ghost function Cost(h: Heap, v: Value, ancestors: set<Ref>): nat
    requires Closed(h) && Known(h, v)
    decreases h.Keys - ancestors, 1, 0
  {
    if v.Reference? && !h[v.ref].ForeignObject? && v.ref !in ancestors then
      assert v.ref in h.Keys - ancestors;
      1 + EntriesCost(h, Entries(h[v.ref]), ancestors + {v.ref})
    else 0
  }

  ghost function EntriesCost(h: Heap, entries: seq<Entry>, ancestors: set<Ref>): nat
    requires Closed(h) && forall i :: 0 <= i < |entries| ==> Known(h, entries[i].value)
    decreases h.Keys - ancestors, 3, |entries|
  {
    if entries == [] then 0
    else 1 + Cost(h, entries[0].value, ancestors) + EntriesCost(h, entries[1..], ancestors)
  }

  ghost function Left(h: Heap, frames: seq<Frame>): nat
    requires Closed(h) && AllSuspended(h, frames)
  {
    if frames == [] then 0 else
    var k := |frames| - 1;
    1 + EntriesCost(h, frames[k].entries[frames[k].cursor..], Inputs(frames)) + Left(h, frames[..k])
  }

  lemma LeftTop(h: Heap, below: seq<Frame>, f: Frame)
    requires Closed(h) && AllSuspended(h, below) && Suspended(h, f)
    ensures AllSuspended(h, below + [f])
    ensures Left(h, below + [f]) ==
            1 + EntriesCost(h, f.entries[f.cursor..], Inputs(below) + {f.input}) + Left(h, below)
  {
    assert (below + [f])[..|below|] == below;
    InputsTop(below, f);
  }

  lemma LeftPassed(h: Heap, below: seq<Frame>, f: Frame)
    requires Closed(h) && AllSuspended(h, below) && Suspended(h, f) && f.cursor < |f.entries|
    ensures AllSuspended(h, below + [f.(cursor := f.cursor + 1)]) && AllSuspended(h, below + [f])
    ensures Left(h, below + [f.(cursor := f.cursor + 1)]) + 1 + Cost(h, f.entries[f.cursor].value,
                                                                     Inputs(below) + {f.input}) ==
            Left(h, below + [f])
  {
    LeftTop(h, below, f);
    LeftTop(h, below, f.(cursor := f.cursor + 1));
    assert f.entries[f.cursor..][1..] == f.entries[f.cursor + 1..];
  }
}
