/**
 The durable world of Semantic Mutation as a ledger, the events that change it, the law that every
 event has to obey, and what follows for every lawful history.
 */
module MutationLedger {
  import opened Options
  import opened CodeUnits   // Distinct
  import opened MutationRecord

  datatype Rejection = Rejection(requestRevision: Revision, planRevision: Revision, result: Result)

  /** Live sources, the latest record of every root, rejected terminals, and the roots in completion order. */
  datatype Ledger = Ledger(live: map<Path, Digest>, records: map<Id, Record>, rejected: map<Id, Rejection>,
                           completed: seq<Id>)

  datatype Event =
    | Append(record: Record)
    | Reject(id: Id, rejection: Rejection)
    | Replace(owner: Id, path: Path, from: Digest, to: Digest)
    | Retire(at: nat, id: Id)
    | Foreign(path: Path, digest: Digest)

  const RETENTION: nat := 256

  predicate IsTerminal(s: State) {
    s.Verified? || s.RolledBack?
  }

  predicate IsUnfinished(s: State) {
    s.Prepared? || s.AuthoringCommitted?
  }

  /** An unsettled root: its latest record is not terminal and it was not rejected. */
  predicate Unsettled(l: Ledger, id: Id) {
    id in l.records && id !in l.rejected && !IsTerminal(l.records[id].state)
  }

  ghost predicate Settled(l: Ledger) {
    forall k :: !Unsettled(l, k)
  }

  predicate Unfinished(l: Ledger, id: Id) {
    id in l.records && id !in l.rejected && IsUnfinished(l.records[id].state)
  }

  predicate Blocked(l: Ledger, id: Id) {
    id in l.records && id !in l.rejected && l.records[id].state.RecoveryRequired?
  }

  predicate Ended(l: Ledger, id: Id) {
    id in l.rejected || (id in l.records && IsTerminal(l.records[id].state))
  }

  predicate LiveIs(l: Ledger, path: Path, digest: Digest) {
    path in l.live && l.live[path] == digest
  }

  function Next(l: Ledger, e: Event): Ledger {
    match e
    case Append(r) =>
      l.(records := l.records[r.requestIdentity := r],
         completed := if IsTerminal(r.state) then l.completed + [r.requestIdentity] else l.completed)
    case Reject(id, rejection) => l.(rejected := l.rejected[id := rejection], completed := l.completed + [id])
    case Replace(_, path, _, to) => l.(live := l.live[path := to])
    case Retire(at, id) =>
      l.(records := l.records - {id}, rejected := l.rejected - {id},
         completed := if at < |l.completed| then l.completed[..at] + l.completed[at + 1..] else l.completed)
    case Foreign(path, digest) => l.(live := l.live[path := digest])
  }

  /** The immutable result that a record carries. */
  predicate ResultFits(r: Record) {
    match r.state
    case Verified => r.result.Some? && r.result.value.Accepted?
    case RolledBack => r.result.Some? && r.result.value.RolledBackResult?
    case RecoveryRequired => r.result.Some? && r.result.value.RecoveryResult?
    case _ => true
  }

  /**
   The law. A transaction starts only in a settled workspace, with a passed verification, on the bytes
   that are live. The source is replaced only between the two digests that the durable record of the
   transaction binds, forwards while it is prepared and backwards while it is committed. Every terminal
   tells the truth about the live bytes. Only old terminals are retired.
   */
  ghost predicate Safe(l: Ledger, e: Event) {
    match e
    case Append(r) => (
      var id := r.requestIdentity;
      ResultFits(r) &&
      if r.state.Prepared? then
        && id !in l.records && id !in l.rejected && Settled(l)
        && r.verification.passed && r.before != r.committed && LiveIs(l, r.path, r.before)
      else
        && Unfinished(l, id) && SameTransaction(r, l.records[id]) && Allowed(Some(l.records[id].state), r.state)
        && (r.state.AuthoringCommitted? || r.state.Verified? ==> LiveIs(l, r.path, r.committed))
        && (r.state.RolledBack? ==> LiveIs(l, r.path, r.before)))
    case Reject(id, _) => (
      && id !in l.rejected
      && (id in l.records ==> l.records[id].state.Prepared? && LiveIs(l, l.records[id].path, l.records[id].before)))
    case Replace(owner, path, from, to) => (
      && Unfinished(l, owner) && LiveIs(l, path, from)
      && var r := l.records[owner];
         && r.path == path && r.verification.passed
         && (if r.state.Prepared? then from == r.before && to == r.committed
             else from == r.committed && to == r.before))
    case Retire(at, id) => at < |l.completed| - RETENTION && l.completed[at] == id
    case Foreign(_, _) => true
  }

  // ----- histories

  function Replay(l: Ledger, trace: seq<Event>): Ledger {
    if trace == [] then l else Next(Replay(l, trace[..|trace| - 1]), trace[|trace| - 1])
  }

  ghost predicate Lawful(l: Ledger, trace: seq<Event>) {
    trace == [] || (Lawful(l, trace[..|trace| - 1]) && Safe(Replay(l, trace[..|trace| - 1]), trace[|trace| - 1]))
  }

  /** At most one root is unsettled, and the completion order lists exactly the ended roots. */
  ghost predicate Consistent(l: Ledger) {
    && (forall id :: id in l.records ==> l.records[id].requestIdentity == id)
    && (forall id :: id in l.records ==> ResultFits(l.records[id]))
    && (forall id :: id in l.records ==> l.records[id].verification.passed)
    && (forall id :: id in l.records ==> l.records[id].before != l.records[id].committed)
    && (forall id :: id in l.records && id in l.rejected ==> l.records[id].state.Prepared?)
    && (forall a, b :: Unsettled(l, a) && Unsettled(l, b) ==> a == b)
    && Distinct(l.completed)
    && (forall id :: id in l.completed <==> Ended(l, id))
  }

  lemma RemovedAt<T>(s: seq<T>, at: nat)
    requires at < |s| && Distinct(s)
    ensures Distinct(s[..at] + s[at + 1..])
    ensures forall x :: x in s[..at] + s[at + 1..] <==> x in s && x != s[at]
  {
    var r := s[..at] + s[at + 1..];
    forall i | 0 <= i < |r|
      ensures r[i] == (if i < at then s[i] else s[i + 1])
    {
    }
    forall x | x in s && x != s[at]
      ensures x in r
    {
      var i :| 0 <= i < |s| && s[i] == x;
      assert r[if i < at then i else i - 1] == x;
    }
  }

  lemma RetireKeepsConsistent(l: Ledger, at: nat, id: Id)
    requires Consistent(l) && Safe(l, Retire(at, id))
    ensures Consistent(Next(l, Retire(at, id)))
  {
    var n := Next(l, Retire(at, id));
    RemovedAt(l.completed, at);
    assert forall k :: k in n.records ==> k in l.records && k != id && n.records[k] == l.records[k];
    assert forall k :: Unsettled(n, k) ==> Unsettled(l, k);
    forall k
      ensures k in n.completed <==> Ended(n, k)
    {
      assert k in l.completed <==> Ended(l, k);
    }
  }

  lemma EndedOnce(l: Ledger, id: Id)
    requires Consistent(l) && !Ended(l, id)
    ensures Distinct(l.completed + [id])
  {
  }

  lemma AppendKeepsConsistent(l: Ledger, r: Record)
    requires Consistent(l) && Safe(l, Append(r))
    ensures Consistent(Next(l, Append(r)))
  {
    var n := Next(l, Append(r));
    var id := r.requestIdentity;
    EndedOnce(l, id);
    assert forall k :: k != id ==> (Unsettled(n, k) <==> Unsettled(l, k));
    assert r.state.Prepared? || Unsettled(l, id);
    forall k
      ensures k in n.completed <==> Ended(n, k)
    {
      assert k in l.completed <==> Ended(l, k);
    }
  }

  lemma RejectKeepsConsistent(l: Ledger, id: Id, rejection: Rejection)
    requires Consistent(l) && Safe(l, Reject(id, rejection))
    ensures Consistent(Next(l, Reject(id, rejection)))
  {
    var n := Next(l, Reject(id, rejection));
    EndedOnce(l, id);
    assert forall k :: Unsettled(n, k) ==> Unsettled(l, k);
    forall k
      ensures k in n.completed <==> Ended(n, k)
    {
      assert k in l.completed <==> Ended(l, k);
    }
  }

  /** Every safe event keeps the ledger consistent. */
  lemma SafeKeepsConsistent(l: Ledger, e: Event)
    requires Consistent(l) && Safe(l, e)
    ensures Consistent(Next(l, e))
  {
    match e
    case Append(r) => AppendKeepsConsistent(l, r);
    case Reject(id, rejection) => RejectKeepsConsistent(l, id, rejection);
    case Retire(at, id) => RetireKeepsConsistent(l, at, id);
    case Replace(_, _, _, _) => LiveOnly(l, Next(l, e));
    case Foreign(_, _) => LiveOnly(l, Next(l, e));
  }

  lemma LiveOnly(l: Ledger, n: Ledger)
    requires Consistent(l) && n == l.(live := n.live)
    ensures Consistent(n)
  {
    assert forall k :: Unsettled(n, k) <==> Unsettled(l, k);
    assert forall k :: Ended(n, k) <==> Ended(l, k);
  }

  lemma {:induction false} LawfulIsConsistent(l: Ledger, trace: seq<Event>)
    requires Consistent(l) && Lawful(l, trace)
    ensures Consistent(Replay(l, trace))
  {
    if trace != [] {
      var n := |trace| - 1;
      LawfulIsConsistent(l, trace[..n]);
      SafeKeepsConsistent(Replay(l, trace[..n]), trace[n]);
    }
  }

  // ----- what every lawful history shows

  lemma {:induction false} LawfulAt(l: Ledger, trace: seq<Event>, i: nat)
    requires Lawful(l, trace) && i < |trace|
    ensures Safe(Replay(l, trace[..i]), trace[i]) && Lawful(l, trace[..i])
    ensures Replay(l, trace[..i + 1]) == Next(Replay(l, trace[..i]), trace[i])
  {
    var n := |trace| - 1;
    assert trace[..i + 1][..i] == trace[..i];
    if i < n {
      LawfulAt(l, trace[..n], i);
      assert trace[..n][..i] == trace[..i] && trace[..n][..i + 1] == trace[..i + 1];
    }
  }

  /**
   A source is replaced only between the digests of an unfinished durable record with a passed
   verification: by the staged bytes while the record is prepared, by the original ones afterwards.
   */
  lemma WritesAreBound(l: Ledger, trace: seq<Event>, i: nat)
    requires Consistent(l) && Lawful(l, trace) && i < |trace| && trace[i].Replace?
    ensures var before, e := Replay(l, trace[..i]), trace[i];
            && Unfinished(before, e.owner) && LiveIs(before, e.path, e.from)
            && var r := before.records[e.owner];
               && r.path == e.path && r.verification.passed && e.from != e.to
               && (e.to == r.committed <==> r.state.Prepared?) && (e.to == r.before <==> r.state.AuthoringCommitted?)
  {
    LawfulAt(l, trace, i);
    LawfulIsConsistent(l, trace[..i]);
  }

  /** A transaction is prepared only when no other one is unsettled, and its request left nothing behind. */
  lemma PreparedAlone(l: Ledger, trace: seq<Event>, i: nat)
    requires Consistent(l) && Lawful(l, trace) && i < |trace| && trace[i].Append? && trace[i].record.state.Prepared?
    ensures var before, after, r := Replay(l, trace[..i]), Replay(l, trace[..i + 1]), trace[i].record;
            && Settled(before) && !Ended(before, r.requestIdentity) && r.requestIdentity !in before.records
            && forall k :: Unsettled(after, k) <==> k == r.requestIdentity
  {
    LawfulAt(l, trace, i);
    var before, after, r := Replay(l, trace[..i]), Replay(l, trace[..i + 1]), trace[i].record;
    forall k
      ensures Unsettled(after, k) <==> k == r.requestIdentity
    {
      assert !Unsettled(before, k);
    }
  }

  /** Terminals tell the truth at the moment they become durable. */
  lemma TerminalsAreTrue(l: Ledger, trace: seq<Event>, i: nat)
    requires Consistent(l) && Lawful(l, trace) && i < |trace|
    ensures var after := Replay(l, trace[..i + 1]);
            match trace[i]
            case Append(r) =>
              && (r.state.Verified? ==> LiveIs(after, r.path, r.committed))
              && (r.state.RolledBack? ==> LiveIs(after, r.path, r.before))
            case Reject(id, _) => id in after.records ==>
                                    LiveIs(after, after.records[id].path, after.records[id].before)
            case _ => true
  {
    LawfulAt(l, trace, i);
  }

  // ----- conservation of the live bytes

  function LiveAt(l: Ledger, path: Path): Option<Digest> {
    if path in l.live then Some(l.live[path]) else None
  }

  /** What the workspace owes at a path after one more event. */
  function OwedNext(owed: Option<Digest>, e: Event, path: Path): Option<Digest> {
    match e
    case Append(r) => if r.state.Verified? && r.path == path then Some(r.committed) else owed
    case Foreign(p, digest) => if p == path then Some(digest) else owed
    case _ => owed
  }

  /** What the workspace owes its users at a path: accepted mutations and foreign writes, in order. */
  function Owed(start: Option<Digest>, trace: seq<Event>, path: Path): Option<Digest> {
    if trace == [] then start
    else OwedNext(Owed(start, trace[..|trace| - 1], path), trace[|trace| - 1], path)
  }

  /** An unsettled transaction works on this path. */
  ghost predicate Occupied(l: Ledger, path: Path) {
    exists id :: Unsettled(l, id) && l.records[id].path == path
  }

  /** Foreign writers do not write this path while an unsettled transaction works on it. */
  ghost predicate ForeignApart(l: Ledger, trace: seq<Event>, path: Path) {
    trace == [] ||
    (var before, e := trace[..|trace| - 1], trace[|trace| - 1];
     ForeignApart(l, before, path) && (e.Foreign? && e.path == path ==> !Occupied(Replay(l, before), path)))
  }

  /**
   The live bytes of a path are the owed ones; while an unsettled transaction works on it, the original
   bytes are owed and one of its two digests is live.
   */
  ghost predicate Balanced(l: Ledger, owed: Option<Digest>, path: Path) {
    && (forall id :: Unsettled(l, id) && l.records[id].path == path ==> Pending(l, owed, l.records[id]))
    && (!Occupied(l, path) ==> LiveAt(l, path) == owed)
  }

  ghost predicate Pending(l: Ledger, owed: Option<Digest>, r: Record) {
    owed == Some(r.before) && (LiveIs(l, r.path, r.before) || LiveIs(l, r.path, r.committed))
  }

  lemma BalancedAppend(l: Ledger, owed: Option<Digest>, r: Record, path: Path)
    requires Consistent(l) && Balanced(l, owed, path) && Safe(l, Append(r))
    ensures Balanced(Next(l, Append(r)), OwedNext(owed, Append(r), path), path)
  {
    var n := Next(l, Append(r));
    var id := r.requestIdentity;
    assert forall k :: k != id ==> (Unsettled(n, k) <==> Unsettled(l, k));
    if r.state.Prepared? {
      assert forall k :: !Unsettled(l, k);
      assert Unsettled(n, id);
    } else {
      assert Unsettled(l, id);
      assert forall k :: Unsettled(n, k) || Unsettled(l, k) ==> k == id;
      assert l.records[id].path == r.path;
      if !IsTerminal(r.state) {
        assert Unsettled(n, id);
      }
    }
  }

  lemma BalancedReject(l: Ledger, owed: Option<Digest>, id: Id, rejection: Rejection, path: Path)
    requires Consistent(l) && Balanced(l, owed, path) && Safe(l, Reject(id, rejection))
    ensures Balanced(Next(l, Reject(id, rejection)), owed, path)
  {
    var n := Next(l, Reject(id, rejection));
    assert forall k :: Unsettled(n, k) <==> Unsettled(l, k) && k != id;
    if Unsettled(l, id) {
      assert forall k :: Unsettled(l, k) ==> k == id;
    }
  }

  lemma BalancedReplace(l: Ledger, owed: Option<Digest>, owner: Id, path: Path, from: Digest, to: Digest, at: Path)
    requires Consistent(l) && Balanced(l, owed, at) && Safe(l, Replace(owner, path, from, to))
    ensures Balanced(Next(l, Replace(owner, path, from, to)), owed, at)
  {
    var n := Next(l, Replace(owner, path, from, to));
    assert forall k :: Unsettled(n, k) <==> Unsettled(l, k);
    assert Unsettled(l, owner) && Unsettled(n, owner);
  }

  lemma BalancedForeign(l: Ledger, owed: Option<Digest>, path: Path, digest: Digest, at: Path)
    requires Consistent(l) && Balanced(l, owed, at) && (path == at ==> !Occupied(l, at))
    ensures Balanced(Next(l, Foreign(path, digest)), OwedNext(owed, Foreign(path, digest), at), at)
  {
    var n := Next(l, Foreign(path, digest));
    assert forall k :: Unsettled(n, k) <==> Unsettled(l, k);
    if Occupied(l, at) {
      var k :| Unsettled(l, k) && l.records[k].path == at;
      assert Unsettled(n, k) && n.records[k].path == at;
    }
  }

  lemma BalancedRetire(l: Ledger, owed: Option<Digest>, at: nat, id: Id, path: Path)
    requires Consistent(l) && Balanced(l, owed, path) && Safe(l, Retire(at, id))
    ensures Balanced(Next(l, Retire(at, id)), owed, path)
  {
    var n := Next(l, Retire(at, id));
    RetireSettledOnly(l, at, id);
    if Occupied(l, path) {
      var k :| Unsettled(l, k) && l.records[k].path == path;
      assert Unsettled(n, k) && n.records[k].path == path;
    }
  }

  lemma BalancedStep(l: Ledger, owed: Option<Digest>, e: Event, path: Path)
    requires Consistent(l) && Balanced(l, owed, path) && Safe(l, e)
    requires e.Foreign? && e.path == path ==> !Occupied(l, path)
    ensures Balanced(Next(l, e), OwedNext(owed, e, path), path)
  {
    match e
    case Append(r) => BalancedAppend(l, owed, r, path);
    case Reject(id, rejection) => BalancedReject(l, owed, id, rejection, path);
    case Replace(owner, p, from, to) => BalancedReplace(l, owed, owner, p, from, to, path);
    case Retire(at, id) => BalancedRetire(l, owed, at, id, path);
    case Foreign(p, digest) => BalancedForeign(l, owed, p, digest, path);
  }

  /** Retiring an ended root settles nothing and unsettles nothing. */
  lemma RetireSettledOnly(l: Ledger, at: nat, id: Id)
    requires Consistent(l) && Safe(l, Retire(at, id))
    ensures var n := Next(l, Retire(at, id));
            n.live == l.live && (forall k :: Unsettled(n, k) <==> Unsettled(l, k)) &&
            (forall k :: Unsettled(n, k) ==> n.records[k] == l.records[k])
  {
    assert id in l.completed;
    assert Ended(l, id);
  }

  /**
   Conservation: whatever failed or crashed on the way, and whatever was written to other paths, a path
   holds exactly the bytes it is owed; while an unsettled transaction works on it, one of the two digests
   of that transaction, the original bytes being owed.
   */
  lemma {:induction false} LiveBytesConserved(l: Ledger, start: Option<Digest>, trace: seq<Event>, path: Path)
    requires Consistent(l) && Lawful(l, trace) && ForeignApart(l, trace, path) && Balanced(l, start, path)
    ensures Balanced(Replay(l, trace), Owed(start, trace, path), path)
  {
    if trace != [] {
      var n := |trace| - 1;
      LiveBytesConserved(l, start, trace[..n], path);
      LawfulIsConsistent(l, trace[..n]);
      BalancedStep(Replay(l, trace[..n]), Owed(start, trace[..n], path), trace[n], path);
    }
  }

  // ----- one transaction per request

  /** The request keeps its records: nothing retires them. */
  ghost predicate NotRetired(trace: seq<Event>, from: nat, id: Id) {
    forall k :: from <= k < |trace| && trace[k].Retire? ==> trace[k].id != id
  }

  lemma {:induction false} RecordKept(l: Ledger, trace: seq<Event>, i: nat)
    requires Lawful(l, trace) && i < |trace| && trace[i].Append? &&
             NotRetired(trace, i, trace[i].record.requestIdentity)
    ensures var id := trace[i].record.requestIdentity; var after := Replay(l, trace);
            id in after.records && SameTransaction(after.records[id], trace[i].record)
  {
    var n := |trace| - 1;
    if i < n {
      assert NotRetired(trace[..n], i, trace[i].record.requestIdentity);
      RecordKept(l, trace[..n], i);
      assert trace[n].Retire? ==> trace[n].id != trace[i].record.requestIdentity;
    }
  }

  /**
   Every journal transition keeps the identity of its transaction: in every lawful history, any two
   records of one request between which it was not retired agree in everything but state, result and
   failure, and the later one is no new beginning.
   */
  lemma TransactionKept(l: Ledger, trace: seq<Event>, i: nat, j: nat)
    requires Lawful(l, trace) && i < j < |trace| && trace[i].Append? && trace[j].Append?
    requires trace[i].record.requestIdentity == trace[j].record.requestIdentity
    requires NotRetired(trace[..j], i, trace[i].record.requestIdentity)
    ensures SameTransaction(trace[j].record, trace[i].record) && !trace[j].record.state.Prepared?
  {
    LawfulAt(l, trace, j);
    RecordKept(l, trace[..j], i);
  }

  // ----- retained terminals

  /** What a request left behind, as a retry sees it. */
  datatype Retained = Nothing | RejectedBefore(rejection: Rejection) | Recorded(record: Record)

  function RetainedOf(l: Ledger, id: Id): Retained {
    if id in l.rejected then RejectedBefore(l.rejected[id])
    else if id in l.records then Recorded(l.records[id]) else Nothing
  }

  /** The root completed, and fewer than `n` roots completed after it. */
  ghost predicate Recent(l: Ledger, id: Id, n: int) {
    exists i :: 0 <= i < |l.completed| && l.completed[i] == id && |l.completed| - 1 - i < n
  }

  predicate Completes(e: Event) {
    e.Reject? || (e.Append? && IsTerminal(e.record.state))
  }

  function Completions(trace: seq<Event>): nat {
    if trace == [] then 0 else Completions(trace[..|trace| - 1]) + (if Completes(trace[|trace| - 1]) then 1 else 0)
  }

  lemma RecentStep(l: Ledger, e: Event, id: Id, n: int)
    requires Consistent(l) && Safe(l, e) && Recent(l, id, n) && n <= RETENTION
    ensures Recent(Next(l, e), id, n + (if Completes(e) then 1 else 0))
    ensures RetainedOf(Next(l, e), id) == RetainedOf(l, id)
  {
    var i :| 0 <= i < |l.completed| && l.completed[i] == id && |l.completed| - 1 - i < n;
    if e.Retire? {
      RecentRetire(l, e.at, e.id, id, i, n);
    } else {
      assert id in l.completed && Ended(l, id);
      assert Next(l, e).completed[i] == id;
    }
  }

  lemma RecentRetire(l: Ledger, at: nat, gone: Id, id: Id, i: nat, n: int)
    requires Distinct(l.completed) && Safe(l, Retire(at, gone)) && n <= RETENTION
    requires i < |l.completed| && l.completed[i] == id && |l.completed| - 1 - i < n
    ensures Recent(Next(l, Retire(at, gone)), id, n)
    ensures RetainedOf(Next(l, Retire(at, gone)), id) == RetainedOf(l, id)
  {
    var c := Next(l, Retire(at, gone)).completed;
    assert at < i && gone != id;
    assert |c| == |l.completed| - 1 && c[i - 1] == id;
  }

  /** One retained terminal outlives every history that completes too few others. */
  lemma {:induction false} RetainedSurvives(l: Ledger, trace: seq<Event>, from: nat, id: Id, n: int)
    requires Consistent(l) && Lawful(l, trace) && from <= |trace|
    requires Recent(Replay(l, trace[..from]), id, n)
    requires n + Completions(trace) - Completions(trace[..from]) <= RETENTION
    ensures RetainedOf(Replay(l, trace), id) == RetainedOf(Replay(l, trace[..from]), id)
    ensures Recent(Replay(l, trace), id, n + Completions(trace) - Completions(trace[..from]))
  {
    if from == |trace| {
      assert trace[..from] == trace;
    } else {
      var k := |trace| - 1;
      assert trace[..k][..from] == trace[..from];
      RetainedSurvives(l, trace[..k], from, id, n);
      LawfulIsConsistent(l, trace[..k]);
      RecentStep(Replay(l, trace[..k]), trace[k], id, n + Completions(trace[..k]) - Completions(trace[..from]));
    }
  }

  /** What is not recent does not become recent, unless it completes again. */
  lemma OldStep(l: Ledger, e: Event, id: Id, n: int)
    requires Consistent(l) && Safe(l, e) && !Recent(l, id, n)
    requires Completes(e) ==> CompletedBy(e) != id
    requires n + (if Completes(e) then 1 else 0) <= RETENTION
    ensures !Recent(Next(l, e), id, n + (if Completes(e) then 1 else 0))
  {
    var c, c' := l.completed, Next(l, e).completed;
    var n' := n + (if Completes(e) then 1 else 0);
    forall i | 0 <= i < |c'| && c'[i] == id
      ensures |c'| - 1 - i >= n'
    {
      if e.Retire? {
        var k := if i < e.at then i else i + 1;
        assert c[k] == id;
      } else {
        assert i < |c| && c[i] == id;
      }
    }
  }

  /** The root that a completing event ends. */
  function CompletedBy(e: Event): Id
    requires Completes(e)
  {
    if e.Reject? then e.id else e.record.requestIdentity
  }

  /** Nothing that happens from `from` on ends the root `id`. */
  ghost predicate NotCompletedAgain(trace: seq<Event>, from: nat, id: Id) {
    forall k :: from <= k < |trace| && Completes(trace[k]) ==> CompletedBy(trace[k]) != id
  }

  /** How many roots completed from `from` on. */
  function Since(trace: seq<Event>, from: nat): int
    requires from <= |trace|
  {
    Completions(trace) - Completions(trace[..from])
  }

  lemma SinceNext(trace: seq<Event>, from: nat)
    requires from < |trace|
    ensures Since(trace, from) == Since(trace[..|trace| - 1], from) + (if Completes(trace[|trace| - 1]) then 1 else 0)
  {
    assert trace[..|trace| - 1][..from] == trace[..from];
  }

  lemma {:induction false} OldStaysOld(l: Ledger, trace: seq<Event>, from: nat, id: Id, n: int)
    requires Consistent(l) && Lawful(l, trace) && from <= |trace| && NotCompletedAgain(trace, from, id)
    requires !Recent(Replay(l, trace[..from]), id, n) && n + Since(trace, from) <= RETENTION
    ensures !Recent(Replay(l, trace), id, n + Since(trace, from))
  {
    if from == |trace| {
      assert trace[..from] == trace;
    } else {
      var k := |trace| - 1;
      var before := trace[..k];
      assert before[..from] == trace[..from];
      SinceNext(trace, from);
      OldStaysOld(l, before, from, id, n);
      LawfulIsConsistent(l, before);
      OldStep(Replay(l, before), trace[k], id, n + Since(before, from));
    }
  }

  /**
   What a pruned workspace still knows of an ended request, exactly: its result, if fewer than 256 others
   completed since, counting those of the history between; otherwise nothing.
   */
  lemma RetainedExactly(l: Ledger, trace: seq<Event>, from: nat, id: Id)
    requires Consistent(l) && Lawful(l, trace) && from <= |trace| && NotCompletedAgain(trace, from, id)
    requires Since(trace, from) <= RETENTION && |Replay(l, trace).completed| <= RETENTION
    ensures var before, after, room := Replay(l, trace[..from]), Replay(l, trace), RETENTION - Since(trace, from);
            && (Ended(after, id) <==> Recent(before, id, room))
            && (Recent(before, id, room) ==> RetainedOf(after, id) == RetainedOf(before, id))
  {
    var before, after := Replay(l, trace[..from]), Replay(l, trace);
    var room := RETENTION - Since(trace, from);
    LawfulIsConsistent(l, trace);
    assert id in after.completed <==> Ended(after, id);
    if Recent(before, id, room) {
      RetainedSurvives(l, trace, from, id, room);
      var i :| 0 <= i < |after.completed| && after.completed[i] == id;
      assert id in after.completed;
    } else {
      OldStaysOld(l, trace, from, id, room);
      if id in after.completed {
        var i :| 0 <= i < |after.completed| && after.completed[i] == id;
        assert Recent(after, id, RETENTION);
      }
    }
  }
}
