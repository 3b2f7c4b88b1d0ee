/**
 The ports of Semantic Mutation over one workspace. Every port may throw, and a crash may strike before
 or after its effect; all of these choices are arbitrary. The effects are recorded as a history.
 */
module MutationWorld {
  import opened Options
  import opened MutationRecord
  import opened MutationLedger

  /** Lost write lease, bytes that are not this transaction's, or anything else. */
  datatype Kind = Boundary | NotOurs | Ordinary

  datatype Reply<+T> = Done(value: T) | Threw(kind: Kind) | Crashed

  datatype Authority = Authority(unfinished: seq<Record>, blocked: Option<Record>)

  class World {
    var live: map<Path, Digest>
    var records: map<Id, Record>
    var rejected: map<Id, Rejection>
    var completed: seq<Id>
    ghost const initial: Ledger
    ghost var trace: seq<Event>
    ghost var troubles: nat   // failed ports and answers that were not the expected ones

    ghost function View(): Ledger
      reads this
    {
      Ledger(live, records, rejected, completed)
    }

    /** The workspace is what a lawful history made of its consistent beginning. */
    ghost predicate Valid()
      reads this
    {
      Consistent(initial) && Lawful(initial, trace) && View() == Replay(initial, trace) && Consistent(View())
    }

    twostate predicate Idle()
      reads this
    {
      View() == old(View()) && trace == old(trace)
    }

    /** Exactly this event happened; if it was safe, the history is still lawful. */
    twostate predicate Did(e: Event)
      reads this
    {
      && View() == Next(old(View()), e) && trace == old(trace) + [e]
      && Completions(trace) == Completions(old(trace)) + (if Completes(e) then 1 else 0)
      && (old(Valid()) && Safe(old(View()), e) ==> Valid())
    }

    constructor (beginning: Ledger)
      requires Consistent(beginning)
      ensures Valid() && View() == beginning && trace == [] && troubles == 0
    {
      live, records, rejected, completed := beginning.live, beginning.records, beginning.rejected, beginning.completed;
      initial, trace, troubles := beginning, [], 0;
    }

    ghost method Happen(e: Event)
      requires View() == Next(Replay(initial, trace), e)
      modifies this`trace
      ensures trace == old(trace) + [e] &&
              Completions(trace) == Completions(old(trace)) + (if Completes(e) then 1 else 0)
      ensures View() == Replay(initial, trace)
      ensures old(Lawful(initial, trace)) && Safe(Replay(initial, old(trace)), e) ==> Lawful(initial, trace)
    {
      trace := trace + [e];
      assert trace[..|trace| - 1] == old(trace);
    }

    ghost method Note()
      modifies this`troubles
      ensures troubles == old(troubles) + 1
    {
      troubles := troubles + 1;
    }

    /** A port that changes nothing here, with any answer. */
    method Ask<T(0)>() returns (reply: Reply<T>)
      modifies this`troubles
      ensures troubles >= old(troubles) && (reply.Done? || troubles > old(troubles))
    {
      reply := *;
      if !reply.Done? {
        Note();
      }
    }

    /** A port whose answer is compared with the expected one. */
    method AskFor<T(0)>(expected: T) returns (reply: Reply<T>)
      modifies this`troubles
      ensures troubles >= old(troubles) && (reply == Done(expected) || troubles > old(troubles))
    {
      reply := *;
      if reply != Done(expected) {
        Note();
      }
    }

    /** The port failed: it threw, or the process crashed. */
    method Failing<T>() returns (reply: Reply<T>)
      modifies this`troubles
      ensures troubles == old(troubles) + 1 && !reply.Done?
    {
      Note();
      if * {
        return Crashed;
      }
      var kind: Kind := *;
      return Threw(kind);
    }

    /** One call of a port with an effect: it may fail before or after the effect. */
    method Attempt<T>(value: T) returns (reply: Reply<T>, effect: bool)
      modifies this`troubles
      ensures || (reply == Done(value) && effect && troubles == old(troubles))
              || (!reply.Done? && troubles == old(troubles) + 1)
    {
      reply, effect := Done(value), true;
      if * {
        reply := Failing();
        effect := *;
      }
    }

    /** Only allowed transitions are appended; an append may take effect and still throw. */
    method Append(r: Record) returns (reply: Reply<Record>)
      requires Valid()
      modifies this
      ensures reply.Done? ==> Did(Event.Append(r)) && reply.value == r
      ensures Idle() || (Did(Event.Append(r)) && Allowed(old(StateOf(r.requestIdentity)), r.state))
      ensures troubles >= old(troubles)
      ensures reply.Done? || troubles > old(troubles) || !Allowed(old(StateOf(r.requestIdentity)), r.state)
    {
      if !Allowed(StateOf(r.requestIdentity), r.state) {
        return Threw(Ordinary);
      }
      var effect: bool;
      reply, effect := Attempt(r);
      if effect {
        Publish(r);
      }
    }

    /** The effect of an append: the record becomes the latest one of its root. */
    method Publish(r: Record)
      requires Valid()
      modifies this`records, this`completed, this`trace
      ensures Did(Event.Append(r))
    {
      Lawfully(View(), Event.Append(r));
      records := records[r.requestIdentity := r];
      completed := if IsTerminal(r.state) then completed + [r.requestIdentity] else completed;
      Happen(Event.Append(r));
    }

    /** The state of the latest record of a root. */
    function StateOf(id: Id): Option<State>
      reads this
    {
      if id in records then Some(records[id].state) else None
    }

    method WriteRejected(id: Id, rejection: Rejection) returns (reply: Reply<()>)
      requires Valid()
      modifies this
      ensures reply.Done? ==> Did(Reject(id, rejection))
      ensures Idle() || Did(Reject(id, rejection))
      ensures troubles >= old(troubles) && (reply.Done? || troubles > old(troubles))
    {
      var effect: bool;
      reply, effect := Attempt(());
      if effect {
        Lawfully(View(), Reject(id, rejection));
        rejected := rejected[id := rejection];
        completed := completed + [id];
        Happen(Reject(id, rejection));
      }
    }

    /** Compare and swap; it may take effect and still throw. */
    method ReplaceSource(owner: Id, path: Path, from: Digest, to: Digest) returns (reply: Reply<()>)
      requires Valid()
      modifies this
      ensures reply.Done? ==> Did(Replace(owner, path, from, to)) && old(LiveIs(View(), path, from))
      ensures Idle() || (Did(Replace(owner, path, from, to)) && old(LiveIs(View(), path, from)))
      ensures troubles >= old(troubles)
      ensures reply.Done? || troubles > old(troubles) || (reply == Threw(NotOurs) && old(!LiveIs(View(), path, from)))
    {
      if path !in live || live[path] != from {
        reply := Threw(NotOurs);
        if * {
          reply := Failing();
        }
        return;
      }
      var effect: bool;
      reply, effect := Attempt(());
      if effect {
        Lawfully(View(), Replace(owner, path, from, to));
        live := live[path := to];
        Happen(Replace(owner, path, from, to));
      }
    }

    /** Retire the terminals beyond the newest 256, the newer ones first; it may stop anywhere. */
    method Prune() returns (reply: Reply<()>)
      requires Valid()
      modifies this
      ensures Valid() && OnlyRetires(old(trace), trace)
      ensures |old(completed)| <= RETENTION ==> Idle()
      ensures reply.Done? ==> |completed| <= RETENTION
      ensures troubles >= old(troubles) && (reply.Done? || troubles > old(troubles))
    {
      var i := |completed| - RETENTION;
      while i > 0
        invariant Valid() && OnlyRetires(old(trace), trace)
        invariant i > 0 ==> i == |completed| - RETENTION
        invariant i <= 0 ==> |completed| <= RETENTION
        invariant |old(completed)| <= RETENTION ==> Idle()
        invariant troubles == old(troubles)
      {
        if * {
          reply := Failing();
          return;
        }
        i := i - 1;
        Forget(i);
      }
      return Done(());
    }

    /** Remove the root of one terminal that is old enough. */
    method Forget(i: nat)
      requires Valid() && i < |completed| - RETENTION
      modifies this`records, this`rejected, this`completed, this`trace
      ensures Valid() && Did(Retire(i, old(completed[i])))
    {
      var id := completed[i];
      SafeKeepsConsistent(View(), Retire(i, id));
      records, rejected := records - {id}, rejected - {id};
      completed := completed[..i] + completed[i + 1..];
      Happen(Retire(i, id));
    }

    method Observe(path: Path) returns (reply: Reply<Digest>)
      modifies this`troubles
      ensures reply.Done? ==> LiveIs(View(), path, reply.value)
      ensures troubles >= old(troubles) &&
              (reply.Done? || troubles > old(troubles) || (reply == Threw(Ordinary) && path !in live))
    {
      if * {
        reply := Failing();
        return;
      }
      return if path in live then Done(live[path]) else Threw(Ordinary);
    }

    /** A ready derivation edits the bytes that are live, and changes them. */
    method Derive() returns (reply: Reply<Derivation>)
      modifies this`troubles
      ensures reply.Done? && reply.value.Derived? ==>
                var edit := reply.value.ready.edit; LiveIs(View(), edit.path, edit.before) && edit.before != edit.staged
      ensures troubles >= old(troubles) && ((reply.Done? && reply.value.Derived?) || troubles > old(troubles))
    {
      reply := *;
      if reply.Done? && reply.value.Derived? {
        var edit := reply.value.ready.edit;
        if edit.path in live && live[edit.path] == edit.before && edit.before != edit.staged {
          return;
        }
        reply := Threw(Ordinary);
      }
      Note();
    }

    /** `inspectAuthority`: refuses to choose between several unfinished transactions. */
    method InspectAuthority() returns (reply: Reply<Authority>)
      requires Valid()
      modifies this`troubles
      ensures reply.Done? ==>
                && |reply.value.unfinished| <= 1
                && (forall r :: r in reply.value.unfinished ==>
                                  Unfinished(View(), r.requestIdentity) && records[r.requestIdentity] == r)
                && (reply.value.unfinished == [] ==> forall id :: !Unfinished(View(), id))
                && (reply.value.blocked.None? ==> forall id :: !Blocked(View(), id))
                && (reply.value.blocked.Some? ==>
                      var r := reply.value.blocked.value;
                      Blocked(View(), r.requestIdentity) && records[r.requestIdentity] == r)
      ensures troubles >= old(troubles) && (reply.Done? || troubles > old(troubles))
    {
      if * {
        reply := Failing();
        return;
      }
      var unfinished := set id | id in records && id !in rejected && IsUnfinished(records[id].state);
      if |unfinished| > 1 {
        reply := Failing();
        return;
      }
      var list: seq<Record> := [];
      if unfinished != {} {
        var id :| id in unfinished;
        list := [records[id]];
        assert Unfinished(View(), id);
      } else {
        assert forall id :: Unfinished(View(), id) ==> id in unfinished;
      }
      var blocked := set id | id in records && id !in rejected && records[id].state.RecoveryRequired?;
      if blocked != {} {
        var id :| id in blocked;
        assert Blocked(View(), id);
        return Done(Authority(list, Some(records[id])));
      }
      assert forall id :: Blocked(View(), id) ==> id in blocked;
      return Done(Authority(list, None));
    }

    method ReadRetained(id: Id) returns (reply: Reply<Retained>)
      modifies this`troubles
      ensures reply.Done? ==> reply.value == RetainedOf(View(), id)
      ensures troubles >= old(troubles) && (reply.Done? || troubles > old(troubles))
    {
      if * {
        reply := Failing();
        return;
      }
      return Done(if id in rejected then RejectedBefore(rejected[id])
                  else if id in records then Recorded(records[id]) else Nothing);
    }

    /** Someone else writes a source file. */
    method WriteForeign(path: Path, digest: Digest)
      requires Valid()
      modifies this
      ensures Valid() && Did(Foreign(path, digest))
    {
      ghost var l := View();
      live := live[path := digest];
      Happen(Foreign(path, digest));
      SafeKeepsConsistent(l, Foreign(path, digest));
    }
  }

  lemma Lawfully(l: Ledger, e: Event)
    requires Consistent(l)
    ensures Safe(l, e) ==> Consistent(Next(l, e))
  {
    if Safe(l, e) {
      SafeKeepsConsistent(l, e);
    }
  }

  ghost predicate OnlyRetires(before: seq<Event>, after: seq<Event>) {
    before <= after && forall i :: |before| <= i < |after| ==> after[i].Retire?
  }

  /** Retiring leaves sources and unsettled roots alone, and completes nothing. */
  lemma {:induction false} RetiresKeep(l: Ledger, before: seq<Event>, after: seq<Event>)
    requires Consistent(l) && Lawful(l, after) && OnlyRetires(before, after)
    ensures var a, b := Replay(l, before), Replay(l, after);
            a.live == b.live && Completions(before) == Completions(after) &&
            (forall id :: Unsettled(a, id) <==> Unsettled(b, id)) &&
            (forall id :: Unsettled(a, id) ==> a.records[id] == b.records[id])
    ensures Lawful(l, before)
  {
    if before == after {
    } else {
      var n := |after| - 1;
      assert after[n].Retire?;
      RetiresKeep(l, before, after[..n]);
      LawfulIsConsistent(l, after[..n]);
      RetireSettledOnly(Replay(l, after[..n]), after[n].at, after[n].id);
    }
  }
}
