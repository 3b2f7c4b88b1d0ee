/**
 Resumable workspace creation (`src/application/workspace-initialize.ts`) over a durable session. Every
 session effect may throw and a crash may strike before or after it.
 */
module WorkspaceCreate {
  import opened CodeUnits   // Distinct

  type Intent = nat
  type Name = nat

  datatype Phase = Absent | Prepared(intent: Intent) | Settling(intent: Intent) | Completed(intent: Intent)

  /** The port returned, or the run stopped there. */
  datatype Reply = Returned | Stopped

  class Session {
    var phase: Phase
    var frontier: seq<Name>
    var published: set<Name>
    var stageRetired: bool
    var flushed: bool
    ghost var publications: seq<Name>   // every publication that ever took effect
    ghost var troubles: nat             // session effects that threw or crashed

    ghost predicate Valid()
      reads this
    {
      && Distinct(frontier)
      // each entry at most once, and only entries of the frontier
      && Distinct(publications) && (forall x :: x in publications <==> x in published)
      && (forall x :: x in published ==> x in frontier)
      // settlement only when nothing is staged, retirement only in settlement
      && (phase.Settling? || phase.Completed? ==> forall x :: x in frontier ==> x in published)
      && (stageRetired ==> phase.Settling? || phase.Completed?)
      && (flushed ==> stageRetired)
      && (phase.Completed? ==> stageRetired && flushed)
      && (phase.Absent? ==> published == {})
    }

    constructor ()
      ensures Valid() && phase == Absent && publications == []
    {
      phase, frontier, published, stageRetired, flushed, publications := Absent, [], {}, false, false, [];
      troubles := 0;
    }

    /** A port that changes nothing here. */
    method Consult() returns (reply: Reply)
      modifies this`troubles
      ensures troubles >= old(troubles) && (reply.Stopped? ==> troubles > old(troubles))
    {
      if * {
        troubles := troubles + 1;
        return Stopped;
      }
      return Returned;
    }

    method Prepare(intent: Intent, entries: seq<Name>) returns (reply: Reply)
      requires Valid() && phase.Absent? && Distinct(entries)
      modifies this
      ensures Valid() && publications == old(publications) && !stageRetired
      ensures reply.Returned? ==> phase == Phase.Prepared(intent) && frontier == entries
      ensures phase == old(phase) || phase == Phase.Prepared(intent)
      ensures troubles >= old(troubles) && (reply.Stopped? ==> troubles > old(troubles))
    {
      if * {
        troubles := troubles + 1;
        return Stopped;
      }
      phase, frontier := Phase.Prepared(intent), entries;
      if * {
        troubles := troubles + 1;
        return Stopped;
      }
      return Returned;
    }

    method Publish(entry: Name) returns (reply: Reply)
      requires Valid() && phase.Prepared? && entry in frontier && entry !in published
      modifies this`published, this`publications, this`troubles
      ensures Valid() && (reply.Returned? ==> entry in published)
      ensures old(published) <= published && old(publications) <= publications
      ensures troubles >= old(troubles) && (reply.Stopped? ==> troubles > old(troubles))
    {
      if * {
        troubles := troubles + 1;
        return Stopped;
      }
      published, publications := published + {entry}, publications + [entry];
      if * {
        troubles := troubles + 1;
        return Stopped;
      }
      return Returned;
    }

    method BeginSettlement() returns (reply: Reply)
      requires Valid() && phase.Prepared? && forall x :: x in frontier ==> x in published
      modifies this`phase, this`troubles
      ensures Valid() && (reply.Returned? ==> phase == Settling(old(phase).intent))
      ensures phase == old(phase) || phase == Settling(old(phase).intent)
      ensures troubles >= old(troubles) && (reply.Stopped? ==> troubles > old(troubles))
    {
      if * {
        troubles := troubles + 1;
        return Stopped;
      }
      phase := Settling(phase.intent);
      if * {
        troubles := troubles + 1;
        return Stopped;
      }
      return Returned;
    }

    method RetireStage() returns (reply: Reply)
      requires Valid() && phase.Settling?
      modifies this`stageRetired, this`troubles
      ensures Valid() && (reply.Returned? ==> stageRetired)
      ensures troubles >= old(troubles) && (reply.Stopped? ==> troubles > old(troubles))
    {
      if * {
        troubles := troubles + 1;
        return Stopped;
      }
      stageRetired := true;
      if * {
        troubles := troubles + 1;
        return Stopped;
      }
      return Returned;
    }

    method FlushPublished() returns (reply: Reply)
      requires Valid() && phase.Settling? && stageRetired
      modifies this`flushed, this`troubles
      ensures Valid() && (reply.Returned? ==> flushed)
      ensures troubles >= old(troubles) && (reply.Stopped? ==> troubles > old(troubles))
    {
      if * {
        troubles := troubles + 1;
        return Stopped;
      }
      flushed := true;
      return Returned;
    }

    method Complete() returns (reply: Reply)
      requires Valid() && phase.Settling? && stageRetired && flushed
      modifies this`phase, this`troubles
      ensures Valid() && (reply.Returned? ==> phase == Completed(old(phase).intent))
      ensures phase == old(phase) || phase == Completed(old(phase).intent)
      ensures troubles >= old(troubles) && (reply.Stopped? ==> troubles > old(troubles))
    {
      if * {
        troubles := troubles + 1;
        return Stopped;
      }
      phase := Completed(phase.intent);
      if * {
        troubles := troubles + 1;
        return Stopped;
      }
      return Returned;
    }
  }

  /** Publish what is still staged, entry by entry. */
  method PublishFrontier(s: Session) returns (reply: Reply)
    requires s.Valid() && s.phase.Prepared?
    modifies s
    ensures s.Valid() && s.phase == old(s.phase) && s.frontier == old(s.frontier) &&
            old(s.publications) <= s.publications
    ensures !s.stageRetired && !s.flushed
    ensures reply.Returned? ==> forall x :: x in s.frontier ==> x in s.published
    ensures s.troubles >= old(s.troubles) && (reply.Stopped? ==> s.troubles > old(s.troubles))
  {
    var frontier := s.frontier;
    for i := 0 to |frontier|
      invariant s.Valid() && s.phase == old(s.phase) && s.frontier == frontier == old(s.frontier) &&
                old(s.publications) <= s.publications
      invariant !s.stageRetired && !s.flushed && s.troubles >= old(s.troubles)
      invariant forall k :: 0 <= k < i ==> frontier[k] in s.published
    {
      var observed := s.Consult();
      if observed.Stopped? {
        return Stopped;
      }
      if frontier[i] !in s.published {
        reply := s.Publish(frontier[i]);
        if reply.Stopped? {
          return;
        }
      }
    }
    return Returned;
  }

  method Settle(s: Session) returns (reply: Reply)
    requires s.Valid() && s.phase.Settling?
    modifies s`phase, s`stageRetired, s`flushed, s`troubles
    ensures s.Valid() && (reply.Returned? ==> s.phase == Completed(old(s.phase).intent))
    ensures s.phase == old(s.phase) || s.phase == Completed(old(s.phase).intent)
    ensures s.troubles >= old(s.troubles) && (reply.Stopped? ==> s.troubles > old(s.troubles))
  {
    reply := s.RetireStage();
    if reply.Stopped? {
      return;
    }
    reply := s.FlushPublished();
    if reply.Stopped? {
      return;
    }
    reply := s.Complete();
  }

  /**
   `initializePreparedWorkspace`. A finished run leaves a completed workspace of this very intent; a run
   on a completed workspace, or for a different intent than the one begun, changes nothing; and a run
   stops only because an effect failed or the intent differs.
   */
  method Initialize(s: Session, intent: Intent, entries: seq<Name>) returns (reply: Reply)
    requires s.Valid() && Distinct(entries)
    modifies s
    ensures s.Valid() && old(s.publications) <= s.publications
    ensures reply.Returned? ==> s.phase == Completed(intent)
    ensures old(s.phase.Completed? || (!s.phase.Absent? && s.phase.intent != intent)) ==>
              s.phase == old(s.phase) && s.publications == old(s.publications) && s.published == old(s.published) &&
              s.stageRetired == old(s.stageRetired)
    ensures old(!s.phase.Absent? && s.phase.intent != intent) ==> reply.Stopped?
    ensures s.troubles >= old(s.troubles)
    ensures reply.Stopped? ==> s.troubles > old(s.troubles) || old(!s.phase.Absent? && s.phase.intent != intent)
  {
    reply := s.Consult();
    if reply.Stopped? {
      return;
    }
    var observed := s.phase;
    if observed.Absent? {
      reply := s.Prepare(intent, entries);
      if reply.Stopped? {
        return;
      }
    } else {
      if observed.intent != intent {
        return Stopped;
      }
      reply := s.Consult();
      if observed.Completed? || reply.Stopped? {
        return;
      }
    }
    if !observed.Settling? {
      reply := PublishFrontier(s);
      if reply.Stopped? {
        return;
      }
      reply := s.BeginSettlement();
      if reply.Stopped? {
        return;
      }
    }
    reply := Settle(s);
  }

  datatype Request = Request(intent: Intent, entries: seq<Name>)

  /** Any number of runs and crashes: a completed workspace has published every entry, each once. */
  method Reruns(requests: seq<Request>) returns (s: Session)
    requires forall i :: 0 <= i < |requests| ==> Distinct(requests[i].entries)
    ensures s.Valid() && Distinct(s.publications)
    ensures s.phase.Completed? ==> forall x :: x in s.frontier <==> x in s.publications
  {
    s := new Session();
    for i := 0 to |requests|
      invariant fresh(s) && s.Valid()
    {
      var _ := Initialize(s, requests[i].intent, requests[i].entries);
    }
  }
}
