/**
 When the normaliser reports a circular reference: exactly when a cycle is reachable.
 */
module CanonicalCycles {
  import opened Options
  import opened CodeUnits
  import opened CanonicalValue
  import Reachability

  /** The containers directly inside a container. */
  function Children(entries: seq<Entry>): seq<Ref> {
    if entries == [] then []
    else (if entries[0].value.Reference? then [entries[0].value.ref] else []) + Children(entries[1..])
  }

  lemma {:induction false} ChildrenOf(entries: seq<Entry>, c: Ref)
    ensures c in Children(entries) <==> exists i :: 0 <= i < |entries| && entries[i].value == Reference(c)
  {
    if entries != [] {
      var rest := entries[1..];
      ChildrenOf(rest, c);
      if c in Children(rest) {
        var i :| 0 <= i < |rest| && rest[i].value == Reference(c);
        assert entries[i + 1].value == Reference(c);
      }
      if exists i :: 0 <= i < |entries| && entries[i].value == Reference(c) {
        var i :| 0 <= i < |entries| && entries[i].value == Reference(c);
        if i > 0 {
          assert rest[i - 1].value == Reference(c);
        }
      }
    }
  }

  ghost function Links(h: Heap): Reachability.Graph<Ref> {
    map r | r in h :: Children(Entries(h[r]))
  }

  /** Some walk from the root comes back to a container it has already passed. */
  ghost predicate ReachesCycle(h: Heap, root: Value) {
    root.Reference? && exists p :: ComesBack(h, root.ref, p)
  }

  ghost predicate ComesBack(h: Heap, r: Ref, p: seq<Ref>) {
    Reachability.IsPath(Links(h), p) && p[0] == r && p[|p| - 1] in p[..|p| - 1]
  }

  predicate SupportedEntry(e: Entry) {
    !e.value.Unsupported? && !(e.value.NumberValue? && e.value.n.NonFinite?)
  }

  /** Plain containers and supported scalars only. */
  ghost predicate SupportedObject(o: Object) {
    !o.ForeignObject? && forall i :: 0 <= i < |Entries(o)| ==> SupportedEntry(Entries(o)[i])
  }

  ghost predicate SupportedFrom(h: Heap, v: Value)
    requires Known(h, v) && Closed(h)
  {
    SupportedEntry(Entry(None, v)) &&
    (v.Reference? ==> forall x :: x in h && Reachability.Reaches(Links(h), v.ref, x) ==> SupportedObject(h[x]))
  }

  lemma LinkOf(h: Heap, r: Ref, i: nat)
    requires Closed(h) && r in h && i < |Entries(h[r])| && Entries(h[r])[i].value.Reference?
    ensures Reachability.Edge(Links(h), r, Entries(h[r])[i].value.ref)
  {
    ChildrenOf(Entries(h[r]), Entries(h[r])[i].value.ref);
  }

  lemma SupportedChild(h: Heap, v: Value, i: nat)
    requires Closed(h) && Known(h, v) && v.Reference? && SupportedFrom(h, v) && i < |Entries(h[v.ref])|
    ensures SupportedEntry(Entries(h[v.ref])[i]) && SupportedFrom(h, Entries(h[v.ref])[i].value)
  {
    var g := Links(h);
    var c := Entries(h[v.ref])[i].value;
    Reachability.ReachesSelf(g, v.ref);
    if c.Reference? {
      LinkOf(h, v.ref, i);
      Reachability.ReachesEdge(g, v.ref, c.ref);
      forall x | x in h && Reachability.Reaches(g, c.ref, x)
        ensures SupportedObject(h[x])
      {
        Reachability.ReachesTransitive(g, v.ref, c.ref, x);
      }
    }
  }

  // ----- a normal form excludes cycles

  lemma {:induction false} NormalEntryOk(h: Heap, entries: seq<Entry>, ancestors: set<Ref>, i: nat)
    requires Closed(h) && (forall k :: 0 <= k < |entries| ==> Known(h, entries[k].value)) && i < |entries|
    requires NormalEntries(h, entries, ancestors).Ok?
    ensures Normal(h, entries[i].value, ancestors).Ok?
    decreases |entries|
  {
    if i > 0 {
      NormalEntryOk(h, entries[1..], ancestors, i - 1);
    }
  }

  /** Every walk from a normalised container is free of repetition and of ancestors. */
  lemma {:induction false} NormalWalks(h: Heap, r: Ref, ancestors: set<Ref>, p: seq<Ref>)
    requires Closed(h) && r in h && Normal(h, Reference(r), ancestors).Ok?
    requires Reachability.IsPath(Links(h), p) && p[0] == r
    ensures Distinct(p) && forall i :: 0 <= i < |p| ==> p[i] !in ancestors
    decreases |p|
  {
    if |p| > 1 {
      var q := p[1..];
      Reachability.DropStep(Links(h), p);
      ChildrenOf(Entries(h[r]), p[1]);
      var k :| 0 <= k < |Entries(h[r])| && Entries(h[r])[k].value == Reference(p[1]);
      NormalEntryOk(h, Entries(h[r]), ancestors + {r}, k);
      NormalWalks(h, p[1], ancestors + {r}, q);
      forall i | 0 <= i < |p|
        ensures p[i] !in ancestors && (i > 0 ==> p[i] != r)
      {
        if i > 0 {
          assert p[i] == q[i - 1];
        }
      }
      forall i, j | 0 <= i < j < |p|
        ensures p[i] != p[j]
      {
        if i > 0 {
          assert p[i] == q[i - 1] && p[j] == q[j - 1];
        }
      }
    }
  }

  // ----- a reported circle is one

  /** The walk that a circular-reference report has followed. */
  lemma {:induction false} CircularWalk(h: Heap, v: Value, ancestors: set<Ref>) returns (p: seq<Ref>)
    requires Closed(h) && Known(h, v) && Normal(h, v, ancestors) == Err(Circular)
    ensures v.Reference? && Reachability.IsPath(Links(h), p) && p[0] == v.ref
    ensures p[|p| - 1] in ancestors || p[|p| - 1] in p[..|p| - 1]
    decreases h.Keys - ancestors, 1, 0
  {
    p := [v.ref];
    if v.ref !in ancestors {
      assert v.ref in h.Keys - ancestors;
      var k, q := CircularEntry(h, Entries(h[v.ref]), ancestors + {v.ref});
      LinkOf(h, v.ref, k);
      Reachability.PrependStep(Links(h), v.ref, q);
      StillBack(v.ref, q, ancestors);
      p := [v.ref] + q;
    }
  }

  lemma StillBack(r: Ref, q: seq<Ref>, ancestors: set<Ref>)
    requires q != [] && (q[|q| - 1] in ancestors + {r} || q[|q| - 1] in q[..|q| - 1])
    ensures var p := [r] + q; p[|p| - 1] in ancestors || p[|p| - 1] in p[..|p| - 1]
  {
    var p := [r] + q;
    assert p[..|p| - 1] == [r] + q[..|q| - 1];
  }

  lemma {:induction false} CircularEntry(h: Heap, entries: seq<Entry>, ancestors: set<Ref>) returns (k: nat,
                                         q: seq<Ref>)
    requires Closed(h) && forall i :: 0 <= i < |entries| ==> Known(h, entries[i].value)
    requires NormalEntries(h, entries, ancestors) == Err(Circular)
    ensures k < |entries| && entries[k].value.Reference?
    ensures Reachability.IsPath(Links(h), q) && q[0] == entries[k].value.ref
    ensures q[|q| - 1] in ancestors || q[|q| - 1] in q[..|q| - 1]
    decreases h.Keys - ancestors, 3, |entries|
  {
    if NormalEntry(h, entries[0], ancestors) == Err(Circular) {
      k := 0;
      q := CircularWalk(h, entries[0].value, ancestors);
    } else {
      k, q := CircularEntry(h, entries[1..], ancestors);
      k := k + 1;
    }
  }

  // ----- supported data has no other failure

  lemma {:induction false} SupportedOutcome(h: Heap, v: Value, ancestors: set<Ref>)
    requires Closed(h) && Known(h, v) && SupportedFrom(h, v)
    ensures Normal(h, v, ancestors).Ok? || Normal(h, v, ancestors) == Err(Circular)
    decreases h.Keys - ancestors, 1, 0
  {
    if v.Reference? {
      Reachability.ReachesSelf(Links(h), v.ref);
      if v.ref !in ancestors {
        assert v.ref in h.Keys - ancestors;
        forall i | 0 <= i < |Entries(h[v.ref])|
          ensures SupportedEntry(Entries(h[v.ref])[i]) && SupportedFrom(h, Entries(h[v.ref])[i].value)
        {
          SupportedChild(h, v, i);
        }
        SupportedEntries(h, Entries(h[v.ref]), ancestors + {v.ref});
      }
    }
  }

  lemma {:induction false} SupportedEntries(h: Heap, entries: seq<Entry>, ancestors: set<Ref>)
    requires Closed(h) && forall i :: 0 <= i < |entries| ==> Known(h, entries[i].value)
    requires forall i :: 0 <= i < |entries| ==> SupportedEntry(entries[i]) && SupportedFrom(h, entries[i].value)
    ensures NormalEntries(h, entries, ancestors).Ok? || NormalEntries(h, entries, ancestors) == Err(Circular)
    decreases h.Keys - ancestors, 3, |entries|
  {
    if entries != [] {
      SupportedOutcome(h, entries[0].value, ancestors);
      SupportedEntries(h, entries[1..], ancestors);
    }
  }

  /**
   On supported data the normaliser reports a circular reference exactly when a cycle is reachable
   from the root, and has a normal form otherwise. Shared acyclic containers are no cycle.
   */
  lemma CircularExactly(h: Heap, root: Value)
    requires Closed(h) && Known(h, root) && SupportedFrom(h, root)
    ensures Normal(h, root, {}) == Err(Circular) <==> ReachesCycle(h, root)
    ensures Normal(h, root, {}).Ok? <==> !ReachesCycle(h, root)
  {
    SupportedOutcome(h, root, {});
    if Normal(h, root, {}).Ok? {
      if ReachesCycle(h, root) {
        var p :| ComesBack(h, root.ref, p);
        NormalWalks(h, root.ref, {}, p);
      }
    } else {
      var p := CircularWalk(h, root, {});
      assert ComesBack(h, root.ref, p);
    }
  }
}
