/**
 `deepFreeze` of `src/contracts/canonical.ts`: an explicit-stack postorder walk over the objects that
 own data properties reach, cyclic or shared.
 */
module DeepFreeze {
  import opened Options
  import opened CodeUnits   // Distinct
  import opened Reachability

  type Ref = nat

  /** Every object with the objects its own data properties hold, in key order. */
  type Objects = Graph<Ref>

  datatype Entry = Entry(node: Ref, childrenVisited: bool)

  datatype Walk = Walk(visited: set<Ref>, pending: seq<Entry>, frozen: seq<Ref>)

  // ----- invariant

  ghost predicate Within(g: Objects, root: Ref, s: Walk) {
    && (forall x :: x in s.visited ==> x in g && Reaches(g, root, x))
    && (forall i :: 0 <= i < |s.pending| ==> s.pending[i].node in g && Reaches(g, root, s.pending[i].node))
  }

  /** A visited object is frozen, or waits behind exactly one marker. */
  ghost predicate Marked(s: Walk) {
    && Distinct(s.frozen)
    && (forall x :: x in s.frozen ==> x in s.visited)
    && (forall i :: 0 <= i < |s.pending| && s.pending[i].childrenVisited ==>
          s.pending[i].node in s.visited && s.pending[i].node !in s.frozen)
    && (forall i, j :: 0 <= i < j < |s.pending| && s.pending[i].childrenVisited && s.pending[j].childrenVisited ==>
          s.pending[i].node != s.pending[j].node)
    && (forall x :: x in s.visited && x !in s.frozen ==> HasMarker(s, x))
  }

  ghost predicate HasMarker(s: Walk, x: Ref) {
    exists i :: 0 <= i < |s.pending| && s.pending[i] == Entry(x, true)
  }

  /** A marker reaches everything stacked above it. */
  ghost predicate Ancestral(g: Objects, s: Walk) {
    forall i, j :: 0 <= i < j < |s.pending| && s.pending[i].childrenVisited ==>
      Reaches(g, s.pending[i].node, s.pending[j].node)
  }

  /** `v` is stacked above position `i`. */
  ghost predicate Above(s: Walk, i: int, v: Ref) {
    exists j :: 0 <= j < |s.pending| && i < j && s.pending[j] == Entry(v, false)
  }

  /** The successors of a marked object are visited or stacked above it; those of a frozen one are visited. */
  ghost predicate Followed(g: Objects, s: Walk) {
    && (forall i, v :: 0 <= i < |s.pending| && s.pending[i].childrenVisited && Edge(g, s.pending[i].node, v) ==>
          v in s.visited || Above(s, i, v))
    && (forall u, v :: u in s.frozen && Edge(g, u, v) ==> v in s.visited)
  }

  /** `v` is frozen before `u`. */
  ghost predicate Before(order: seq<Ref>, v: Ref, u: Ref) {
    exists i, j :: 0 <= i < j < |order| && order[i] == v && order[j] == u
  }

  ghost predicate Postorder(g: Objects, s: Walk) {
    forall u, v :: u in s.frozen && Edge(g, u, v) ==> Before(s.frozen, v, u) || Reaches(g, v, u)
  }

  ghost predicate Started(root: Ref, s: Walk) {
    root in s.visited || Entry(root, false) in s.pending
  }

  ghost predicate Invariant(g: Objects, root: Ref, s: Walk) {
    Within(g, root, s) && Marked(s) && Ancestral(g, s) && Followed(g, s) && Postorder(g, s) && Started(root, s)
  }

  // ----- an object whose successors are done

  ghost function Frozen(s: Walk): Walk
    requires s.pending != []
  {
    var n := |s.pending| - 1;
    Walk(s.visited, s.pending[..n], s.frozen + [s.pending[n].node])
  }

  lemma FrozenMarked(s: Walk, s': Walk)
    requires Marked(s) && s.pending != [] && s.pending[|s.pending| - 1].childrenVisited && s' == Frozen(s)
    ensures Marked(s')
  {
    forall x | x in s'.visited && x !in s'.frozen
      ensures HasMarker(s', x)
    {
      var i :| 0 <= i < |s.pending| && s.pending[i] == Entry(x, true);
      assert s'.frozen[|s.frozen|] == s.pending[|s.pending| - 1].node;
      assert i < |s.pending| - 1;
      assert s'.pending[i] == Entry(x, true);
    }
  }

  lemma FrozenFollowed(g: Objects, s: Walk, s': Walk)
    requires Followed(g, s) && s.pending != [] && s.pending[|s.pending| - 1].childrenVisited && s' == Frozen(s)
    ensures Followed(g, s')
  {
    var n := |s.pending| - 1;
    forall i, v | 0 <= i < n && s'.pending[i].childrenVisited && Edge(g, s'.pending[i].node, v)
      ensures v in s'.visited || Above(s', i, v)
    {
      assert s.pending[i] == s'.pending[i];
      if v !in s.visited {
        var j :| 0 <= j < |s.pending| && i < j && s.pending[j] == Entry(v, false);
        assert s'.pending[j] == Entry(v, false);
      }
    }
    forall v | Edge(g, s.pending[n].node, v)
      ensures v in s'.visited
    {
      assert s.pending[n].childrenVisited;
    }
  }

  lemma BeforeLast(order: seq<Ref>, v: Ref, u: Ref)
    requires v in order
    ensures Before(order + [u], v, u)
  {
    var i :| 0 <= i < |order| && order[i] == v;
    assert (order + [u])[i] == v && (order + [u])[|order|] == u;
  }

  lemma BeforeLonger(order: seq<Ref>, v: Ref, u: Ref, x: Ref)
    requires Before(order, v, u)
    ensures Before(order + [x], v, u)
  {
    var i, j :| 0 <= i < j < |order| && order[i] == v && order[j] == u;
    assert (order + [x])[i] == v && (order + [x])[j] == u;
  }

  lemma FrozenPostorder(g: Objects, s: Walk, s': Walk)
    requires Marked(s) && Ancestral(g, s) && Followed(g, s) && Postorder(g, s)
    requires s.pending != [] && s.pending[|s.pending| - 1].childrenVisited && s' == Frozen(s)
    ensures Postorder(g, s')
  {
    var n := |s.pending| - 1;
    var top := s.pending[n].node;
    forall u, v | u in s'.frozen && Edge(g, u, v)
      ensures Before(s'.frozen, v, u) || Reaches(g, v, u)
    {
      if u in s.frozen {
        if Before(s.frozen, v, u) {
          BeforeLonger(s.frozen, v, u, top);
        }
      } else {
        assert u == top && v in s.visited;
        if v in s.frozen {
          BeforeLast(s.frozen, v, u);
        } else {
          MarkerReachesTop(g, s, v);
        }
      }
    }
  }

  /** A visited object that is not frozen reaches the object on top. */
  lemma MarkerReachesTop(g: Objects, s: Walk, v: Ref)
    requires Marked(s) && Ancestral(g, s) && s.pending != [] && v in s.visited && v !in s.frozen
    ensures Reaches(g, v, s.pending[|s.pending| - 1].node)
  {
    var i :| 0 <= i < |s.pending| && s.pending[i] == Entry(v, true);
    if i == |s.pending| - 1 {
      ReachesSelf(g, v);
    }
  }

  lemma FrozenInvariant(g: Objects, root: Ref, s: Walk, s': Walk)
    requires Invariant(g, root, s) && s.pending != [] && s.pending[|s.pending| - 1].childrenVisited && s' == Frozen(s)
    ensures Invariant(g, root, s')
  {
    FrozenMarked(s, s');
    FrozenFollowed(g, s, s');
    FrozenPostorder(g, s, s');
    StillStarted(root, s, s');
  }

  // ----- an object that was visited meanwhile

  lemma SkippedMarked(s: Walk, s': Walk)
    requires Marked(s) && s.pending != [] && !s.pending[|s.pending| - 1].childrenVisited
    requires s' == s.(pending := s.pending[..|s.pending| - 1])
    ensures Marked(s')
  {
    forall x | x in s'.visited && x !in s'.frozen
      ensures HasMarker(s', x)
    {
      var i :| 0 <= i < |s.pending| && s.pending[i] == Entry(x, true);
      assert s'.pending[i] == Entry(x, true);
    }
  }

  lemma SkippedFollowed(g: Objects, s: Walk, s': Walk)
    requires Followed(g, s) && s.pending != [] && s.pending[|s.pending| - 1].node in s.visited
    requires s' == s.(pending := s.pending[..|s.pending| - 1])
    ensures Followed(g, s')
  {
    forall i, v | 0 <= i < |s'.pending| && s'.pending[i].childrenVisited && Edge(g, s'.pending[i].node, v)
      ensures v in s'.visited || Above(s', i, v)
    {
      assert s.pending[i] == s'.pending[i];
      if v !in s.visited {
        var j :| 0 <= j < |s.pending| && i < j && s.pending[j] == Entry(v, false);
        assert s'.pending[j] == Entry(v, false);
      }
    }
  }

  /** Dropping an entry whose object is visited, or a marker, does not lose the start. */
  lemma StillStarted(root: Ref, s: Walk, s': Walk)
    requires Started(root, s) && s.pending != [] && s'.visited == s.visited &&
             s'.pending == s.pending[..|s.pending| - 1]
    requires s.pending[|s.pending| - 1].childrenVisited || s.pending[|s.pending| - 1].node in s.visited
    ensures Started(root, s')
  {
    if root !in s.visited {
      var i :| 0 <= i < |s.pending| && s.pending[i] == Entry(root, false);
      assert s'.pending[i] == Entry(root, false);
    }
  }

  lemma SkippedInvariant(g: Objects, root: Ref, s: Walk, s': Walk)
    requires Invariant(g, root, s) && s.pending != []
    requires !s.pending[|s.pending| - 1].childrenVisited && s.pending[|s.pending| - 1].node in s.visited
    requires s' == s.(pending := s.pending[..|s.pending| - 1])
    ensures Invariant(g, root, s')
  {
    SkippedMarked(s, s');
    SkippedFollowed(g, s, s');
    StillStarted(root, s, s');
  }

  // ----- a new object

  /** The entries that the key loop has pushed when it has come down to key `k`. */
  function Pushed(successors: seq<Ref>, k: nat, visited: set<Ref>): seq<Entry>
    requires k <= |successors|
    decreases |successors| - k
  {
    if k == |successors| then []
    else Pushed(successors, k + 1, visited) + (if successors[k] in visited then [] else [Entry(successors[k], false)])
  }

  lemma {:induction false} PushedAre(successors: seq<Ref>, k: nat, visited: set<Ref>)
    requires k <= |successors|
    ensures forall e :: e in Pushed(successors, k, visited) <==>
              !e.childrenVisited && e.node !in visited && e.node in successors[k..]
    decreases |successors| - k
  {
    if k < |successors| {
      PushedAre(successors, k + 1, visited);
      assert successors[k..] == [successors[k]] + successors[k + 1..];
    }
  }

  /** The walk after visiting the new object `u` on top of `below`. */
  ghost predicate Visited(g: Objects, s: Walk, u: Ref, s': Walk) {
    && s.pending != [] && s.pending[|s.pending| - 1] == Entry(u, false) && u !in s.visited && u in g
    && s'.visited == s.visited + {u} && s'.frozen == s.frozen
    && s'.pending == s.pending[..|s.pending| - 1] + [Entry(u, true)] + Pushed(g[u], 0, s'.visited)
  }

  /** Positions of the new stack: what was below, the marker, and successors that are not yet visited. */
  lemma VisitedAt(g: Objects, s: Walk, u: Ref, s': Walk)
    requires Visited(g, s, u, s')
    ensures var n := |s.pending| - 1;
            && n < |s'.pending| && s'.pending[n] == Entry(u, true)
            && (forall i :: 0 <= i < n ==> s'.pending[i] == s.pending[i])
            && (forall i :: n < i < |s'.pending| ==>
                  !s'.pending[i].childrenVisited && s'.pending[i].node !in s'.visited && Edge(g, u, s'.pending[i].node))
            && (forall v :: Edge(g, u, v) && v !in s'.visited ==> Above(s', n, v))
  {
    var n := |s.pending| - 1;
    var more := Pushed(g[u], 0, s'.visited);
    PushedAre(g[u], 0, s'.visited);
    assert g[u][0..] == g[u];
    forall i | n < i < |s'.pending|
      ensures !s'.pending[i].childrenVisited && s'.pending[i].node !in s'.visited && Edge(g, u, s'.pending[i].node)
    {
      assert s'.pending[i] == more[i - n - 1] && more[i - n - 1] in more;
    }
    forall v | Edge(g, u, v) && v !in s'.visited
      ensures Above(s', n, v)
    {
      assert Entry(v, false) in more;
      var k :| 0 <= k < |more| && more[k] == Entry(v, false);
      assert s'.pending[n + 1 + k] == Entry(v, false);
    }
  }

  lemma VisitedWithin(g: Objects, root: Ref, s: Walk, u: Ref, s': Walk)
    requires Reachability.Closed(g) && Within(g, root, s) && Visited(g, s, u, s')
    ensures Within(g, root, s')
  {
    var n := |s.pending| - 1;
    VisitedAt(g, s, u, s');
    assert s.pending[n].node == u;
    forall i | 0 <= i < |s'.pending|
      ensures s'.pending[i].node in g && Reaches(g, root, s'.pending[i].node)
    {
      if i > n {
        ReachesThenEdge(g, root, u, s'.pending[i].node);
      } else if i < n {
        assert s'.pending[i] == s.pending[i];
      }
    }
  }

  lemma VisitedMarked(g: Objects, s: Walk, u: Ref, s': Walk)
    requires Marked(s) && Visited(g, s, u, s')
    ensures Marked(s')
  {
    var n := |s.pending| - 1;
    VisitedAt(g, s, u, s');
    forall x | x in s'.visited && x !in s'.frozen
      ensures HasMarker(s', x)
    {
      if x != u {
        var i :| 0 <= i < |s.pending| && s.pending[i] == Entry(x, true);
        assert i < n && s'.pending[i] == Entry(x, true);
      }
    }
    forall i, j | 0 <= i < j < |s'.pending| && s'.pending[i].childrenVisited && s'.pending[j].childrenVisited
      ensures s'.pending[i].node != s'.pending[j].node
    {
      assert j <= n;
      assert s.pending[i] == s'.pending[i];
      assert j < n ==> s.pending[j] == s'.pending[j];
    }
    forall i | 0 <= i < |s'.pending| && s'.pending[i].childrenVisited
      ensures s'.pending[i].node in s'.visited && s'.pending[i].node !in s'.frozen
    {
      assert i <= n;
      assert i < n ==> s.pending[i] == s'.pending[i];
    }
  }

  lemma VisitedAncestral(g: Objects, s: Walk, u: Ref, s': Walk)
    requires Ancestral(g, s) && Visited(g, s, u, s')
    ensures Ancestral(g, s')
  {
    var n := |s.pending| - 1;
    VisitedAt(g, s, u, s');
    forall i, j | 0 <= i < j < |s'.pending| && s'.pending[i].childrenVisited
      ensures Reaches(g, s'.pending[i].node, s'.pending[j].node)
    {
      assert i <= n;
      if i == n {
        ReachesEdge(g, u, s'.pending[j].node);
      } else {
        assert s.pending[i] == s'.pending[i];
        if j < n {
          assert s.pending[j] == s'.pending[j];
        } else {
          assert Reaches(g, s.pending[i].node, s.pending[n].node);
          if j > n {
            ReachesThenEdge(g, s.pending[i].node, u, s'.pending[j].node);
          }
        }
      }
    }
  }

  lemma VisitedFollowed(g: Objects, s: Walk, u: Ref, s': Walk)
    requires Followed(g, s) && Visited(g, s, u, s')
    ensures Followed(g, s')
  {
    var n := |s.pending| - 1;
    VisitedAt(g, s, u, s');
    forall i, v | 0 <= i < |s'.pending| && s'.pending[i].childrenVisited && Edge(g, s'.pending[i].node, v)
      ensures v in s'.visited || Above(s', i, v)
    {
      assert i <= n;
      if i < n && v !in s'.visited {
        assert s.pending[i] == s'.pending[i];
        var j :| 0 <= j < |s.pending| && i < j && s.pending[j] == Entry(v, false);
        assert j < n && s'.pending[j] == Entry(v, false);
      }
    }
  }

  lemma VisitedInvariant(g: Objects, root: Ref, s: Walk, u: Ref, s': Walk)
    requires Reachability.Closed(g) && Invariant(g, root, s) && Visited(g, s, u, s')
    ensures Invariant(g, root, s')
  {
    VisitedWithin(g, root, s, u, s');
    VisitedMarked(g, s, u, s');
    VisitedAncestral(g, s, u, s');
    VisitedFollowed(g, s, u, s');
    if root !in s'.visited {
      VisitedAt(g, s, u, s');
      var i :| 0 <= i < |s.pending| && s.pending[i] == Entry(root, false);
      assert s'.pending[i] == Entry(root, false);
    }
  }

  // ----- the walk

  /** Exactly the reachable objects, each once, successors before predecessors unless a cycle joins them. */
  ghost predicate DeeplyFrozen(g: Objects, root: Ref, order: seq<Ref>) {
    && Distinct(order)
    && (forall x :: x in order <==> Reaches(g, root, x))
    && (forall u, v :: u in order && Edge(g, u, v) && !Reaches(g, v, u) ==> Before(order, v, u))
  }

  lemma WalkedOut(g: Objects, root: Ref, s: Walk)
    requires Invariant(g, root, s) && s.pending == []
    ensures DeeplyFrozen(g, root, s.frozen)
  {
    var inside := set x | x in s.frozen;
    forall x | x in s.visited
      ensures x in s.frozen
    {
      assert !HasMarker(s, x);
    }
    forall x | Reaches(g, root, x)
      ensures x in s.frozen
    {
      StaysInside(g, inside, root, x);
    }
  }

  lemma FewerLeft(g: Objects, visited: set<Ref>, u: Ref)
    requires u in g && u !in visited
    ensures |g.Keys - (visited + {u})| < |g.Keys - visited|
  {
    assert g.Keys - (visited + {u}) == (g.Keys - visited) - {u};
  }

  /** `deepFreeze`: the objects in the order in which they are frozen. A scalar has none. */
  method Freeze(g: Objects, value: Option<Ref>) returns (order: seq<Ref>)
    requires Reachability.Closed(g) && (value.Some? ==> value.value in g)
    ensures value.None? ==> order == []
    ensures value.Some? ==> DeeplyFrozen(g, value.value, order)
  {
    if value.None? {
      return [];
    }
    var root := value.value;
    var visited: set<Ref>, pending: seq<Entry> := {}, [Entry(root, false)];
    order := [];
    ReachesSelf(g, root);
    while pending != []
      invariant Invariant(g, root, Walk(visited, pending, order))
      decreases |g.Keys - visited|, |pending|
    {
      ghost var s := Walk(visited, pending, order);
      var current := pending[|pending| - 1];
      pending := pending[..|pending| - 1];
      if current.childrenVisited {
        order := order + [current.node];
        FrozenInvariant(g, root, s, Walk(visited, pending, order));
      } else if current.node in visited {
        SkippedInvariant(g, root, s, Walk(visited, pending, order));
      } else {
        FewerLeft(g, visited, current.node);
        visited := visited + {current.node};
        pending := pending + [Entry(current.node, true)];
        pending := PushSuccessors(g[current.node], visited, pending);
        VisitedInvariant(g, root, s, current.node, Walk(visited, pending, order));
      }
    }
    WalkedOut(g, root, Walk(visited, pending, order));
  }

  /** The key loop, from the last key to the first. */
  method PushSuccessors(successors: seq<Ref>, visited: set<Ref>, below: seq<Entry>) returns (pending: seq<Entry>)
    ensures pending == below + Pushed(successors, 0, visited)
  {
    pending := below;
    var index := |successors|;
    while index > 0
      invariant 0 <= index <= |successors|
      invariant pending == below + Pushed(successors, index, visited)
    {
      index := index - 1;
      if successors[index] !in visited {
        pending := pending + [Entry(successors[index], false)];
      }
    }
  }
}
