/**
 `compileClosedDirectedGraphStrongComponents` of `src/contracts/directed-graph.ts`: an iterative
 strong-component search over explicit frames, with a canonical result.
 */
module DirectedGraph {
  import opened CodeUnits
  import opened Reachability
  import opened ComponentInvariant

  datatype DirectedEdge = DirectedEdge(from: Text, to: Text)

  datatype Compilation =
    | Components(classes: seq<seq<Text>>)
    | UnknownEndpoint(edge: DirectedEdge)

  // ----- what the result means, in terms of the declared nodes and edges alone

  ghost predicate Walk(edges: set<DirectedEdge>, p: seq<Text>, u: Text, v: Text) {
    p != [] && p[0] == u && p[|p| - 1] == v &&
    forall i :: 0 <= i < |p| - 1 ==> DirectedEdge(p[i], p[i + 1]) in edges
  }

  ghost predicate Leads(edges: set<DirectedEdge>, u: Text, v: Text) {
    exists p :: Walk(edges, p, u, v)
  }

  function First(c: seq<Text>): Text {
    if c == [] then [] else c[0]
  }

  /** One class: non-empty, strictly ascending, exactly the nodes in a mutual walk with its members. */
  ghost predicate IsClass(nodes: set<Text>, edges: set<DirectedEdge>, c: seq<Text>) {
    && c != []
    && AscendingBy(c, Identity)
    && (forall u :: u in c ==> u in nodes)
    && (forall u, w :: u in c && w in nodes ==> (w in c <==> Leads(edges, u, w) && Leads(edges, w, u)))
  }

  /** The classes of all nodes, strictly ascending by least member. */
  ghost predicate IsPartition(nodes: set<Text>, edges: set<DirectedEdge>, classes: seq<seq<Text>>) {
    && (forall k :: 0 <= k < |classes| ==> IsClass(nodes, edges, classes[k]))
    && (forall u :: u in nodes ==> Covers(classes, u))
    && AscendingBy(classes, First)
  }

  /** Some class holds the node. */
  ghost predicate Covers(classes: seq<seq<Text>>, u: Text) {
    exists k :: 0 <= k < |classes| && u in classes[k]
  }

  predicate Declared(nodes: seq<Text>, e: DirectedEdge) {
    e.from in nodes && e.to in nodes
  }

  /**
   Node and edge order and multiplicity cannot affect the result: nodes and edges enter the meaning
   of a partition only as sets, and they have one partition.
   */
  lemma PartitionUnique(nodes: set<Text>, edges: set<DirectedEdge>, a: seq<seq<Text>>, b: seq<seq<Text>>)
    requires IsPartition(nodes, edges, a) && IsPartition(nodes, edges, b)
    ensures a == b
  {
    forall c
      ensures c in a <==> c in b
    {
      if c in a {
        ClassShared(nodes, edges, a, b, c);
      }
      if c in b {
        ClassShared(nodes, edges, b, a, c);
      }
    }
    AscendingUnique(a, b, First);
  }

  lemma ClassShared(nodes: set<Text>, edges: set<DirectedEdge>, a: seq<seq<Text>>, b: seq<seq<Text>>, c: seq<Text>)
    requires IsPartition(nodes, edges, a) && IsPartition(nodes, edges, b) && c in a
    ensures c in b
  {
    var u := c[0];
    assert u in c && u in nodes;
    var k :| 0 <= k < |b| && u in b[k];
    forall w
      ensures w in c <==> w in b[k]
    {
      if w in nodes {
        assert w in c <==> Leads(edges, u, w) && Leads(edges, w, u);
        assert w in b[k] <==> Leads(edges, u, w) && Leads(edges, w, u);
      }
    }
    AscendingUnique(c, b[k], Identity);
  }

  // ----- the adjacency sets

  ghost predicate Represents(g: Graph<Text>, nodes: seq<Text>, edges: set<DirectedEdge>) {
    && (forall u :: u in g <==> u in nodes)
    && (forall u, v :: Edge(g, u, v) <==> DirectedEdge(u, v) in edges)
  }

  lemma LeadsIsReach(g: Graph<Text>, nodes: seq<Text>, edges: set<DirectedEdge>, u: Text, v: Text)
    requires Represents(g, nodes, edges)
    ensures Leads(edges, u, v) <==> Reaches(g, u, v)
  {
    if Leads(edges, u, v) {
      var p :| Walk(edges, p, u, v);
      forall i | 0 <= i < |p| - 1
        ensures Edge(g, p[i], p[i + 1])
      {
        assert DirectedEdge(p[i], p[i + 1]) in edges;
      }
      assert Joins(g, p, u, v);
    }
    if Reaches(g, u, v) {
      var p :| Joins(g, p, u, v);
      forall i | 0 <= i < |p| - 1
        ensures DirectedEdge(p[i], p[i + 1]) in edges
      {
        assert Edge(g, p[i], p[i + 1]);
      }
      assert Walk(edges, p, u, v);
    }
  }

  ghost predicate FirstUndeclared(nodes: seq<Text>, edges: seq<DirectedEdge>, e: DirectedEdge) {
    exists i :: 0 <= i < |edges| && edges[i] == e && !Declared(nodes, e) &&
                forall k :: 0 <= k < i ==> Declared(nodes, edges[k])
  }

  method Adjacency(nodes: seq<Text>, edges: seq<DirectedEdge>) returns (g: Graph<Text>, unknown: int)
    ensures unknown == -1 || (0 <= unknown < |edges| && !Declared(nodes, edges[unknown]))
    ensures unknown == -1 <==> forall e :: e in edges ==> Declared(nodes, e)
    ensures forall k :: 0 <= k < unknown ==> Declared(nodes, edges[k])
    ensures unknown == -1 ==> Closed(g) && Represents(g, nodes, Elements(edges))
  {
    g := map u | u in nodes :: [];
    unknown := -1;
    for i := 0 to |edges|
      invariant unknown == -1
      invariant forall k :: 0 <= k < i ==> Declared(nodes, edges[k])
      invariant Closed(g) && Represents(g, nodes, Elements(edges[..i]))
    {
      var e := edges[i];
      if !(e.from in g) || !(e.to in g) {
        unknown := i;
        return;
      }
      assert edges[..i + 1] == edges[..i] + [e];
      if e.to !in g[e.from] {
        g := g[e.from := g[e.from] + [e.to]];
      }
    }
    assert edges[..|edges|] == edges;
  }

  // ----- the search

  /** What is left to do for the suspended visits. */
  ghost function Work(g: Graph<Text>, frames: seq<Frame<Text>>): nat {
    if frames == [] then 0 else
      var f := frames[|frames| - 1];
      Work(g, frames[..|frames| - 1]) + 1 +
      (if f.node in g && f.cursor <= |g[f.node]| then |g[f.node]| - f.cursor else 0)
  }

  lemma PoppedElements(all: seq<Text>, p: nat, component: seq<Text>)
    requires p <= |all| && |component| == |all| - p && Distinct(all)
    requires forall i :: 0 <= i < |component| ==> component[i] == all[|all| - 1 - i]
    ensures Distinct(component)
    ensures forall x :: x in component <==> x in all[p..]
  {
    forall x | x in all[p..]
      ensures x in component
    {
      var k :| 0 <= k < |all[p..]| && all[p..][k] == x;
      assert component[|all| - 1 - (p + k)] == x;
    }
    forall x | x in component
      ensures x in all[p..]
    {
      var i :| 0 <= i < |component| && component[i] == x;
      assert all[p..][|all| - 1 - i - p] == x;
    }
  }

  /** `c` is the sorted content of the stack from position `p`, where the finished visit stands. */
  ghost predicate Rooted(s: Search<Text>, p: nat, c: seq<Text>) {
    && s.frames != [] && p < |s.stack| && s.stack[p] == Top(s)
    && c != [] && AscendingBy(c, Identity) && (forall x :: x in c <==> x in s.stack[p..])
  }

  ghost predicate DeliveredTo(g: Graph<Text>, s: Search<Text>, s': Search<Text>)
    requires s.frames != [] && Top(s) in g && Top(s) in s.low
    requires s.frames[|s.frames| - 1].cursor < |g[Top(s)]|
  {
    var t := g[Top(s)][s.frames[|s.frames| - 1].cursor];
    if t !in s.index then s' == Entered(Advanced(s), t)
    else if t in s.stack then s' == Lowered(Advanced(s), Top(s), s.index[t])
    else s' == Advanced(s)
  }

  ghost predicate LeftWith(s: Search<Text>, s': Search<Text>, p: nat, c: seq<Text>)
    requires s.frames != []
    requires forall i :: 0 <= i < |s.frames| ==> s.frames[i].node in s.low && s.frames[i].node in s.index
  {
    if s.low[Top(s)] == s.index[Top(s)] then Rooted(s, p, c) && s' == Emitted(Folded(s), p, c)
    else s' == Folded(s)
  }

  /** What one turn of the search loop does to the state. */
  ghost predicate Stepped(g: Graph<Text>, s: Search<Text>, s': Search<Text>)
    requires Shape(g, s) && s.frames != []
  {
    if s.frames[|s.frames| - 1].cursor < |g[Top(s)]| then DeliveredTo(g, s, s')
    else exists p, c :: LeftWith(s, s', p, c)
  }

  ghost predicate Sorted(s: Search<Text>) {
    forall k :: 0 <= k < |s.components| ==> AscendingBy(s.components[k], Identity)
  }

  lemma DeliveredKeeps(g: Graph<Text>, r: set<(Text, Text)>, s: Search<Text>, s': Search<Text>)
    requires IsReach(g, r) && Invariant(g, r, s, {}) && s.frames != []
    requires s.frames[|s.frames| - 1].cursor < |g[Top(s)]| && DeliveredTo(g, s, s')
    ensures Invariant(g, r, s', {})
  {
    var v := Top(s);
    var t := g[v][s.frames[|s.frames| - 1].cursor];
    Advance(g, r, s, t);
    Step(g, r, v, t);
    if t !in s.index {
      ComponentInvariant.Enter(g, r, Advanced(s), t, {(v, t)});
    } else if t in s.stack {
      Lower(g, r, Advanced(s), t);
    } else {
      Skip(g, r, Advanced(s), v, t);
    }
  }

  lemma LeftKeeps(g: Graph<Text>, r: set<(Text, Text)>, s: Search<Text>, s': Search<Text>, p: nat, c: seq<Text>)
    requires IsReach(g, r) && Invariant(g, r, s, {}) && s.frames != []
    requires s.frames[|s.frames| - 1].cursor == |g[Top(s)]| && LeftWith(s, s', p, c)
    ensures Invariant(g, r, s', {})
  {
    if s.low[Top(s)] == s.index[Top(s)] {
      assert AtRoot(g, s, p);
      Emit(g, r, s, p, c);
    } else {
      assert HasLow(g, r, s, |s.frames| - 1);
      Fold(g, r, s);
    }
  }

  lemma SteppedSorted(g: Graph<Text>, s: Search<Text>, s': Search<Text>)
    requires Shape(g, s) && s.frames != [] && Sorted(s) && Stepped(g, s, s')
    ensures Sorted(s')
  {
  }

  /** Every turn of the loop keeps the invariant. */
  lemma SteppedKeeps(g: Graph<Text>, r: set<(Text, Text)>, s: Search<Text>, s': Search<Text>)
    requires IsReach(g, r) && Invariant(g, r, s, {}) && s.frames != [] && Stepped(g, s, s')
    ensures Invariant(g, r, s', {})
  {
    if s.frames[|s.frames| - 1].cursor < |g[Top(s)]| {
      DeliveredKeeps(g, r, s, s');
    } else {
      var p, c :| LeftWith(s, s', p, c);
      LeftKeeps(g, r, s, s', p, c);
    }
  }

  lemma NumberedProgress(g: Graph<Text>, a: set<Text>, b: set<Text>, t: Text)
    requires t in g && t !in a && b == a + {t}
    ensures |g.Keys - b| < |g.Keys - a|
  {
    assert g.Keys - b == g.Keys - a - {t};
  }

  lemma AdvancedWork(g: Graph<Text>, frames: seq<Frame<Text>>, f: Frame<Text>)
    requires f.node in g && f.cursor < |g[f.node]|
    ensures Work(g, frames + [Frame(f.node, f.cursor + 1)]) < Work(g, frames + [f])
  {
    var a, b := frames + [Frame(f.node, f.cursor + 1)], frames + [f];
    assert a[..|a| - 1] == frames && b[..|b| - 1] == frames;
  }

  ghost predicate Progress(g: Graph<Text>, s: Search<Text>, s': Search<Text>) {
    && s.index.Keys <= s'.index.Keys
    && (|g.Keys - s'.index.Keys| < |g.Keys - s.index.Keys| ||
        (s'.index == s.index && Work(g, s'.frames) < Work(g, s.frames)))
  }

  lemma DeliveredProgress(g: Graph<Text>, s: Search<Text>, s': Search<Text>)
    requires s.frames != [] && Top(s) in g && Top(s) in s.low && Closed(g)
    requires s.frames[|s.frames| - 1].cursor < |g[Top(s)]| && DeliveredTo(g, s, s')
    ensures Progress(g, s, s')
  {
    var f := s.frames[|s.frames| - 1];
    var rest := s.frames[..|s.frames| - 1];
    var t := g[f.node][f.cursor];
    if t !in s.index {
      NumberedProgress(g, s.index.Keys, s'.index.Keys, t);
    } else {
      assert s.frames == rest + [f];
      assert s'.frames == rest + [Frame(f.node, f.cursor + 1)];
      AdvancedWork(g, rest, f);
    }
  }

  /** Every turn of the loop numbers a node or leaves less to do. */
  lemma SteppedProgress(g: Graph<Text>, s: Search<Text>, s': Search<Text>)
    requires Shape(g, s) && s.frames != [] && Stepped(g, s, s')
    ensures Progress(g, s, s')
  {
    if s.frames[|s.frames| - 1].cursor < |g[Top(s)]| {
      DeliveredProgress(g, s, s');
    } else {
      LeftShorter(g, s, s');
    }
  }

  lemma LeftShorter(g: Graph<Text>, s: Search<Text>, s': Search<Text>)
    requires Shape(g, s) && s.frames != [] && Stepped(g, s, s')
    requires s.frames[|s.frames| - 1].cursor == |g[Top(s)]|
    ensures s'.index == s.index && s'.frames == s.frames[..|s.frames| - 1]
  {
    var p, c :| LeftWith(s, s', p, c);
  }

  class ComponentSearch {
    const targets: Graph<Text>
    var index: map<Text, nat>
    var lowLink: map<Text, nat>
    var nextIndex: nat
    var stack: seq<Text>
    var onStack: set<Text>
    var components: seq<seq<Text>>
    var frames: seq<Frame<Text>>

    ghost function View(): Search<Text>
      reads this
    {
      Search(index, lowLink, nextIndex, stack, frames, components)
    }

    ghost predicate Valid()
      reads this
    {
      && Closed(targets)
      && Invariant(targets, Reach(targets), View(), {})
      && Sorted(View())
      && onStack == Elements(stack)
    }

    constructor (g: Graph<Text>)
      requires Closed(g)
      ensures Valid() && targets == g && View() == Start()
    {
      targets := g;
      index, lowLink, nextIndex := map[], map[], 0;
      stack, onStack, components, frames := [], {}, [], [];
      new;
      StartHolds(g, Reach(g));
    }

    method Enter(node: Text)
      requires onStack == Elements(stack)
      modifies this
      ensures View() == Entered(old(View()), node)
      ensures onStack == Elements(stack)
    {
      index := index[node := nextIndex];
      lowLink := lowLink[node := nextIndex];
      nextIndex := nextIndex + 1;
      stack := stack + [node];
      onStack := onStack + {node};
      frames := frames + [Frame(node, 0)];
    }

    /** The inner popping loop: everything stacked down to `root` leaves, the last stacked first. */
    method PopComponent(root: Text) returns (component: seq<Text>, ghost p: nat)
      requires root in stack && Distinct(stack) && onStack == Elements(stack)
      modifies this`stack, this`onStack
      ensures p < |old(stack)| && old(stack)[p] == root
      ensures stack == old(stack)[..p] && onStack == Elements(stack)
      ensures component != [] && Distinct(component)
      ensures forall x :: x in component <==> x in old(stack)[p..]
    {
      component := [];
      ghost var all := stack;
      p := |stack|;
      var member := [];
      while component == [] || member != root
        invariant 0 <= p <= |all| && stack == all[..p] && onStack == Elements(stack)
        invariant component == [] <==> p == |all|
        invariant |component| == |all| - p
        invariant forall i :: 0 <= i < |component| ==> component[i] == all[|all| - 1 - i]
        invariant p < |all| ==> member == all[p]
        invariant p == |all| || member != root ==> root in stack
        decreases p
      {
        member := stack[|stack| - 1];
        assert all[..p] == all[..p - 1] + [all[p - 1]];
        stack := stack[..|stack| - 1];
        onStack := onStack - {member};
        component := component + [member];
        p := p - 1;
      }
      PoppedElements(all, p, component);
    }

    /** The top iterator delivers its next target. */
    method Deliver()
      requires onStack == Elements(stack) && frames != []
      requires Top(View()) in targets && Top(View()) in lowLink
      requires frames[|frames| - 1].cursor < |targets[Top(View())]|
      modifies this
      ensures onStack == Elements(stack)
      ensures DeliveredTo(targets, old(View()), View())
    {
      var top := |frames| - 1;
      var node, cursor := frames[top].node, frames[top].cursor;
      var target := targets[node][cursor];
      frames := frames[..top] + [Frame(node, cursor + 1)];
      if target !in index {
        Enter(target);
      } else if target in onStack {
        lowLink := lowLink[node := Min(lowLink[node], index[target])];
      }
    }

    method CloseComponent(root: Text) returns (ghost p: nat, ghost c: seq<Text>)
      requires root in stack && Distinct(stack) && onStack == Elements(stack)
      modifies this`stack, this`onStack, this`components
      ensures onStack == Elements(stack)
      ensures p < |old(stack)| && old(stack)[p] == root && stack == old(stack)[..p]
      ensures components == old(components) + [c]
      ensures c != [] && AscendingBy(c, Identity) && forall x :: x in c <==> x in old(stack)[p..]
    {
      var component;
      component, p := PopComponent(root);
      var sorted := SortBy(component, Identity);
      SortOfDistinctAscends(component, Identity);
      SameElements(component, sorted);
      components := components + [sorted];
      c := sorted;
    }

    /** The top visit has no target left. */
    method Leave() returns (ghost p: nat, ghost c: seq<Text>)
      requires onStack == Elements(stack) && Distinct(stack) && frames != [] && Top(View()) in stack
      requires forall i :: 0 <= i < |frames| ==> frames[i].node in lowLink && frames[i].node in index
      modifies this
      ensures onStack == Elements(stack)
      ensures var s := old(View()); LeftWith(s, View(), p, c)
    {
      p, c := 0, [];
      var top := |frames| - 1;
      var node := frames[top].node;
      frames := frames[..top];
      if lowLink[node] == index[node] {
        p, c := CloseComponent(node);
      }
      if top > 0 {
        var parent := frames[top - 1].node;
        lowLink := lowLink[parent := Min(lowLink[parent], lowLink[node])];
      }
    }

    /** One turn of the search loop. */
    method Visit()
      requires Shape(targets, View()) && onStack == Elements(stack) && frames != []
      modifies this
      ensures onStack == Elements(stack)
      ensures Stepped(targets, old(View()), View())
    {
      var top := |frames| - 1;
      if frames[top].cursor < |targets[frames[top].node]| {
        Deliver();
      } else {
        ghost var p, c := Leave();
      }
    }

    /** The sorted components, once every node is numbered. */
    method Classes(ghost nodes: seq<Text>, ghost edges: set<DirectedEdge>) returns (classes: seq<seq<Text>>)
      requires Valid() && frames == [] && Represents(targets, nodes, edges)
      requires forall k :: 0 <= k < |nodes| ==> nodes[k] in index
      ensures IsPartition(Elements(nodes), edges, classes)
    {
      SearchedPartition(targets, nodes, edges, View());
      classes := SortBy(components, First);
    }

    /** Search everything reachable from one root that is not numbered yet. */
    method Explore(root: Text)
      requires Valid() && frames == [] && root in targets
      modifies this
      ensures Valid() && frames == []
      ensures root in index && old(index).Keys <= index.Keys
    {
      if root in index {
        return;
      }
      ghost var r := Reach(targets);
      ComponentInvariant.Enter(targets, r, View(), root, {});
      Enter(root);
      while frames != []
        invariant Valid() && root in index && old(index).Keys <= index.Keys
        decreases |targets.Keys - index.Keys|, Work(targets, frames)
      {
        ghost var before := View();
        Visit();
        SteppedKeeps(targets, r, before, View());
        SteppedSorted(targets, before, View());
        SteppedProgress(targets, before, View());
      }
    }
  
    method ExploreAll(roots: seq<Text>)
      requires Valid() && frames == [] && forall k :: 0 <= k < |roots| ==> roots[k] in targets
      modifies this
      ensures Valid() && frames == []
      ensures forall k :: 0 <= k < |roots| ==> roots[k] in index
    {
      for i := 0 to |roots|
        invariant Valid() && frames == []
        invariant forall k :: 0 <= k < i ==> roots[k] in index
      {
        Explore(roots[i]);
      }
    }
  }

  /** With every node numbered and no visit suspended, the sorted components are the partition. */
  lemma SearchedPartition(g: Graph<Text>, nodes: seq<Text>, edges: set<DirectedEdge>, s: Search<Text>)
    requires Closed(g) && Represents(g, nodes, edges)
    requires Invariant(g, Reach(g), s, {}) && Sorted(s) && s.frames == [] && forall u :: u in nodes ==> u in s.index
    ensures IsPartition(Elements(nodes), edges, SortBy(s.components, First))
  {
    NothingStacked(g, Reach(g), s);
    forall k | 0 <= k < |s.components|
      ensures IsClass(Elements(nodes), edges, s.components[k])
    {
      SearchedClass(g, nodes, edges, s.components[k]);
    }
    forall u | u in nodes
      ensures Covers(s.components, u)
    {
      assert u in s.index;
    }
    FirstsDistinct(s);
    SortedPartition(Elements(nodes), edges, s.components);
  }

  lemma SortedPartition(nodes: set<Text>, edges: set<DirectedEdge>, components: seq<seq<Text>>)
    requires forall k :: 0 <= k < |components| ==> IsClass(nodes, edges, components[k])
    requires DistinctBy(components, First) && forall u :: u in nodes ==> Covers(components, u)
    ensures IsPartition(nodes, edges, SortBy(components, First))
  {
    SortOfDistinctAscends(components, First);
    var classes := SortBy(components, First);
    SameElements(components, classes);
    forall k | 0 <= k < |classes|
      ensures IsClass(nodes, edges, classes[k])
    {
      ClassAmong(nodes, edges, components, classes[k]);
    }
    forall u | u in nodes
      ensures Covers(classes, u)
    {
      CoversStill(components, classes, u);
    }
  }

  lemma ClassAmong(nodes: set<Text>, edges: set<DirectedEdge>, components: seq<seq<Text>>, c: seq<Text>)
    requires c in components && forall k :: 0 <= k < |components| ==> IsClass(nodes, edges, components[k])
    ensures IsClass(nodes, edges, c)
  {
  }

  lemma CoversStill(a: seq<seq<Text>>, b: seq<seq<Text>>, u: Text)
    requires Covers(a, u) && forall c :: c in a ==> c in b
    ensures Covers(b, u)
  {
    var m :| 0 <= m < |a| && u in a[m];
    assert a[m] in b;
  }

  lemma SearchedClass(g: Graph<Text>, nodes: seq<Text>, edges: set<DirectedEdge>, c: seq<Text>)
    requires Closed(g) && Represents(g, nodes, edges) && IsComponent(g, Reach(g), c) && AscendingBy(c, Identity)
    ensures IsClass(Elements(nodes), edges, c)
  {
    forall u, w | u in c && w in Elements(nodes)
      ensures w in c <==> Leads(edges, u, w) && Leads(edges, w, u)
    {
      LeadsIsReach(g, nodes, edges, u, w);
      LeadsIsReach(g, nodes, edges, w, u);
    }
  }

  lemma FirstsDistinct(s: Search<Text>)
    requires Apart(s) && forall k :: 0 <= k < |s.components| ==> s.components[k] != []
    ensures DistinctBy(s.components, First)
  {
    forall i, j | 0 <= i < j < |s.components|
      ensures First(s.components[i]) != First(s.components[j])
    {
      assert First(s.components[i]) in s.components[i];
      assert First(s.components[j]) in s.components[j];
    }
  }

  method SearchAll(g: Graph<Text>, ordered: seq<Text>, ghost edges: set<DirectedEdge>) returns (classes: seq<seq<Text>>)
    requires Closed(g) && Represents(g, ordered, edges)
    ensures IsPartition(Elements(ordered), edges, classes)
  {
    var search := new ComponentSearch(g);
    search.ExploreAll(ordered);
    classes := search.Classes(ordered, edges);
  }

  /** Compile every strong component of one closed directed graph. */
  method Compile(nodeIds: seq<Text>, edges: seq<DirectedEdge>) returns (result: Compilation)
    ensures result.UnknownEndpoint? <==> exists e :: e in edges && !Declared(nodeIds, e)
    ensures result.UnknownEndpoint? ==> FirstUndeclared(nodeIds, edges, result.edge)
    ensures result.Components? ==> IsPartition(Elements(nodeIds), Elements(edges), result.classes)
  {
    var ordered := UniqueSorted(nodeIds);
    var g, unknown := Adjacency(ordered, edges);
    assert forall e :: Declared(ordered, e) <==> Declared(nodeIds, e);
    if unknown >= 0 {
      assert FirstUndeclared(nodeIds, edges, edges[unknown]);
      return UnknownEndpoint(edges[unknown]);
    }
    var classes := SearchAll(g, ordered, Elements(edges));
    assert Elements(ordered) == Elements(nodeIds);
    result := Components(classes);
  }
}
