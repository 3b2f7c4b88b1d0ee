/**
 The state of the iterative strong-component search of `directed-graph.ts` as a value, the
 invariant every one of its steps keeps, and what the invariant says once no frame is left.
 */
module ComponentInvariant {
  import opened Reachability

  /** One suspended visit: `cursor` counts the targets its iterator has delivered. */
  datatype Frame<T> = Frame(node: T, cursor: nat)

  datatype Search<T> = Search(
    index: map<T, nat>,
    low: map<T, nat>,
    next: nat,
    stack: seq<T>,
    frames: seq<Frame<T>>,
    components: seq<seq<T>>)

  function Start<T>(): Search<T> {
    Search(map[], map[], 0, [], [], [])
  }

  // ----- what the invariant is made of

  ghost predicate Indexed<T(!new)>(g: Graph<T>, s: Search<T>) {
    && s.index.Keys == s.low.Keys <= g.Keys
    && forall x :: x in s.index ==> s.index[x] < s.next
  }

  ghost predicate Stacked<T(!new)>(s: Search<T>) {
    && (forall i :: 0 <= i < |s.stack| ==> s.stack[i] in s.index)
    && (forall i, j :: 0 <= i < j < |s.stack| && s.stack[i] in s.index && s.stack[j] in s.index
          ==> s.index[s.stack[i]] < s.index[s.stack[j]])
  }

  ghost predicate Framed<T(!new)>(g: Graph<T>, s: Search<T>)
    requires Indexed(g, s) && Stacked(s)
  {
    && (forall i :: 0 <= i < |s.frames| ==>
          s.frames[i].node in s.stack && s.frames[i].cursor <= |g[s.frames[i].node]|)
    && (forall i, j :: 0 <= i < j < |s.frames| ==>
          s.index[s.frames[i].node] < s.index[s.frames[j].node])
  }

  ghost predicate Shape<T(!new)>(g: Graph<T>, s: Search<T>) {
    Closed(g) && Indexed(g, s) && Stacked(s) && Framed(g, s)
  }

  /** A suspended visit reaches everything stacked at or above it. */
  ghost predicate Descends<T(!new)>(g: Graph<T>, r: set<(T, T)>, s: Search<T>)
    requires Shape(g, s)
  {
    forall i, x :: 0 <= i < |s.frames| && x in s.stack && s.index[s.frames[i].node] <= s.index[x]
      ==> (s.frames[i].node, x) in r
  }

  ghost predicate AnchoredAt<T(!new)>(g: Graph<T>, r: set<(T, T)>, s: Search<T>, x: T, i: int)
    requires Shape(g, s) && x in s.stack
  {
    0 <= i < |s.frames| && s.index[s.frames[i].node] <= s.index[x] && (x, s.frames[i].node) in r
  }

  ghost predicate HasAnchor<T(!new)>(g: Graph<T>, r: set<(T, T)>, s: Search<T>, x: T)
    requires Shape(g, s) && x in s.stack
  {
    exists i :: AnchoredAt(g, r, s, x, i)
  }

  /** Everything stacked reaches some suspended visit at or below it. */
  ghost predicate Anchored<T(!new)>(g: Graph<T>, r: set<(T, T)>, s: Search<T>)
    requires Shape(g, s)
  {
    forall x {:trigger HasAnchor(g, r, s, x)} :: x in s.stack ==> HasAnchor(g, r, s, x)
  }

  /** The edge from `x` to `y` has been delivered by the iterator of `x`. */
  ghost predicate Delivered<T(!new)>(g: Graph<T>, s: Search<T>, x: T, y: T) {
    Edge(g, x, y) &&
    forall i :: 0 <= i < |s.frames| && s.frames[i].node == x && s.frames[i].cursor <= |g[x]|
      ==> y in g[x][..s.frames[i].cursor]
  }

  /** Delivered edges lead to numbered nodes, a pending one excepted. */
  ghost predicate Explored<T(!new)>(g: Graph<T>, s: Search<T>, pending: set<(T, T)>) {
    forall x, y :: x in s.index && Delivered(g, s, x, y) && (x, y) !in pending ==> y in s.index
  }

  /** No edge leaves the finished part. */
  ghost predicate Sealed<T(!new)>(g: Graph<T>, s: Search<T>) {
    forall x, y :: x in s.index && x !in s.stack && Edge(g, x, y) ==> y in s.index && y !in s.stack
  }

  ghost predicate LowAt<T(!new)>(g: Graph<T>, r: set<(T, T)>, s: Search<T>, i: nat, y: T)
    requires Shape(g, s) && i < |s.frames|
  {
    y in s.stack && s.index[y] == s.low[s.frames[i].node] && (s.frames[i].node, y) in r
  }

  ghost predicate HasLow<T(!new)>(g: Graph<T>, r: set<(T, T)>, s: Search<T>, i: nat)
    requires Shape(g, s) && i < |s.frames|
  {
    s.low[s.frames[i].node] <= s.index[s.frames[i].node] && exists y :: LowAt(g, r, s, i, y)
  }

  /** A low link is the index of something stacked that its visit reaches. */
  ghost predicate LowWitnessed<T(!new)>(g: Graph<T>, r: set<(T, T)>, s: Search<T>)
    requires Shape(g, s)
  {
    forall i {:trigger HasLow(g, r, s, i)} :: 0 <= i < |s.frames| ==> HasLow(g, r, s, i)
  }

  /** `x` is stacked between visit `i` and the next suspended visit. */
  ghost predicate InSegment<T(!new)>(g: Graph<T>, s: Search<T>, i: nat, x: T)
    requires Shape(g, s) && i < |s.frames|
  {
    && x in s.stack
    && s.index[s.frames[i].node] <= s.index[x]
    && (i + 1 < |s.frames| ==> s.index[x] < s.index[s.frames[i + 1].node])
  }

  /** A low link bounds every delivered edge from its segment back into the stack. */
  ghost predicate LowBounds<T(!new)>(g: Graph<T>, s: Search<T>, pending: set<(T, T)>)
    requires Shape(g, s)
  {
    forall i, x, y :: 0 <= i < |s.frames| && InSegment(g, s, i, x) && y in s.stack && (x, y) !in pending &&
                      Delivered(g, s, x, y)
      ==> s.low[s.frames[i].node] <= s.index[y]
  }

  /** `c` is exactly one mutual-reachability class. */
  ghost predicate IsComponent<T(!new)>(g: Graph<T>, r: set<(T, T)>, c: seq<T>) {
    && c != []
    && (forall u :: u in c ==> u in g)
    && (forall u, w :: u in c && w in g ==> (w in c <==> (u, w) in r && (w, u) in r))
  }

  /** Every component found so far is a class of finished nodes. */
  ghost predicate Classes<T(!new)>(g: Graph<T>, r: set<(T, T)>, s: Search<T>) {
    forall k :: 0 <= k < |s.components| ==>
      IsComponent(g, r, s.components[k]) &&
      forall x :: x in s.components[k] ==> x in s.index && x !in s.stack
  }

  ghost predicate Apart<T(!new)>(s: Search<T>) {
    forall k, m, x :: 0 <= k < m < |s.components| && x in s.components[k] ==> x !in s.components[m]
  }

  /** Every finished node is in some component. */
  ghost predicate Covered<T(!new)>(s: Search<T>) {
    forall x :: x in s.index && x !in s.stack ==> exists k :: 0 <= k < |s.components| && x in s.components[k]
  }

  ghost predicate Settled<T(!new)>(g: Graph<T>, r: set<(T, T)>, s: Search<T>) {
    Classes(g, r, s) && Apart(s) && Covered(s)
  }

  /**
   The invariant of the search. `pending` is empty between two steps and holds the one edge that the
   top iterator has just delivered while its target is being dealt with.
   */
  ghost predicate Invariant<T(!new)>(g: Graph<T>, r: set<(T, T)>, s: Search<T>, pending: set<(T, T)>) {
    && Shape(g, s)
    && Descends(g, r, s)
    && Anchored(g, r, s)
    && Explored(g, s, pending)
    && Sealed(g, s)
    && LowWitnessed(g, r, s)
    && LowBounds(g, s, pending)
    && Settled(g, r, s)
  }

  // ----- the steps of the search

  function Min(a: nat, b: nat): nat {
    if a < b then a else b
  }

  /** `enter`: number a fresh node, stack it and suspend its visit. */
  function Entered<T(!new)>(s: Search<T>, v: T): Search<T> {
    Search(s.index[v := s.next], s.low[v := s.next], s.next + 1, s.stack + [v], s.frames + [Frame(v, 0)], s.components)
  }

  /** The top visit takes its next target. */
  function Advanced<T(!new)>(s: Search<T>): Search<T>
    requires s.frames != []
  {
    var k := |s.frames| - 1;
    s.(frames := s.frames[..k] + [Frame(s.frames[k].node, s.frames[k].cursor + 1)])
  }

  function Lowered<T(!new)>(s: Search<T>, v: T, bound: nat): Search<T>
    requires v in s.low
  {
    s.(low := s.low[v := Min(s.low[v], bound)])
  }

  /** The top visit is over: its low link is handed to the visit below. */
  function Folded<T(!new)>(s: Search<T>): Search<T>
    requires s.frames != [] && forall i :: 0 <= i < |s.frames| ==> s.frames[i].node in s.low
  {
    var k := |s.frames| - 1;
    var popped := s.(frames := s.frames[..k]);
    if k == 0 then popped else Lowered(popped, s.frames[k - 1].node, s.low[s.frames[k].node])
  }

  /** The top `|s.stack| - p` stacked nodes leave as one component. */
  function Emitted<T(!new)>(s: Search<T>, p: nat, component: seq<T>): Search<T>
    requires p <= |s.stack|
  {
    s.(stack := s.stack[..p], components := s.components + [component])
  }

  ghost predicate AtTarget<T(!new)>(g: Graph<T>, s: Search<T>, t: T)
    requires Shape(g, s)
  {
    s.frames != [] &&
    var f := s.frames[|s.frames| - 1];
    f.cursor < |g[f.node]| && g[f.node][f.cursor] == t
  }

  ghost predicate AtEnd<T(!new)>(g: Graph<T>, s: Search<T>)
    requires Shape(g, s)
  {
    s.frames != [] && var f := s.frames[|s.frames| - 1]; f.cursor == |g[f.node]|
  }

  // ----- delivering a target

  lemma StartHolds<T(!new)>(g: Graph<T>, r: set<(T, T)>)
    requires Closed(g)
    ensures Invariant(g, r, Start(), {})
  {
  }

  lemma AdvancedShape<T(!new)>(g: Graph<T>, s: Search<T>, t: T)
    requires Shape(g, s) && AtTarget(g, s, t)
    ensures Shape(g, Advanced(s))
    ensures forall i :: 0 <= i < |s.frames| ==> Advanced(s).frames[i].node == s.frames[i].node
    ensures |Advanced(s).frames| == |s.frames|
  {
  }

  ghost function Top<T(!new)>(s: Search<T>): T
    requires s.frames != []
  {
    s.frames[|s.frames| - 1].node
  }

  lemma DeliveredBefore<T(!new)>(g: Graph<T>, s: Search<T>, t: T, x: T, y: T)
    requires Shape(g, s) && AtTarget(g, s, t)
    requires Delivered(g, Advanced(s), x, y) && (x, y) != (Top(s), t)
    ensures Delivered(g, s, x, y)
  {
    var s' := Advanced(s);
    forall i | 0 <= i < |s.frames| && s.frames[i].node == x && s.frames[i].cursor <= |g[x]|
      ensures y in g[x][..s.frames[i].cursor]
    {
      assert s'.frames[i].node == x;
      if i == |s.frames| - 1 {
        var c := s.frames[i].cursor;
        assert g[x][..c + 1] == g[x][..c] + [t];
      }
    }
  }

  lemma AdvancedDescends<T(!new)>(g: Graph<T>, r: set<(T, T)>, s: Search<T>, t: T)
    requires Shape(g, s) && AtTarget(g, s, t) && Shape(g, Advanced(s)) && Descends(g, r, s)
    ensures Descends(g, r, Advanced(s))
  {
    AdvancedShape(g, s, t);
  }

  lemma AdvancedAnchored<T(!new)>(g: Graph<T>, r: set<(T, T)>, s: Search<T>, t: T)
    requires Shape(g, s) && AtTarget(g, s, t) && Shape(g, Advanced(s)) && Anchored(g, r, s)
    ensures Anchored(g, r, Advanced(s))
  {
    var s' := Advanced(s);
    AdvancedShape(g, s, t);
    forall x | x in s'.stack
      ensures HasAnchor(g, r, s', x)
    {
      assert HasAnchor(g, r, s, x);
      var i :| AnchoredAt(g, r, s, x, i);
      assert AnchoredAt(g, r, s', x, i);
    }
  }

  lemma AdvancedLow<T(!new)>(g: Graph<T>, r: set<(T, T)>, s: Search<T>, t: T)
    requires Shape(g, s) && AtTarget(g, s, t) && Shape(g, Advanced(s)) && LowWitnessed(g, r, s)
    ensures LowWitnessed(g, r, Advanced(s))
  {
    var s' := Advanced(s);
    AdvancedShape(g, s, t);
    forall i | 0 <= i < |s'.frames|
      ensures HasLow(g, r, s', i)
    {
      assert HasLow(g, r, s, i);
      var y :| LowAt(g, r, s, i, y);
      assert LowAt(g, r, s', i, y);
    }
  }

  lemma AdvancedBounds<T(!new)>(g: Graph<T>, s: Search<T>, t: T)
    requires Shape(g, s) && AtTarget(g, s, t) && Shape(g, Advanced(s))
    requires Explored(g, s, {}) && LowBounds(g, s, {})
    ensures Explored(g, Advanced(s), {(Top(s), t)}) && LowBounds(g, Advanced(s), {(Top(s), t)})
  {
    var s' := Advanced(s);
    AdvancedShape(g, s, t);
    forall x, y | x in s'.index && Delivered(g, s', x, y) && (x, y) != (Top(s), t)
      ensures y in s'.index
    {
      DeliveredBefore(g, s, t, x, y);
    }
    forall i, x, y | 0 <= i < |s'.frames| && InSegment(g, s', i, x) && y in s'.stack && (x, y) != (Top(s), t) &&
                     Delivered(g, s', x, y)
      ensures s'.low[s'.frames[i].node] <= s'.index[y]
    {
      DeliveredBefore(g, s, t, x, y);
      assert InSegment(g, s, i, x);
    }
  }

  lemma Advance<T(!new)>(g: Graph<T>, r: set<(T, T)>, s: Search<T>, t: T)
    requires Invariant(g, r, s, {}) && AtTarget(g, s, t)
    ensures Invariant(g, r, Advanced(s), {(Top(s), t)})
    ensures Top(Advanced(s)) == Top(s)
  {
    AdvancedShape(g, s, t);
    AdvancedDescends(g, r, s, t);
    AdvancedAnchored(g, r, s, t);
    AdvancedLow(g, r, s, t);
    AdvancedBounds(g, s, t);
  }

  /** The delivered target is already in a finished component: nothing else changes. */
  lemma Skip<T(!new)>(g: Graph<T>, r: set<(T, T)>, s: Search<T>, v: T, t: T)
    requires Invariant(g, r, s, {(v, t)}) && t in s.index && t !in s.stack
    ensures Invariant(g, r, s, {})
  {
  }

  // ----- lowering a link

  lemma LoweredAnchored<T(!new)>(g: Graph<T>, r: set<(T, T)>, s: Search<T>, v: T, b: nat)
    requires Shape(g, s) && v in s.low && Anchored(g, r, s)
    ensures Shape(g, Lowered(s, v, b)) && Anchored(g, r, Lowered(s, v, b))
  {
    LoweredShape(g, s, v, b);
    forall x | x in s.stack
      ensures HasAnchor(g, r, Lowered(s, v, b), x)
    {
      assert HasAnchor(g, r, s, x);
      var i :| AnchoredAt(g, r, s, x, i);
      assert AnchoredAt(g, r, Lowered(s, v, b), x, i);
    }
  }

  lemma LoweredShape<T(!new)>(g: Graph<T>, s: Search<T>, v: T, b: nat)
    requires Shape(g, s) && v in s.low
    ensures Shape(g, Lowered(s, v, b))
  {
  }

  lemma LoweredLow<T(!new)>(g: Graph<T>, r: set<(T, T)>, s: Search<T>, t: T)
    requires Shape(g, s) && s.frames != [] && t in s.stack && (Top(s), t) in r && LowWitnessed(g, r, s)
    requires Shape(g, Lowered(s, Top(s), s.index[t]))
    ensures LowWitnessed(g, r, Lowered(s, Top(s), s.index[t]))
  {
    var s' := Lowered(s, Top(s), s.index[t]);
    forall i | 0 <= i < |s'.frames|
      ensures HasLow(g, r, s', i)
    {
      assert HasLow(g, r, s, i);
      var y :| LowAt(g, r, s, i, y);
      if s'.low[s'.frames[i].node] == s.low[s.frames[i].node] {
        assert LowAt(g, r, s', i, y);
      } else {
        assert LowAt(g, r, s', i, t);
      }
    }
  }

  lemma LoweredBounds<T(!new)>(g: Graph<T>, s: Search<T>, t: T)
    requires Shape(g, s) && s.frames != [] && t in s.stack
    requires LowBounds(g, s, {(Top(s), t)})
    requires Shape(g, Lowered(s, Top(s), s.index[t]))
    ensures LowBounds(g, Lowered(s, Top(s), s.index[t]), {})
  {
    var s' := Lowered(s, Top(s), s.index[t]);
    forall i, x, y | 0 <= i < |s'.frames| && InSegment(g, s', i, x) && y in s'.stack && Delivered(g, s', x, y)
      ensures s'.low[s'.frames[i].node] <= s'.index[y]
    {
      assert InSegment(g, s, i, x);
      assert Delivered(g, s, x, y);
      if (x, y) == (Top(s), t) {
        assert i == |s.frames| - 1;
      }
    }
  }

  /** The delivered target is stacked: the top low link drops to its index. */
  lemma Lower<T(!new)>(g: Graph<T>, r: set<(T, T)>, s: Search<T>, t: T)
    requires s.frames != [] && Invariant(g, r, s, {(Top(s), t)}) && t in s.stack && (Top(s), t) in r
    ensures Invariant(g, r, Lowered(s, Top(s), s.index[t]), {})
  {
    var s' := Lowered(s, Top(s), s.index[t]);
    LoweredAnchored(g, r, s, Top(s), s.index[t]);
    LoweredLow(g, r, s, t);
    LoweredBounds(g, s, t);
    assert Explored(g, s', {}) by {
      forall x, y | x in s'.index && Delivered(g, s', x, y)
        ensures y in s'.index
      {
        assert Delivered(g, s, x, y);
      }
    }
  }

  // ----- the reachability relation, as a set of pairs

  ghost predicate IsReach<T(!new)>(g: Graph<T>, r: set<(T, T)>) {
    Closed(g) &&
    forall u, v {:trigger Reaches(g, u, v)} :: u in g && v in g ==> ((u, v) in r <==> Reaches(g, u, v))
  }

  ghost function Reach<T(!new)>(g: Graph<T>): (r: set<(T, T)>)
    requires Closed(g)
    ensures IsReach(g, r)
  {
    set u, v | u in g && v in g && Reaches(g, u, v) :: (u, v)
  }

  lemma Self<T(!new)>(g: Graph<T>, r: set<(T, T)>, u: T)
    requires IsReach(g, r) && u in g
    ensures (u, u) in r
  {
    ReachesSelf(g, u);
  }

  lemma Chain<T(!new)>(g: Graph<T>, r: set<(T, T)>, u: T, v: T, w: T)
    requires IsReach(g, r) && u in g && v in g && w in g && (u, v) in r && (v, w) in r
    ensures (u, w) in r
  {
    assert Reaches(g, u, v) && Reaches(g, v, w);
    ReachesTransitive(g, u, v, w);
  }

  lemma Step<T(!new)>(g: Graph<T>, r: set<(T, T)>, u: T, v: T)
    requires IsReach(g, r) && u in g && v in g && Edge(g, u, v)
    ensures (u, v) in r
  {
    ReachesEdge(g, u, v);
  }

  lemma Confined<T(!new)>(g: Graph<T>, r: set<(T, T)>, inside: set<T>, u: T, v: T)
    requires IsReach(g, r) && u in g && v in g && (u, v) in r && u in inside
    requires forall x, y :: x in inside && Edge(g, x, y) ==> y in inside
    ensures v in inside
  {
    assert Reaches(g, u, v);
    StaysInside(g, inside, u, v);
  }

  // ----- entering a node

  lemma EnteredShape<T(!new)>(g: Graph<T>, s: Search<T>, v: T)
    requires Shape(g, s) && v in g && v !in s.index
    ensures Shape(g, Entered(s, v)) && v !in s.stack
    ensures forall x :: x in s.stack ==> x in s.index && Entered(s, v).index[x] == s.index[x] < s.next
    ensures forall x :: x in Entered(s, v).stack <==> x in s.stack || x == v
    ensures forall i :: 0 <= i < |s.frames| ==> Entered(s, v).frames[i] == s.frames[i]
  {
    var s' := Entered(s, v);
    forall i, j | 0 <= i < j < |s'.stack|
      ensures s'.stack[i] in s'.index && s'.stack[j] in s'.index && s'.index[s'.stack[i]] < s'.index[s'.stack[j]]
    {
      assert s'.stack[i] == s.stack[i];
      if j < |s.stack| {
        assert s'.stack[j] == s.stack[j];
      }
    }
  }

  /** A fresh node may be entered as a root or as the target just delivered. */
  ghost predicate MayEnter<T(!new)>(g: Graph<T>, r: set<(T, T)>, s: Search<T>, v: T)
  {
    && IsReach(g, r) && Shape(g, s) && v in g && v !in s.index
    && (s.frames == [] ==> s.stack == [])
    && (s.frames != [] ==> (Top(s), v) in r)
  }

  lemma EnteredDescends<T(!new)>(g: Graph<T>, r: set<(T, T)>, s: Search<T>, v: T)
    requires MayEnter(g, r, s, v) && Descends(g, r, s) && Shape(g, Entered(s, v))
    ensures Descends(g, r, Entered(s, v))
  {
    var s' := Entered(s, v);
    EnteredShape(g, s, v);
    Self(g, r, v);
    forall i, x | 0 <= i < |s'.frames| && x in s'.stack && s'.index[s'.frames[i].node] <= s'.index[x]
      ensures (s'.frames[i].node, x) in r
    {
      if i < |s.frames| && x == v {
        assert s.frames[i].node in s.stack && Top(s) in s.stack;
        assert (s.frames[i].node, Top(s)) in r;
        Chain(g, r, s.frames[i].node, Top(s), v);
      }
    }
  }

  lemma EnteredAnchored<T(!new)>(g: Graph<T>, r: set<(T, T)>, s: Search<T>, v: T)
    requires MayEnter(g, r, s, v) && Anchored(g, r, s) && Shape(g, Entered(s, v))
    ensures Anchored(g, r, Entered(s, v))
  {
    var s' := Entered(s, v);
    EnteredShape(g, s, v);
    Self(g, r, v);
    forall x | x in s'.stack
      ensures HasAnchor(g, r, s', x)
    {
      if x == v {
        assert AnchoredAt(g, r, s', x, |s.frames|);
      } else {
        assert HasAnchor(g, r, s, x);
        var i :| AnchoredAt(g, r, s, x, i);
        assert AnchoredAt(g, r, s', x, i);
      }
    }
  }

  lemma EnteredLow<T(!new)>(g: Graph<T>, r: set<(T, T)>, s: Search<T>, v: T)
    requires MayEnter(g, r, s, v) && LowWitnessed(g, r, s) && Shape(g, Entered(s, v))
    ensures LowWitnessed(g, r, Entered(s, v))
  {
    var s' := Entered(s, v);
    EnteredShape(g, s, v);
    Self(g, r, v);
    forall i | 0 <= i < |s'.frames|
      ensures HasLow(g, r, s', i)
    {
      if i == |s.frames| {
        assert LowAt(g, r, s', i, v);
      } else {
        assert HasLow(g, r, s, i);
        var y :| LowAt(g, r, s, i, y);
        assert LowAt(g, r, s', i, y);
      }
    }
  }

  lemma EnteredDelivered<T(!new)>(g: Graph<T>, s: Search<T>, v: T, x: T, y: T)
    requires Shape(g, s) && v in g && v !in s.index && Delivered(g, Entered(s, v), x, y)
    ensures x != v && Delivered(g, s, x, y)
  {
    var s' := Entered(s, v);
    EnteredShape(g, s, v);
    assert s'.frames[|s.frames|] == Frame(v, 0);
  }

  lemma EnteredBounds<T(!new)>(g: Graph<T>, r: set<(T, T)>, s: Search<T>, v: T, pending: set<(T, T)>)
    requires MayEnter(g, r, s, v) && Shape(g, Entered(s, v)) && LowWitnessed(g, r, s)
    requires LowBounds(g, s, pending) && forall e :: e in pending ==> e.1 == v
    ensures LowBounds(g, Entered(s, v), {})
  {
    var s' := Entered(s, v);
    EnteredShape(g, s, v);
    forall i, x, y | 0 <= i < |s'.frames| && InSegment(g, s', i, x) && y in s'.stack && Delivered(g, s', x, y)
      ensures s'.low[s'.frames[i].node] <= s'.index[y]
    {
      EnteredDelivered(g, s, v, x, y);
      assert s'.frames[|s.frames|].node == v;
      assert i < |s.frames|;
      assert HasLow(g, r, s, i);
      assert InSegment(g, s, i, x);
      if y != v {
        assert (x, y) !in pending;
      }
    }
  }

  lemma EnteredSettled<T(!new)>(g: Graph<T>, r: set<(T, T)>, s: Search<T>, v: T, pending: set<(T, T)>)
    requires MayEnter(g, r, s, v) && Shape(g, Entered(s, v))
    requires Explored(g, s, pending) && forall e :: e in pending ==> e.1 == v
    requires Sealed(g, s) && Settled(g, r, s)
    ensures Explored(g, Entered(s, v), {}) && Sealed(g, Entered(s, v)) && Settled(g, r, Entered(s, v))
  {
    var s' := Entered(s, v);
    EnteredShape(g, s, v);
    forall x, y | x in s'.index && Delivered(g, s', x, y)
      ensures y in s'.index
    {
      EnteredDelivered(g, s, v, x, y);
      if y != v {
        assert (x, y) !in pending;
      }
    }
  }

  /** With no visit suspended nothing is left stacked. */
  lemma NothingStacked<T(!new)>(g: Graph<T>, r: set<(T, T)>, s: Search<T>)
    requires Shape(g, s) && Anchored(g, r, s) && s.frames == []
    ensures s.stack == []
  {
    assert s.stack == [] || HasAnchor(g, r, s, s.stack[0]);
  }

  lemma Enter<T(!new)>(g: Graph<T>, r: set<(T, T)>, s: Search<T>, v: T, pending: set<(T, T)>)
    requires IsReach(g, r) && Invariant(g, r, s, pending) && v in g && v !in s.index
    requires forall e :: e in pending ==> e.1 == v
    requires s.frames != [] ==> (Top(s), v) in r
    ensures Invariant(g, r, Entered(s, v), {})
  {
    if s.frames == [] {
      NothingStacked(g, r, s);
    }
    EnteredShape(g, s, v);
    EnteredDescends(g, r, s, v);
    EnteredAnchored(g, r, s, v);
    EnteredLow(g, r, s, v);
    EnteredBounds(g, r, s, v, pending);
    EnteredSettled(g, r, s, v, pending);
  }

  // ----- finishing a visit

  lemma FoldedShape<T(!new)>(g: Graph<T>, s: Search<T>)
    requires Shape(g, s) && AtEnd(g, s)
    ensures Shape(g, Folded(s)) && |Folded(s).frames| == |s.frames| - 1
    ensures forall i :: 0 <= i < |s.frames| - 1 ==> Folded(s).frames[i] == s.frames[i]
  {
  }

  lemma FoldedLinks<T(!new)>(g: Graph<T>, s: Search<T>, i: nat)
    requires Shape(g, s) && AtEnd(g, s) && i < |s.frames| - 1
    ensures s.frames[i].node in Folded(s).low
    ensures Folded(s).low[s.frames[i].node] <= s.low[s.frames[i].node]
    ensures i == |s.frames| - 2 ==> Folded(s).low[s.frames[i].node] <= s.low[Top(s)]
    ensures s.low[s.frames[i].node] <= s.low[Top(s)] ==> Folded(s).low[s.frames[i].node] == s.low[s.frames[i].node]
  {
  }

  lemma FoldedSheds<T(!new)>(g: Graph<T>, s: Search<T>)
    requires Shape(g, s) && AtEnd(g, s)
    ensures Shed(g, s, Folded(s))
  {
    FoldedShape(g, s);
    forall i | 0 <= i < |s.frames| - 1
      ensures Folded(s).low[s.frames[i].node] <= s.low[s.frames[i].node]
      ensures i == |s.frames| - 2 ==> Folded(s).low[s.frames[i].node] <= s.low[Top(s)]
    {
      FoldedLinks(g, s, i);
    }
  }

  lemma FoldedDescends<T(!new)>(g: Graph<T>, r: set<(T, T)>, s: Search<T>)
    requires Shape(g, s) && AtEnd(g, s) && Shape(g, Folded(s)) && Descends(g, r, s)
    ensures Descends(g, r, Folded(s))
  {
    FoldedShape(g, s);
  }

  lemma FoldedAnchored<T(!new)>(g: Graph<T>, r: set<(T, T)>, s: Search<T>)
    requires IsReach(g, r) && Shape(g, s) && AtEnd(g, s) && Shape(g, Folded(s))
    requires Anchored(g, r, s) && LowWitnessed(g, r, s) && s.low[Top(s)] < s.index[Top(s)]
    ensures Anchored(g, r, Folded(s))
  {
    FoldedShape(g, s);
    var y, j := LowLeads(g, r, s);
    FoldedAnchors(g, r, s, Folded(s), y, j);
  }

  /** The low link of a visit that is no root leads to something anchored below it. */
  lemma LowLeads<T(!new)>(g: Graph<T>, r: set<(T, T)>, s: Search<T>) returns (y: T, j: int)
    requires Shape(g, s) && s.frames != []
    requires Anchored(g, r, s) && LowWitnessed(g, r, s) && s.low[Top(s)] < s.index[Top(s)]
    ensures y in s.stack && (Top(s), y) in r && s.index[y] < s.index[Top(s)]
    ensures AnchoredAt(g, r, s, y, j) && j < |s.frames| - 1
  {
    var k := |s.frames| - 1;
    assert HasLow(g, r, s, k);
    y :| LowAt(g, r, s, k, y);
    assert HasAnchor(g, r, s, y);
    j :| AnchoredAt(g, r, s, y, j);
  }

  lemma FoldedAnchors<T(!new)>(g: Graph<T>, r: set<(T, T)>, s: Search<T>, s': Search<T>, y: T, j: int)
    requires IsReach(g, r) && Shape(g, s) && Shape(g, s') && s.frames != [] && s'.frames == s.frames[..|s.frames| - 1]
    requires s'.index == s.index && s'.stack == s.stack && Anchored(g, r, s)
    requires y in s.stack && (Top(s), y) in r && s.index[y] < s.index[Top(s)]
    requires AnchoredAt(g, r, s, y, j) && j < |s.frames| - 1
    ensures Anchored(g, r, s')
  {
    forall x | x in s'.stack
      ensures HasAnchor(g, r, s', x)
    {
      assert HasAnchor(g, r, s, x);
      FoldedAnchor(g, r, s, s', x, y, j);
    }
  }

  /** What was anchored at the visit that ends is anchored where its low link leads. */
  lemma FoldedAnchor<T(!new)>(g: Graph<T>, r: set<(T, T)>, s: Search<T>, s': Search<T>, x: T, y: T, j: int)
    requires IsReach(g, r) && Shape(g, s) && Shape(g, s') && s.frames != [] && s'.frames == s.frames[..|s.frames| - 1]
    requires s'.index == s.index && x in s.stack && x in s'.stack && y in s.stack && HasAnchor(g, r, s, x)
    requires AnchoredAt(g, r, s, y, j) && j < |s.frames| - 1 && s.index[y] < s.index[s.frames[|s.frames| - 1].node]
    requires (s.frames[|s.frames| - 1].node, y) in r
    ensures HasAnchor(g, r, s', x)
  {
    var k := |s.frames| - 1;
    var i :| AnchoredAt(g, r, s, x, i);
    if i == k {
      Chain(g, r, x, s.frames[k].node, y);
      Chain(g, r, x, y, s.frames[j].node);
      assert AnchoredAt(g, r, s', x, j);
    } else {
      assert AnchoredAt(g, r, s', x, i);
    }
  }

  lemma FoldedLow<T(!new)>(g: Graph<T>, r: set<(T, T)>, s: Search<T>)
    requires IsReach(g, r) && Shape(g, s) && AtEnd(g, s) && Shape(g, Folded(s))
    requires Descends(g, r, s) && LowWitnessed(g, r, s)
    ensures LowWitnessed(g, r, Folded(s))
  {
    forall i | 0 <= i < |Folded(s).frames|
      ensures HasLow(g, r, Folded(s), i)
    {
      FoldedLowOf(g, r, s, i);
    }
  }

  lemma FoldedLowOf<T(!new)>(g: Graph<T>, r: set<(T, T)>, s: Search<T>, i: nat)
    requires IsReach(g, r) && Shape(g, s) && AtEnd(g, s) && Shape(g, Folded(s)) && i < |s.frames| - 1
    requires Descends(g, r, s) && LowWitnessed(g, r, s)
    ensures HasLow(g, r, Folded(s), i)
  {
    var s' := Folded(s);
    FoldedShape(g, s);
    assert HasLow(g, r, s, i);
    if s'.low[s'.frames[i].node] == s.low[s.frames[i].node] {
      var y :| LowAt(g, r, s, i, y);
      assert LowAt(g, r, s', i, y);
    } else {
      assert HasLow(g, r, s, |s.frames| - 1);
      var y :| LowAt(g, r, s, |s.frames| - 1, y);
      assert i == |s.frames| - 2 && (s.frames[i].node, Top(s)) in r;
      Chain(g, r, s.frames[i].node, Top(s), y);
      assert LowAt(g, r, s', i, y);
    }
  }

  /** `s'` has lost the top frame of `s`, and perhaps a part of its stack, keeping low links bounded. */
  ghost predicate Shed<T(!new)>(g: Graph<T>, s: Search<T>, s': Search<T>)
  {
    && Shape(g, s) && Shape(g, s') && AtEnd(g, s)
    && s'.index == s.index && |s'.frames| == |s.frames| - 1
    && (forall i :: 0 <= i < |s'.frames| ==> s'.frames[i] == s.frames[i])
    && (forall x :: x in s'.stack ==> x in s.stack)
    && (forall i :: 0 <= i < |s'.frames| ==> s'.low[s'.frames[i].node] <= s.low[s'.frames[i].node])
    && (s'.frames != [] ==> s'.low[Top(s')] <= s.low[Top(s)])
  }

  lemma ShedDelivered<T(!new)>(g: Graph<T>, s: Search<T>, s': Search<T>, x: T, y: T)
    requires Shed(g, s, s') && Delivered(g, s', x, y)
    ensures Delivered(g, s, x, y)
  {
    forall i | 0 <= i < |s.frames| && s.frames[i].node == x && s.frames[i].cursor <= |g[x]|
      ensures y in g[x][..s.frames[i].cursor]
    {
      if i == |s.frames| - 1 {
        assert g[x][..|g[x]|] == g[x];
      } else {
        assert s'.frames[i] == s.frames[i];
      }
    }
  }

  lemma ShedExplored<T(!new)>(g: Graph<T>, s: Search<T>, s': Search<T>)
    requires Shed(g, s, s') && Explored(g, s, {})
    ensures Explored(g, s', {})
  {
    forall x, y | x in s'.index && Delivered(g, s', x, y)
      ensures y in s'.index
    {
      ShedDelivered(g, s, s', x, y);
    }
  }

  /** Segments only merge downwards: the old segment of `x` has a low link no smaller. */
  lemma ShedSegment<T(!new)>(g: Graph<T>, s: Search<T>, s': Search<T>, i: nat, x: T) returns (j: nat)
    requires Shed(g, s, s') && i < |s'.frames| && InSegment(g, s', i, x)
    ensures j < |s.frames| && InSegment(g, s, j, x) && s'.low[s'.frames[i].node] <= s.low[s.frames[j].node]
  {
    var k := |s.frames| - 1;
    j := if i == k - 1 && s.index[Top(s)] <= s.index[x] then k else i;
    assert s'.frames[i] == s.frames[i];
    if i + 1 < k {
      assert s'.frames[i + 1] == s.frames[i + 1];
    }
  }

  lemma ShedBounds<T(!new)>(g: Graph<T>, s: Search<T>, s': Search<T>)
    requires Shed(g, s, s') && LowBounds(g, s, {})
    ensures LowBounds(g, s', {})
  {
    forall i, x, y | 0 <= i < |s'.frames| && InSegment(g, s', i, x) && y in s'.stack && Delivered(g, s', x, y)
      ensures s'.low[s'.frames[i].node] <= s'.index[y]
    {
      ShedBound(g, s, s', i, x, y);
    }
  }

  lemma ShedBound<T(!new)>(g: Graph<T>, s: Search<T>, s': Search<T>, i: nat, x: T, y: T)
    requires Shed(g, s, s') && LowBounds(g, s, {})
    requires i < |s'.frames| && InSegment(g, s', i, x) && y in s'.stack && Delivered(g, s', x, y)
    ensures s'.low[s'.frames[i].node] <= s'.index[y]
  {
    ShedDelivered(g, s, s', x, y);
    var j := ShedSegment(g, s, s', i, x);
    assert InSegment(g, s, j, x) && y in s.stack;
    assert s.low[s.frames[j].node] <= s.index[y];
  }

  /** The finished visit reaches below itself: it stays stacked with its anchor. */
  lemma Fold<T(!new)>(g: Graph<T>, r: set<(T, T)>, s: Search<T>)
    requires IsReach(g, r) && Invariant(g, r, s, {}) && AtEnd(g, s) && s.low[Top(s)] < s.index[Top(s)]
    ensures Invariant(g, r, Folded(s), {})
  {
    FoldedShape(g, s);
    FoldedDescends(g, r, s);
    FoldedAnchored(g, r, s);
    FoldedLow(g, r, s);
    FoldedSheds(g, s);
    ShedExplored(g, s, Folded(s));
    ShedBounds(g, s, Folded(s));
  }

  // ----- emitting a component

  ghost function Elements<T>(s: seq<T>): set<T> {
    set x | x in s
  }

  /** Where the finished visit is stacked, with its low link at its own index. */
  ghost predicate AtRoot<T(!new)>(g: Graph<T>, s: Search<T>, p: nat)
  {
    Shape(g, s) && AtEnd(g, s) && s.low[Top(s)] == s.index[Top(s)] && p < |s.stack| && s.stack[p] == Top(s)
  }

  lemma StackSplit<T(!new)>(g: Graph<T>, s: Search<T>, p: nat, x: T)
    requires Shape(g, s) && p < |s.stack| && x in s.stack
    ensures x in s.stack[..p] <==> s.index[x] < s.index[s.stack[p]]
    ensures x in s.stack[p..] <==> s.index[s.stack[p]] <= s.index[x]
  {
    var k :| 0 <= k < |s.stack| && s.stack[k] == x;
    if k < p {
      assert s.stack[..p][k] == x;
    } else {
      assert s.stack[p..][k - p] == x;
    }
    if x in s.stack[..p] {
      var m :| 0 <= m < p && s.stack[..p][m] == x;
      assert s.stack[m] == x;
    }
    if x in s.stack[p..] {
      var m :| 0 <= m < |s.stack[p..]| && s.stack[p..][m] == x;
      assert s.stack[p + m] == x;
    }
  }

  /** No edge leaves the emitted nodes except into the finished part. */
  lemma EmittedEdges<T(!new)>(g: Graph<T>, s: Search<T>, p: nat, x: T, y: T)
    requires AtRoot(g, s, p) && Explored(g, s, {}) && LowBounds(g, s, {})
    requires x in s.stack[p..] && Edge(g, x, y)
    ensures y in s.index && (y in s.stack ==> y in s.stack[p..])
  {
    var k := |s.frames| - 1;
    assert x in s.stack;
    StackSplit(g, s, p, x);
    assert Delivered(g, s, x, y) by {
      forall i | 0 <= i < |s.frames| && s.frames[i].node == x && s.frames[i].cursor <= |g[x]|
        ensures y in g[x][..s.frames[i].cursor]
      {
        assert i == k;
        assert g[x][..|g[x]|] == g[x];
      }
    }
    if y in s.stack {
      assert InSegment(g, s, k, x);
      StackSplit(g, s, p, y);
    }
  }

  lemma EmittedReachesRoot<T(!new)>(g: Graph<T>, r: set<(T, T)>, s: Search<T>, p: nat, u: T)
    requires IsReach(g, r) && AtRoot(g, s, p) && Anchored(g, r, s)
    requires Explored(g, s, {}) && LowBounds(g, s, {}) && Sealed(g, s)
    requires u in s.stack[p..]
    ensures (u, Top(s)) in r
  {
    assert u in s.stack;
    assert HasAnchor(g, r, s, u);
    var i :| AnchoredAt(g, r, s, u, i);
    var f := s.frames[i].node;
    EmittedConfines(g, r, s, p, u, f);
    StackSplit(g, s, p, f);
    assert i == |s.frames| - 1;
  }

  /** What an emitted node reaches is emitted with it or finished before. */
  lemma EmittedConfines<T(!new)>(g: Graph<T>, r: set<(T, T)>, s: Search<T>, p: nat, u: T, w: T)
    requires IsReach(g, r) && AtRoot(g, s, p)
    requires Explored(g, s, {}) && LowBounds(g, s, {}) && Sealed(g, s)
    requires u in s.stack[p..] && w in g && (u, w) in r
    ensures w in s.stack[p..] || (w in s.index && w !in s.stack)
  {
    var inside := Elements(s.stack[p..]) + (s.index.Keys - Elements(s.stack));
    forall x, y | x in inside && Edge(g, x, y)
      ensures y in inside
    {
      if x in s.stack[p..] {
        EmittedEdges(g, s, p, x, y);
      }
    }
    assert u in s.stack;
    Confined(g, r, inside, u, w);
  }

  lemma FinishedConfines<T(!new)>(g: Graph<T>, r: set<(T, T)>, s: Search<T>, w: T, u: T)
    requires IsReach(g, r) && Shape(g, s) && Sealed(g, s)
    requires w in s.index && w !in s.stack && u in g && (w, u) in r
    ensures u in s.index && u !in s.stack
  {
    var inside := s.index.Keys - Elements(s.stack);
    Confined(g, r, inside, w, u);
  }

  /** The emitted nodes are exactly one mutual-reachability class. */
  lemma EmittedIsClass<T(!new)>(g: Graph<T>, r: set<(T, T)>, s: Search<T>, p: nat, u: T, w: T)
    requires IsReach(g, r) && AtRoot(g, s, p) && Descends(g, r, s) && Anchored(g, r, s)
    requires Explored(g, s, {}) && LowBounds(g, s, {}) && Sealed(g, s)
    requires u in s.stack[p..] && w in g
    ensures w in s.stack[p..] <==> (u, w) in r && (w, u) in r
  {
    var v := Top(s);
    assert u in s.stack;
    StackSplit(g, s, p, u);
    if w in s.stack[p..] {
      assert w in s.stack;
      StackSplit(g, s, p, w);
      assert (v, u) in r && (v, w) in r;
      EmittedReachesRoot(g, r, s, p, u);
      EmittedReachesRoot(g, r, s, p, w);
      Chain(g, r, u, v, w);
      Chain(g, r, w, v, u);
    } else if (u, w) in r && (w, u) in r {
      EmittedConfines(g, r, s, p, u, w);
      FinishedConfines(g, r, s, w, u);
    }
  }

  lemma EmittedShape<T(!new)>(g: Graph<T>, s: Search<T>, p: nat, c: seq<T>)
    requires AtRoot(g, s, p)
    ensures Shape(g, Emitted(Folded(s), p, c))
    ensures var s' := Emitted(Folded(s), p, c);
            |s'.frames| == |s.frames| - 1 && forall i :: 0 <= i < |s'.frames| ==> s'.frames[i] == s.frames[i]
    ensures forall x :: x in s.stack[..p] ==> x in s.stack && x in s.index && s.index[x] < s.index[Top(s)]
  {
    var s' := Emitted(Folded(s), p, c);
    FoldedShape(g, s);
    forall x | x in s.stack[..p]
      ensures x in s.stack && s.index[x] < s.index[Top(s)]
    {
      StackSplit(g, s, p, x);
    }
    forall i | 0 <= i < |s'.frames|
      ensures s'.frames[i].node in s'.stack
    {
      StackSplit(g, s, p, s.frames[i].node);
    }
  }

  lemma EmittedAnchored<T(!new)>(g: Graph<T>, r: set<(T, T)>, s: Search<T>, p: nat, c: seq<T>)
    requires AtRoot(g, s, p) && Anchored(g, r, s) && Shape(g, Emitted(Folded(s), p, c))
    ensures Anchored(g, r, Emitted(Folded(s), p, c))
  {
    var s' := Emitted(Folded(s), p, c);
    EmittedShape(g, s, p, c);
    forall x | x in s'.stack
      ensures HasAnchor(g, r, s', x)
    {
      assert x in s.stack[..p];
      EmittedAnchor(g, r, s, s', x);
    }
  }

  /** What is stacked below a visit is not anchored at it. */
  lemma EmittedAnchor<T(!new)>(g: Graph<T>, r: set<(T, T)>, s: Search<T>, s': Search<T>, x: T)
    requires Shape(g, s) && Shape(g, s') && s.frames != [] && Anchored(g, r, s) && s'.index == s.index
    requires |s'.frames| == |s.frames| - 1 && forall i :: 0 <= i < |s'.frames| ==> s'.frames[i] == s.frames[i]
    requires x in s.stack && x in s'.stack && s.index[x] < s.index[Top(s)]
    ensures HasAnchor(g, r, s', x)
  {
    assert HasAnchor(g, r, s, x);
    var i :| AnchoredAt(g, r, s, x, i);
    assert AnchoredAt(g, r, s', x, i);
  }

  lemma EmittedDescends<T(!new)>(g: Graph<T>, r: set<(T, T)>, s: Search<T>, p: nat, c: seq<T>)
    requires AtRoot(g, s, p) && Descends(g, r, s) && Shape(g, Emitted(Folded(s), p, c))
    ensures Descends(g, r, Emitted(Folded(s), p, c))
  {
    EmittedShape(g, s, p, c);
  }

  lemma EmittedLow<T(!new)>(g: Graph<T>, r: set<(T, T)>, s: Search<T>, p: nat, c: seq<T>)
    requires AtRoot(g, s, p) && LowWitnessed(g, r, s) && Shape(g, Emitted(Folded(s), p, c))
    ensures LowWitnessed(g, r, Emitted(Folded(s), p, c))
  {
    var s' := Emitted(Folded(s), p, c);
    EmittedShape(g, s, p, c);
    forall i | 0 <= i < |s'.frames|
      ensures HasLow(g, r, s', i)
    {
      assert HasLow(g, r, s, i);
      var y :| LowAt(g, r, s, i, y);
      FoldedLinks(g, s, i);
      StackSplit(g, s, p, y);
      assert LowAt(g, r, s', i, y);
    }
  }

  lemma EmittedSheds<T(!new)>(g: Graph<T>, s: Search<T>, p: nat, c: seq<T>)
    requires AtRoot(g, s, p) && Shape(g, Emitted(Folded(s), p, c))
    ensures Shed(g, s, Emitted(Folded(s), p, c))
  {
    EmittedShape(g, s, p, c);
    FoldedSheds(g, s);
  }

  lemma EmittedSettled<T(!new)>(g: Graph<T>, r: set<(T, T)>, s: Search<T>, s': Search<T>, p: nat, c: seq<T>)
    requires IsReach(g, r) && AtRoot(g, s, p) && Descends(g, r, s) && Anchored(g, r, s)
    requires Explored(g, s, {}) && LowBounds(g, s, {}) && Sealed(g, s) && Settled(g, r, s)
    requires Split(g, s, s', p, c)
    ensures Settled(g, r, s')
  {
    forall u, w | u in c && w in g
      ensures w in c <==> (u, w) in r && (w, u) in r
    {
      EmittedIsClass(g, r, s, p, u, w);
    }
    ClassesWith(g, r, s, s', p, c);
    ApartWith(g, r, s, s', p, c);
    CoveredWith(g, s, s', p, c);
  }

  ghost predicate Split<T(!new)>(g: Graph<T>, s: Search<T>, s': Search<T>, p: nat, c: seq<T>) {
    && Shape(g, s) && p < |s.stack|
    && s'.index == s.index && s'.stack == s.stack[..p] && s'.components == s.components + [c]
    && c != [] && (forall x :: x in c <==> x in s.stack[p..])
  }

  lemma SplitApart<T(!new)>(g: Graph<T>, s: Search<T>, s': Search<T>, p: nat, c: seq<T>, x: T)
    requires Split(g, s, s', p, c) && x in s.stack
    ensures x in s.index && (x in s'.stack <==> x !in c)
  {
    StackSplit(g, s, p, x);
  }

  lemma ClassesWith<T(!new)>(g: Graph<T>, r: set<(T, T)>, s: Search<T>, s': Search<T>, p: nat, c: seq<T>)
    requires Split(g, s, s', p, c) && Classes(g, r, s)
    requires forall u, w :: u in c && w in g ==> (w in c <==> (u, w) in r && (w, u) in r)
    ensures Classes(g, r, s')
  {
    forall k | 0 <= k < |s'.components|
      ensures IsComponent(g, r, s'.components[k])
      ensures forall x :: x in s'.components[k] ==> x in s'.index && x !in s'.stack
    {
      if k < |s.components| {
        assert s'.components[k] == s.components[k];
        assert forall x :: x in s'.stack ==> x in s.stack;
      } else {
        forall x | x in c
          ensures x in g && x in s'.index && x !in s'.stack
        {
          assert x in s.stack;
          SplitApart(g, s, s', p, c, x);
        }
      }
    }
  }

  lemma ApartWith<T(!new)>(g: Graph<T>, r: set<(T, T)>, s: Search<T>, s': Search<T>, p: nat, c: seq<T>)
    requires Split(g, s, s', p, c) && Classes(g, r, s) && Apart(s)
    ensures Apart(s')
  {
    forall k, m, x | 0 <= k < m < |s'.components| && x in s'.components[k]
      ensures x !in s'.components[m]
    {
      assert s'.components[k] == s.components[k];
      if m == |s.components| {
        assert x !in s.stack;
      }
    }
  }

  lemma CoveredWith<T(!new)>(g: Graph<T>, s: Search<T>, s': Search<T>, p: nat, c: seq<T>)
    requires Split(g, s, s', p, c) && Covered(s)
    ensures Covered(s')
  {
    forall x | x in s'.index && x !in s'.stack
      ensures exists k :: 0 <= k < |s'.components| && x in s'.components[k]
    {
      if x in s.stack {
        SplitApart(g, s, s', p, c, x);
        assert x in s'.components[|s.components|];
      } else {
        var k :| 0 <= k < |s.components| && x in s.components[k];
        assert x in s'.components[k];
      }
    }
  }

  lemma EmittedSealed<T(!new)>(g: Graph<T>, s: Search<T>, p: nat, c: seq<T>)
    requires AtRoot(g, s, p) && Explored(g, s, {}) && LowBounds(g, s, {}) && Sealed(g, s)
    ensures Sealed(g, Emitted(Folded(s), p, c))
  {
    var s' := Emitted(Folded(s), p, c);
    EmittedShape(g, s, p, c);
    forall x, y | x in s'.index && x !in s'.stack && Edge(g, x, y)
      ensures y in s'.index && y !in s'.stack
    {
      if x in s.stack {
        StackSplit(g, s, p, x);
        EmittedEdges(g, s, p, x, y);
        if y in s.stack {
          StackSplit(g, s, p, y);
        }
      }
    }
  }

  /** The finished visit is the root of its component: the stack above it leaves as that component. */
  lemma Emit<T(!new)>(g: Graph<T>, r: set<(T, T)>, s: Search<T>, p: nat, c: seq<T>)
    requires IsReach(g, r) && Invariant(g, r, s, {}) && AtRoot(g, s, p)
    requires c != [] && forall x :: x in c <==> x in s.stack[p..]
    ensures Invariant(g, r, Emitted(Folded(s), p, c), {})
  {
    EmittedShape(g, s, p, c);
    EmittedDescends(g, r, s, p, c);
    EmittedAnchored(g, r, s, p, c);
    EmittedLow(g, r, s, p, c);
    EmittedSheds(g, s, p, c);
    ShedExplored(g, s, Emitted(Folded(s), p, c));
    ShedBounds(g, s, Emitted(Folded(s), p, c));
    EmittedSealed(g, s, p, c);
    EmittedSettled(g, r, s, Emitted(Folded(s), p, c), p, c);
  }
}
