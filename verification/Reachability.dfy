/**
 Directed reachability over successor lists, shared by the component search, the canonical
 normaliser and the freezing walk.
 */
module Reachability {

  type Graph<!T> = map<T, seq<T>>

  ghost predicate Edge<T>(g: Graph<T>, u: T, v: T) {
    u in g && v in g[u]
  }

  /** No edge leaves the declared nodes. */
  ghost predicate Closed<T>(g: Graph<T>) {
    forall u, i :: u in g && 0 <= i < |g[u]| ==> g[u][i] in g
  }

  /** A non-empty walk along edges. */
  ghost predicate IsPath<T>(g: Graph<T>, p: seq<T>) {
    p != [] && forall i :: 0 <= i < |p| - 1 ==> Edge(g, p[i], p[i + 1])
  }

  ghost predicate Joins<T>(g: Graph<T>, p: seq<T>, u: T, v: T) {
    IsPath(g, p) && p[0] == u && p[|p| - 1] == v
  }

  ghost predicate Reaches<T(!new)>(g: Graph<T>, u: T, v: T) {
    exists p :: Joins(g, p, u, v)
  }

  lemma ReachesSelf<T(!new)>(g: Graph<T>, u: T)
    ensures Reaches(g, u, u)
  {
    assert Joins(g, [u], u, u);
  }

  lemma ReachesEdge<T(!new)>(g: Graph<T>, u: T, v: T)
    requires Edge(g, u, v)
    ensures Reaches(g, u, v)
  {
    assert Joins(g, [u, v], u, v);
  }

  lemma ReachesTransitive<T(!new)>(g: Graph<T>, u: T, v: T, w: T)
    requires Reaches(g, u, v) && Reaches(g, v, w)
    ensures Reaches(g, u, w)
  {
    var p :| Joins(g, p, u, v);
    var q :| Joins(g, q, v, w);
    var r := p + q[1..];
    forall i | 0 <= i < |r| - 1
      ensures Edge(g, r[i], r[i + 1])
    {
      if i < |p| - 1 {
        assert Edge(g, p[i], p[i + 1]);
      } else {
        var k := i - (|p| - 1);
        assert r[i] == q[k] && r[i + 1] == q[k + 1];
        assert Edge(g, q[k], q[k + 1]);
      }
    }
    assert Joins(g, r, u, w);
  }

  lemma ReachesThenEdge<T(!new)>(g: Graph<T>, u: T, v: T, w: T)
    requires Reaches(g, u, v) && Edge(g, v, w)
    ensures Reaches(g, u, w)
  {
    ReachesEdge(g, v, w);
    ReachesTransitive(g, u, v, w);
  }

  /** A set that no edge leaves confines everything reachable from inside it. */
  lemma StaysInside<T(!new)>(g: Graph<T>, inside: set<T>, u: T, v: T)
    requires forall x, y :: x in inside && Edge(g, x, y) ==> y in inside
    requires u in inside && Reaches(g, u, v)
    ensures v in inside
  {
    var p :| Joins(g, p, u, v);
    PathStaysInside(g, inside, p);
  }

  lemma {:induction false} PathStaysInside<T(!new)>(g: Graph<T>, inside: set<T>, p: seq<T>)
    requires forall x, y :: x in inside && Edge(g, x, y) ==> y in inside
    requires IsPath(g, p) && p[0] in inside
    ensures p[|p| - 1] in inside
  {
    if |p| > 1 {
      DropStep(g, p);
      PathStaysInside(g, inside, p[1..]);
    }
  }

  lemma PrependStep<T(!new)>(g: Graph<T>, u: T, p: seq<T>)
    requires IsPath(g, p) && Edge(g, u, p[0])
    ensures IsPath(g, [u] + p)
  {
    var q := [u] + p;
    forall i | 0 <= i < |q| - 1
      ensures Edge(g, q[i], q[i + 1])
    {
      if i > 0 {
        assert Edge(g, p[i - 1], p[i]);
      }
    }
  }

  lemma DropStep<T(!new)>(g: Graph<T>, p: seq<T>)
    requires IsPath(g, p) && |p| > 1
    ensures Edge(g, p[0], p[1]) && IsPath(g, p[1..])
  {
    var q := p[1..];
    forall i | 0 <= i < |q| - 1
      ensures Edge(g, q[i], q[i + 1])
    {
      assert Edge(g, p[i + 1], p[i + 2]);
    }
  }
}
