// Undirected note graphs: paths, reachability and connected components.
// A note is identified by the rank of its path in the sorted order of all
// paths, so that `<` on notes is the order of their paths.
module Graphs {

  type Note = int

  // The adjacency dictionary: every note that takes part in an edge, with its
  // neighbours in either direction.
  type Adjacency = map<Note, set<Note>>

  ghost predicate Undirected(g: Adjacency) {
    forall u, v :: u in g && v in g[u] ==> v in g && u in g[v]
  }

  ghost predicate IsPath(g: Adjacency, p: seq<Note>) {
    && |p| > 0
    && (forall i :: 0 <= i < |p| ==> p[i] in g)
    && (forall i :: 0 < i < |p| ==> p[i] in g[p[i - 1]])
  }

  ghost predicate Reach(g: Adjacency, u: Note, v: Note) {
    exists p :: IsPath(g, p) && p[0] == u && p[|p| - 1] == v
  }

  // The connected component of `v`, and the set of all components.
  ghost function Component(g: Adjacency, v: Note): set<Note> {
    set w | w in g && Reach(g, v, w)
  }

  ghost function Components(g: Adjacency): set<set<Note>> {
    set v | v in g :: Component(g, v)
  }

  // The graph that is left when note `x` and its edges are removed.
  function Without(g: Adjacency, x: Note): Adjacency {
    map v | v in g && v != x :: g[v] - {x}
  }

  // A set that no edge leaves.
  ghost predicate Closed(g: Adjacency, s: set<Note>) {
    forall u, v :: u in s && u in g && v in g[u] ==> v in s
  }

  lemma WithoutIsUndirected(g: Adjacency, x: Note)
    requires Undirected(g)
    ensures Undirected(Without(g, x))
  {
  }

  lemma ReachSelf(g: Adjacency, v: Note)
    requires v in g
    ensures Reach(g, v, v)
  {
    assert IsPath(g, [v]);
  }

  lemma ReachEdge(g: Adjacency, u: Note, v: Note)
    requires u in g && v in g && v in g[u]
    ensures Reach(g, u, v)
  {
    var p := [u, v];
    assert IsPath(g, p) && p[0] == u && p[|p| - 1] == v;
  }

  lemma ReachTransitive(g: Adjacency, u: Note, v: Note, w: Note)
    requires Reach(g, u, v) && Reach(g, v, w)
    ensures Reach(g, u, w)
  {
    var p :| IsPath(g, p) && p[0] == u && p[|p| - 1] == v;
    var q :| IsPath(g, q) && q[0] == v && q[|q| - 1] == w;
    var r := p + q[1..];
    assert IsPath(g, r) && r[0] == u && r[|r| - 1] == w;
  }

  lemma ReachSymmetric(g: Adjacency, u: Note, v: Note)
    requires Undirected(g) && Reach(g, u, v)
    ensures Reach(g, v, u)
  {
    var p :| IsPath(g, p) && p[0] == u && p[|p| - 1] == v;
    var q := seq(|p|, i requires 0 <= i < |p| => p[|p| - 1 - i]);
    forall i | 0 < i < |q|
      ensures q[i] in g[q[i - 1]]
    {
      var j := |p| - i;
      assert p[j] in g[p[j - 1]];
      assert q[i] == p[j - 1] && q[i - 1] == p[j];
    }
    assert IsPath(g, q) && q[0] == v && q[|q| - 1] == u;
  }

  // A path cannot leave a closed set.
  lemma {:induction false} PathStaysInClosed(g: Adjacency, s: set<Note>, p: seq<Note>, i: nat)
    requires Closed(g, s) && IsPath(g, p) && p[0] in s && i < |p|
    ensures p[i] in s
  {
    if i > 0 {
      PathStaysInClosed(g, s, p, i - 1);
      var u, v := p[i - 1], p[i];
      assert u in s && u in g && v in g[u];
    }
  }

  lemma ReachStaysInClosed(g: Adjacency, s: set<Note>, u: Note, v: Note)
    requires Closed(g, s) && Reach(g, u, v) && u in s
    ensures v in s && v in g
  {
    var p :| IsPath(g, p) && p[0] == u && p[|p| - 1] == v;
    PathStaysInClosed(g, s, p, |p| - 1);
  }

  lemma ReachWithoutIsReach(g: Adjacency, x: Note, u: Note, v: Note)
    requires Reach(Without(g, x), u, v)
    ensures Reach(g, u, v) && u != x && v != x
  {
    var p :| IsPath(Without(g, x), p) && p[0] == u && p[|p| - 1] == v;
    assert IsPath(g, p);
  }

  // A closed set all of whose notes are reached from `v` is the component of `v`.
  lemma ClosedSetIsComponent(g: Adjacency, s: set<Note>, v: Note)
    requires v in s && s <= g.Keys && Closed(g, s)
    requires forall w :: w in s ==> Reach(g, v, w)
    ensures Component(g, v) == s
  {
    forall w | w in Component(g, v)
      ensures w in s
    {
      ReachStaysInClosed(g, s, v, w);
    }
  }

  lemma ComponentIsClosed(g: Adjacency, v: Note)
    requires Undirected(g)
    ensures Closed(g, Component(g, v))
  {
    var s := Component(g, v);
    forall u, w | u in s && u in g && w in g[u]
      ensures w in s
    {
      ReachEdge(g, u, w);
      ReachTransitive(g, v, u, w);
    }
  }

  // Notes of one component have the same component.
  lemma SameComponent(g: Adjacency, u: Note, v: Note)
    requires Undirected(g) && Reach(g, u, v)
    ensures Component(g, u) == Component(g, v)
  {
    ReachSymmetric(g, u, v);
    forall w | w in g
      ensures w in Component(g, u) <==> w in Component(g, v)
    {
      if Reach(g, u, w) { ReachTransitive(g, v, u, w); }
      if Reach(g, v, w) { ReachTransitive(g, u, v, w); }
    }
  }

  // Components are disjoint or equal: a shared note makes them the same set.
  lemma ComponentsPartition(g: Adjacency, u: Note, v: Note, w: Note)
    requires Undirected(g) && w in Component(g, u) && w in Component(g, v)
    ensures Component(g, u) == Component(g, v)
  {
    SameComponent(g, u, w);
    SameComponent(g, v, w);
  }
}
