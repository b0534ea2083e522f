// `find_link_clusters`: connected components by breadth-first search, with a
// queue that may hold a note several times.
module LinkClusters {
  import opened Graphs
  import opened Sorting
  import BridgeNotes

  function Elements(s: seq<Note>): set<Note> {
    set x | x in s
  }

  lemma {:induction false} DistinctSize(s: seq<Note>)
    requires Distinct(s)
    ensures |Elements(s)| == |s|
  {
    if s != [] {
      DistinctSize(s[1..]);
      assert Elements(s) == {s[0]} + Elements(s[1..]);
    }
  }

  lemma Append(s: seq<Note>, x: Note)
    requires Distinct(s) && x !in Elements(s)
    ensures Distinct(s + [x]) && Elements(s + [x]) == Elements(s) + {x}
  {
    forall y
      ensures y in Elements(s + [x]) <==> y in Elements(s) + {x}
    {
    }
  }

  // `visited` is a union of components.
  ghost predicate WholeComponents(g: Adjacency, visited: set<Note>) {
    visited <= g.Keys && Closed(g, visited)
  }

  // A finished search: the new notes have no edge to anything else, so they are the component.
  lemma SearchedSetIsComponent(g: Adjacency, visited: set<Note>, found: set<Note>, start: Note)
    requires Undirected(g) && WholeComponents(g, visited) && found !! visited
    requires start in found && found <= g.Keys && found <= Component(g, start)
    requires forall u, v :: u in found && v in g[u] ==> v in visited + found
    ensures Component(g, start) == found
    ensures WholeComponents(g, visited + found)
  {
    forall u, v | u in found && u in g && v in g[u]
      ensures v in found
    {
      assert v in visited + found && u in g[v];
    }
    assert Closed(g, found);
    ClosedSetIsComponent(g, found, start);
  }

  lemma ReachNeighbour(g: Adjacency, start: Note, u: Note, v: Note)
    requires Undirected(g) && u in Component(g, start) && v in g[u]
    ensures v in Component(g, start)
  {
    ReachEdge(g, u, v);
    ReachTransitive(g, start, u, v);
  }

  method Bfs(adjacency: Adjacency, start: Note, visited0: set<Note>)
    returns (cluster: seq<Note>, visited: set<Note>)
    requires Undirected(adjacency) && start in adjacency && start !in visited0
    requires WholeComponents(adjacency, visited0)
    ensures Distinct(cluster) && Elements(cluster) == Component(adjacency, start)
    ensures visited == visited0 + Elements(cluster) && Elements(cluster) !! visited0
    ensures WholeComponents(adjacency, visited)
  {
    hide Component, Undirected, WholeComponents, Distinct, Elements, SortedSet;
    visited, cluster := visited0, [];
    var queue := [start];
    StartInComponent(adjacency, start);
    ComponentInGraph(adjacency, start);
    ghost var component := Component(adjacency, start);
    ghost var found := {};
    NothingFound();
    while queue != []
      invariant visited == visited0 + found && found !! visited0
      invariant Distinct(cluster) && Elements(cluster) == found
      invariant found <= component && (forall x :: x in queue ==> x in component)
      invariant component == Component(adjacency, start) && component <= adjacency.Keys
      invariant forall u, v :: u in found && v in adjacency[u] ==> v in visited || v in queue
      invariant start in found || start in queue
      decreases adjacency.Keys - visited, |queue|
    {
      var node := queue[0];
      assert queue == [node] + queue[1..];
      queue := queue[1..];
      if node in visited {
        continue;
      }
      Append(cluster, node);
      visited := visited + {node};
      cluster := cluster + [node];
      found := found + {node};
      NeighboursInComponent(adjacency, start, node);
      queue := PushUnvisited(queue, SortedSet(adjacency[node]), visited);
    }
    SearchedSetIsComponent(adjacency, visited0, found, start);
  }

  // The loop over the neighbours of one note.
  method PushUnvisited(waiting: seq<Note>, neighbors: seq<Note>, visited: set<Note>) returns (queue: seq<Note>)
    ensures forall x :: x in queue <==> x in waiting || (x in neighbors && x !in visited)
  {
    queue := waiting;
    for i := 0 to |neighbors|
      invariant forall x :: x in queue <==> x in waiting || (x in neighbors[..i] && x !in visited)
    {
      if neighbors[i] !in visited {
        queue := queue + [neighbors[i]];
      }
    }
  }

  lemma ComponentInGraph(g: Adjacency, v: Note)
    ensures Component(g, v) <= g.Keys
  {
  }

  lemma NothingFound()
    ensures Distinct<Note>([]) && Elements([]) == {}
  {
  }

  lemma NeighboursInComponent(g: Adjacency, start: Note, u: Note)
    requires Undirected(g) && u in Component(g, start)
    ensures forall v :: v in g[u] ==> v in Component(g, start)
  {
    forall v | v in g[u]
      ensures v in Component(g, start)
    {
      ReachNeighbour(g, start, u, v);
    }
  }

  lemma StartInComponent(g: Adjacency, v: Note)
    requires v in g
    ensures v in Component(g, v)
  {
    ReachSelf(g, v);
  }

  // ----- All clusters -----

  ghost predicate ListsComponents(g: Adjacency, seen: set<Note>, minSize: nat, clusters: seq<seq<Note>>) {
    && (forall i :: 0 <= i < |clusters| ==>
          Distinct(clusters[i]) && |clusters[i]| >= minSize
          && Elements(clusters[i]) in Components(g) && Elements(clusters[i]) <= seen)
    && (forall i, j :: 0 <= i < j < |clusters| ==> Elements(clusters[i]) !! Elements(clusters[j]))
    && (forall v :: v in seen && v in g && |Component(g, v)| >= minSize ==> Component(g, v) in Listed(clusters))
  }

  ghost function Listed(clusters: seq<seq<Note>>): set<set<Note>> {
    set i | 0 <= i < |clusters| :: Elements(clusters[i])
  }

  lemma AddCluster(
      g: Adjacency, seen: set<Note>, minSize: nat, clusters: seq<seq<Note>>, start: Note, cluster: seq<Note>)
    requires Undirected(g) && ListsComponents(g, seen, minSize, clusters) && start in g
    requires Distinct(cluster) && Elements(cluster) == Component(g, start) && Elements(cluster) !! seen
    ensures ListsComponents(g, seen + Elements(cluster), minSize,
                            if |cluster| >= minSize then clusters + [cluster] else clusters)
  {
    var clusters' := if |cluster| >= minSize then clusters + [cluster] else clusters;
    DistinctSize(cluster);
    forall v | v in seen + Elements(cluster) && v in g && |Component(g, v)| >= minSize
      ensures Component(g, v) in Listed(clusters')
    {
      if v in Elements(cluster) {
        SameComponent(g, start, v);
        assert clusters'[|clusters|] == cluster;
      } else {
        assert Component(g, v) in Listed(clusters);
        var i :| 0 <= i < |clusters| && Elements(clusters[i]) == Component(g, v);
        assert clusters'[i] == clusters[i];
      }
    }
  }

  method LinkedComponents(adjacency: Adjacency, minSize: nat) returns (clusters: seq<seq<Note>>)
    requires Undirected(adjacency)
    ensures ListsComponents(adjacency, adjacency.Keys, minSize, clusters)
  {
    hide ListsComponents, Undirected, Component, Distinct, SortedSet, Elements;
    clusters := [];
    var visited: set<Note> := {};
    var order := SortedSet(adjacency.Keys);
    NothingListed(adjacency, minSize);
    for i := 0 to |order|
      invariant WholeComponents(adjacency, visited)
      invariant ListsComponents(adjacency, visited, minSize, clusters)
      invariant forall j :: 0 <= j < i ==> order[j] in visited
    {
      var node := order[i];
      assert node in adjacency;
      if node !in visited {
        var cluster, visited' := Bfs(adjacency, node, visited);
        AddCluster(adjacency, visited, minSize, clusters, node, cluster);
        StartInComponent(adjacency, node);
        if |cluster| >= minSize {
          clusters := clusters + [cluster];
        }
        visited := visited';
      }
    }
    assert visited == adjacency.Keys by {
      forall v | v in adjacency
        ensures v in visited
      {
        assert v in order;
      }
    }
  }

  lemma NothingListed(g: Adjacency, minSize: nat)
    ensures ListsComponents(g, {}, minSize, []) && WholeComponents(g, {})
  {
  }

  // ----- Density -----

  // The unordered pairs of distinct notes of the cluster that an edge joins.
  function InternalEdges(edges: seq<BridgeNotes.Edge>, cluster: set<Note>): (pairs: set<set<Note>>)
    ensures forall e :: e in edges && e.source in cluster && e.target in cluster && e.source != e.target ==>
              {e.source, e.target} in pairs
    ensures forall p :: p in pairs ==>
              exists a, b :: p == {a, b} && a != b && a in cluster && b in cluster
                             && (BridgeNotes.Edge(a, b) in edges || BridgeNotes.Edge(b, a) in edges)
  {
    set e | e in edges && e.source in cluster && e.target in cluster && e.source != e.target :: {e.source, e.target}
  }

  lemma {:induction false} PairsOf(s: set<Note>, pairs: set<set<Note>>)
    requires forall p :: p in pairs ==> exists a, b :: a in s && b in s && a != b && p == {a, b}
    ensures 2 * |pairs| <= |s| * (|s| - 1)
    decreases |s|
  {
    if s == {} {
      assert pairs == {};
    } else {
      var v := Pick(s);
      var rest := s - {v};
      var with := set p | p in pairs && v in p;
      var without := pairs - with;
      forall p | p in without
        ensures exists a, b :: a in rest && b in rest && a != b && p == {a, b}
      {
        var a, b :| a in s && b in s && a != b && p == {a, b};
        assert a in rest && b in rest;
      }
      PairsOf(rest, without);
      forall p | p in with
        ensures exists b :: b in rest && p == {v, b}
      {
        var a, b :| a in s && b in s && a != b && p == {a, b};
        var other := if a == v then b else a;
        assert other in rest && p == {v, other};
      }
      PairsThrough(v, rest, with);
      assert pairs == with + without;
      assert |s| * (|s| - 1) == |rest| * (|rest| - 1) + 2 * |rest|;
    }
  }

  lemma {:induction false} PairsThrough(v: Note, others: set<Note>, pairs: set<set<Note>>)
    requires v !in others
    requires forall p :: p in pairs ==> exists b :: b in others && p == {v, b}
    ensures |pairs| <= |others|
    decreases |others|
  {
    if pairs != {} {
      var p :| p in pairs;
      var b :| b in others && p == {v, b};
      forall q | q in pairs - {p}
        ensures exists c :: c in others - {b} && q == {v, c}
      {
        var c :| c in others && q == {v, c};
        assert c in others - {b};
      }
      PairsThrough(v, others - {b}, pairs - {p});
    }
  }

  // The share of the possible pairs of the cluster that an edge joins; a cluster of one note
  // has none.
  ghost predicate IsDensity(edges: seq<BridgeNotes.Edge>, cluster: seq<Note>, density: real) {
    && 0.0 <= density <= 1.0
    && (|cluster| >= 2 ==>
          density * (|cluster| * (|cluster| - 1)) as real == (2 * |InternalEdges(edges, Elements(cluster))|) as real)
  }

  method Density(edges: seq<BridgeNotes.Edge>, cluster: seq<Note>) returns (density: real)
    requires Distinct(cluster)
    ensures IsDensity(edges, cluster, density)
  {
    hide InternalEdges, Elements, Distinct;
    var members := Elements(cluster);
    var internal := InternalEdges(edges, members);
    var possible := (|cluster| * (|cluster| - 1)) as real / 2.0;
    density := |internal| as real / (if possible > 1.0 then possible else 1.0);
    DistinctSize(cluster);
    InternalPairs(edges, members);
    DensityRange(|internal|, |cluster|);
  }

  // Reciprocal edges count once and self edges not at all.
  lemma InternalPairs(edges: seq<BridgeNotes.Edge>, members: set<Note>)
    ensures 2 * |InternalEdges(edges, members)| <= |members| * (|members| - 1)
  {
    var internal := InternalEdges(edges, members);
    forall p | p in internal
      ensures exists a, b :: a in members && b in members && a != b && p == {a, b}
    {
      var e :| e in edges && e.source in members && e.target in members && e.source != e.target
               && p == {e.source, e.target};
      assert e.source in members && e.target in members;
    }
    PairsOf(members, internal);
  }

  lemma DensityRange(joined: nat, size: nat)
    requires 2 * joined <= size * (size - 1)
    ensures var possible := (size * (size - 1)) as real / 2.0;
            var density := joined as real / (if possible > 1.0 then possible else 1.0);
            && 0.0 <= density <= 1.0
            && (size >= 2 ==> density * (size * (size - 1)) as real == (2 * joined) as real)
  {
    var possible := (size * (size - 1)) as real / 2.0;
    assert size >= 2 ==> size * (size - 1) >= 2;
    assert joined as real <= possible;
    if size >= 2 {
      assert (joined as real / possible) * possible == joined as real;
    }
  }

  // ----- The report -----

  function BySize(): (seq<Note>, seq<Note>) -> bool {
    (a: seq<Note>, b: seq<Note>) => |a| >= |b|
  }

  lemma ListedDistinct(g: Adjacency, seen: set<Note>, minSize: nat, clusters: seq<seq<Note>>)
    requires minSize >= 1 && ListsComponents(g, seen, minSize, clusters)
    ensures Distinct(clusters)
  {
    forall i, j | 0 <= i < j < |clusters|
      ensures clusters[i] != clusters[j]
    {
      assert clusters[i][0] in Elements(clusters[i]);
      assert Elements(clusters[i]) !! Elements(clusters[j]);
    }
  }

  // Listing the components in another order is still listing them.
  lemma ReorderKeepsListing(g: Adjacency, seen: set<Note>, minSize: nat, clusters: seq<seq<Note>>, sorted: seq<seq<Note>>)
    requires minSize >= 1 && ListsComponents(g, seen, minSize, clusters)
    requires Distinct(sorted) && forall c :: c in sorted <==> c in clusters
    ensures ListsComponents(g, seen, minSize, sorted)
  {
    hide Components, Component;
    forall i | 0 <= i < |sorted|
      ensures Distinct(sorted[i]) && |sorted[i]| >= minSize
              && Elements(sorted[i]) in Components(g) && Elements(sorted[i]) <= seen
    {
      var k := IndexOf(clusters, sorted[i]);
    }
    forall i, j | 0 <= i < j < |sorted|
      ensures Elements(sorted[i]) !! Elements(sorted[j])
    {
      var k := IndexOf(clusters, sorted[i]);
      var l := IndexOf(clusters, sorted[j]);
      assert sorted[i] != sorted[j] && k != l;
    }
    forall v | v in seen && v in g && |Component(g, v)| >= minSize
      ensures Component(g, v) in Listed(sorted)
    {
      assert Component(g, v) in Listed(clusters);
      var i :| 0 <= i < |clusters| && Elements(clusters[i]) == Component(g, v);
      var k := IndexOf(sorted, clusters[i]);
    }
  }

  lemma IndexOf(s: seq<seq<Note>>, c: seq<Note>) returns (i: nat)
    requires c in s
    ensures i < |s| && s[i] == c
  {
    i :| i < |s| && s[i] == c;
  }

  // `find_link_clusters`: all components of at least the minimum size, largest first.
  method FindLinkClusters(edges: seq<BridgeNotes.Edge>, minClusterSize: int)
    returns (clusters: seq<seq<Note>>, densities: seq<real>, largest: nat, ghost graph: Adjacency)
    ensures Undirected(graph)
    ensures forall u, v :: u in graph && v in graph[u] <==>
              BridgeNotes.Edge(u, v) in edges || BridgeNotes.Edge(v, u) in edges
    ensures ListsComponents(graph, graph.Keys,
                            if minClusterSize < 2 then 2 else if minClusterSize > 100 then 100 else minClusterSize,
                            clusters)
    ensures forall i, j :: 0 <= i < j < |clusters| ==> |clusters[i]| >= |clusters[j]|
    ensures largest == (if clusters == [] then 0 else |clusters[0]|)
    ensures |densities| == |clusters|
    ensures forall i :: 0 <= i < |densities| ==> IsDensity(edges, clusters[i], densities[i])
  {
    hide Undirected, ListsComponents, SortBy, IsDensity;
    var minSize := BridgeNotes.Clamp(2, 100, minClusterSize);
    var adjacency := BridgeNotes.BuildAdjacency(edges);
    graph := adjacency;
    var found := LinkedComponents(adjacency, minSize);
    ListedDistinct(adjacency, adjacency.Keys, minSize, found);
    clusters := SortBySize(found);
    ReorderKeepsListing(adjacency, adjacency.Keys, minSize, found, clusters);
    largest := if clusters == [] then 0 else |clusters[0]|;
    densities := [];
    for i := 0 to |clusters|
      invariant |densities| == i && forall j :: 0 <= j < i ==> IsDensity(edges, clusters[j], densities[j])
    {
      ListedClusterDistinct(adjacency, minSize, clusters, i);
      var density := Density(edges, clusters[i]);
      densities := densities + [density];
    }
  }

  lemma ListedClusterDistinct(g: Adjacency, minSize: nat, clusters: seq<seq<Note>>, i: nat)
    requires ListsComponents(g, g.Keys, minSize, clusters) && i < |clusters|
    ensures Distinct(clusters[i])
  {
  }

  method SortBySize(clusters: seq<seq<Note>>) returns (sorted: seq<seq<Note>>)
    requires Distinct(clusters)
    ensures Distinct(sorted) && forall c :: c in sorted <==> c in clusters
    ensures forall i, j :: 0 <= i < j < |sorted| ==> |sorted[i]| >= |sorted[j]|
  {
    sorted := SortBy(BySize(), clusters);
    SortByMembers(BySize(), clusters);
    SortByDistinct(BySize(), clusters);
    SortByOrdered(BySize(), clusters);
    forall i, j | 0 <= i < j < |sorted|
      ensures |sorted[i]| >= |sorted[j]|
    {
      assert BySize()(sorted[i], sorted[j]);
    }
  }
}
