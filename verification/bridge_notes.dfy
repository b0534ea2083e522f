// `find_bridge_notes`: articulation points of the note graph, scored by the
// number of branches each one separates.
module BridgeNotes {
  import opened Graphs
  import opened DfsTree
  import opened BridgeSearch
  import opened Sorting

  datatype Edge = Edge(source: Note, target: Note)

  // ----- Counting loop passes -----

  ghost function DegreeSum(g: Adjacency, s: set<Note>): nat
    requires s <= g.Keys
  {
    if s == {} then 0 else var v := Pick(s); |g[v]| + DegreeSum(g, s - {v})
  }

  lemma {:induction false} DegreeSumRemove(g: Adjacency, s: set<Note>, v: Note)
    requires s <= g.Keys && v in s
    ensures DegreeSum(g, s) == |g[v]| + DegreeSum(g, s - {v})
    decreases |s|
  {
    var u := Pick(s);
    if u != v {
      DegreeSumRemove(g, s - {u}, v);
      DegreeSumRemove(g, s - {v}, u);
      assert s - {u} - {v} == s - {v} - {u};
    }
  }

  // Passes still to make for the notes on the stack: one per unvisited neighbour and one to pop.
  ghost function StackWork(stack: seq<Frame>): nat {
    if stack == [] then 0 else StackWork(stack[..|stack| - 1]) + |stack[|stack| - 1].rest| + 1
  }

  lemma StackWorkPush(stack: seq<Frame>, f: Frame)
    ensures StackWork(stack + [f]) == StackWork(stack) + |f.rest| + 1
  {
    assert (stack + [f])[..|stack|] == stack;
  }

  lemma StackWorkConsume(stack: seq<Frame>)
    requires |stack| > 0 && |stack[|stack| - 1].rest| > 0
    ensures var top := stack[|stack| - 1];
            StackWork(stack[..|stack| - 1] + [Frame(top.node, top.rest[1..])]) == StackWork(stack) - 1
  {
    var top := stack[|stack| - 1];
    StackWorkPush(stack[..|stack| - 1], Frame(top.node, top.rest[1..]));
  }

  lemma StackWorkPop(stack: seq<Frame>)
    requires |stack| > 0 && stack[|stack| - 1].rest == []
    ensures StackWork(stack[..|stack| - 1]) == StackWork(stack) - 1
  {
  }

  ghost function Unseen(g: Adjacency, t: Tree): set<Note> {
    g.Keys - t.disc.Keys
  }

  ghost function Work(g: Adjacency, t: Tree, stack: seq<Frame>): nat {
    |Unseen(g, t)| + DegreeSum(g, Unseen(g, t)) + StackWork(stack)
  }

  lemma WorkDiscover(g: Adjacency, t: Tree, stack: seq<Frame>, clock: nat, n: Note, parent: Parent, order: seq<Note>)
    requires n in g && n !in t.disc && |order| == |g[n]|
    ensures Work(g, Discover(t, n, parent, clock), stack + [Frame(n, order)]) == Work(g, t, stack)
  {
    hide DegreeSum, StackWork;
    var unseen := Unseen(g, t);
    DegreeSumRemove(g, unseen, n);
    StackWorkPush(stack, Frame(n, order));
    assert Unseen(g, Discover(t, n, parent, clock)) == unseen - {n};
  }

  lemma WorkDescend(g: Adjacency, t: Tree, stack: seq<Frame>, clock: nat, n: Note, parent: Parent, order: seq<Note>)
    requires n in g && n !in t.disc && |order| == |g[n]|
    requires |stack| > 0 && |stack[|stack| - 1].rest| > 0
    ensures var top := stack[|stack| - 1];
            Work(g, Discover(t, n, parent, clock), stack[..|stack| - 1] + [Frame(top.node, top.rest[1..])] + [Frame(n, order)])
            == Work(g, t, stack) - 1
  {
    hide StackWork, DegreeSum;
    var top := stack[|stack| - 1];
    StackWorkConsume(stack);
    WorkKeepsRecord(g, t, t, stack, stack[..|stack| - 1] + [Frame(top.node, top.rest[1..])]);
    WorkDiscover(g, t, stack[..|stack| - 1] + [Frame(top.node, top.rest[1..])], clock, n, parent, order);
  }

  lemma WorkKeepsRecord(g: Adjacency, t: Tree, t': Tree, stack: seq<Frame>, stack': seq<Frame>)
    requires t.disc == t'.disc && StackWork(stack') == StackWork(stack) - 1
    ensures Work(g, t', stack') == Work(g, t, stack) - 1
  {
  }

  lemma EmptySearch(g: Adjacency)
    requires Undirected(g)
    ensures var t := Tree(map[], map[], map[], map[]);
            && SearchInv(g, t, [], 0) && Counters(t, map[], map[], map[])
            && Work(g, t, []) == |g| + DegreeSum(g, g.Keys)
  {
    hide DegreeSum, SearchInv, Counters;
    var t := Tree(map[], map[], map[], map[]);
    EmptyRecord(g);
    EmptyCounters();
    assert Unseen(g, t) == g.Keys;
  }

  lemma EmptyRecord(g: Adjacency)
    requires Undirected(g)
    ensures SearchInv(g, Tree(map[], map[], map[], map[]), [], 0)
  {
  }

  lemma EmptyCounters()
    ensures Counters(Tree(map[], map[], map[], map[]), map[], map[], map[])
  {
  }

  lemma SearchStaysInGraph(g: Adjacency, t: Tree, clock: nat)
    requires SearchInv(g, t, [], clock)
    ensures t.disc.Keys <= g.Keys
    ensures t.disc.Keys == g.Keys ==> Work(g, t, []) == 0
  {
    hide DegreeSum;
    if t.disc.Keys == g.Keys {
      assert Unseen(g, t) == {};
      DegreeSumEmpty(g);
    }
  }

  lemma DegreeSumEmpty(g: Adjacency)
    ensures DegreeSum(g, {}) == 0
  {
  }

  // ----- The search -----

  // The loop that turns the deduplicated edges into a symmetric adjacency dictionary.
  method BuildAdjacency(edges: seq<Edge>) returns (adjacency: Adjacency)
    ensures Undirected(adjacency)
    ensures forall v :: v in adjacency <==> exists e :: e in edges && (e.source == v || e.target == v)
    ensures forall u, v :: u in adjacency && v in adjacency[u] <==> Edge(u, v) in edges || Edge(v, u) in edges
  {
    adjacency := map[];
    for i := 0 to |edges|
      invariant forall u, v :: u in adjacency && v in adjacency[u] <==> Edge(u, v) in edges[..i] || Edge(v, u) in edges[..i]
      invariant forall u :: u in adjacency ==> adjacency[u] != {}
    {
      var e := edges[i];
      assert edges[..i + 1] == edges[..i] + [e];
      var out := if e.source in adjacency then adjacency[e.source] else {};
      adjacency := adjacency[e.source := out + {e.target}];
      var back := if e.target in adjacency then adjacency[e.target] else {};
      adjacency := adjacency[e.target := back + {e.source}];
    }
    assert edges[..|edges|] == edges;
    forall v
      ensures v in adjacency <==> exists e :: e in edges && (e.source == v || e.target == v)
    {
      if v in adjacency {
        var w := Pick(adjacency[v]);
        assert Edge(v, w) in edges || Edge(w, v) in edges;
      }
      if e :| e in edges && (e.source == v || e.target == v) {
        assert Edge(e.source, e.target) in edges;
      }
    }
  }

  ghost function ExtraComponentCount(g: Adjacency, x: Note): int {
    |Components(Without(g, x))| - |Components(g)|
  }

  // What the score dictionary means: exactly the notes whose removal increases the
  // number of connected components, each with the size of that increase.
  ghost predicate ScoresArticulations(g: Adjacency, scores: map<Note, nat>) {
    && (forall x :: x in scores <==> x in g && ExtraComponentCount(g, x) > 0)
    && (forall x :: x in scores ==> scores[x] == ExtraComponentCount(g, x))
  }

  lemma FinishedSearchScores(
      g: Adjacency, t: Tree, clock: nat, kids: map<Note, nat>, sep: map<Note, nat>, scores: map<Note, nat>)
    requires SearchInv(g, t, [], clock) && Counters(t, kids, sep, scores) && t.disc.Keys == g.Keys
    ensures ScoresArticulations(g, scores)
  {
    forall v | v in g
      ensures v in t.end
    {
      assert v in t.end || OnStack([], v);
    }
    assert Complete(g, t);
    forall x | x in g
      ensures x in scores <==> ExtraComponentCount(g, x) > 0
      ensures x in scores ==> scores[x] == ExtraComponentCount(g, x)
    {
      ExtraComponents(g, t, x);
      assert CounterAt(t, kids, sep, scores, x);
    }
  }

  // The end of a note's neighbours: its low value and its branch are reported to its parent.
  method Exhausted(
      node: Note, discovery: map<Note, nat>, parent: map<Note, Parent>, childCount: map<Note, nat>,
      low0: map<Note, nat>, separated0: map<Note, nat>, articulation0: map<Note, nat>)
    returns (low: map<Note, nat>, separatedCount: map<Note, nat>, articulation: map<Note, nat>)
    requires node in parent && node in low0
    requires parent[node].Below? ==>
               var up := parent[node].note; up in low0 && up in discovery && up in parent && up != node
    ensures low == if parent[node].Below?
                   then low0[parent[node].note := Min(low0[parent[node].note], low0[node])] else low0
    ensures separatedCount ==
            if parent[node].Below? && parent[parent[node].note] != NoParent && low0[node] >= discovery[parent[node].note]
            then separated0[parent[node].note := Count(separated0, parent[node].note) + 1] else separated0
    ensures articulation ==
            if parent[node] == NoParent
            then (if Count(childCount, node) > 1 then articulation0[node := Count(childCount, node) - 1] else articulation0)
            else (if Count(separatedCount, node) > 0 then articulation0[node := Count(separatedCount, node)] else articulation0)
  {
    low, separatedCount, articulation := low0, separated0, articulation0;
    if parent[node] == NoParent {
      if Count(childCount, node) > 1 {
        articulation := articulation[node := Count(childCount, node) - 1];
      }
    } else {
      var up := parent[node].note;
      low := low[up := Min(low[up], low[node])];
      if parent[up] != NoParent && low[node] >= discovery[up] {
        separatedCount := separatedCount[up := Count(separatedCount, up) + 1];
      }
      if Count(separatedCount, node) > 0 {
        articulation := articulation[node := Count(separatedCount, node)];
      }
    }
  }

  // The search of one component, from its least note: a loop over a stack of notes, each
  // with the neighbours it has still to look at.
  method SearchFrom(
      adjacency: Adjacency, root: Note, discovery0: map<Note, nat>, ghost end0: map<Note, nat>, low0: map<Note, nat>,
      parent0: map<Note, Parent>, childCount0: map<Note, nat>, separated0: map<Note, nat>, articulation0: map<Note, nat>,
      clock0: nat)
    returns (discovery: map<Note, nat>, ghost end: map<Note, nat>, low: map<Note, nat>, parent: map<Note, Parent>,
             childCount: map<Note, nat>, separatedCount: map<Note, nat>, articulation: map<Note, nat>,
             clock: nat, ghost passes: nat)
    requires root in adjacency && root !in discovery0
    requires SearchInv(adjacency, Tree(discovery0, end0, low0, parent0), [], clock0)
    requires Counters(Tree(discovery0, end0, low0, parent0), childCount0, separated0, articulation0)
    ensures discovery0.Keys <= discovery.Keys && root in discovery
    ensures SearchInv(adjacency, Tree(discovery, end, low, parent), [], clock)
    ensures Counters(Tree(discovery, end, low, parent), childCount, separatedCount, articulation)
    ensures passes + Work(adjacency, Tree(discovery, end, low, parent), [])
            == Work(adjacency, Tree(discovery0, end0, low0, parent0), [])
  {
    hide SearchInv, Counters, Work, DegreeSum, StackWork, SortedSet;
    discovery, end, low, parent := discovery0, end0, low0, parent0;
    childCount, separatedCount, articulation, clock := childCount0, separated0, articulation0, clock0;
    passes := 0;
    var order := SortedSet(adjacency[root]);
    ghost var t := Tree(discovery, end, low, parent);
    RootStep(adjacency, t, clock, root, order, childCount, separatedCount, articulation);
    WorkDiscover(adjacency, t, [], clock + 1, root, NoParent, order);
    parent := parent[root := NoParent];
    clock := clock + 1;
    discovery, low := discovery[root := clock], low[root := clock];
    var stack := [Frame(root, order)];
    assert [] + [Frame(root, order)] == stack;
    ghost var seen := discovery.Keys;
    ghost var work := Work(adjacency, t, []);

    while stack != []
      invariant seen <= discovery.Keys
      invariant SearchInv(adjacency, Tree(discovery, end, low, parent), stack, clock)
      invariant Counters(Tree(discovery, end, low, parent), childCount, separatedCount, articulation)
      invariant passes + Work(adjacency, Tree(discovery, end, low, parent), stack) == work
      decreases Work(adjacency, Tree(discovery, end, low, parent), stack)
    {
      passes := passes + 1;
      var top := |stack| - 1;
      var node, neighbors := stack[top].node, stack[top].rest;
      t := Tree(discovery, end, low, parent);
      ParentIsUnderTop(adjacency, t, stack, clock);
      if neighbors == [] {
        PopKeepsInv(adjacency, t, stack, clock, node);
        ghost var before := (separatedCount, articulation);
        low, separatedCount, articulation :=
          Exhausted(node, discovery, parent, childCount, low, separatedCount, articulation);
        PopKeepsCounters(adjacency, t, stack, clock, node, childCount, before.0, before.1, separatedCount, articulation);
        end := end[node := clock];
        StackWorkPop(stack);
        WorkKeepsRecord(adjacency, t, Tree(discovery, end, low, parent), stack, stack[..top]);
        stack := stack[..top];
        continue;
      }
      var neighbor, rest := neighbors[0], neighbors[1..];
      assert neighbors == [neighbor] + rest;
      if neighbor !in discovery {
        order := SortedSet(adjacency[neighbor]);
        DescendStep(adjacency, t, stack, clock, node, neighbor, rest, order, childCount, separatedCount, articulation);
        WorkDescend(adjacency, t, stack, clock + 1, neighbor, Below(node), order);
        parent := parent[neighbor := Below(node)];
        childCount := childCount[node := Count(childCount, node) + 1];
        clock := clock + 1;
        discovery, low := discovery[neighbor := clock], low[neighbor := clock];
        stack := stack[..top] + [Frame(node, rest)] + [Frame(neighbor, order)];
      } else {
        VisitStep(adjacency, t, stack, clock, node, neighbor, rest, childCount, separatedCount, articulation);
        if parent[node] != Below(neighbor) {
          low := low[node := Min(low[node], discovery[neighbor])];
        }
        StackWorkConsume(stack);
        WorkKeepsRecord(adjacency, t, Tree(discovery, end, low, parent), stack, stack[..top] + [Frame(node, rest)]);
        stack := stack[..top] + [Frame(node, rest)];
      }
    }
  }

  method ArticulationScores(adjacency: Adjacency) returns (articulation: map<Note, nat>, ghost passes: nat)
    requires Undirected(adjacency)
    ensures ScoresArticulations(adjacency, articulation)
    ensures passes == |adjacency| + DegreeSum(adjacency, adjacency.Keys)
  {
    hide SearchInv, Counters, Work, DegreeSum, StackWork, Undirected, ScoresArticulations, SortedSet;
    EmptySearch(adjacency);
    var discovery: map<Note, nat>, low: map<Note, nat>, parent: map<Note, Parent> := map[], map[], map[];
    var childCount: map<Note, nat>, separatedCount: map<Note, nat> := map[], map[];
    articulation := map[];
    var clock: nat := 0;
    ghost var end: map<Note, nat> := map[];
    passes := 0;

    var roots := SortedSet(adjacency.Keys);
    for i := 0 to |roots|
      invariant forall j :: 0 <= j < i ==> roots[j] in discovery
      invariant SearchInv(adjacency, Tree(discovery, end, low, parent), [], clock)
      invariant Counters(Tree(discovery, end, low, parent), childCount, separatedCount, articulation)
      invariant passes + Work(adjacency, Tree(discovery, end, low, parent), [])
                == |adjacency| + DegreeSum(adjacency, adjacency.Keys)
    {
      var root := roots[i];
      if root !in discovery {
        ghost var more;
        discovery, end, low, parent, childCount, separatedCount, articulation, clock, more := SearchFrom(
          adjacency, root, discovery, end, low, parent, childCount, separatedCount, articulation, clock);
        passes := passes + more;
      }
    }
    assert adjacency.Keys <= discovery.Keys by {
      forall v | v in adjacency
        ensures v in discovery
      {
        assert v in roots;
      }
    }
    SearchStaysInGraph(adjacency, Tree(discovery, end, low, parent), clock);
    FinishedSearchScores(adjacency, Tree(discovery, end, low, parent), clock, childCount, separatedCount, articulation);
  }

  // ----- Ranking -----

  type Scored = (Note, nat)

  // The sort key is (-score, path).
  predicate RanksBefore(a: Scored, b: Scored) {
    a.1 > b.1 || (a.1 == b.1 && a.0 <= b.0)
  }

  // `listing` is a duplicate-free selection of articulation points in ranking order,
  // and no articulation point left out ranks before one listed.
  ghost predicate TopRanked(scores: map<Note, nat>, listing: seq<Scored>) {
    && (forall i :: 0 <= i < |listing| ==> listing[i].0 in scores && listing[i].1 == scores[listing[i].0])
    && (forall i, j :: 0 <= i < j < |listing| ==>
          listing[i].1 > listing[j].1 || (listing[i].1 == listing[j].1 && listing[i].0 < listing[j].0))
    && (forall x, i :: x in scores && 0 <= i < |listing| ==>
          || (exists j :: 0 <= j < |listing| && listing[j].0 == x)
          || listing[i].1 > scores[x] || (listing[i].1 == scores[x] && listing[i].0 < x))
  }

  lemma ItemsOfOrder(order: seq<Note>, scores: map<Note, nat>, items: seq<Scored>)
    requires |items| == |order| && (forall x :: x in order <==> x in scores)
    requires forall i, j :: 0 <= i < j < |order| ==> order[i] < order[j]
    requires forall i :: 0 <= i < |order| ==> order[i] in scores && items[i] == (order[i], scores[order[i]])
    ensures Distinct(items)
    ensures forall p: Scored :: p in items <==> p.0 in scores && p.1 == scores[p.0]
  {
    forall p: Scored | p.0 in scores && p.1 == scores[p.0]
      ensures p in items
    {
      var k :| 0 <= k < |order| && order[k] == p.0;
      assert items[k] == p;
    }
  }

  function Items(scores: map<Note, nat>): (items: seq<Scored>)
    ensures |items| == |scores|
    ensures Distinct(items)
    ensures forall p: Scored :: p in items <==> p.0 in scores && p.1 == scores[p.0]
  {
    var order := SortedSet(scores.Keys);
    var items := seq(|order|, i requires 0 <= i < |order| => (order[i], scores[order[i]]));
    ItemsOfOrder(order, scores, items);
    items
  }

  lemma RankedItems(scores: map<Note, nat>, ranked: seq<Scored>)
    requires ranked == SortBy(RanksBefore, Items(scores))
    ensures forall p: Scored :: p in ranked <==> p.0 in scores && p.1 == scores[p.0]
    ensures forall i, j :: 0 <= i < j < |ranked| ==> ranked[i] != ranked[j] && RanksBefore(ranked[i], ranked[j])
  {
    hide SortBy, Items;
    SortByOrdered(RanksBefore, Items(scores));
    SortByMembers(RanksBefore, Items(scores));
    SortByDistinct(RanksBefore, Items(scores));
  }

  lemma PrefixIsTopRanked(scores: map<Note, nat>, ranked: seq<Scored>, n: nat)
    requires forall p: Scored :: p in ranked <==> p.0 in scores && p.1 == scores[p.0]
    requires forall i, j :: 0 <= i < j < |ranked| ==> ranked[i] != ranked[j] && RanksBefore(ranked[i], ranked[j])
    requires n <= |ranked|
    ensures TopRanked(scores, ranked[..n])
  {
    forall i, j | 0 <= i < j < |ranked|
      ensures ranked[i].0 in scores && ranked[j].0 in scores
      ensures ranked[i].1 > ranked[j].1 || (ranked[i].1 == ranked[j].1 && ranked[i].0 < ranked[j].0)
    {
      assert ranked[i] in ranked && ranked[j] in ranked;
      assert RanksBefore(ranked[i], ranked[j]) && ranked[i] != ranked[j];
    }
    hide RanksBefore;
    var listing := ranked[..n];
    forall i | 0 <= i < n
      ensures listing[i].0 in scores && listing[i].1 == scores[listing[i].0]
    {
      assert ranked[i] in ranked;
    }
    forall x, i | x in scores && 0 <= i < n
      ensures || (exists j :: 0 <= j < n && listing[j].0 == x)
              || listing[i].1 > scores[x] || (listing[i].1 == scores[x] && listing[i].0 < x)
    {
      assert (x, scores[x]) in ranked;
      var j :| 0 <= j < |ranked| && ranked[j] == (x, scores[x]);
      if j < n {
        assert listing[j].0 == x;
      } else {
        assert i < j;
      }
    }
  }

  function Clamp(low: nat, high: nat, n: int): (r: nat)
    requires low <= high
    ensures low <= r <= high && (low <= n <= high ==> r == n)
    ensures n < low ==> r == low
    ensures n > high ==> r == high
  {
    if n < low then low else if n > high then high else n
  }

  method FindBridgeNotes(edges: seq<Edge>, limit: int)
    returns (total: nat, listing: seq<Scored>, hasMore: bool, ghost graph: Adjacency, ghost scores: map<Note, nat>)
    ensures Undirected(graph)
    ensures forall u, v :: u in graph && v in graph[u] <==> Edge(u, v) in edges || Edge(v, u) in edges
    ensures ScoresArticulations(graph, scores)
    ensures total == |scores| && TopRanked(scores, listing)
    ensures var most := if limit < 1 then 1 else if limit > 100 then 100 else limit;
            |listing| == if total < most then total else most
    ensures hasMore <==> total > |listing|
  {
    hide Undirected, ScoresArticulations, TopRanked;
    var clamped := Clamp(1, 100, limit);
    var adjacency := BuildAdjacency(edges);
    graph := adjacency;
    var articulation, _ := ArticulationScores(adjacency);
    scores := articulation;
    var ranked := SortBy(RanksBefore, Items(articulation));
    total := |ranked|;
    listing := ranked[..Min(|ranked|, clamped)];
    hasMore := |ranked| > |listing|;
    RankedItems(scores, ranked);
    PrefixIsTopRanked(scores, ranked, |listing|);
  }
}
