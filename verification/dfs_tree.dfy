// What a depth-first search records about an undirected graph, and why the
// `low` values of that record count the components a note keeps together.
module DfsTree {
  import opened Graphs

  datatype Parent = NoParent | Below(note: Note)

  // `disc` is the clock value at which a note was discovered and `end` the
  // clock value at which the search left it for good; a note with no `end` is
  // still on the stack.
  datatype Tree = Tree(
    disc: map<Note, nat>, end: map<Note, nat>,
    low: map<Note, nat>, parent: map<Note, Parent>)

  // `v` was discovered while `a` was on the stack: `a` is an ancestor of `v`.
  ghost predicate Above(t: Tree, a: Note, v: Note) {
    && a in t.disc && v in t.disc
    && t.disc[a] <= t.disc[v]
    && (a in t.end ==> t.disc[v] <= t.end[a])
  }

  ghost predicate IsChild(t: Tree, p: Note, c: Note) {
    c in t.parent && t.parent[c] == Below(p)
  }

  ghost function Kids(t: Tree, p: Note): set<Note> {
    set c | c in t.parent && t.parent[c] == Below(p)
  }

  // The finished children whose branch reaches no higher than `p`.
  ghost function Separated(t: Tree, p: Note): set<Note> {
    set c | c in t.end && c in t.low && p in t.disc && IsChild(t, p, c) && t.low[c] >= t.disc[p]
  }

  ghost function Sub(t: Tree, a: Note): set<Note> {
    set v | v in t.disc && Above(t, a, v)
  }

  ghost predicate Domains(g: Adjacency, t: Tree) {
    && t.parent.Keys == t.disc.Keys && t.low.Keys == t.disc.Keys
    && t.end.Keys <= t.disc.Keys && t.disc.Keys <= g.Keys
  }

  ghost predicate Numbered(t: Tree) {
    && (forall u, v :: u in t.disc && v in t.disc && t.disc[u] == t.disc[v] ==> u == v)
    && (forall a :: a in t.end && a in t.disc ==> t.disc[a] <= t.end[a])
  }

  ghost predicate Laminar(t: Tree) {
    forall a, b :: a in t.end && Above(t, a, b) ==> b in t.end && t.end[b] <= t.end[a]
  }

  ghost predicate ParentsAbove(g: Adjacency, t: Tree) {
    forall p, c :: IsChild(t, p, c) ==> Above(t, p, c) && p != c && p in g && c in g[p]
  }

  // The parent is the nearest ancestor; a note without one has no ancestor.
  ghost predicate NearestParent(t: Tree, a: Note, v: Note) {
    Above(t, a, v) && a != v && v in t.parent ==> t.parent[v].Below? && Above(t, a, t.parent[v].note)
  }

  ghost predicate ParentsNearest(t: Tree) {
    forall a, v {:trigger NearestParent(t, a, v)} :: NearestParent(t, a, v)
  }

  // A depth-first search of an undirected graph meets no cross edge.
  ghost predicate NoCrossEdges(g: Adjacency, t: Tree) {
    forall u, w :: u in t.disc && w in t.disc && u in g && w in g[u] ==> Above(t, u, w) || Above(t, w, u)
  }

  ghost predicate Forest(g: Adjacency, t: Tree) {
    Domains(g, t) && Numbered(t) && Laminar(t) && ParentsAbove(g, t) && ParentsNearest(t) && NoCrossEdges(g, t)
  }

  // The edges of a finished note have been used, apart from the one to its parent.
  ghost predicate LowOverEdges(g: Adjacency, t: Tree)
    requires Domains(g, t)
  {
    forall v, w :: v in t.end && w in g[v] ==> w in t.disc && (t.parent[v] == Below(w) || t.low[v] <= t.disc[w])
  }

  ghost predicate LowOverKids(t: Tree) {
    forall p, c :: c in t.end && IsChild(t, p, c) && p in t.low && c in t.low ==> t.low[p] <= t.low[c]
  }

  ghost predicate LowWitness(g: Adjacency, t: Tree, v: Note, u: Note, w: Note) {
    && Above(t, v, u) && u in g && w in t.disc && v in t.low
    && t.low[v] == t.disc[w] && (w == v || w in g[u])
  }

  ghost predicate Attained(g: Adjacency, t: Tree, v: Note) {
    exists u, w :: LowWitness(g, t, v, u, w)
  }

  ghost predicate LowAttained(g: Adjacency, t: Tree) {
    forall v {:trigger Attained(g, t, v)} :: v in t.low ==> Attained(g, t, v)
  }

  ghost predicate Lows(g: Adjacency, t: Tree)
    requires Domains(g, t)
  {
    && LowOverEdges(g, t) && LowOverKids(t) && LowAttained(g, t)
    && (forall v :: v in t.disc ==> t.low[v] <= t.disc[v])
  }

  ghost predicate Complete(g: Adjacency, t: Tree) {
    && Undirected(g) && Forest(g, t) && Lows(g, t)
    && t.end.Keys == g.Keys
  }

  lemma AboveTransitive(t: Tree, a: Note, b: Note, c: Note)
    requires Laminar(t) && Above(t, a, b) && Above(t, b, c)
    ensures Above(t, a, c)
  {
  }

  lemma ParentIsNearest(g: Adjacency, t: Tree, a: Note, v: Note)
    requires Forest(g, t) && Above(t, a, v) && a != v
    ensures t.parent[v].Below? && IsChild(t, t.parent[v].note, v)
    ensures Above(t, a, t.parent[v].note) && t.disc[t.parent[v].note] < t.disc[v]
  {
    assert NearestParent(t, a, v);
    assert IsChild(t, t.parent[v].note, v);
    assert t.disc[t.parent[v].note] != t.disc[v];
  }

  // The topmost ancestor of a note.
  ghost function Root(g: Adjacency, t: Tree, v: Note): (r: Note)
    requires Forest(g, t) && v in t.disc
    ensures r in t.disc && t.parent[r] == NoParent && Above(t, r, v)
    decreases t.disc[v]
  {
    match t.parent[v]
    case NoParent => v
    case Below(p) =>
      assert IsChild(t, p, v);
      assert t.disc[p] != t.disc[v];
      var r := Root(g, t, p);
      AboveTransitive(t, r, p, v);
      r
  }

  // The child of `x` whose branch holds `v`.
  ghost function Branch(g: Adjacency, t: Tree, x: Note, v: Note): (c: Note)
    requires Forest(g, t) && Above(t, x, v) && x != v
    ensures IsChild(t, x, c) && Above(t, c, v)
    decreases t.disc[v]
  {
    ParentIsNearest(g, t, x, v);
    var p := t.parent[v].note;
    if p == x then v
    else
      var c := Branch(g, t, x, p);
      AboveTransitive(t, c, p, v);
      c
  }

  // Tree edges join an ancestor to its descendants.
  lemma {:induction false} ReachDown(g: Adjacency, t: Tree, a: Note, v: Note)
    requires Forest(g, t) && Above(t, a, v)
    ensures Reach(g, a, v)
    decreases t.disc[v]
  {
    if a == v {
      ReachSelf(g, v);
    } else {
      ParentIsNearest(g, t, a, v);
      var p := t.parent[v].note;
      ReachDown(g, t, a, p);
      ReachEdge(g, p, v);
      ReachTransitive(g, a, p, v);
    }
  }

  // They still do when a note off the tree path between them is removed.
  lemma {:induction false} ReachDownWithout(g: Adjacency, t: Tree, x: Note, a: Note, v: Note)
    requires Forest(g, t) && Above(t, a, v)
    requires !(Above(t, a, x) && Above(t, x, v))
    ensures Reach(Without(g, x), a, v)
    decreases t.disc[v]
  {
    var h := Without(g, x);
    if a == v {
      ReachSelf(h, v);
    } else {
      ParentIsNearest(g, t, a, v);
      var p := t.parent[v].note;
      if Above(t, a, x) && Above(t, x, p) {
        AboveTransitive(t, x, p, v);
      }
      ReachDownWithout(g, t, x, a, p);
      ReachWithoutIsReach(g, x, a, p);
      ReachEdge(h, p, v);
      ReachTransitive(h, a, p, v);
    }
  }

  // `low` never grows on the way up the tree.
  lemma {:induction false} LowFallsUpward(g: Adjacency, t: Tree, c: Note, u: Note)
    requires Complete(g, t) && Above(t, c, u)
    ensures t.low[c] <= t.low[u]
    decreases t.disc[u]
  {
    if c != u {
      ParentIsNearest(g, t, c, u);
      var q := t.parent[u].note;
      LowFallsUpward(g, t, c, q);
    }
  }

  // The edges that leave the branch of child `c` of `p` end at ancestors of `p`.
  lemma LeavingEdgeClimbs(g: Adjacency, t: Tree, p: Note, c: Note, u: Note, w: Note)
    requires Complete(g, t) && IsChild(t, p, c)
    requires Above(t, c, u) && w in g[u] && !Above(t, c, w)
    ensures Above(t, w, u) && Above(t, w, p) && w != c
  {
    assert w in t.disc;
    if Above(t, u, w) {
      AboveTransitive(t, c, u, w);
    }
    assert Above(t, w, u);
    assert Above(t, w, c);
    ParentIsNearest(g, t, w, c);
  }

  // The branch of `c` is cut off by removing its parent exactly when low[c] >= disc[parent].
  lemma LowDecidesSeparation(g: Adjacency, t: Tree, p: Note, c: Note)
    requires Complete(g, t) && IsChild(t, p, c)
    ensures t.low[c] >= t.disc[p] <==>
            (forall u, w :: Above(t, c, u) && w in g[u] ==> Above(t, c, w) || w == p)
  {
    if t.low[c] >= t.disc[p] {
      forall u, w | Above(t, c, u) && w in g[u]
        ensures Above(t, c, w) || w == p
      {
        if !Above(t, c, w) {
          LeavingEdgeClimbs(g, t, p, c, u, w);
          LowFallsUpward(g, t, c, u);
          assert t.parent[u] == Below(w) || t.low[u] <= t.disc[w];
          if u != c { ParentIsNearest(g, t, c, u); }
        }
      }
    } else {
      assert Attained(g, t, c);
      var u, w :| LowWitness(g, t, c, u, w);
      assert t.disc[w] < t.disc[p];
      assert Above(t, p, c);
      assert !(Above(t, c, w) || w == p);
    }
  }

  // Every child of a root is separated from the other children by the root.
  lemma RootSeparatesKids(g: Adjacency, t: Tree, x: Note)
    requires Complete(g, t) && x in g && t.parent[x] == NoParent
    ensures Separated(t, x) == Kids(t, x)
  {
    forall c | c in Kids(t, x)
      ensures c in Separated(t, x)
    {
      forall u, w | Above(t, c, u) && w in g[u]
        ensures Above(t, c, w) || w == x
      {
        if !Above(t, c, w) {
          LeavingEdgeClimbs(g, t, x, c, u, w);
          assert NearestParent(t, w, x);
        }
      }
      LowDecidesSeparation(g, t, x, c);
    }
  }

  // The component of a note is everything below its root.
  lemma ComponentIsRootSub(g: Adjacency, t: Tree, x: Note)
    requires Complete(g, t) && x in g
    ensures Component(g, x) == Sub(t, Root(g, t, x))
  {
    var r := Root(g, t, x);
    var s := Sub(t, r);
    forall u, w | u in s && u in g && w in g[u]
      ensures w in s
    {
      if Above(t, u, w) {
        AboveTransitive(t, r, u, w);
      } else {
        assert Above(t, w, u);
        assert Above(t, w, r) || Above(t, r, w);
        assert NearestParent(t, w, r);
      }
    }
    forall w | w in s
      ensures Reach(g, x, w)
    {
      ReachDown(g, t, r, x);
      ReachSymmetric(g, r, x);
      ReachDown(g, t, r, w);
      ReachTransitive(g, x, r, w);
    }
    ClosedSetIsComponent(g, s, x);
  }

  // Removing `x` leaves each separated branch as one component of its own.
  lemma SeparatedBranchIsComponent(g: Adjacency, t: Tree, x: Note, c: Note, v: Note)
    requires Complete(g, t) && c in Separated(t, x) && Above(t, c, v)
    ensures v in Without(g, x) && Component(Without(g, x), v) == Sub(t, c)
  {
    var h, s := Without(g, x), Sub(t, c);
    WithoutIsUndirected(g, x);
    assert IsChild(t, x, c);
    LowDecidesSeparation(g, t, x, c);
    assert Closed(h, s);
    forall w | w in s
      ensures Reach(h, c, w)
    {
      ReachDownWithout(g, t, x, c, w);
    }
    forall w | w in s
      ensures Reach(h, v, w)
    {
      ReachSymmetric(h, c, v);
      ReachTransitive(h, v, c, w);
    }
    forall w | w in s
      ensures w in h
    {
      if w == x { assert Above(t, x, c); }
    }
    ClosedSetIsComponent(h, s, v);
  }

  // Everything else in the component of `x` stays joined to the root.
  lemma OthersStayWithRoot(g: Adjacency, t: Tree, x: Note, v: Note)
    requires Complete(g, t) && x in g && t.parent[x] != NoParent
    requires v in Component(g, x) && v != x
    requires forall c :: c in Separated(t, x) ==> !Above(t, c, v)
    ensures Reach(Without(g, x), Root(g, t, x), v)
  {
    var h, r := Without(g, x), Root(g, t, x);
    WithoutIsUndirected(g, x);
    ComponentIsRootSub(g, t, x);
    if !Above(t, x, v) {
      ReachDownWithout(g, t, x, r, v);
    } else {
      var c := Branch(g, t, x, v);
      assert c !in Separated(t, x);
      LowDecidesSeparation(g, t, x, c);
      var u, w :| Above(t, c, u) && w in g[u] && !(Above(t, c, w) || w == x);
      LeavingEdgeClimbs(g, t, x, c, u, w);
      assert Above(t, x, c);
      // root ~ w ~ u ~ c ~ v, all away from x
      assert w in Component(g, x) by {
        ReachDown(g, t, w, x);
        ReachSymmetric(g, w, x);
      }
      assert !Above(t, x, w);
      ReachDownWithout(g, t, x, r, w);
      ReachEdge(h, w, u);
      ReachDownWithout(g, t, x, c, u);
      ReachSymmetric(h, c, u);
      ReachDownWithout(g, t, x, c, v);
      ReachTransitive(h, r, w, u);
      ReachTransitive(h, r, u, c);
      ReachTransitive(h, r, c, v);
    }
  }

  // Notes outside the component of `x` keep their component.
  lemma OtherComponentsUnchanged(g: Adjacency, x: Note, v: Note)
    requires Undirected(g) && x in g && v in g && v !in Component(g, x)
    ensures v in Without(g, x) && Component(Without(g, x), v) == Component(g, v)
  {
    var h, s := Without(g, x), Component(g, v);
    ReachSelf(g, x);
    ReachSelf(g, v);
    if x in s { ReachSymmetric(g, v, x); }
    WithoutIsUndirected(g, x);
    ComponentIsClosed(g, v);
    assert Closed(h, s);
    forall w | w in s
      ensures Reach(h, v, w)
    {
      PathAvoids(g, x, v, w);
    }
    ClosedSetIsComponent(h, s, v);
  }

  lemma PathAvoids(g: Adjacency, x: Note, v: Note, w: Note)
    requires Undirected(g) && Reach(g, v, w) && !Reach(g, v, x)
    ensures Reach(Without(g, x), v, w)
  {
    var p :| IsPath(g, p) && p[0] == v && p[|p| - 1] == w;
    forall i | 0 <= i < |p|
      ensures p[i] != x
    {
      assert IsPath(g, p[..i + 1]);
      assert Reach(g, v, p[i]) by { assert p[..i + 1][0] == v && p[..i + 1][|p[..i + 1]| - 1] == p[i]; }
    }
    assert IsPath(Without(g, x), p);
  }

  // ----- Counting components -----

  ghost function Others(g: Adjacency, x: Note): set<set<Note>> {
    set v | v in g && v !in Component(g, x) :: Component(g, v)
  }

  ghost function Branches(t: Tree, x: Note): set<set<Note>> {
    set c | c in Separated(t, x) :: Sub(t, c)
  }

  // The component of `x` minus `x` and its separated branches; a root has none.
  ghost function Rest(g: Adjacency, t: Tree, x: Note): set<set<Note>>
    requires Forest(g, t) && x in t.disc
  {
    if t.parent[x] == NoParent then {} else {Component(Without(g, x), Root(g, t, x))}
  }

  lemma {:induction false} ImageSize<A, B>(f: A -> B, s: set<A>, image: set<B>)
    requires image == set a | a in s :: f(a)
    requires forall a, b :: a in s && b in s && f(a) == f(b) ==> a == b
    ensures |image| == |s|
    decreases |s|
  {
    if s == {} {
      assert image == {};
    } else {
      var a :| a in s;
      ImageSize(f, s - {a}, image - {f(a)});
    }
  }

  lemma BranchesAreDistinct(g: Adjacency, t: Tree, x: Note)
    requires Complete(g, t) && x in g
    ensures |Branches(t, x)| == |Separated(t, x)|
  {
    var f := c => Sub(t, c);
    forall c, d | c in Separated(t, x) && d in Separated(t, x) && f(c) == f(d)
      ensures c == d
    {
      assert c in f(c) && d in f(d);
      assert Above(t, c, d) && Above(t, d, c);
    }
    assert Branches(t, x) == set c | c in Separated(t, x) :: f(c);
    ImageSize(f, Separated(t, x), Branches(t, x));
  }

  lemma ComponentsSplit(g: Adjacency, x: Note)
    requires Undirected(g) && x in g
    ensures Components(g) == Others(g, x) + {Component(g, x)}
    ensures Component(g, x) !in Others(g, x)
  {
    forall v | v in g
      ensures v in Component(g, v)
      ensures v in Component(g, x) ==> Component(g, v) == Component(g, x)
    {
      ReachSelf(g, v);
      if v in Component(g, x) { SameComponent(g, x, v); }
    }
  }

  lemma PartOfComponent(g: Adjacency, t: Tree, x: Note, v: Note)
    requires Complete(g, t) && x in g && v in Component(g, x) && v != x
    ensures Component(Without(g, x), v) in Branches(t, x) + Rest(g, t, x)
  {
    var h := Without(g, x);
    if c :| c in Separated(t, x) && Above(t, c, v) {
      SeparatedBranchIsComponent(g, t, x, c, v);
    } else if t.parent[x] == NoParent {
      ComponentIsRootSub(g, t, x);
      RootSeparatesKids(g, t, x);
      var c := Branch(g, t, x, v);
      assert false;
    } else {
      OthersStayWithRoot(g, t, x, v);
      WithoutIsUndirected(g, x);
      SameComponent(h, Root(g, t, x), v);
    }
  }

  lemma RootSurvives(g: Adjacency, t: Tree, x: Note)
    requires Complete(g, t) && x in g && t.parent[x] != NoParent
    ensures Root(g, t, x) in Without(g, x)
    ensures Root(g, t, x) in Component(g, x)
    ensures forall c :: c in Separated(t, x) ==> Root(g, t, x) !in Sub(t, c)
  {
    var r := Root(g, t, x);
    ComponentIsRootSub(g, t, x);
    forall c | c in Separated(t, x)
      ensures r !in Sub(t, c)
    {
      assert IsChild(t, x, c);
      assert Above(t, x, c);
      assert NearestParent(t, c, r);
    }
  }

  lemma ComponentsWithoutSplit(g: Adjacency, t: Tree, x: Note)
    requires Complete(g, t) && x in g
    ensures Components(Without(g, x)) == Others(g, x) + (Branches(t, x) + Rest(g, t, x))
  {
    var h := Without(g, x);
    forall v | v in h
      ensures Component(h, v) in Others(g, x) + (Branches(t, x) + Rest(g, t, x))
    {
      if v in Component(g, x) {
        PartOfComponent(g, t, x, v);
      } else {
        OtherComponentsUnchanged(g, x, v);
      }
    }
    forall s | s in Others(g, x)
      ensures s in Components(h)
    {
      var v :| v in g && v !in Component(g, x) && s == Component(g, v);
      OtherComponentsUnchanged(g, x, v);
    }
    forall s | s in Branches(t, x)
      ensures s in Components(h)
    {
      var c :| c in Separated(t, x) && s == Sub(t, c);
      SeparatedBranchIsComponent(g, t, x, c, c);
    }
    if t.parent[x] != NoParent {
      RootSurvives(g, t, x);
    }
  }

  lemma BranchMeetsComponent(g: Adjacency, t: Tree, x: Note, c: Note)
    requires Complete(g, t) && x in g && c in Separated(t, x)
    ensures c in Sub(t, c) && c in Component(g, x)
  {
    ComponentIsRootSub(g, t, x);
    assert IsChild(t, x, c);
    AboveTransitive(t, Root(g, t, x), x, c);
  }

  lemma OthersAvoidComponent(g: Adjacency, t: Tree, x: Note, s: set<Note>, v: Note)
    requires Complete(g, t) && x in g && s in Others(g, x) && v in s
    ensures v !in Component(g, x)
  {
    var u :| u in g && u !in Component(g, x) && s == Component(g, u);
    ReachSelf(g, u);
    if v in Component(g, x) { ComponentsPartition(g, u, x, v); }
  }

  lemma RestMeetsComponent(g: Adjacency, t: Tree, x: Note)
    requires Complete(g, t) && x in g && t.parent[x] != NoParent
    ensures Root(g, t, x) in Component(Without(g, x), Root(g, t, x))
    ensures Root(g, t, x) in Component(g, x)
  {
    RootSurvives(g, t, x);
    ReachSelf(Without(g, x), Root(g, t, x));
  }

  lemma OthersApart(g: Adjacency, t: Tree, x: Note)
    requires Complete(g, t) && x in g
    ensures Others(g, x) !! Branches(t, x)
    ensures Others(g, x) !! Rest(g, t, x)
  {
    hide Component, Others, Sub, Separated, Root;
    forall s | s in Branches(t, x)
      ensures s !in Others(g, x)
    {
      var c :| c in Separated(t, x) && s == Sub(t, c);
      BranchMeetsComponent(g, t, x, c);
      if s in Others(g, x) { OthersAvoidComponent(g, t, x, s, c); }
    }
    if t.parent[x] != NoParent {
      var rest := Component(Without(g, x), Root(g, t, x));
      RestMeetsComponent(g, t, x);
      if rest in Others(g, x) { OthersAvoidComponent(g, t, x, rest, Root(g, t, x)); }
    }
  }

  lemma BranchesApart(g: Adjacency, t: Tree, x: Note)
    requires Complete(g, t) && x in g
    ensures Branches(t, x) !! Rest(g, t, x)
  {
    if t.parent[x] != NoParent {
      RootSurvives(g, t, x);
      RestMeetsComponent(g, t, x);
    }
  }

  lemma PartsAreDisjoint(g: Adjacency, t: Tree, x: Note)
    requires Complete(g, t) && x in g
    ensures Others(g, x) !! (Branches(t, x) + Rest(g, t, x))
    ensures Branches(t, x) !! Rest(g, t, x)
  {
    OthersApart(g, t, x);
    BranchesApart(g, t, x);
  }

  // The number of extra components that removing `x` creates.
  lemma ExtraComponents(g: Adjacency, t: Tree, x: Note)
    requires Complete(g, t) && x in g
    ensures |Components(Without(g, x))| - |Components(g)| ==
            if t.parent[x] == NoParent then |Kids(t, x)| - 1 else |Separated(t, x)|
  {
    ComponentsSplit(g, x);
    ComponentsWithoutSplit(g, t, x);
    PartsAreDisjoint(g, t, x);
    BranchesAreDistinct(g, t, x);
    if t.parent[x] == NoParent {
      RootSeparatesKids(g, t, x);
    }
  }
}
