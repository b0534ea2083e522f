// The states of the iterative articulation-point search, its invariant, and
// one lemma for each thing a pass of the loop can do.
module BridgeSearch {
  import opened Graphs
  import opened DfsTree

  // One entry of the explicit stack: a note and its neighbours still to visit.
  datatype Frame = Frame(node: Note, rest: seq<Note>)

  function Min(a: nat, b: nat): (r: nat)
    ensures r <= a && r <= b && (r == a || r == b)
  {
    if a <= b then a else b
  }

  // Reading a counter dictionary whose missing entries count as zero.
  function Count(m: map<Note, nat>, v: Note): nat { if v in m then m[v] else 0 }

  // ----- The invariant of the search -----

  ghost predicate OnStack(stack: seq<Frame>, v: Note) {
    exists i :: 0 <= i < |stack| && stack[i].node == v
  }

  ghost predicate StackOpen(t: Tree, stack: seq<Frame>) {
    && (forall i :: 0 <= i < |stack| ==> stack[i].node in t.disc && stack[i].node !in t.end)
    && (forall v {:trigger OnStack(stack, v)} :: v in t.disc && v !in t.end ==> OnStack(stack, v))
    && (forall i, j :: 0 <= i < j < |stack| && stack[i].node in t.disc && stack[j].node in t.disc
          ==> t.disc[stack[i].node] < t.disc[stack[j].node])
  }

  ghost predicate ParentBelow(t: Tree, stack: seq<Frame>, i: nat) {
    && i < |stack| && stack[i].node in t.parent
    && t.parent[stack[i].node] == if i == 0 then NoParent else Below(stack[i - 1].node)
  }

  ghost predicate StackParents(t: Tree, stack: seq<Frame>) {
    forall i {:trigger ParentBelow(t, stack, i)} :: 0 <= i < |stack| ==> ParentBelow(t, stack, i)
  }

  // A neighbour the note has used up was discovered, and lowered `low` unless it is the parent.
  ghost predicate Used(t: Tree, v: Note, w: Note)
    requires v in t.parent && v in t.low
  {
    w in t.disc && (t.parent[v] == Below(w) || t.low[v] <= t.disc[w])
  }

  ghost predicate StackEdges(g: Adjacency, t: Tree, stack: seq<Frame>) {
    forall i, w :: 0 <= i < |stack| && stack[i].node in g && w in g[stack[i].node]
      ==> w in stack[i].rest || (stack[i].node in t.parent && stack[i].node in t.low && Used(t, stack[i].node, w))
  }

  ghost predicate StackRest(g: Adjacency, stack: seq<Frame>) {
    forall i, w :: 0 <= i < |stack| && w in stack[i].rest ==> stack[i].node in g && w in g[stack[i].node]
  }

  ghost predicate ClockBounds(t: Tree, clock: nat) {
    && (forall v :: v in t.disc ==> t.disc[v] <= clock)
    && (forall v :: v in t.end ==> t.end[v] <= clock)
  }

  ghost predicate SearchInv(g: Adjacency, t: Tree, stack: seq<Frame>, clock: nat) {
    && Undirected(g) && Forest(g, t) && Lows(g, t)
    && StackOpen(t, stack) && StackParents(t, stack) && StackEdges(g, t, stack) && StackRest(g, stack)
    && ClockBounds(t, clock)
  }

  ghost function Score(t: Tree, v: Note): int {
    if v in t.parent && t.parent[v] == NoParent then |Kids(t, v)| - 1 else |Separated(t, v)|
  }

  ghost predicate CounterAt(t: Tree, kids: map<Note, nat>, sep: map<Note, nat>, scores: map<Note, nat>, p: Note) {
    p in t.disc && p in t.parent ==>
      && Count(kids, p) == |Kids(t, p)|
      && Count(sep, p) == (if t.parent[p] == NoParent then 0 else |Separated(t, p)|)
      && (p in scores <==> p in t.end && Score(t, p) > 0)
      && (p in scores ==> scores[p] == Score(t, p))
  }

  ghost predicate Counters(t: Tree, kids: map<Note, nat>, sep: map<Note, nat>, scores: map<Note, nat>) {
    && kids.Keys <= t.disc.Keys && sep.Keys <= t.disc.Keys && scores.Keys <= t.disc.Keys
    && (forall p {:trigger CounterAt(t, kids, sep, scores, p)} :: CounterAt(t, kids, sep, scores, p))
  }

  // ----- Discovering a note -----

  function Discover(t: Tree, n: Note, parent: Parent, clock: nat): Tree {
    t.(disc := t.disc[n := clock], low := t.low[n := clock], parent := t.parent[n := parent])
  }

  // `n` is a new root, or an unseen neighbour of the note on top of the stack.
  ghost predicate CanDiscover(g: Adjacency, t: Tree, stack: seq<Frame>, n: Note, parent: Parent) {
    && n in g && n !in t.disc
    && (match parent
        case NoParent => stack == []
        case Below(p) => |stack| > 0 && p == stack[|stack| - 1].node && p in g && n in g[p])
  }

  lemma DiscoverAbove(g: Adjacency, t: Tree, clock: nat, n: Note, parent: Parent)
    requires Domains(g, t) && ClockBounds(t, clock) && n !in t.disc
    ensures var t' := Discover(t, n, parent, clock + 1);
            && (forall a, v :: a != n && v != n ==> (Above(t', a, v) <==> Above(t, a, v)))
            && (forall v :: Above(t', n, v) <==> v == n)
            && (forall a :: a != n ==> (Above(t', a, n) <==> a in t.disc && a !in t.end))
  {
  }

  lemma DiscoverKeepsShape(g: Adjacency, t: Tree, stack: seq<Frame>, clock: nat, n: Note, parent: Parent)
    requires Domains(g, t) && Numbered(t) && Laminar(t) && ParentsAbove(g, t)
    requires ClockBounds(t, clock) && StackOpen(t, stack) && CanDiscover(g, t, stack, n, parent)
    ensures var t' := Discover(t, n, parent, clock + 1);
            Domains(g, t') && Numbered(t') && Laminar(t') && ParentsAbove(g, t') && ClockBounds(t', clock + 1)
  {
    var t' := Discover(t, n, parent, clock + 1);
    DiscoverAbove(g, t, clock, n, parent);
    forall p, c | IsChild(t', p, c)
      ensures Above(t', p, c) && p != c && p in g && c in g[p]
    {
      if c != n {
        assert IsChild(t, p, c);
        assert Above(t, p, c);
      }
    }
  }

  lemma DiscoverKeepsNearest(g: Adjacency, t: Tree, stack: seq<Frame>, clock: nat, n: Note, parent: Parent)
    requires Domains(g, t) && ParentsAbove(g, t) && ParentsNearest(t)
    requires ClockBounds(t, clock) && StackOpen(t, stack) && CanDiscover(g, t, stack, n, parent)
    ensures ParentsNearest(Discover(t, n, parent, clock + 1))
  {
    var t' := Discover(t, n, parent, clock + 1);
    DiscoverAbove(g, t, clock, n, parent);
    forall a, v
      ensures NearestParent(t', a, v)
    {
      if v == n {
        if a in t.disc && a !in t.end { assert OnStack(stack, a); }
      } else {
        assert NearestParent(t, a, v);
        if v in t.parent && t.parent[v].Below? { assert IsChild(t, t.parent[v].note, v); }
      }
    }
  }

  lemma DiscoverKeepsNoCross(g: Adjacency, t: Tree, clock: nat, n: Note, parent: Parent)
    requires Undirected(g) && Domains(g, t) && NoCrossEdges(g, t) && LowOverEdges(g, t) && ClockBounds(t, clock)
    requires n in g && n !in t.disc
    ensures NoCrossEdges(g, Discover(t, n, parent, clock + 1))
  {
    var t' := Discover(t, n, parent, clock + 1);
    forall u, w | u in t'.disc && w in t'.disc && u in g && w in g[u]
      ensures Above(t', u, w) || Above(t', w, u)
    {
      assert u in g[w];
      if u != n && w != n {
        assert Above(t, u, w) || Above(t, w, u);
      }
    }
  }

  lemma DiscoverKeepsLowOverEdges(g: Adjacency, t: Tree, clock: nat, n: Note, parent: Parent)
    requires Domains(g, t) && LowOverEdges(g, t) && n in g && n !in t.disc
    ensures Domains(g, Discover(t, n, parent, clock + 1))
    ensures LowOverEdges(g, Discover(t, n, parent, clock + 1))
  {
  }

  lemma DiscoverKeepsLowOverKids(g: Adjacency, t: Tree, clock: nat, n: Note, parent: Parent)
    requires Domains(g, t) && ParentsAbove(g, t) && LowOverKids(t) && n !in t.disc
    ensures LowOverKids(Discover(t, n, parent, clock + 1))
  {
    var t' := Discover(t, n, parent, clock + 1);
    forall p, c | c in t'.end && IsChild(t', p, c) && p in t'.low && c in t'.low
      ensures t'.low[p] <= t'.low[c]
    {
      assert IsChild(t, p, c);
    }
  }

  lemma DiscoverKeepsLowAttained(g: Adjacency, t: Tree, clock: nat, n: Note, parent: Parent)
    requires Domains(g, t) && LowAttained(g, t) && ClockBounds(t, clock) && n in g && n !in t.disc
    ensures LowAttained(g, Discover(t, n, parent, clock + 1))
  {
    var t' := Discover(t, n, parent, clock + 1);
    forall v | v in t'.low
      ensures Attained(g, t', v)
    {
      if v == n {
        assert LowWitness(g, t', n, n, n);
      } else {
        assert Attained(g, t, v);
        var u, w :| LowWitness(g, t, v, u, w);
        assert LowWitness(g, t', v, u, w);
      }
    }
  }

  lemma DiscoverKeepsLows(g: Adjacency, t: Tree, clock: nat, n: Note, parent: Parent)
    requires Domains(g, t) && ParentsAbove(g, t) && Lows(g, t) && ClockBounds(t, clock)
    requires n in g && n !in t.disc
    ensures Domains(g, Discover(t, n, parent, clock + 1))
    ensures Lows(g, Discover(t, n, parent, clock + 1))
  {
    DiscoverKeepsLowOverEdges(g, t, clock, n, parent);
    DiscoverKeepsLowOverKids(g, t, clock, n, parent);
    DiscoverKeepsLowAttained(g, t, clock, n, parent);
  }

  lemma DiscoverKeepsStack(
      g: Adjacency, t: Tree, stack: seq<Frame>, clock: nat, n: Note, parent: Parent, order: seq<Note>)
    requires Domains(g, t) && ClockBounds(t, clock) && StackOpen(t, stack) && StackParents(t, stack)
    requires CanDiscover(g, t, stack, n, parent)
    ensures var t' := Discover(t, n, parent, clock + 1);
            StackOpen(t', stack + [Frame(n, order)]) && StackParents(t', stack + [Frame(n, order)])
  {
    var t', stack' := Discover(t, n, parent, clock + 1), stack + [Frame(n, order)];
    forall v | v in t'.disc && v !in t'.end
      ensures OnStack(stack', v)
    {
      if v == n {
        assert stack'[|stack|].node == v;
      } else {
        assert OnStack(stack, v);
        var i :| 0 <= i < |stack| && stack[i].node == v;
        assert stack'[i].node == v;
      }
    }
    forall i | 0 <= i < |stack'|
      ensures ParentBelow(t', stack', i)
    {
      if i < |stack| {
        assert ParentBelow(t, stack, i);
      }
    }
  }

  lemma DiscoverKeepsStackEdges(
      g: Adjacency, t: Tree, stack: seq<Frame>, clock: nat, n: Note, parent: Parent, order: seq<Note>)
    requires Domains(g, t) && StackOpen(t, stack) && StackEdges(g, t, stack) && StackRest(g, stack)
    requires n in g && n !in t.disc && forall w :: w in order <==> w in g[n]
    ensures var t' := Discover(t, n, parent, clock + 1);
            StackEdges(g, t', stack + [Frame(n, order)]) && StackRest(g, stack + [Frame(n, order)])
  {
    var t', stack' := Discover(t, n, parent, clock + 1), stack + [Frame(n, order)];
    forall i, w | 0 <= i < |stack'| && stack'[i].node in g && w in g[stack'[i].node]
      ensures w in stack'[i].rest
              || (stack'[i].node in t'.parent && stack'[i].node in t'.low && Used(t', stack'[i].node, w))
    {
      if i < |stack| {
        assert w in stack[i].rest || Used(t, stack[i].node, w);
      }
    }
  }

  lemma DiscoverKeepsInv(
      g: Adjacency, t: Tree, stack: seq<Frame>, clock: nat, n: Note, parent: Parent, order: seq<Note>)
    requires SearchInv(g, t, stack, clock) && CanDiscover(g, t, stack, n, parent)
    requires forall w :: w in order <==> w in g[n]
    ensures SearchInv(g, Discover(t, n, parent, clock + 1), stack + [Frame(n, order)], clock + 1)
  {
    DiscoverKeepsShape(g, t, stack, clock, n, parent);
    DiscoverKeepsNearest(g, t, stack, clock, n, parent);
    DiscoverKeepsNoCross(g, t, clock, n, parent);
    DiscoverKeepsLows(g, t, clock, n, parent);
    DiscoverKeepsStack(g, t, stack, clock, n, parent, order);
    DiscoverKeepsStackEdges(g, t, stack, clock, n, parent, order);
  }

  lemma NewKid(g: Adjacency, t: Tree, clock: nat, n: Note, parent: Parent, p: Note)
    requires Domains(g, t) && ParentsAbove(g, t) && n !in t.disc && parent != Below(n)
    ensures var t' := Discover(t, n, parent, clock + 1);
            && n !in Kids(t, p) && Kids(t', p) == (if parent == Below(p) then Kids(t, p) + {n} else Kids(t, p))
            && (p == n ==> Kids(t', p) == {})
  {
    forall c
      ensures c !in Kids(t, n)
    {
      assert IsChild(t, n, c) ==> Above(t, n, c);
    }
  }

  lemma DiscoverKids(g: Adjacency, t: Tree, clock: nat, n: Note, parent: Parent, p: Note)
    requires Domains(g, t) && ParentsAbove(g, t) && n !in t.disc && parent != Below(n)
    ensures var t' := Discover(t, n, parent, clock + 1);
            && |Kids(t', p)| == |Kids(t, p)| + (if parent == Below(p) then 1 else 0)
            && Separated(t', p) == Separated(t, p)
            && (p == n ==> Kids(t', p) == {} && Separated(t', p) == {})
  {
    var t' := Discover(t, n, parent, clock + 1);
    NewKid(g, t, clock, n, parent, p);
    hide Kids;
    forall c
      ensures c in Separated(t', p) <==> c in Separated(t, p)
    {
      assert IsChild(t, p, c) ==> Above(t, p, c);
      assert c != n ==> (IsChild(t', p, c) <==> IsChild(t, p, c));
    }
  }

  lemma DiscoverKeepsCounters(
      g: Adjacency, t: Tree, clock: nat, n: Note, parent: Parent,
      kids: map<Note, nat>, sep: map<Note, nat>, scores: map<Note, nat>)
    requires Domains(g, t) && ParentsAbove(g, t) && n !in t.disc
    requires parent.Below? ==> parent.note in t.disc && parent.note !in t.end
    requires Counters(t, kids, sep, scores)
    ensures var kids' := if parent.Below? then kids[parent.note := Count(kids, parent.note) + 1] else kids;
            Counters(Discover(t, n, parent, clock + 1), kids', sep, scores)
  {
    var t' := Discover(t, n, parent, clock + 1);
    var kids' := if parent.Below? then kids[parent.note := Count(kids, parent.note) + 1] else kids;
    forall p
      ensures CounterAt(t', kids', sep, scores, p)
    {
      DiscoverKids(g, t, clock, n, parent, p);
      assert CounterAt(t, kids, sep, scores, p);
    }
  }

  // ----- Lowering `low` -----

  function Lower(t: Tree, v: Note, x: nat): Tree
    requires v in t.low
  {
    t.(low := t.low[v := Min(t.low[v], x)])
  }

  lemma LowerKeepsForest(g: Adjacency, t: Tree, v: Note, x: nat)
    requires Forest(g, t) && v in t.low
    ensures Forest(g, Lower(t, v, x))
  {
    var t' := Lower(t, v, x);
    forall p, c
      ensures IsChild(t', p, c) <==> IsChild(t, p, c)
      ensures Above(t', p, c) <==> Above(t, p, c)
    {
    }
    forall a, b
      ensures NearestParent(t', a, b)
    {
      assert NearestParent(t, a, b);
    }
  }

  // Some note below `v` has a neighbour that was discovered at time `x`.
  ghost predicate SeesBelow(g: Adjacency, t: Tree, v: Note, x: nat) {
    exists u, w :: Above(t, v, u) && u in g && w in g[u] && w in t.disc && t.disc[w] == x
  }

  lemma LowerKeepsLowOverEdges(g: Adjacency, t: Tree, v: Note, x: nat)
    requires Domains(g, t) && LowOverEdges(g, t) && v in t.disc
    ensures Domains(g, Lower(t, v, x)) && LowOverEdges(g, Lower(t, v, x))
  {
  }

  lemma LowerKeepsLowOverKids(g: Adjacency, t: Tree, v: Note, x: nat)
    requires Domains(g, t) && LowOverKids(t) && v in t.disc && v !in t.end
    ensures LowOverKids(Lower(t, v, x))
  {
    var t' := Lower(t, v, x);
    forall p, c | c in t'.end && IsChild(t', p, c) && p in t'.low && c in t'.low
      ensures t'.low[p] <= t'.low[c]
    {
      assert IsChild(t, p, c);
    }
  }

  lemma LowerKeepsLowAttained(g: Adjacency, t: Tree, v: Note, x: nat)
    requires Domains(g, t) && LowAttained(g, t) && v in t.disc && (x >= t.low[v] || SeesBelow(g, t, v, x))
    ensures LowAttained(g, Lower(t, v, x))
  {
    var t' := Lower(t, v, x);
    forall z | z in t'.low
      ensures Attained(g, t', z)
    {
      if z == v && x < t.low[v] {
        var u, w :| Above(t, v, u) && u in g && w in g[u] && w in t.disc && t.disc[w] == x;
        assert LowWitness(g, t', z, u, w);
      } else {
        assert Attained(g, t, z);
        var u, w :| LowWitness(g, t, z, u, w);
        assert LowWitness(g, t', z, u, w);
      }
    }
  }

  lemma LowerKeepsStack(g: Adjacency, t: Tree, stack: seq<Frame>, v: Note, x: nat)
    requires Domains(g, t) && StackOpen(t, stack) && StackParents(t, stack) && StackEdges(g, t, stack) && v in t.disc
    ensures var t' := Lower(t, v, x); StackOpen(t', stack) && StackParents(t', stack) && StackEdges(g, t', stack)
  {
    var t' := Lower(t, v, x);
    forall i | 0 <= i < |stack|
      ensures ParentBelow(t', stack, i)
    {
      assert ParentBelow(t, stack, i);
    }
    forall i, w | 0 <= i < |stack| && stack[i].node in g && w in g[stack[i].node]
      ensures w in stack[i].rest
              || (stack[i].node in t'.parent && stack[i].node in t'.low && Used(t', stack[i].node, w))
    {
      assert w in stack[i].rest || Used(t, stack[i].node, w);
    }
  }

  lemma LowerKeepsInv(g: Adjacency, t: Tree, stack: seq<Frame>, clock: nat, v: Note, x: nat)
    requires SearchInv(g, t, stack, clock) && v in t.disc && v !in t.end
    requires x >= t.low[v] || SeesBelow(g, t, v, x)
    ensures SearchInv(g, Lower(t, v, x), stack, clock)
  {
    LowerKeepsForest(g, t, v, x);
    LowerKeepsLowOverEdges(g, t, v, x);
    LowerKeepsLowOverKids(g, t, v, x);
    LowerKeepsLowAttained(g, t, v, x);
    LowerKeepsStack(g, t, stack, v, x);
  }

  lemma LowerKeepsCounters(
      t: Tree, v: Note, x: nat, kids: map<Note, nat>, sep: map<Note, nat>, scores: map<Note, nat>)
    requires v in t.low && v !in t.end && Counters(t, kids, sep, scores)
    ensures Counters(Lower(t, v, x), kids, sep, scores)
  {
    var t' := Lower(t, v, x);
    forall p
      ensures CounterAt(t', kids, sep, scores, p)
    {
      assert CounterAt(t, kids, sep, scores, p);
      assert Kids(t', p) == Kids(t, p);
      forall c
        ensures c in Separated(t', p) <==> c in Separated(t, p)
      {
        assert IsChild(t', p, c) <==> IsChild(t, p, c);
      }
      assert Separated(t', p) == Separated(t, p);
    }
  }

  // ----- Consuming a neighbour -----

  lemma ConsumeKeepsInv(g: Adjacency, t: Tree, stack: seq<Frame>, clock: nat, i: nat)
    requires SearchInv(g, t, stack, clock) && i < |stack| && |stack[i].rest| > 0
    requires stack[i].node in t.disc && Used(t, stack[i].node, stack[i].rest[0])
    ensures SearchInv(g, t, stack[i := Frame(stack[i].node, stack[i].rest[1..])], clock)
  {
    ConsumeKeepsStack(g, t, stack, i);
  }

  lemma ConsumeKeepsStack(g: Adjacency, t: Tree, stack: seq<Frame>, i: nat)
    requires Domains(g, t) && StackOpen(t, stack) && StackParents(t, stack)
    requires StackEdges(g, t, stack) && StackRest(g, stack) && i < |stack| && |stack[i].rest| > 0
    requires stack[i].node in t.disc && Used(t, stack[i].node, stack[i].rest[0])
    ensures var stack' := stack[i := Frame(stack[i].node, stack[i].rest[1..])];
            StackOpen(t, stack') && StackParents(t, stack') && StackEdges(g, t, stack') && StackRest(g, stack')
  {
    var f := stack[i];
    var stack' := stack[i := Frame(f.node, f.rest[1..])];
    assert f.rest == [f.rest[0]] + f.rest[1..];
    assert forall j :: 0 <= j < |stack| ==> stack'[j].node == stack[j].node;
    forall v | v in t.disc && v !in t.end
      ensures OnStack(stack', v)
    {
      assert OnStack(stack, v);
      var j :| 0 <= j < |stack| && stack[j].node == v;
      assert stack'[j].node == v;
    }
    forall j | 0 <= j < |stack'|
      ensures ParentBelow(t, stack', j)
    {
      assert ParentBelow(t, stack, j);
    }
    forall j, w | 0 <= j < |stack'| && stack'[j].node in g && w in g[stack'[j].node]
      ensures w in stack'[j].rest
              || (stack'[j].node in t.parent && stack'[j].node in t.low && Used(t, stack'[j].node, w))
    {
      assert w in stack[j].rest || Used(t, stack[j].node, w);
    }
  }

  // ----- Closing the note on top of the stack -----

  function Close(t: Tree, v: Note, clock: nat): Tree {
    t.(end := t.end[v := clock])
  }

  ghost predicate CanClose(g: Adjacency, t: Tree, stack: seq<Frame>, v: Note) {
    && |stack| > 0 && stack[|stack| - 1] == Frame(v, [])
    && v in t.parent && v in t.low
    && (t.parent[v].Below? ==> t.parent[v].note in t.low && t.low[t.parent[v].note] <= t.low[v])
  }

  lemma CloseAbove(t: Tree, clock: nat, v: Note)
    requires ClockBounds(t, clock) && v !in t.end
    ensures forall a, b :: Above(Close(t, v, clock), a, b) <==> Above(t, a, b)
  {
  }

  lemma CloseKeepsLaminar(t: Tree, stack: seq<Frame>, clock: nat, v: Note)
    requires ClockBounds(t, clock) && StackOpen(t, stack) && Laminar(t) && Numbered(t)
    requires |stack| > 0 && stack[|stack| - 1].node == v
    ensures Laminar(Close(t, v, clock)) && Numbered(Close(t, v, clock))
  {
    var t' := Close(t, v, clock);
    CloseAbove(t, clock, v);
    forall a, b | a in t'.end && Above(t', a, b)
      ensures b in t'.end && t'.end[b] <= t'.end[a]
    {
      assert Above(t, a, b);
      assert b in t.end || OnStack(stack, b);
    }
  }

  lemma CloseKeepsForest(g: Adjacency, t: Tree, stack: seq<Frame>, clock: nat, v: Note)
    requires ClockBounds(t, clock) && StackOpen(t, stack) && Forest(g, t)
    requires |stack| > 0 && stack[|stack| - 1].node == v
    ensures Forest(g, Close(t, v, clock))
  {
    var t' := Close(t, v, clock);
    CloseKeepsLaminar(t, stack, clock, v);
    CloseAbove(t, clock, v);
    forall p, c
      ensures IsChild(t', p, c) <==> IsChild(t, p, c)
    {
    }
    forall a, b
      ensures NearestParent(t', a, b)
    {
      assert NearestParent(t, a, b);
    }
  }

  lemma CloseKeepsLowOverEdges(g: Adjacency, t: Tree, stack: seq<Frame>, clock: nat, v: Note)
    requires Domains(g, t) && LowOverEdges(g, t) && StackEdges(g, t, stack) && CanClose(g, t, stack, v)
    ensures Domains(g, Close(t, v, clock)) && LowOverEdges(g, Close(t, v, clock))
  {
    var t' := Close(t, v, clock);
    forall u, w | u in t'.end && w in g[u]
      ensures w in t'.disc && (t'.parent[u] == Below(w) || t'.low[u] <= t'.disc[w])
    {
      if u == v { assert Used(t, stack[|stack| - 1].node, w); }
    }
  }

  lemma CloseKeepsLowOverKids(g: Adjacency, t: Tree, stack: seq<Frame>, clock: nat, v: Note)
    requires Domains(g, t) && LowOverKids(t) && CanClose(g, t, stack, v)
    ensures LowOverKids(Close(t, v, clock))
  {
    var t' := Close(t, v, clock);
    forall p, c | c in t'.end && IsChild(t', p, c) && p in t'.low && c in t'.low
      ensures t'.low[p] <= t'.low[c]
    {
      assert IsChild(t, p, c);
    }
  }

  lemma CloseKeepsLowAttained(g: Adjacency, t: Tree, clock: nat, v: Note)
    requires ClockBounds(t, clock) && LowAttained(g, t) && v !in t.end
    ensures LowAttained(g, Close(t, v, clock))
  {
    var t' := Close(t, v, clock);
    forall z | z in t'.low
      ensures Attained(g, t', z)
    {
      assert Attained(g, t, z);
      var u, w :| LowWitness(g, t, z, u, w);
      assert LowWitness(g, t', z, u, w);
    }
  }

  lemma CloseKeepsStack(g: Adjacency, t: Tree, stack: seq<Frame>, clock: nat, v: Note)
    requires StackOpen(t, stack) && StackParents(t, stack) && StackEdges(g, t, stack) && StackRest(g, stack)
    requires |stack| > 0 && stack[|stack| - 1].node == v
    ensures var t', stack' := Close(t, v, clock), stack[..|stack| - 1];
            StackOpen(t', stack') && StackParents(t', stack') && StackEdges(g, t', stack') && StackRest(g, stack')
  {
    var t', stack' := Close(t, v, clock), stack[..|stack| - 1];
    forall u | u in t'.disc && u !in t'.end
      ensures OnStack(stack', u)
    {
      assert OnStack(stack, u);
      var j :| 0 <= j < |stack| && stack[j].node == u;
      assert stack'[j].node == u;
    }
    forall j | 0 <= j < |stack'|
      ensures ParentBelow(t', stack', j)
    {
      assert ParentBelow(t, stack, j);
    }
    forall j, w | 0 <= j < |stack'| && stack'[j].node in g && w in g[stack'[j].node]
      ensures w in stack'[j].rest
              || (stack'[j].node in t'.parent && stack'[j].node in t'.low && Used(t', stack'[j].node, w))
    {
      assert w in stack[j].rest || Used(t, stack[j].node, w);
    }
  }

  lemma CloseKeepsInv(g: Adjacency, t: Tree, stack: seq<Frame>, clock: nat, v: Note)
    requires SearchInv(g, t, stack, clock) && CanClose(g, t, stack, v)
    ensures SearchInv(g, Close(t, v, clock), stack[..|stack| - 1], clock)
  {
    CloseKeepsForest(g, t, stack, clock, v);
    CloseKeepsLowOverEdges(g, t, stack, clock, v);
    CloseKeepsLowOverKids(g, t, stack, clock, v);
    CloseKeepsLowAttained(g, t, clock, v);
    CloseKeepsStack(g, t, stack, clock, v);
  }

  ghost predicate ClosesBranchOf(t: Tree, p: Note, v: Note) {
    IsChild(t, p, v) && p in t.disc && v in t.low && t.low[v] >= t.disc[p]
  }

  lemma CloseSeparated(t: Tree, clock: nat, v: Note, p: Note)
    requires v !in t.end
    ensures var t' := Close(t, v, clock);
            && Kids(t', p) == Kids(t, p)
            && |Separated(t', p)| == |Separated(t, p)| + (if ClosesBranchOf(t, p, v) then 1 else 0)
  {
    var t' := Close(t, v, clock);
    assert Kids(t', p) == Kids(t, p);
    assert v !in Separated(t, p);
    forall c
      ensures c in Separated(t', p) <==> c in Separated(t, p) || (c == v && ClosesBranchOf(t, p, v))
    {
      assert IsChild(t', p, c) <==> IsChild(t, p, c);
    }
    assert Separated(t', p) == Separated(t, p) + if ClosesBranchOf(t, p, v) then {v} else {};
  }

  // Closing `v` counts it once with its parent and settles the score of `v` itself.
  lemma CloseKeepsCounters(
      t: Tree, clock: nat, v: Note, kids: map<Note, nat>, sep: map<Note, nat>, scores: map<Note, nat>,
      sep': map<Note, nat>, scores': map<Note, nat>)
    requires v in t.disc && v in t.parent && v in t.low && v !in t.end && Counters(t, kids, sep, scores)
    requires t.parent[v].Below? ==> t.parent[v].note in t.disc && t.parent[v].note in t.parent && t.parent[v].note != v
                                    && t.parent[v].note !in t.end
    requires sep' == if t.parent[v].Below? && t.parent[t.parent[v].note] != NoParent && t.low[v] >= t.disc[t.parent[v].note]
                     then sep[t.parent[v].note := Count(sep, t.parent[v].note) + 1] else sep
    requires scores' == if t.parent[v] == NoParent
                        then (if Count(kids, v) > 1 then scores[v := Count(kids, v) - 1] else scores)
                        else (if Count(sep', v) > 0 then scores[v := Count(sep', v)] else scores)
    ensures Counters(Close(t, v, clock), kids, sep', scores')
  {
    var t' := Close(t, v, clock);
    forall p
      ensures CounterAt(t', kids, sep', scores', p)
    {
      assert CounterAt(t, kids, sep, scores, p);
      CloseSeparated(t, clock, v, p);
    }
  }

  // ----- The passes of the loop -----

  // A root is discovered with nothing on the stack.
  lemma RootStep(
      g: Adjacency, t: Tree, clock: nat, n: Note, order: seq<Note>,
      kids: map<Note, nat>, sep: map<Note, nat>, scores: map<Note, nat>)
    requires SearchInv(g, t, [], clock) && Counters(t, kids, sep, scores)
    requires n in g && n !in t.disc && forall w :: w in order <==> w in g[n]
    ensures SearchInv(g, Discover(t, n, NoParent, clock + 1), [Frame(n, order)], clock + 1)
    ensures Counters(Discover(t, n, NoParent, clock + 1), kids, sep, scores)
  {
    DiscoverKeepsInv(g, t, [], clock, n, NoParent, order);
    DiscoverKeepsCounters(g, t, clock, n, NoParent, kids, sep, scores);
    assert [] + [Frame(n, order)] == [Frame(n, order)];
  }

  // What popping an exhausted note does to the record of the search.
  function Pop(t: Tree, v: Note, clock: nat): Tree
    requires v in t.parent && v in t.low && (t.parent[v].Below? ==> t.parent[v].note in t.low)
  {
    Close(if t.parent[v].Below? then Lower(t, t.parent[v].note, t.low[v]) else t, v, clock)
  }

  lemma ParentIsUnderTop(g: Adjacency, t: Tree, stack: seq<Frame>, clock: nat)
    requires SearchInv(g, t, stack, clock) && |stack| > 0
    ensures forall w :: w in stack[|stack| - 1].rest ==> w in g
    ensures var v := stack[|stack| - 1].node;
            && v in t.disc && v in t.parent && v in t.low && v !in t.end
            && (t.parent[v].Below? ==>
                  var p := t.parent[v].note;
                  |stack| > 1 && p == stack[|stack| - 2].node && p in t.disc && p in t.low && p in t.parent
                  && p !in t.end && p != v)
  {
    assert ParentBelow(t, stack, |stack| - 1);
    forall w | w in stack[|stack| - 1].rest
      ensures w in g
    {
      assert w in g[stack[|stack| - 1].node];
    }
  }

  lemma PopKeepsInv(g: Adjacency, t: Tree, stack: seq<Frame>, clock: nat, v: Note)
    requires SearchInv(g, t, stack, clock) && |stack| > 0 && stack[|stack| - 1] == Frame(v, [])
    ensures v in t.parent && v in t.low && (t.parent[v].Below? ==> t.parent[v].note in t.low)
    ensures SearchInv(g, Pop(t, v, clock), stack[..|stack| - 1], clock)
  {
    ParentIsUnderTop(g, t, stack, clock);
    if t.parent[v].Below? {
      var p := t.parent[v].note;
      assert IsChild(t, p, v);
      assert t.low[v] >= t.low[p] || SeesBelow(g, t, p, t.low[v]) by {
        assert Attained(g, t, v);
        var u, w :| LowWitness(g, t, v, u, w);
        AboveTransitive(t, p, v, u);
      }
      LowerKeepsInv(g, t, stack, clock, p, t.low[v]);
      CloseKeepsInv(g, Lower(t, p, t.low[v]), stack, clock, v);
    } else {
      CloseKeepsInv(g, t, stack, clock, v);
    }
  }

  lemma PopKeepsCounters(
      g: Adjacency, t: Tree, stack: seq<Frame>, clock: nat, v: Note,
      kids: map<Note, nat>, sep: map<Note, nat>, scores: map<Note, nat>,
      sep': map<Note, nat>, scores': map<Note, nat>)
    requires SearchInv(g, t, stack, clock) && |stack| > 0 && stack[|stack| - 1] == Frame(v, [])
    requires Counters(t, kids, sep, scores)
    requires v in t.parent && v in t.low && (t.parent[v].Below? ==> t.parent[v].note in t.low)
    requires t.parent[v].Below? ==> t.parent[v].note in t.disc && t.parent[v].note in t.parent
    requires sep' == if t.parent[v].Below? && t.parent[t.parent[v].note] != NoParent && t.low[v] >= t.disc[t.parent[v].note]
                     then sep[t.parent[v].note := Count(sep, t.parent[v].note) + 1] else sep
    requires scores' == if t.parent[v] == NoParent
                        then (if Count(kids, v) > 1 then scores[v := Count(kids, v) - 1] else scores)
                        else (if Count(sep', v) > 0 then scores[v := Count(sep', v)] else scores)
    ensures Counters(Pop(t, v, clock), kids, sep', scores')
  {
    ParentIsUnderTop(g, t, stack, clock);
    if t.parent[v].Below? {
      LowerKeepsCounters(t, t.parent[v].note, t.low[v], kids, sep, scores);
      CloseKeepsCounters(Lower(t, t.parent[v].note, t.low[v]), clock, v, kids, sep, scores, sep', scores');
    } else {
      CloseKeepsCounters(t, clock, v, kids, sep, scores, sep', scores');
    }
  }

  // Meeting an unseen neighbour: it becomes a child and the new top of the stack.
  lemma DescendStep(
      g: Adjacency, t: Tree, stack: seq<Frame>, clock: nat, v: Note, n: Note, rest: seq<Note>, order: seq<Note>,
      kids: map<Note, nat>, sep: map<Note, nat>, scores: map<Note, nat>)
    requires SearchInv(g, t, stack, clock) && |stack| > 0 && stack[|stack| - 1] == Frame(v, [n] + rest)
    requires n in g && n !in t.disc && forall w :: w in order <==> w in g[n]
    requires Counters(t, kids, sep, scores)
    ensures Counters(Discover(t, n, Below(v), clock + 1), kids[v := Count(kids, v) + 1], sep, scores)
    ensures SearchInv(g, Discover(t, n, Below(v), clock + 1),
                      stack[..|stack| - 1] + [Frame(v, rest)] + [Frame(n, order)], clock + 1)
  {
    assert n in stack[|stack| - 1].rest;
    DiscoverKeepsInv(g, t, stack, clock, n, Below(v), order);
    DiscoverKeepsCounters(g, t, clock, n, Below(v), kids, sep, scores);
    var t', pushed := Discover(t, n, Below(v), clock + 1), stack + [Frame(n, order)];
    assert t.low[v] <= t.disc[v] <= clock;
    ConsumeKeepsInv(g, t', pushed, clock + 1, |stack| - 1);
    assert ([n] + rest)[1..] == rest;
    assert pushed[|stack| - 1 := Frame(v, rest)] == stack[..|stack| - 1] + [Frame(v, rest)] + [Frame(n, order)];
  }

  // Meeting a neighbour seen before: it lowers `low` unless it is the parent.
  lemma VisitStep(
      g: Adjacency, t: Tree, stack: seq<Frame>, clock: nat, v: Note, n: Note, rest: seq<Note>,
      kids: map<Note, nat>, sep: map<Note, nat>, scores: map<Note, nat>)
    requires SearchInv(g, t, stack, clock) && |stack| > 0 && stack[|stack| - 1] == Frame(v, [n] + rest)
    requires n in t.disc && Counters(t, kids, sep, scores)
    ensures v in t.parent && v in t.low
    ensures Counters(if t.parent[v] == Below(n) then t else Lower(t, v, t.disc[n]), kids, sep, scores)
    ensures SearchInv(g, if t.parent[v] == Below(n) then t else Lower(t, v, t.disc[n]),
                      stack[..|stack| - 1] + [Frame(v, rest)], clock)
  {
    assert n in stack[|stack| - 1].rest;
    assert ([n] + rest)[1..] == rest;
    assert stack[|stack| - 1 := Frame(v, rest)] == stack[..|stack| - 1] + [Frame(v, rest)];
    if t.parent[v] == Below(n) {
      ConsumeKeepsInv(g, t, stack, clock, |stack| - 1);
    } else {
      LowerKeepsCounters(t, v, t.disc[n], kids, sep, scores);
      assert Above(t, v, v);
      assert SeesBelow(g, t, v, t.disc[n]);
      LowerKeepsInv(g, t, stack, clock, v, t.disc[n]);
      ConsumeKeepsInv(g, Lower(t, v, t.disc[n]), stack, clock, |stack| - 1);
    }
  }
}
