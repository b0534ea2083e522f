// Greedy grouping of near-duplicate notes: notes are numbered in discovery order, and the
// similarity of a pair is a number that the grouping takes as given.
module DuplicateGroups {
  import Sorting
  import opened Sums

  type Similarity = (nat, nat) -> real

  // A group: its leader and then its other notes, with the average the source reports.
  datatype Group = Group(notes: seq<nat>, average: real)

  // ----- Who leads whom -----

  // The first earlier note that leads itself and is similar enough, looking from `i` on.
  function FirstLeader(sim: Similarity, threshold: real, j: nat, i: nat): (l: nat)
    requires i <= j
    ensures i <= l <= j
    decreases j, 1, j - i
  {
    if i == j then j
    else if LeaderOf(sim, threshold, i) == i && sim(i, j) >= threshold then i
    else FirstLeader(sim, threshold, j, i + 1)
  }

  function LeaderOf(sim: Similarity, threshold: real, j: nat): (l: nat)
    ensures l <= j
    decreases j, 2
  {
    FirstLeader(sim, threshold, j, 0)
  }

  lemma {:induction false} FirstLeaderIsFirst(sim: Similarity, threshold: real, j: nat, i: nat)
    requires i <= j
    ensures var l := FirstLeader(sim, threshold, j, i);
            && (l < j ==> LeaderOf(sim, threshold, l) == l && sim(l, j) >= threshold)
            && (forall k :: i <= k < l && LeaderOf(sim, threshold, k) == k ==> sim(k, j) < threshold)
    decreases j - i
  {
    if i < j && !(LeaderOf(sim, threshold, i) == i && sim(i, j) >= threshold) {
      FirstLeaderIsFirst(sim, threshold, j, i + 1);
    }
  }

  // A member meets the threshold with its leader, who leads itself, and with no earlier leader.
  lemma MemberMeetsLeader(sim: Similarity, threshold: real, j: nat)
    ensures var l := LeaderOf(sim, threshold, j);
            && LeaderOf(sim, threshold, l) == l
            && (l != j ==> sim(l, j) >= threshold)
            && (forall k :: 0 <= k < l && LeaderOf(sim, threshold, k) == k ==> sim(k, j) < threshold)
  {
    FirstLeaderIsFirst(sim, threshold, j, 0);
  }

  // No two notes that lead themselves, whether of a group or of none, meet the threshold.
  lemma LeadersApart(sim: Similarity, threshold: real, i: nat, j: nat)
    requires i < j && LeaderOf(sim, threshold, i) == i && LeaderOf(sim, threshold, j) == j
    ensures sim(i, j) < threshold
  {
    FirstLeaderIsFirst(sim, threshold, j, 0);
  }

  // The notes led by `l` among the first `n`, in order.
  function Led(sim: Similarity, threshold: real, l: nat, n: nat): (r: seq<nat>)
    ensures forall j: nat :: j in r <==> j < n && LeaderOf(sim, threshold, j) == l
    ensures forall a, b :: 0 <= a < b < |r| ==> r[a] < r[b]
  {
    if n == 0 then []
    else
      var before := Led(sim, threshold, l, n - 1);
      assert forall a :: 0 <= a < |before| ==> before[a] in before;
      before + (if LeaderOf(sim, threshold, n - 1) == l then [n - 1] else [])
  }

  function ScoreSum(sim: Similarity, l: nat, members: seq<nat>): real {
    if members == [] then 0.0
    else ScoreSum(sim, l, members[..|members| - 1]) + sim(l, members[|members| - 1])
  }

  function MakeGroup(sim: Similarity, rounded: real -> real, notes: seq<nat>): Group
    requires |notes| >= 2
  {
    Group(notes, rounded(ScoreSum(sim, notes[0], notes[1..]) / (|notes| - 1) as real))
  }

  // The groups in the order of their leaders, among the first `upto` notes as leaders.
  function Groups(sim: Similarity, threshold: real, rounded: real -> real, n: nat, upto: nat): seq<Group> {
    if upto == 0 then []
    else
      var led := Led(sim, threshold, upto - 1, n);
      Groups(sim, threshold, rounded, n, upto - 1)
      + (if |led| >= 2 then [MakeGroup(sim, rounded, led)] else [])
  }

  function ByAverage(): (Group, Group) -> bool {
    (g: Group, h: Group) => g.average >= h.average
  }

  // ----- What the groups are -----

  // A group of the first `n` notes: a note that leads itself, and exactly the notes it leads.
  ghost predicate IsGroup(sim: Similarity, threshold: real, rounded: real -> real, n: nat, g: Group) {
    && |g.notes| >= 2
    && g == MakeGroup(sim, rounded, g.notes)
    && g.notes == Led(sim, threshold, g.notes[0], n)
  }

  // The reported average is the rounded mean of the members' similarities to their leader.
  ghost predicate IsAverage(sim: Similarity, rounded: real -> real, g: Group) {
    && |g.notes| >= 2
    && exists total ::
         IsSum(Similarities(sim, g.notes[0], g.notes[1..]), total) && g.average == rounded(total / (|g.notes| - 1) as real)
  }

  ghost function Similarities(sim: Similarity, l: nat, members: seq<nat>): (r: seq<real>)
    ensures |r| == |members| && forall i :: 0 <= i < |r| ==> r[i] == sim(l, members[i])
  {
    seq(|members|, i requires 0 <= i < |members| => sim(l, members[i]))
  }

  lemma {:induction false} ScoresAddUp(sim: Similarity, l: nat, members: seq<nat>)
    ensures IsSum(Similarities(sim, l, members), ScoreSum(sim, l, members))
  {
    var terms := Similarities(sim, l, members);
    if members == [] {
      SumOfNone();
      assert terms == [];
    } else {
      var n := |members| - 1;
      ScoresAddUp(sim, l, members[..n]);
      SumAppend(Similarities(sim, l, members[..n]), sim(l, members[n]), ScoreSum(sim, l, members[..n]));
      assert terms == Similarities(sim, l, members[..n]) + [sim(l, members[n])];
    }
  }

  lemma GroupAverage(sim: Similarity, threshold: real, rounded: real -> real, n: nat, g: Group)
    requires IsGroup(sim, threshold, rounded, n, g)
    ensures IsAverage(sim, rounded, g)
  {
    ScoresAddUp(sim, g.notes[0], g.notes[1..]);
  }

  lemma LeaderIsFirst(sim: Similarity, threshold: real, l: nat, n: nat)
    requires l < n && LeaderOf(sim, threshold, l) == l
    ensures var led := Led(sim, threshold, l, n); led != [] && led[0] == l
  {
    var led := Led(sim, threshold, l, n);
    assert l in led;
    assert led[0] in led;
  }

  lemma LedByLeaderOnly(sim: Similarity, threshold: real, l: nat, n: nat)
    requires Led(sim, threshold, l, n) != []
    ensures l < n && LeaderOf(sim, threshold, l) == l
  {
    var j := Led(sim, threshold, l, n)[0];
    assert j in Led(sim, threshold, l, n);
    MemberMeetsLeader(sim, threshold, j);
  }

  // The group led by `l`, if it leads anyone.
  lemma GroupOfLeader(sim: Similarity, threshold: real, rounded: real -> real, n: nat, l: nat, g: Group)
    ensures var led := Led(sim, threshold, l, n);
            IsGroup(sim, threshold, rounded, n, g) && g.notes[0] == l <==>
            |led| >= 2 && g == MakeGroup(sim, rounded, led)
  {
    if Led(sim, threshold, l, n) != [] {
      LedByLeaderOnly(sim, threshold, l, n);
      LeaderIsFirst(sim, threshold, l, n);
    }
  }

  lemma GroupIsLong(sim: Similarity, threshold: real, rounded: real -> real, n: nat, g: Group)
    requires IsGroup(sim, threshold, rounded, n, g)
    ensures |g.notes| >= 2
  {
  }

  // The list of groups holds every group once, and nothing else.
  lemma {:induction false} GroupsAreAll(sim: Similarity, threshold: real, rounded: real -> real, n: nat, upto: nat)
    ensures forall g :: g in Groups(sim, threshold, rounded, n, upto) ==>
              IsGroup(sim, threshold, rounded, n, g) && |g.notes| >= 2 && g.notes[0] < upto
    ensures forall g :: IsGroup(sim, threshold, rounded, n, g) && |g.notes| >= 2 && g.notes[0] < upto ==>
              g in Groups(sim, threshold, rounded, n, upto)
    ensures Sorting.Distinct(Groups(sim, threshold, rounded, n, upto))
  {
    hide IsGroup, Led, MakeGroup;
    if upto > 0 {
      var l := upto - 1;
      GroupsAreAll(sim, threshold, rounded, n, l);
      var before, led := Groups(sim, threshold, rounded, n, l), Led(sim, threshold, l, n);
      if |led| >= 2 {
        var added := MakeGroup(sim, rounded, led);
        GroupOfLeader(sim, threshold, rounded, n, l, added);
        GroupIsLong(sim, threshold, rounded, n, added);
        var all := before + [added];
        assert Groups(sim, threshold, rounded, n, upto) == all;
        forall a, b | 0 <= a < b < |all|
          ensures all[a] != all[b]
        {
          if b == |before| {
            assert before[a] in before;
          } else {
            assert before[a] != before[b];
          }
        }
      } else {
        assert Groups(sim, threshold, rounded, n, upto) == before;
      }
      forall g | IsGroup(sim, threshold, rounded, n, g) && |g.notes| >= 2 && g.notes[0] == l
        ensures g in Groups(sim, threshold, rounded, n, upto)
      {
        GroupOfLeader(sim, threshold, rounded, n, l, g);
      }
    }
  }

  // Two different groups share no note.
  lemma GroupsAreDisjoint(sim: Similarity, threshold: real, rounded: real -> real, n: nat, g: Group, h: Group)
    requires IsGroup(sim, threshold, rounded, n, g) && IsGroup(sim, threshold, rounded, n, h)
    ensures g == h || forall j :: j in g.notes ==> j !in h.notes
  {
    if g.notes[0] != h.notes[0] {
      assert forall j :: j in g.notes ==> LeaderOf(sim, threshold, j) == g.notes[0];
    }
  }

  // The members of a group meet the threshold with its leader; the notes outside every group
  // and the leaders do not meet it with one another.
  lemma GroupsSeparate(sim: Similarity, threshold: real, rounded: real -> real, n: nat, g: Group)
    requires IsGroup(sim, threshold, rounded, n, g)
    ensures forall j :: j in g.notes[1..] ==> g.notes[0] < j < n && sim(g.notes[0], j) >= threshold
    ensures forall i :: 0 <= i < n && i != g.notes[0] && Uncovered(sim, threshold, rounded, n, i) ==>
              (if i < g.notes[0] then sim(i, g.notes[0]) else sim(g.notes[0], i)) < threshold
  {
    var l := g.notes[0];
    LedByLeaderOnly(sim, threshold, l, n);
    forall j | j in g.notes[1..]
      ensures l < j < n && sim(l, j) >= threshold
    {
      var k :| 1 <= k < |g.notes| && g.notes[k] == j;
      assert g.notes[k] in Led(sim, threshold, l, n);
      MemberMeetsLeader(sim, threshold, j);
    }
    forall i: nat | i < n && i != l && Uncovered(sim, threshold, rounded, n, i)
      ensures (if i < l then sim(i, l) else sim(l, i)) < threshold
    {
      UncoveredLeadsItself(sim, threshold, rounded, n, i);
      if i < l {
        LeadersApart(sim, threshold, i, l);
      } else {
        LeadersApart(sim, threshold, l, i);
      }
    }
  }

  // Not a member of any group, though possibly its leader.
  ghost predicate Uncovered(sim: Similarity, threshold: real, rounded: real -> real, n: nat, i: nat) {
    forall g :: IsGroup(sim, threshold, rounded, n, g) ==> i !in g.notes[1..]
  }

  lemma UncoveredLeadsItself(sim: Similarity, threshold: real, rounded: real -> real, n: nat, i: nat)
    requires i < n
    ensures Uncovered(sim, threshold, rounded, n, i) <==> LeaderOf(sim, threshold, i) == i
  {
    var l := LeaderOf(sim, threshold, i);
    MemberMeetsLeader(sim, threshold, i);
    if l != i {
      var led := Led(sim, threshold, l, n);
      LeaderIsFirst(sim, threshold, l, n);
      assert i in led;
      var g := MakeGroup(sim, rounded, led);
      assert IsGroup(sim, threshold, rounded, n, g) && i in g.notes[1..];
    } else {
      forall g | IsGroup(sim, threshold, rounded, n, g)
        ensures i !in g.notes[1..]
      {
        forall k | 1 <= k < |g.notes|
          ensures g.notes[k] != i
        {
          assert g.notes[k] in Led(sim, threshold, g.notes[0], n);
          assert g.notes[0] < g.notes[k];
        }
      }
    }
  }

  // ----- The nested loops -----

  // The notes dealt with before note `i`: the earlier ones and those led by an earlier one.
  ghost predicate Dealt(processed: set<nat>, sim: Similarity, threshold: real, n: nat, i: nat) {
    forall j: nat :: j in processed <==> j < n && (j < i || LeaderOf(sim, threshold, j) < i)
  }

  // The inner loop: the later notes not yet dealt with that are similar to note `i`.
  method SimilarTo(n: nat, sim: Similarity, threshold: real, processed: set<nat>, i: nat) returns (similar: seq<nat>)
    requires i < n && i !in processed && Dealt(processed, sim, threshold, n, i)
    ensures [i] + similar == Led(sim, threshold, i, n)
  {
    hide *;
    IsLeader(n, sim, threshold, processed, i);
    similar := [];
    LedUpTo(sim, threshold, i);
    for j := i + 1 to n
      invariant [i] + similar == Led(sim, threshold, i, j)
    {
      LedStep(n, sim, threshold, processed, i, j);
      if j !in processed {
        if sim(i, j) >= threshold {
          similar := similar + [j];
        }
      }
    }
  }

  lemma IsLeader(n: nat, sim: Similarity, threshold: real, processed: set<nat>, i: nat)
    requires i < n && i !in processed && Dealt(processed, sim, threshold, n, i)
    ensures LeaderOf(sim, threshold, i) == i
  {
    MemberMeetsLeader(sim, threshold, i);
  }

  lemma LedStep(n: nat, sim: Similarity, threshold: real, processed: set<nat>, i: nat, j: nat)
    requires i < j < n && i !in processed && Dealt(processed, sim, threshold, n, i)
    ensures Led(sim, threshold, i, j + 1) ==
            Led(sim, threshold, i, j) + (if j !in processed && sim(i, j) >= threshold then [j] else [])
  {
    IsLeader(n, sim, threshold, processed, i);
    MemberMeetsLeader(sim, threshold, j);
    hide LeaderOf;
  }

  lemma LedUpTo(sim: Similarity, threshold: real, i: nat)
    requires LeaderOf(sim, threshold, i) == i
    ensures Led(sim, threshold, i, i + 1) == [i]
  {
    var before := Led(sim, threshold, i, i);
    if before != [] {
      assert before[0] in before;
      MemberMeetsLeader(sim, threshold, before[0]);
    }
  }

  lemma NotLeading(sim: Similarity, threshold: real, n: nat, i: nat)
    requires LeaderOf(sim, threshold, i) != i
    ensures Led(sim, threshold, i, n) == []
  {
    if Led(sim, threshold, i, n) != [] {
      LedByLeaderOnly(sim, threshold, i, n);
    }
  }

  // Every note a note leads is dealt with once the note itself is.
  lemma DealtNext(
      processed: set<nat>, sim: Similarity, threshold: real, n: nat, i: nat, similar: seq<nat>, after: set<nat>)
    requires i < n && Dealt(processed, sim, threshold, n, i)
    requires if i in processed then similar == [] else [i] + similar == Led(sim, threshold, i, n)
    requires forall j: nat :: j in after <==> j in processed || j == i || j in similar
    ensures Dealt(after, sim, threshold, n, i + 1)
  {
    MemberMeetsLeader(sim, threshold, i);
    if i in processed {
      NotLeading(sim, threshold, n, i);
      assert Led(sim, threshold, i, n) == [];
    }
    forall j: nat
      ensures j in after <==> j < n && (j < i + 1 || LeaderOf(sim, threshold, j) < i + 1)
    {
      assert j in Led(sim, threshold, i, n) <==> j < n && LeaderOf(sim, threshold, j) == i;
      assert i !in processed ==> (j in [i] + similar <==> j == i || j in similar);
    }
  }

  method MarkAll(processed0: set<nat>, similar: seq<nat>) returns (processed: set<nat>)
    ensures forall j: nat :: j in processed <==> j in processed0 || j in similar
  {
    processed := processed0;
    for k := 0 to |similar|
      invariant forall j: nat :: j in processed <==> j in processed0 || j in similar[..k]
    {
      processed := processed + {similar[k]};
    }
  }

  // The grouping loop of `search_duplicates`, and its final sort by average similarity.
  method GroupDuplicates(n: nat, sim: Similarity, threshold: real, rounded: real -> real) returns (groups: seq<Group>)
    ensures forall g :: g in groups <==> IsGroup(sim, threshold, rounded, n, g)
    ensures Sorting.Distinct(groups)
    ensures forall g :: g in groups ==> IsAverage(sim, rounded, g)
    ensures forall a, b :: 0 <= a < b < |groups| ==>
              || groups[a].average > groups[b].average
              || (groups[a].average == groups[b].average && LeaderBefore(groups[a], groups[b]))
  {
    hide Led, LeaderOf, Dealt, IsGroup, IsAverage, LeaderBefore, MakeGroup;
    var processed: set<nat> := {};
    groups := [];
    NoneDealt(sim, threshold, n);
    for i := 0 to n
      invariant Dealt(processed, sim, threshold, n, i)
      invariant groups == Groups(sim, threshold, rounded, n, i)
    {
      ghost var before := processed;
      if i in processed {
        DealtLater(processed, sim, threshold, n, i);
        NotLeading(sim, threshold, n, i);
        DealtNext(before, sim, threshold, n, i, [], processed);
        continue;
      }
      var similar := SimilarTo(n, sim, threshold, processed, i);
      if similar != [] {
        groups := groups + [MakeGroup(sim, rounded, [i] + similar)];
        processed := MarkAll(processed, similar);
      }
      processed := processed + {i};
      DealtNext(before, sim, threshold, n, i, similar, processed);
    }
    GroupsAreAll(sim, threshold, rounded, n, n);
    LeadersInRange(sim, threshold, rounded, n);
    LeadersInOrder(sim, threshold, rounded, n, n);
    groups := SortGroups(groups);
    forall g | g in groups
      ensures IsAverage(sim, rounded, g)
    {
      GroupAverage(sim, threshold, rounded, n, g);
    }
  }

  // The leader of `g` was discovered before that of `h`.
  ghost predicate LeaderBefore(g: Group, h: Group) {
    g.notes != [] && h.notes != [] && g.notes[0] < h.notes[0]
  }

  ghost predicate InLeaderOrder(groups: seq<Group>, upto: nat) {
    && (forall a :: 0 <= a < |groups| ==> groups[a].notes != [] && groups[a].notes[0] < upto)
    && (forall a, b :: 0 <= a < b < |groups| ==> LeaderBefore(groups[a], groups[b]))
  }

  // The groups are found in the order of their leaders.
  lemma {:induction false} LeadersInOrder(sim: Similarity, threshold: real, rounded: real -> real, n: nat, upto: nat)
    ensures InLeaderOrder(Groups(sim, threshold, rounded, n, upto), upto)
  {
    hide Led, LeaderOf;
    if upto > 0 {
      LeadersInOrder(sim, threshold, rounded, n, upto - 1);
      var led := Led(sim, threshold, upto - 1, n);
      var front := Groups(sim, threshold, rounded, n, upto - 1);
      if |led| >= 2 {
        LedByLeaderOnly(sim, threshold, upto - 1, n);
        LeaderIsFirst(sim, threshold, upto - 1, n);
        var g := MakeGroup(sim, rounded, led);
        assert g.notes[0] == upto - 1;
        assert Groups(sim, threshold, rounded, n, upto) == front + [g];
      } else {
        assert Groups(sim, threshold, rounded, n, upto) == front;
      }
    }
  }

  method SortGroups(groups: seq<Group>) returns (r: seq<Group>)
    requires Sorting.Distinct(groups)
    requires forall a, b :: 0 <= a < b < |groups| ==> LeaderBefore(groups[a], groups[b])
    ensures forall g :: g in r <==> g in groups
    ensures Sorting.Distinct(r)
    ensures forall a, b :: 0 <= a < b < |r| ==>
              r[a].average > r[b].average || (r[a].average == r[b].average && LeaderBefore(r[a], r[b]))
  {
    hide LeaderBefore;
    r := Sorting.SortBy(ByAverage(), groups);
    Sorting.SortByMembers(ByAverage(), groups);
    Sorting.SortByDistinct(ByAverage(), groups);
    Sorting.SortByStable(ByAverage(), (g, h) => LeaderBefore(g, h), groups);
    forall a, b | 0 <= a < b < |r|
      ensures r[a].average > r[b].average || (r[a].average == r[b].average && LeaderBefore(r[a], r[b]))
    {
      assert Sorting.InPlace(ByAverage(), (g, h) => LeaderBefore(g, h), r[a], r[b]);
    }
  }

  lemma NoneDealt(sim: Similarity, threshold: real, n: nat)
    ensures Dealt({}, sim, threshold, n, 0)
  {
  }

  lemma DealtLater(processed: set<nat>, sim: Similarity, threshold: real, n: nat, i: nat)
    requires Dealt(processed, sim, threshold, n, i) && i in processed
    ensures LeaderOf(sim, threshold, i) != i
  {
  }

  lemma LeadersInRange(sim: Similarity, threshold: real, rounded: real -> real, n: nat)
    ensures forall g :: IsGroup(sim, threshold, rounded, n, g) ==> |g.notes| >= 2 && g.notes[0] < n
  {
    forall g | IsGroup(sim, threshold, rounded, n, g)
      ensures |g.notes| >= 2 && g.notes[0] < n
    {
      assert g.notes[0] in Led(sim, threshold, g.notes[0], n);
    }
  }
}
