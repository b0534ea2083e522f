// Reciprocal rank fusion of the vector and the lexical ranking, over exact fractions.
module HybridFusion {
  import Sorting
  import opened Sums

  datatype Key = Key(notePath: string, text: string)

  // A result row: what identifies it, and the rest of its columns.
  datatype Row = Row(key: Key, columns: int)

  // A row together with its rank in the list it comes from.
  datatype Occurrence = Occurrence(row: Row, rank: nat)

  const HYBRID_RRF_K := 60

  // ----- What the order is meant to be -----

  // The rows of a list with their ranks, counted from 1.
  function Ranked(results: seq<Row>): (r: seq<Occurrence>)
    ensures |r| == |results|
    ensures forall i :: 0 <= i < |r| ==> r[i] == Occurrence(results[i], i + 1)
  {
    seq(|results|, i requires 0 <= i < |results| => Occurrence(results[i], i + 1))
  }

  // The order in which the rows are seen.
  function Seen(vector: seq<Row>, fts: seq<Row>): seq<Occurrence> {
    Ranked(vector) + Ranked(fts)
  }

  function Share(rank: nat): (x: real)
    ensures x > 0.0
  {
    1.0 / (HYBRID_RRF_K + rank) as real
  }

  predicate Occurs(occ: seq<Occurrence>, k: Key) {
    exists i :: 0 <= i < |occ| && occ[i].row.key == k
  }

  function Score(occ: seq<Occurrence>, k: Key): (x: real)
    ensures x >= 0.0
    ensures !Occurs(occ, k) ==> x == 0.0
  {
    if occ == [] then 0.0
    else
      var last := occ[|occ| - 1];
      assert last.row.key == k ==> Occurs(occ, k);
      assert Occurs(occ[..|occ| - 1], k) ==> Occurs(occ, k);
      Score(occ[..|occ| - 1], k) + (if last.row.key == k then Share(last.rank) else 0.0)
  }

  // What each place of a list adds to the key's score: 1 / (60 + rank) where the key stands.
  ghost function Shares(results: seq<Row>, k: Key): (r: seq<real>)
    ensures |r| == |results|
    ensures forall i :: 0 <= i < |r| ==> r[i] == if results[i].key == k then 1.0 / (61 + i) as real else 0.0
  {
    seq(|results|, i requires 0 <= i < |results| => if results[i].key == k then 1.0 / (61 + i) as real else 0.0)
  }

  // The score is the sum of the reciprocal ranks over both lists.
  lemma ScoreIsSum(vector: seq<Row>, fts: seq<Row>, k: Key)
    ensures IsSum(Shares(vector, k) + Shares(fts, k), Score(Seen(vector, fts), k))
  {
    hide Score, IsSum;
    SumOfTerms(Seen(vector, fts), k);
    assert Terms(Seen(vector, fts), k) == Shares(vector, k) + Shares(fts, k);
  }

  ghost function Terms(occ: seq<Occurrence>, k: Key): (r: seq<real>)
    ensures |r| == |occ|
    ensures forall i :: 0 <= i < |r| ==> r[i] == if occ[i].row.key == k then Share(occ[i].rank) else 0.0
  {
    seq(|occ|, i requires 0 <= i < |occ| => if occ[i].row.key == k then Share(occ[i].rank) else 0.0)
  }

  lemma {:induction false} SumOfTerms(occ: seq<Occurrence>, k: Key)
    ensures IsSum(Terms(occ, k), Score(occ, k))
  {
    hide IsSum, Share;
    if occ == [] {
      SumOfNone();
      assert Terms(occ, k) == [];
    } else {
      var n := |occ| - 1;
      var term := if occ[n].row.key == k then Share(occ[n].rank) else 0.0;
      SumOfTerms(occ[..n], k);
      SumAppend(Terms(occ[..n], k), term, Score(occ[..n], k));
      assert Terms(occ, k) == Terms(occ[..n], k) + [term];
    }
  }

  // The least rank the key has; 0 when it does not occur.
  function BestRank(occ: seq<Occurrence>, k: Key): nat {
    if occ == [] then 0
    else
      var before, last := BestRank(occ[..|occ| - 1], k), occ[|occ| - 1];
      if last.row.key != k then before
      else if !Occurs(occ[..|occ| - 1], k) || last.rank < before then last.rank
      else before
  }

  // The position at which the key is first seen.
  function FirstSeen(occ: seq<Occurrence>, k: Key): (i: nat)
    ensures i <= |occ| && (Occurs(occ, k) <==> i < |occ|)
    ensures i < |occ| ==> occ[i].row.key == k
    ensures forall j :: 0 <= j < i ==> occ[j].row.key != k
  {
    if occ == [] then 0
    else if occ[0].row.key == k then 0
    else
      var i := FirstSeen(occ[1..], k);
      assert forall j :: 0 < j < |occ| ==> occ[j] == occ[1..][j - 1];
      1 + i
  }

  // By score, then best rank, then order of discovery.
  predicate Ahead(occ: seq<Occurrence>, a: Key, b: Key) {
    || Score(occ, a) > Score(occ, b)
    || (Score(occ, a) == Score(occ, b) &&
        (|| BestRank(occ, a) < BestRank(occ, b)
         || (BestRank(occ, a) == BestRank(occ, b) && FirstSeen(occ, a) < FirstSeen(occ, b))))
  }

  ghost function KeysOf(occ: seq<Occurrence>): set<Key> {
    set i | 0 <= i < |occ| :: occ[i].row.key
  }

  // Two different keys are never tied, so the order determines the output.
  lemma AheadIsTotal(occ: seq<Occurrence>, a: Key, b: Key)
    requires Occurs(occ, a) && a != b
    ensures Ahead(occ, a, b) != Ahead(occ, b, a)
  {
  }

  lemma {:induction false} BestRankIsLeast(occ: seq<Occurrence>, k: Key)
    requires Occurs(occ, k)
    ensures exists i :: 0 <= i < |occ| && occ[i].row.key == k && occ[i].rank == BestRank(occ, k)
    ensures forall i :: 0 <= i < |occ| && occ[i].row.key == k ==> BestRank(occ, k) <= occ[i].rank
  {
    var n := |occ| - 1;
    var before := occ[..n];
    if Occurs(before, k) {
      BestRankIsLeast(before, k);
      var i :| 0 <= i < n && before[i].row.key == k && before[i].rank == BestRank(before, k);
      assert occ[i] == before[i];
      forall j | 0 <= j < |occ| && occ[j].row.key == k
        ensures BestRank(occ, k) <= occ[j].rank
      {
        assert j < n ==> occ[j] == before[j];
      }
    } else {
      assert forall j :: 0 <= j < n ==> before[j].row.key != k && occ[j] == before[j];
    }
  }

  // ----- The fused dictionary -----

  datatype Entry = Entry(row: Row, score: real, bestRank: nat, order: nat)

  lemma FirstSeenAppend(occ: seq<Occurrence>, x: Occurrence, k: Key)
    ensures Occurs(occ + [x], k) <==> Occurs(occ, k) || x.row.key == k
    ensures Occurs(occ, k) ==> FirstSeen(occ + [x], k) == FirstSeen(occ, k)
    ensures !Occurs(occ, k) && x.row.key == k ==> FirstSeen(occ + [x], k) == |occ|
  {
    var all := occ + [x];
    assert forall i :: 0 <= i < |occ| ==> all[i] == occ[i];
    if Occurs(occ, k) {
      var i :| 0 <= i < |occ| && occ[i].row.key == k;
      assert all[i].row.key == k;
      var f, g := FirstSeen(all, k), FirstSeen(occ, k);
      assert all[g] == occ[g];
    } else {
      assert x.row.key == k ==> all[|occ|].row.key == k;
    }
  }

  lemma ScoreAppend(occ: seq<Occurrence>, x: Occurrence, k: Key)
    ensures Score(occ + [x], k) == Score(occ, k) + (if x.row.key == k then Share(x.rank) else 0.0)
    ensures BestRank(occ + [x], k) ==
            if x.row.key != k then BestRank(occ, k)
            else if !Occurs(occ, k) || x.rank < BestRank(occ, k) then x.rank
            else BestRank(occ, k)
  {
    assert (occ + [x])[..|occ|] == occ;
  }

  // The dictionary after the rows of `occ`: its entries in insertion order and where each key is.
  ghost predicate Fused(entries: seq<Entry>, index: map<Key, nat>, occ: seq<Occurrence>) {
    && (forall i :: 0 <= i < |entries| ==> EntryOf(entries[i], i, index, occ))
    && (forall i, j :: 0 <= i < j < |entries| ==>
          FirstSeen(occ, entries[i].row.key) < FirstSeen(occ, entries[j].row.key))
    && (forall k :: k in index ==> index[k] < |entries| && entries[index[k]].row.key == k)
    && (forall k :: Occurs(occ, k) <==> k in index)
  }

  ghost predicate EntryOf(e: Entry, i: nat, index: map<Key, nat>, occ: seq<Occurrence>) {
    var k := e.row.key;
    && k in index && index[k] == i
    && Occurs(occ, k) && e.row == occ[FirstSeen(occ, k)].row
    && e.score == Score(occ, k) && e.bestRank == BestRank(occ, k) && e.order == i
  }

  lemma EntryKept(e: Entry, i: nat, index: map<Key, nat>, occ: seq<Occurrence>, x: Occurrence)
    requires EntryOf(e, i, index, occ) && e.row.key != x.row.key
    ensures EntryOf(e, i, index, occ + [x])
  {
    FirstSeenAppend(occ, x, e.row.key);
    ScoreAppend(occ, x, e.row.key);
  }

  lemma EntryRaised(e: Entry, i: nat, index: map<Key, nat>, occ: seq<Occurrence>, x: Occurrence)
    requires EntryOf(e, i, index, occ) && e.row.key == x.row.key
    ensures EntryOf(Raise(e, x.rank), i, index, occ + [x])
  {
    FirstSeenAppend(occ, x, e.row.key);
    ScoreAppend(occ, x, e.row.key);
  }

  lemma EntryNew(x: Occurrence, i: nat, index: map<Key, nat>, occ: seq<Occurrence>)
    requires !Occurs(occ, x.row.key)
    ensures EntryOf(Raise(Entry(x.row, 0.0, x.rank, i), x.rank), i, index[x.row.key := i], occ + [x])
  {
    FirstSeenAppend(occ, x, x.row.key);
    ScoreAppend(occ, x, x.row.key);
  }

  function Raise(e: Entry, rank: nat): Entry {
    e.(score := e.score + Share(rank), bestRank := if rank < e.bestRank then rank else e.bestRank)
  }

  // The dictionary after one more row.
  function AddRow(entries: seq<Entry>, index: map<Key, nat>, x: Occurrence): (r: (seq<Entry>, map<Key, nat>)) {
    var k := x.row.key;
    if k in index && index[k] < |entries| then (entries[index[k] := Raise(entries[index[k]], x.rank)], index)
    else (entries + [Raise(Entry(x.row, 0.0, x.rank, |entries|), x.rank)], index[k := |entries|])
  }

  lemma FirstSeenOrder(occ: seq<Occurrence>, x: Occurrence)
    ensures forall k :: Occurs(occ, k) ==> FirstSeen(occ + [x], k) == FirstSeen(occ, k) < |occ|
    ensures forall k :: Occurs(occ + [x], k) <==> Occurs(occ, k) || x.row.key == k
    ensures !Occurs(occ, x.row.key) ==> FirstSeen(occ + [x], x.row.key) == |occ|
  {
    forall k
      ensures Occurs(occ, k) ==> FirstSeen(occ + [x], k) == FirstSeen(occ, k)
      ensures Occurs(occ + [x], k) <==> Occurs(occ, k) || x.row.key == k
    {
      FirstSeenAppend(occ, x, k);
    }
    FirstSeenAppend(occ, x, x.row.key);
  }

  lemma AddRowKnown(entries: seq<Entry>, index: map<Key, nat>, occ: seq<Occurrence>, x: Occurrence)
    requires Fused(entries, index, occ) && x.row.key in index
    ensures Fused(AddRow(entries, index, x).0, index, occ + [x])
  {
    hide EntryOf, FirstSeen, Occurs, Score, BestRank;
    var at := index[x.row.key];
    var after := AddRow(entries, index, x).0;
    forall i | 0 <= i < |entries|
      ensures EntryOf(after[i], i, index, occ + [x])
    {
      EntryIndexed(entries[i], i, index, occ);
      if i == at {
        EntryRaised(entries[i], i, index, occ, x);
      } else {
        EntryKept(entries[i], i, index, occ, x);
      }
    }
    FirstSeenOrder(occ, x);
    forall i | 0 <= i < |entries|
      ensures after[i].row.key == entries[i].row.key && Occurs(occ, entries[i].row.key)
    {
      EntryIndexed(entries[i], i, index, occ);
    }
  }

  lemma EntryIndexed(e: Entry, i: nat, index: map<Key, nat>, occ: seq<Occurrence>)
    requires EntryOf(e, i, index, occ)
    ensures e.row.key in index && index[e.row.key] == i && Occurs(occ, e.row.key)
  {
  }

  lemma AddRowNew(entries: seq<Entry>, index: map<Key, nat>, occ: seq<Occurrence>, x: Occurrence)
    requires Fused(entries, index, occ) && x.row.key !in index
    ensures var r := AddRow(entries, index, x); Fused(r.0, r.1, occ + [x])
  {
    hide EntryOf, FirstSeen, Occurs, Score, BestRank;
    var k := x.row.key;
    var after, indexed := AddRow(entries, index, x).0, AddRow(entries, index, x).1;
    EntryNew(x, |entries|, index, occ);
    FirstSeenOrder(occ, x);
    forall i | 0 <= i < |entries|
      ensures EntryOf(after[i], i, indexed, occ + [x]) && Occurs(occ, after[i].row.key)
    {
      EntryIndexed(entries[i], i, index, occ);
      EntryMoved(entries[i], i, index, |entries|, occ, x);
    }
  }

  lemma EntryMoved(e: Entry, i: nat, index: map<Key, nat>, at: nat, occ: seq<Occurrence>, x: Occurrence)
    requires EntryOf(e, i, index, occ) && e.row.key != x.row.key
    ensures EntryOf(e, i, index[x.row.key := at], occ + [x])
  {
    FirstSeenAppend(occ, x, e.row.key);
    ScoreAppend(occ, x, e.row.key);
  }

  // The body of the inner loop: the row's entry is created if need be, then raised.
  method AddResult(entries0: seq<Entry>, index0: map<Key, nat>, result: Row, rank: nat)
    returns (entries: seq<Entry>, index: map<Key, nat>)
    requires result.key in index0 ==> index0[result.key] < |entries0|
    ensures (entries, index) == AddRow(entries0, index0, Occurrence(result, rank))
  {
    entries, index := entries0, index0;
    if result.key !in index {
      index := index[result.key := |entries|];
      entries := entries + [Entry(result, 0.0, rank, |entries|)];
    }
    var at := index[result.key];
    var entry := entries[at];
    entry := entry.(score := entry.score + Share(rank));
    entry := entry.(bestRank := if rank < entry.bestRank then rank else entry.bestRank);
    entries := entries[at := entry];
    assert entry == Raise(if result.key in index0 then entries0[at] else Entry(result, 0.0, rank, |entries0|), rank);
    assert entries == AddRow(entries0, index0, Occurrence(result, rank)).0;
  }

  // The inner loop: one result list is added to the dictionary.
  method AddResults(entries0: seq<Entry>, index0: map<Key, nat>, results: seq<Row>, ghost occ: seq<Occurrence>)
    returns (entries: seq<Entry>, index: map<Key, nat>)
    requires Fused(entries0, index0, occ)
    ensures Fused(entries, index, occ + Ranked(results))
  {
    hide Fused, AddRow;
    entries, index := entries0, index0;
    assert occ + Ranked(results)[..0] == occ;
    for i := 0 to |results|
      invariant Fused(entries, index, occ + Ranked(results)[..i])
    {
      ghost var before := occ + Ranked(results)[..i];
      assert before + [Occurrence(results[i], i + 1)] == occ + Ranked(results)[..i + 1];
      AddRowKeeps(entries, index, before, Occurrence(results[i], i + 1));
      entries, index := AddResult(entries, index, results[i], i + 1);
    }
    assert Ranked(results)[..|results|] == Ranked(results);
  }

  lemma AddRowKeeps(entries: seq<Entry>, index: map<Key, nat>, occ: seq<Occurrence>, x: Occurrence)
    requires Fused(entries, index, occ)
    ensures x.row.key in index ==> index[x.row.key] < |entries|
    ensures var r := AddRow(entries, index, x); Fused(r.0, r.1, occ + [x])
  {
    hide EntryOf;
    KnownInRange(entries, index, occ, x.row.key);
    if x.row.key in index {
      AddRowKnown(entries, index, occ, x);
    } else {
      AddRowNew(entries, index, occ, x);
    }
  }

  lemma KnownInRange(entries: seq<Entry>, index: map<Key, nat>, occ: seq<Occurrence>, k: Key)
    requires Fused(entries, index, occ)
    ensures k in index ==> index[k] < |entries|
  {
  }

  function RankOrder(): (Entry, Entry) -> bool {
    (a: Entry, b: Entry) =>
      || a.score > b.score
      || (a.score == b.score && (a.bestRank < b.bestRank || (a.bestRank == b.bestRank && a.order <= b.order)))
  }

  // ----- The fused ranking -----

  // The first `limit` keys of the order, each once and with the row it was first seen with.
  ghost predicate TopRows(output: seq<Row>, occ: seq<Occurrence>, limit: nat) {
    && |output| == (if limit < |KeysOf(occ)| then limit else |KeysOf(occ)|)
    && (forall i :: 0 <= i < |output| ==>
          Occurs(occ, output[i].key) && output[i] == occ[FirstSeen(occ, output[i].key)].row)
    && (forall i, j :: 0 <= i < j < |output| ==> Ahead(occ, output[i].key, output[j].key))
    && (forall i, k :: 0 <= i < |output| && Occurs(occ, k) && (forall j :: 0 <= j < |output| ==> output[j].key != k) ==>
          Ahead(occ, output[i].key, k))
  }

  lemma RankOrderTotal()
    ensures Sorting.TotalPreorder(RankOrder())
  {
  }

  lemma EntryAhead(a: Entry, b: Entry, i: nat, j: nat, index: map<Key, nat>, entries: seq<Entry>, occ: seq<Occurrence>)
    requires Fused(entries, index, occ) && i < |entries| && j < |entries| && i != j
    requires a == entries[i] && b == entries[j] && RankOrder()(a, b)
    ensures Ahead(occ, a.row.key, b.row.key)
  {
    hide FirstSeen, Score, BestRank, Occurs;
    assert EntryOf(a, i, index, occ) && EntryOf(b, j, index, occ);
  }

  // The entries, once each, every one ahead of those after it.
  ghost predicate Ranking(ranked: seq<Entry>, occ: seq<Occurrence>) {
    && (forall i :: 0 <= i < |ranked| ==>
          Occurs(occ, ranked[i].row.key) && ranked[i].row == occ[FirstSeen(occ, ranked[i].row.key)].row)
    && (forall i, j :: 0 <= i < j < |ranked| ==> Ahead(occ, ranked[i].row.key, ranked[j].row.key))
    && (forall k :: Occurs(occ, k) ==> exists i :: 0 <= i < |ranked| && ranked[i].row.key == k)
    && |ranked| == |KeysOf(occ)|
  }

  ghost function EntryKeys(entries: seq<Entry>, n: nat): set<Key>
    requires n <= |entries|
  {
    set i | 0 <= i < n :: entries[i].row.key
  }

  lemma {:induction false} DistinctCount(entries: seq<Entry>, n: nat)
    requires n <= |entries|
    requires forall i, j :: 0 <= i < j < |entries| ==> entries[i].row.key != entries[j].row.key
    ensures |EntryKeys(entries, n)| == n
  {
    if n == 0 {
      assert EntryKeys(entries, 0) == {};
    } else {
      DistinctCount(entries, n - 1);
      assert EntryKeys(entries, n) == EntryKeys(entries, n - 1) + {entries[n - 1].row.key};
    }
  }

  lemma FusedKeys(entries: seq<Entry>, index: map<Key, nat>, occ: seq<Occurrence>)
    requires Fused(entries, index, occ)
    ensures KeysOf(occ) == EntryKeys(entries, |entries|)
  {
    hide FirstSeen, Score, BestRank;
    forall k
      ensures k in KeysOf(occ) <==> k in EntryKeys(entries, |entries|)
    {
      assert k in KeysOf(occ) <==> Occurs(occ, k);
      if k in EntryKeys(entries, |entries|) {
        var i :| 0 <= i < |entries| && entries[i].row.key == k;
        assert EntryOf(entries[i], i, index, occ);
      }
    }
  }

  lemma EntriesOnce(entries: seq<Entry>, index: map<Key, nat>, occ: seq<Occurrence>)
    requires Fused(entries, index, occ)
    ensures Sorting.Distinct(entries)
    ensures |entries| == |KeysOf(occ)|
  {
    hide FirstSeen, Score, BestRank, Occurs, EntryOf;
    FusedKeys(entries, index, occ);
    DistinctCount(entries, |entries|);
  }

  lemma SortRanks(entries: seq<Entry>, index: map<Key, nat>, occ: seq<Occurrence>)
    requires Fused(entries, index, occ)
    ensures Ranking(Sorting.SortBy(RankOrder(), entries), occ)
  {
    hide FirstSeen, Score, BestRank, Occurs, Ahead, KeysOf, Fused, EntryOf, RankOrder;
    var ranked := Sorting.SortBy(RankOrder(), entries);
    EntriesOnce(entries, index, occ);
    RankOrderTotal();
    Sorting.SortByOrdered(RankOrder(), entries);
    Sorting.SortByDistinct(RankOrder(), entries);
    Sorting.SortByMembers(RankOrder(), entries);
    hide Sorting.SortBy;
    forall i | 0 <= i < |ranked|
      ensures Occurs(occ, ranked[i].row.key) && ranked[i].row == occ[FirstSeen(occ, ranked[i].row.key)].row
    {
      var p := EntryAt(entries, ranked, i);
      EntryRow(entries, index, occ, p);
    }
    forall i, j | 0 <= i < j < |ranked|
      ensures Ahead(occ, ranked[i].row.key, ranked[j].row.key)
    {
      var p := EntryAt(entries, ranked, i);
      var q := EntryAt(entries, ranked, j);
      EntryAhead(ranked[i], ranked[j], p, q, index, entries, occ);
    }
    forall k | Occurs(occ, k)
      ensures exists i :: 0 <= i < |ranked| && ranked[i].row.key == k
    {
      var p := EntryFor(entries, index, occ, k);
      assert entries[p] in ranked;
    }
  }

  lemma EntryRow(entries: seq<Entry>, index: map<Key, nat>, occ: seq<Occurrence>, p: nat)
    requires Fused(entries, index, occ) && p < |entries|
    ensures var k := entries[p].row.key; Occurs(occ, k) && entries[p].row == occ[FirstSeen(occ, k)].row
  {
    assert EntryOf(entries[p], p, index, occ);
  }

  lemma EntryFor(entries: seq<Entry>, index: map<Key, nat>, occ: seq<Occurrence>, k: Key) returns (p: nat)
    requires Fused(entries, index, occ) && Occurs(occ, k)
    ensures p < |entries| && entries[p].row.key == k
  {
    p := index[k];
  }

  lemma EntryAt(entries: seq<Entry>, ranked: seq<Entry>, i: nat) returns (p: nat)
    requires i < |ranked| && (forall e :: e in ranked <==> e in entries)
    ensures p < |entries| && entries[p] == ranked[i]
  {
    assert ranked[i] in entries;
    p :| p < |entries| && entries[p] == ranked[i];
  }

  // `_fuse_hybrid_results`
  method FuseHybridResults(vector: seq<Row>, fts: seq<Row>, limit: int)
    returns (output: seq<Row>, ghost score: Key -> real)
    ensures limit <= 0 ==> output == []
    ensures limit > 0 ==> TopRows(output, Ranked(vector) + Ranked(fts), limit)
    ensures forall k :: IsSum(Shares(vector, k) + Shares(fts, k), score(k))
    ensures forall i, j :: 0 <= i < j < |output| ==>
              var a, b, occ := output[i].key, output[j].key, Ranked(vector) + Ranked(fts);
              || score(a) > score(b)
              || (score(a) == score(b) && BestRank(occ, a) < BestRank(occ, b))
              || (score(a) == score(b) && BestRank(occ, a) == BestRank(occ, b) && FirstSeen(occ, a) < FirstSeen(occ, b))
  {
    hide *;
    score := k => Score(Seen(vector, fts), k);
    forall k
      ensures IsSum(Shares(vector, k) + Shares(fts, k), score(k))
    {
      ScoreIsSum(vector, fts, k);
    }
    if limit <= 0 {
      return [], score;
    }
    NothingFused();
    var entries, index := AddResults([], map[], vector, []);
    assert [] + Ranked(vector) == Ranked(vector);
    entries, index := AddResults(entries, index, fts, Ranked(vector));
    SeenIs(vector, fts);
    SortRanks(entries, index, Seen(vector, fts));
    var ranked := Sorting.SortBy(RankOrder(), entries);
    output := [];
    var n := if limit < |ranked| then limit else |ranked|;
    for i := 0 to n
      invariant |output| == i && forall j :: 0 <= j < i ==> output[j] == ranked[j].row
    {
      output := output + [ranked[i].row];
    }
    TopOfRanking(ranked, output, Seen(vector, fts), limit);
    TopInOrder(output, Seen(vector, fts), limit);
  }

  lemma TopInOrder(output: seq<Row>, occ: seq<Occurrence>, limit: nat)
    requires TopRows(output, occ, limit)
    ensures forall i, j :: 0 <= i < j < |output| ==>
              var a, b := output[i].key, output[j].key;
              || Score(occ, a) > Score(occ, b)
              || (Score(occ, a) == Score(occ, b) && BestRank(occ, a) < BestRank(occ, b))
              || (Score(occ, a) == Score(occ, b) && BestRank(occ, a) == BestRank(occ, b)
                  && FirstSeen(occ, a) < FirstSeen(occ, b))
  {
    hide Score, BestRank, FirstSeen;
  }

  lemma NothingFused()
    ensures Fused([], map[], [])
  {
  }

  lemma SeenIs(vector: seq<Row>, fts: seq<Row>)
    ensures Seen(vector, fts) == Ranked(vector) + Ranked(fts)
  {
  }

  lemma TopOfRanking(ranked: seq<Entry>, output: seq<Row>, occ: seq<Occurrence>, limit: nat)
    requires Ranking(ranked, occ)
    requires |output| == if limit < |ranked| then limit else |ranked|
    requires forall j :: 0 <= j < |output| ==> output[j] == ranked[j].row
    ensures TopRows(output, occ, limit)
  {
    hide FirstSeen, Score, BestRank, Occurs, Ahead, KeysOf;
    forall i, k | 0 <= i < |output| && Occurs(occ, k) && (forall j :: 0 <= j < |output| ==> output[j].key != k)
      ensures Ahead(occ, output[i].key, k)
    {
      var j :| 0 <= j < |ranked| && ranked[j].row.key == k;
      assert j >= |output|;
    }
  }

  // ----- Dominance -----

  ghost predicate UniqueKeys(results: seq<Row>) {
    forall i, j :: 0 <= i < j < |results| ==> results[i].key != results[j].key
  }

  // In this list `a` comes before `b`, wherever `b` occurs.
  ghost predicate BeforeIn(results: seq<Row>, a: Key, b: Key) {
    forall j :: 0 <= j < |results| && results[j].key == b ==> exists i :: 0 <= i < j && results[i].key == a
  }

  lemma {:induction false} ScoreConcat(s: seq<Occurrence>, t: seq<Occurrence>, k: Key)
    ensures Score(s + t, k) == Score(s, k) + Score(t, k)
    decreases |t|
  {
    if t == [] {
      assert s + t == s;
    } else {
      var n := |t| - 1;
      ScoreConcat(s, t[..n], k);
      assert s + t == (s + t[..n]) + [t[n]];
      ScoreAppend(s + t[..n], t[n], k);
    }
  }

  lemma {:induction false} NoOccurrenceNoScore(results: seq<Row>, n: nat, k: Key)
    requires n <= |results| && forall i :: 0 <= i < n ==> results[i].key != k
    ensures Score(Ranked(results)[..n], k) == 0.0
  {
    forall i | 0 <= i < n
      ensures Ranked(results)[..n][i].row.key != k
    {
    }
  }

  // A key that occurs once in a list scores its share there, and nothing else.
  lemma {:induction false} OneShare(results: seq<Row>, i: nat, n: nat, k: Key)
    requires UniqueKeys(results) && i < n <= |results| && results[i].key == k
    ensures Score(Ranked(results)[..n], k) == Share(i + 1)
    decreases n
  {
    hide Score, Share;
    var before := Ranked(results)[..n - 1];
    assert Ranked(results)[..n] == before + [Ranked(results)[n - 1]];
    ScoreAppend(before, Ranked(results)[n - 1], k);
    if n - 1 == i {
      NoOccurrenceNoScore(results, i, k);
    } else {
      assert results[n - 1].key != results[i].key;
      OneShare(results, i, n - 1, k);
    }
  }

  lemma EarlierRankScoresMore(a: nat, b: nat)
    requires a < b
    ensures Share(a) > Share(b)
  {
    var x, y := (HYBRID_RRF_K + a) as real, (HYBRID_RRF_K + b) as real;
    assert 0.0 < x < y;
    assert 1.0 / x - 1.0 / y == (y - x) / (x * y);
  }

  lemma ListFavours(results: seq<Row>, a: Key, b: Key)
    requires UniqueKeys(results) && BeforeIn(results, a, b)
    ensures Score(Ranked(results), a) >= Score(Ranked(results), b)
    ensures Occurs(Ranked(results), b) ==> Score(Ranked(results), a) > Score(Ranked(results), b)
  {
    hide Score, Share, UniqueKeys, FirstSeen;
    var all := Ranked(results);
    assert all[..|results|] == all;
    if Occurs(all, b) {
      var j: nat :| j < |all| && all[j].row.key == b;
      var i: nat :| i < j && results[i].key == a;
      OneShare(results, i, |results|, a);
      OneShare(results, j, |results|, b);
      EarlierRankScoresMore(i + 1, j + 1);
    }
  }

  // A key before another in every list where the other occurs is ahead of it in the fusion.
  lemma DominantIsAhead(vector: seq<Row>, fts: seq<Row>, a: Key, b: Key)
    requires UniqueKeys(vector) && UniqueKeys(fts)
    requires BeforeIn(vector, a, b) && BeforeIn(fts, a, b)
    requires Occurs(Seen(vector, fts), b)
    ensures Ahead(Seen(vector, fts), a, b)
  {
    hide Score, BestRank, FirstSeen, UniqueKeys, BeforeIn;
    var s, t := Ranked(vector), Ranked(fts);
    ListFavours(vector, a, b);
    ListFavours(fts, a, b);
    ScoreConcat(s, t, a);
    ScoreConcat(s, t, b);
    var i :| 0 <= i < |s + t| && (s + t)[i].row.key == b;
    assert if i < |s| then s[i].row.key == b else t[i - |s|].row.key == b;
  }
}
