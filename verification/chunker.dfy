// Hierarchical chunking of a text, with overlap applied once at the top.
module Chunker {

  // ----- Splitting on a separator -----

  predicate StartsWith(s: string, prefix: string) {
    |prefix| <= |s| && s[..|prefix|] == prefix
  }

  ghost predicate OccursAt(s: string, sep: string, i: nat) {
    i + |sep| <= |s| && s[i..i + |sep|] == sep
  }

  // The index of the first occurrence of `sep`, or the length of the text.
  function FirstAt(s: string, sep: string): (i: nat)
    requires sep != ""
    ensures i <= |s|
    ensures i < |s| ==> OccursAt(s, sep, i)
    ensures forall j: nat :: j < i ==> !OccursAt(s, sep, j)
  {
    if s == "" then 0
    else if StartsWith(s, sep) then 0
    else
      var i := FirstAt(s[1..], sep);
      OccursLater(s, sep);
      1 + i
  }

  lemma OccursLater(s: string, sep: string)
    requires s != ""
    ensures forall i: nat :: i > 0 ==> (OccursAt(s, sep, i) <==> OccursAt(s[1..], sep, i - 1))
  {
    forall i: nat | i > 0
      ensures OccursAt(s, sep, i) <==> OccursAt(s[1..], sep, i - 1)
    {
      if i + |sep| <= |s| {
        var j := i - 1;
        assert s[1..][j..j + |sep|] == s[1 + j..1 + j + |sep|];
      }
    }
  }

  // Python's `str.split`: parts between the leftmost non-overlapping occurrences.
  function Split(s: string, sep: string): (parts: seq<string>)
    requires sep != ""
    ensures |parts| >= 1
    decreases |s|
  {
    var i := FirstAt(s, sep);
    if i >= |s| then [s] else [s[..i]] + Split(s[i + |sep|..], sep)
  }

  // The parts after the first, each with the separator before it.
  function Tail(parts: seq<string>, sep: string): string {
    if parts == [] then "" else sep + parts[0] + Tail(parts[1..], sep)
  }

  lemma {:induction false} SplitJoins(s: string, sep: string)
    requires sep != ""
    ensures var parts := Split(s, sep); parts[0] + Tail(parts[1..], sep) == s
    decreases |s|
  {
    hide FirstAt;
    var i := FirstAt(s, sep);
    if i < |s| {
      var rest := s[i + |sep|..];
      SplitJoins(rest, sep);
      TailOfMore(s[..i], Split(rest, sep), sep);
      assert s == s[..i] + (sep + rest);
    } else {
      assert [s][1..] == [];
    }
  }

  // The separator does not occur.
  ghost predicate Free(s: string, sep: string) {
    forall j: nat :: !OccursAt(s, sep, j)
  }

  // The separator that follows the part is the first one from the part's start.
  ghost predicate EndsFree(part: string, sep: string) {
    forall j: nat :: j < |part| ==> !OccursAt(part + sep, sep, j)
  }

  // The text cut at every separator, from the left.
  ghost predicate IsSplit(s: string, sep: string, parts: seq<string>) {
    && parts != [] && parts[0] + Tail(parts[1..], sep) == s && Free(parts[|parts| - 1], sep)
    && forall i :: 0 <= i < |parts| - 1 ==> EndsFree(parts[i], sep)
  }

  lemma FirstPartEndsFree(s: string, sep: string)
    requires sep != "" && FirstAt(s, sep) < |s|
    ensures EndsFree(s[..FirstAt(s, sep)], sep)
  {
    hide FirstAt;
    var i := FirstAt(s, sep);
    var start := s[..i + |sep|];
    assert s == start + s[i + |sep|..];
    assert s[..i] + sep == start;
    forall j: nat | j < i
      ensures !OccursAt(start, sep, j)
    {
      if OccursAt(start, sep, j) {
        OccursInStart(s, i + |sep|, sep, j);
      }
    }
  }

  lemma OccursInStart(s: string, n: nat, sep: string, j: nat)
    requires n <= |s| && OccursAt(s[..n], sep, j)
    ensures OccursAt(s, sep, j)
  {
    assert s[..n][j..j + |sep|] == s[j..j + |sep|];
  }

  // `str.split` does that.
  lemma {:induction false} SplitIsSplit(s: string, sep: string)
    requires sep != ""
    ensures IsSplit(s, sep, Split(s, sep))
    ensures Free(s, sep) <==> |Split(s, sep)| == 1
    decreases |s|
  {
    hide *;
    var i := FirstAt(s, sep);
    SplitOnce(s, sep);
    SplitJoins(s, sep);
    if i < |s| {
      var rest := s[i + |sep|..];
      FirstPartEndsFree(s, sep);
      OccursSomewhere(s, sep, i);
      SplitIsSplit(rest, sep);
      PartsMore(s, sep, s[..i], rest, Split(rest, sep));
    } else {
      NeverFound(s, sep);
      OnePart(s, sep);
    }
  }

  lemma SplitOnce(s: string, sep: string)
    requires sep != ""
    ensures var i := FirstAt(s, sep);
            if i >= |s| then Split(s, sep) == [s]
            else i + |sep| <= |s| && Split(s, sep) == [s[..i]] + Split(s[i + |sep|..], sep)
  {
    hide FirstAt;
  }

  lemma OnePart(s: string, sep: string)
    requires Free(s, sep)
    ensures IsSplit(s, sep, [s])
  {
    hide Free;
    assert [s][1..] == [] && s + "" == s;
  }

  lemma NeverFound(s: string, sep: string)
    requires sep != "" && FirstAt(s, sep) >= |s|
    ensures Free(s, sep)
  {
    hide FirstAt;
  }

  lemma PartsMore(s: string, sep: string, first: string, rest: string, parts: seq<string>)
    requires IsSplit(rest, sep, parts) && EndsFree(first, sep)
    requires var all := [first] + parts; all[0] + Tail(all[1..], sep) == s
    ensures IsSplit(s, sep, [first] + parts)
  {
    hide Free, EndsFree, Tail;
    var all := [first] + parts;
    assert forall i :: 0 < i < |all| ==> all[i] == parts[i - 1];
  }

  lemma OccursSomewhere(s: string, sep: string, i: nat)
    requires OccursAt(s, sep, i)
    ensures !Free(s, sep)
  {
  }

  lemma TailOfMore(first: string, parts: seq<string>, sep: string)
    requires parts != []
    ensures ([first] + parts)[0] == first
    ensures Tail(([first] + parts)[1..], sep) == sep + (parts[0] + Tail(parts[1..], sep))
  {
    assert ([first] + parts)[1..] == parts;
  }

  // ----- Merging parts greedily -----

  // The chunks the merge loop still produces from `parts`, having gathered `current`.
  function Merge(parts: seq<string>, sep: string, size: nat, current: string): seq<string> {
    if parts == [] then (if current != "" then [current] else [])
    else
      var candidate := if current != "" then current + sep + parts[0] else parts[0];
      if |candidate| <= size then Merge(parts[1..], sep, size, candidate)
      else (if current != "" then [current] else []) + Merge(parts[1..], sep, size, parts[0])
  }

  // ----- The hierarchy -----

  function HardCuts(text: string, size: nat): seq<string>
    requires size >= 1
  {
    if text == "" then []
    else if |text| <= size then [text]
    else [text[..size]] + HardCuts(text[size..], size)
  }

  lemma NothingToCut(size: nat)
    requires size >= 1
    ensures HardCuts("", size) == []
  {
  }

  lemma CutOnce(text: string, size: nat)
    requires size >= 1 && text != ""
    ensures var end := if size < |text| then size else |text|;
            HardCuts(text, size) == [text[..end]] + HardCuts(text[end..], size)
  {
    if |text| == size {
      assert text[size..] == "";
    }
    assert text[..|text|] == text;
  }

  predicate Usable(separators: seq<string>) {
    forall i :: 0 <= i < |separators| ==> separators[i] != ""
  }

  function Chunks(text: string, size: nat, separators: seq<string>, index: nat): seq<string>
    requires size >= 1 && Usable(separators)
    decreases |separators| - index, 1, 0
  {
    if |text| <= size then [text]
    else if index >= |separators| then HardCuts(text, size)
    else
      var parts := Split(text, separators[index]);
      if |parts| <= 1 then Chunks(text, size, separators, index + 1)
      else RefineAll(Merge(parts, separators[index], size, ""), size, separators, index)
  }

  // Raw chunks that are still too long are split by the next separator.
  function RefineAll(raw: seq<string>, size: nat, separators: seq<string>, index: nat): seq<string>
    requires size >= 1 && Usable(separators) && index < |separators|
    decreases |separators| - index, 0, |raw|
  {
    if raw == [] then []
    else
      (if |raw[0]| > size then Chunks(raw[0], size, separators, index + 1) else [raw[0]])
      + RefineAll(raw[1..], size, separators, index)
  }

  // What is left of the text from position `i` on.
  function From(text: string, i: nat): string {
    if i < |text| then text[i..] else ""
  }

  lemma CutAt(text: string, i: nat, size: nat)
    requires size >= 1 && i < |text|
    ensures var end := if i + size <= |text| then i + size else |text|;
            HardCuts(From(text, i), size) == [text[i..end]] + HardCuts(From(text, i + size), size)
  {
    hide HardCuts;
    var end := if i + size <= |text| then i + size else |text|;
    CutOnce(text[i..], size);
    assert text[i..][..end - i] == text[i..end];
    assert text[i..][end - i..] == From(text, i + size);
  }

  // The fallback once every separator is used up: cuts at multiples of the size.
  method CutHard(text: string, size: nat) returns (chunks: seq<string>)
    requires size >= 1
    ensures chunks == HardCuts(text, size)
  {
    hide HardCuts;
    chunks := [];
    var i := 0;
    assert text[0..] == text && From(text, 0) == text;
    while i < |text|
      invariant chunks + HardCuts(From(text, i), size) == HardCuts(text, size)
      decreases |text| - i
    {
      CutAt(text, i, size);
      var end := if i + size <= |text| then i + size else |text|;
      chunks := chunks + [text[i..end]];
      i := i + size;
    }
    NothingToCut(size);
  }

  // `_chunk_with_separators`
  method ChunkWithSeparators(text: string, size: nat, separators: seq<string>, index: nat) returns (chunks: seq<string>)
    requires size >= 1 && Usable(separators)
    ensures chunks == Chunks(text, size, separators, index)
    decreases |separators| - index
  {
    hide Merge, HardCuts, Split, FirstAt;
    if |text| <= size {
      return [text];
    }
    if index >= |separators| {
      chunks := CutHard(text, size);
      return;
    }
    var sep := separators[index];
    var parts := Split(text, sep);
    if |parts| <= 1 {
      chunks := ChunkWithSeparators(text, size, separators, index + 1);
      return;
    }
    var raw := MergeParts(parts, sep, size);
    chunks := [];
    for i := 0 to |raw|
      invariant chunks + RefineAll(raw[i..], size, separators, index) == RefineAll(raw, size, separators, index)
    {
      assert raw[i..][0] == raw[i] && raw[i..][1..] == raw[i + 1..];
      if |raw[i]| > size {
        var sub := ChunkWithSeparators(raw[i], size, separators, index + 1);
        chunks := chunks + sub;
      } else {
        chunks := chunks + [raw[i]];
      }
    }
  }

  // The loop that groups parts into chunks.
  method MergeParts(parts: seq<string>, sep: string, size: nat) returns (raw: seq<string>)
    ensures raw == Merge(parts, sep, size, "")
  {
    hide Merge;
    raw := [];
    var current := "";
    assert parts[0..] == parts;
    for i := 0 to |parts|
      invariant raw + Merge(parts[i..], sep, size, current) == Merge(parts, sep, size, "")
    {
      var part := parts[i];
      MergeStep(parts, i, sep, size, current);
      var candidate := if current != "" then current + sep + part else part;
      if |candidate| <= size {
        current := candidate;
      } else {
        if current != "" {
          raw := raw + [current];
        }
        current := part;
      }
    }
    assert parts[|parts|..] == [];
    MergeEnd(sep, size, current);
    if current != "" {
      raw := raw + [current];
    }
  }

  lemma MergeStep(parts: seq<string>, i: nat, sep: string, size: nat, current: string)
    requires i < |parts|
    ensures var candidate := if current != "" then current + sep + parts[i] else parts[i];
            Merge(parts[i..], sep, size, current) ==
            if |candidate| <= size then Merge(parts[i + 1..], sep, size, candidate)
            else (if current != "" then [current] else []) + Merge(parts[i + 1..], sep, size, parts[i])
  {
    assert parts[i..][0] == parts[i] && parts[i..][1..] == parts[i + 1..];
  }

  lemma MergeEnd(sep: string, size: nat, current: string)
    ensures Merge([], sep, size, current) == if current != "" then [current] else []
  {
  }

  // ----- What the chunks are -----

  // A gap: separators one after the other.
  ghost predicate IsGap(g: string, separators: seq<string>)
    decreases |g|
  {
    g == "" || exists i :: 0 <= i < |separators| && StartsAt(g, separators[i]) && IsGap(g[|separators[i]|..], separators)
  }

  predicate StartsAt(g: string, sep: string) {
    sep != "" && StartsWith(g, sep)
  }

  // The text is the chunks in this order, with nothing but gaps before, between and after them.
  ghost predicate Decomposes(text: string, chunks: seq<string>, separators: seq<string>)
    decreases |chunks|
  {
    if chunks == [] then IsGap(text, separators)
    else exists i: nat :: ChunkAt(text, i, chunks[0], separators)
                     && Decomposes(text[i + |chunks[0]|..], chunks[1..], separators)
  }

  ghost predicate ChunkAt(text: string, i: nat, chunk: string, separators: seq<string>) {
    i + |chunk| <= |text| && IsGap(text[..i], separators) && text[i..i + |chunk|] == chunk
  }

  lemma {:induction false} GapAppend(g: string, h: string, separators: seq<string>)
    requires IsGap(g, separators) && IsGap(h, separators)
    ensures IsGap(g + h, separators)
    decreases |g|
  {
    hide IsGap;
    if g == "" {
      assert g + h == h;
    } else {
      var i := FirstSeparator(g, separators);
      var rest := g[|separators[i]|..];
      GapAppend(rest, h, separators);
      assert g + h == separators[i] + (rest + h);
      SeparatorFirst(g + h, i, rest + h, separators);
    }
  }

  lemma FirstSeparator(g: string, separators: seq<string>) returns (i: nat)
    requires IsGap(g, separators) && g != ""
    ensures i < |separators| && separators[i] != "" && |separators[i]| <= |g|
    ensures g == separators[i] + g[|separators[i]|..] && IsGap(g[|separators[i]|..], separators)
  {
    i :| i < |separators| && StartsAt(g, separators[i]) && IsGap(g[|separators[i]|..], separators);
  }

  lemma SeparatorFirst(g: string, i: nat, rest: string, separators: seq<string>)
    requires i < |separators| && separators[i] != "" && g == separators[i] + rest && IsGap(rest, separators)
    ensures IsGap(g, separators)
  {
    assert g[|separators[i]|..] == rest;
    assert StartsAt(g, separators[i]);
  }

  lemma SeparatorIsGap(separators: seq<string>, i: nat)
    requires i < |separators| && separators[i] != ""
    ensures IsGap(separators[i], separators)
  {
    var sep := separators[i];
    assert sep[|sep|..] == "";
    assert StartsAt(sep, separators[i]) && IsGap(sep[|separators[i]|..], separators);
  }

  lemma WholeText(text: string, separators: seq<string>)
    ensures Decomposes(text, [text], separators)
  {
    assert text[..0] == "" && text[0..0 + |text|] == text && text[0 + |text|..] == "";
    assert ChunkAt(text, 0, [text][0], separators);
    assert [text][1..] == [];
  }

  lemma FirstChunk(text: string, chunks: seq<string>, separators: seq<string>) returns (i: nat)
    requires chunks != [] && Decomposes(text, chunks, separators)
    ensures ChunkAt(text, i, chunks[0], separators)
    ensures i + |chunks[0]| <= |text| && Decomposes(text[i + |chunks[0]|..], chunks[1..], separators)
  {
    i :| ChunkAt(text, i, chunks[0], separators) && Decomposes(text[i + |chunks[0]|..], chunks[1..], separators);
  }

  lemma PutFirst(text: string, i: nat, chunk: string, chunks: seq<string>, separators: seq<string>)
    requires ChunkAt(text, i, chunk, separators) && Decomposes(text[i + |chunk|..], chunks, separators)
    ensures Decomposes(text, [chunk] + chunks, separators)
  {
    var all := [chunk] + chunks;
    assert all[0] == chunk && all[1..] == chunks;
    assert ChunkAt(text, i, all[0], separators) && Decomposes(text[i + |all[0]|..], all[1..], separators);
  }

  // A gap in front only widens the first gap.
  lemma GapBefore(g: string, text: string, chunks: seq<string>, separators: seq<string>)
    requires IsGap(g, separators) && Decomposes(text, chunks, separators)
    ensures Decomposes(g + text, chunks, separators)
  {
    hide IsGap;
    if chunks == [] {
      GapAppend(g, text, separators);
    } else {
      hide Decomposes;
      var i := FirstChunk(text, chunks, separators);
      GapAppend(g, text[..i], separators);
      var j := |g| + i;
      assert (g + text)[..j] == g + text[..i];
      assert (g + text)[j..j + |chunks[0]|] == text[i..i + |chunks[0]|];
      assert (g + text)[j + |chunks[0]|..] == text[i + |chunks[0]|..];
      PutFirst(g + text, j, chunks[0], chunks[1..], separators);
      assert [chunks[0]] + chunks[1..] == chunks;
    }
  }

  lemma {:induction false} DecomposeAppend(
      s: string, t: string, cs: seq<string>, ds: seq<string>, separators: seq<string>)
    requires Decomposes(s, cs, separators) && Decomposes(t, ds, separators)
    ensures Decomposes(s + t, cs + ds, separators)
    decreases |cs|
  {
    hide IsGap;
    if cs == [] {
      assert cs + ds == ds;
      assert IsGap(s, separators);
      hide Decomposes;
      GapBefore(s, t, ds, separators);
    } else {
      hide Decomposes;
      var i := FirstChunk(s, cs, separators);
      var k := i + |cs[0]|;
      DecomposeAppend(s[k..], t, cs[1..], ds, separators);
      assert (s + t)[..i] == s[..i];
      assert (s + t)[i..k] == s[i..k];
      assert (s + t)[k..] == s[k..] + t;
      PutFirst(s + t, i, cs[0], cs[1..] + ds, separators);
      assert [cs[0]] + (cs[1..] + ds) == cs + ds;
    }
  }

  // ----- Every step decomposes its text -----

  // Merging parts, the first of them already taken as `current`.
  lemma {:induction false} MergeDecomposes(
      parts: seq<string>, size: nat, current: string, separators: seq<string>, k: nat)
    requires k < |separators| && separators[k] != ""
    ensures var sep := separators[k];
            Decomposes(current + Tail(parts, sep), Merge(parts, sep, size, current), separators)
    decreases |parts|
  {
    hide Decomposes, IsGap;
    var sep := separators[k];
    if parts == [] {
      assert current + Tail(parts, sep) == current;
      if current != "" {
        WholeText(current, separators);
      } else {
        NoText(separators);
      }
    } else {
      var rest := Tail(parts[1..], sep);
      var candidate := if current != "" then current + sep + parts[0] else parts[0];
      if current != "" && |candidate| <= size {
        MergeDecomposes(parts[1..], size, candidate, separators, k);
        assert candidate + rest == current + Tail(parts, sep);
      } else {
        MergeDecomposes(parts[1..], size, parts[0], separators, k);
        SeparatorIsGap(separators, k);
        GapBefore(sep, parts[0] + rest, Merge(parts[1..], sep, size, parts[0]), separators);
        assert sep + (parts[0] + rest) == Tail(parts, sep);
        if current != "" {
          WholeText(current, separators);
          DecomposeAppend(current, Tail(parts, sep), [current], Merge(parts[1..], sep, size, parts[0]), separators);
        } else {
          assert current + Tail(parts, sep) == Tail(parts, sep);
          assert Merge(parts, sep, size, current) == Merge(parts[1..], sep, size, parts[0]);
        }
      }
    }
  }

  lemma NoText(separators: seq<string>)
    ensures Decomposes("", [], separators)
  {
  }

  lemma {:induction false} HardCutsDecompose(text: string, size: nat, separators: seq<string>)
    requires size >= 1
    ensures Decomposes(text, HardCuts(text, size), separators)
    decreases |text|
  {
    hide Decomposes;
    if text == "" {
      NoText(separators);
    } else if |text| <= size {
      WholeText(text, separators);
    } else {
      HardCutsDecompose(text[size..], size, separators);
      WholeText(text[..size], separators);
      DecomposeAppend(text[..size], text[size..], [text[..size]], HardCuts(text[size..], size), separators);
      assert text[..size] + text[size..] == text;
    }
  }

  // Chunks come in the order of the text, do not overlap, and leave out separators only.
  lemma {:induction false} ChunksDecompose(text: string, size: nat, separators: seq<string>, index: nat)
    requires size >= 1 && Usable(separators)
    ensures Decomposes(text, Chunks(text, size, separators, index), separators)
    decreases |separators| - index, 1, 0
  {
    hide Decomposes;
    if |text| <= size {
      WholeText(text, separators);
    } else if index >= |separators| {
      HardCutsDecompose(text, size, separators);
    } else {
      var sep := separators[index];
      var parts := Split(text, sep);
      if |parts| <= 1 {
        ChunksDecompose(text, size, separators, index + 1);
      } else {
        SplitJoins(text, sep);
        MergeDecomposes(parts[1..], size, parts[0], separators, index);
        assert Merge(parts, sep, size, "") == Merge(parts[1..], sep, size, parts[0]);
        RefineAllDecomposes(text, Merge(parts, sep, size, ""), size, separators, index);
      }
    }
  }

  lemma {:induction false} RefineAllDecomposes(
      text: string, raw: seq<string>, size: nat, separators: seq<string>, index: nat)
    requires size >= 1 && Usable(separators) && index < |separators|
    requires Decomposes(text, raw, separators)
    ensures Decomposes(text, RefineAll(raw, size, separators, index), separators)
    decreases |separators| - index, 0, |raw|
  {
    hide Decomposes, IsGap, Chunks, ChunkAt;
    if raw != [] {
      var i := FirstChunk(text, raw, separators);
      FirstChunkSplits(text, i, raw[0], separators);
      var k := i + |raw[0]|;
      RefineAllDecomposes(text[k..], raw[1..], size, separators, index);
      var finer := if |raw[0]| > size then Chunks(raw[0], size, separators, index + 1) else [raw[0]];
      if |raw[0]| > size {
        ChunksDecompose(raw[0], size, separators, index + 1);
      } else {
        WholeText(raw[0], separators);
      }
      GapBefore(text[..i], raw[0], finer, separators);
      DecomposeAppend(text[..k], text[k..], finer, RefineAll(raw[1..], size, separators, index), separators);
    }
  }

  lemma FirstChunkSplits(text: string, i: nat, chunk: string, separators: seq<string>)
    requires ChunkAt(text, i, chunk, separators)
    ensures i + |chunk| <= |text| && IsGap(text[..i], separators)
    ensures text[..i] + chunk == text[..i + |chunk|]
    ensures text[..i + |chunk|] + text[i + |chunk|..] == text
  {
  }

  // ----- Sizes -----

  // What `_chunk_with_separators` promises of every chunk of a text that did not fit.
  predicate Fitting(chunks: seq<string>, size: nat) {
    forall i :: 0 <= i < |chunks| ==> 0 < |chunks[i]| <= size
  }

  lemma {:induction false} HardCutsFit(text: string, size: nat)
    requires size >= 1
    ensures Fitting(HardCuts(text, size), size)
    ensures forall i :: 0 <= i < |HardCuts(text, size)| - 1 ==> |HardCuts(text, size)[i]| == size
    decreases |text|
  {
    if |text| > size {
      HardCutsFit(text[size..], size);
      CutOnce(text, size);
    }
  }

  lemma {:induction false} MergeNonempty(parts: seq<string>, sep: string, size: nat, current: string)
    ensures forall i :: 0 <= i < |Merge(parts, sep, size, current)| ==> Merge(parts, sep, size, current)[i] != ""
    ensures current != "" ==> Merge(parts, sep, size, current) != []
    ensures Merge(parts, sep, size, current) != [] ==> |Merge(parts, sep, size, current)[0]| >= |current|
    decreases |parts|
  {
    if parts != [] {
      var candidate := if current != "" then current + sep + parts[0] else parts[0];
      MergeNonempty(parts[1..], sep, size, if |candidate| <= size then candidate else parts[0]);
    }
  }

  lemma {:induction false} ChunksFit(text: string, size: nat, separators: seq<string>, index: nat)
    requires size >= 1 && Usable(separators) && text != ""
    ensures Fitting(Chunks(text, size, separators, index), size)
    decreases |separators| - index, 1, 0
  {
    if |text| <= size {
    } else if index >= |separators| {
      HardCutsFit(text, size);
    } else {
      var sep := separators[index];
      var parts := Split(text, sep);
      if |parts| <= 1 {
        ChunksFit(text, size, separators, index + 1);
      } else {
        MergeNonempty(parts, sep, size, "");
        RefineAllFits(Merge(parts, sep, size, ""), size, separators, index);
      }
    }
  }

  lemma {:induction false} RefineAllFits(raw: seq<string>, size: nat, separators: seq<string>, index: nat)
    requires size >= 1 && Usable(separators) && index < |separators|
    requires forall i :: 0 <= i < |raw| ==> raw[i] != ""
    ensures Fitting(RefineAll(raw, size, separators, index), size)
    decreases |separators| - index, 0, |raw|
  {
    if raw != [] {
      hide Chunks;
      RefineAllFits(raw[1..], size, separators, index);
      if |raw[0]| > size {
        ChunksFit(raw[0], size, separators, index + 1);
      }
    }
  }

  // The merge is greedy: no two neighbours it produced would have fitted together.
  lemma {:induction false} MergeIsMaximal(parts: seq<string>, sep: string, size: nat, current: string)
    ensures var r := Merge(parts, sep, size, current);
            forall i :: 0 <= i < |r| - 1 ==> |r[i]| + |sep| + |r[i + 1]| > size
    decreases |parts|
  {
    if parts != [] {
      var candidate := if current != "" then current + sep + parts[0] else parts[0];
      var next := if |candidate| <= size then candidate else parts[0];
      MergeIsMaximal(parts[1..], sep, size, next);
      MergeNonempty(parts[1..], sep, size, next);
    }
  }

  // ----- Which separator cuts where -----

  // The first separator that occurs in the text.
  ghost predicate FirstOccurring(text: string, separators: seq<string>, index: nat, k: nat) {
    && index <= k < |separators| && !Free(text, separators[k])
    && forall j :: index <= j < k ==> Free(text, separators[j])
  }

  ghost predicate JoinAt(parts: seq<string>, sep: string, a: nat, b: nat, chunk: string) {
    a < b <= |parts| && chunk == parts[a] + Tail(parts[a + 1..b], sep)
  }

  // The chunk is some neighbouring parts with the separators between them.
  ghost predicate WholeParts(parts: seq<string>, sep: string, chunk: string) {
    exists a: nat, b: nat :: JoinAt(parts, sep, a, b, chunk)
  }

  ghost predicate Inside(chunk: string, text: string) {
    exists i: nat :: OccursAt(text, chunk, i)
  }

  // The chunk lies inside a part that is too long to stay whole.
  ghost predicate InsideLongPart(parts: seq<string>, size: nat, chunk: string) {
    exists p :: p in parts && |p| > size && Inside(chunk, p)
  }

  // Parts are cut only if they are too long, and joined whenever they fit together.
  ghost predicate CutsAtParts(parts: seq<string>, sep: string, size: nat, chunks: seq<string>) {
    && (forall c :: c in chunks ==> WholeParts(parts, sep, c) || InsideLongPart(parts, size, c))
    && ((forall p :: p in parts ==> |p| <= size) ==>
          && (forall c :: c in chunks ==> WholeParts(parts, sep, c))
          && forall i :: 0 <= i < |chunks| - 1 ==> |chunks[i]| + |sep| + |chunks[i + 1]| > size)
  }

  lemma {:induction false} TailAppend(parts: seq<string>, p: string, sep: string)
    ensures Tail(parts + [p], sep) == Tail(parts, sep) + sep + p
  {
    if parts == [] {
      assert [p][1..] == [];
    } else {
      TailAppend(parts[1..], p, sep);
      assert (parts + [p])[1..] == parts[1..] + [p];
    }
  }

  lemma JoinNext(parts: seq<string>, sep: string, a: nat, i: nat, current: string)
    requires JoinAt(parts, sep, a, i, current) && i < |parts|
    ensures JoinAt(parts, sep, a, i + 1, current + sep + parts[i])
  {
    TailAppend(parts[a + 1..i], parts[i], sep);
    assert parts[a + 1..i + 1] == parts[a + 1..i] + [parts[i]];
  }

  lemma JoinOne(parts: seq<string>, sep: string, i: nat)
    requires i < |parts|
    ensures JoinAt(parts, sep, i, i + 1, parts[i])
  {
    assert parts[i + 1..i + 1] == [];
  }

  // A merged chunk is whole parts, and a single one if it is too long.
  ghost predicate Merged(parts: seq<string>, sep: string, size: nat, chunk: string) {
    WholeParts(parts, sep, chunk) && (|chunk| > size ==> chunk in parts)
  }

  lemma {:induction false} MergeJoins(
      parts: seq<string>, sep: string, size: nat, a: nat, i: nat, current: string, chunk: string)
    requires i <= |parts| && (current != "" ==> JoinAt(parts, sep, a, i, current) && (|current| > size ==> current in parts))
    requires chunk in Merge(parts[i..], sep, size, current)
    ensures Merged(parts, sep, size, chunk)
    decreases |parts| - i
  {
    hide JoinAt, Merge;
    if i < |parts| {
      MergeStep(parts, i, sep, size, current);
      JoinOne(parts, sep, i);
      var candidate := if current != "" then current + sep + parts[i] else parts[i];
      if current != "" { JoinNext(parts, sep, a, i, current); }
      if |candidate| <= size {
        MergeJoins(parts, sep, size, if current != "" then a else i, i + 1, candidate, chunk);
      } else if current != "" && chunk == current {
      } else {
        MergeJoins(parts, sep, size, i, i + 1, parts[i], chunk);
      }
    } else {
      assert parts[i..] == [];
      MergeEnd(sep, size, current);
    }
  }

  lemma {:induction false} RefineMembers(raw: seq<string>, size: nat, separators: seq<string>, index: nat, chunk: string)
    requires size >= 1 && Usable(separators) && index < |separators|
    requires chunk in RefineAll(raw, size, separators, index)
    ensures (chunk in raw && |chunk| <= size)
            || exists r :: r in raw && |r| > size && chunk in Chunks(r, size, separators, index + 1)
    decreases |raw|
  {
    hide Chunks;
    if raw != [] {
      var first := if |raw[0]| > size then Chunks(raw[0], size, separators, index + 1) else [raw[0]];
      assert RefineAll(raw, size, separators, index) == first + RefineAll(raw[1..], size, separators, index);
      if chunk !in first {
        RefineMembers(raw[1..], size, separators, index, chunk);
      }
    }
  }

  lemma {:induction false} RefineNothing(raw: seq<string>, size: nat, separators: seq<string>, index: nat)
    requires size >= 1 && Usable(separators) && index < |separators|
    requires forall r :: r in raw ==> |r| <= size
    ensures RefineAll(raw, size, separators, index) == raw
    decreases |raw|
  {
    if raw != [] {
      RefineNothing(raw[1..], size, separators, index);
    }
  }

  lemma InsideLater(chunk: string, text: string, i: nat)
    requires i <= |text| && Inside(chunk, text[i..])
    ensures Inside(chunk, text)
  {
    var j: nat :| OccursAt(text[i..], chunk, j);
    assert text[i..][j..j + |chunk|] == text[i + j..i + j + |chunk|];
    assert OccursAt(text, chunk, i + j);
  }

  lemma {:induction false} DecomposedInside(text: string, chunks: seq<string>, separators: seq<string>, chunk: string)
    requires Decomposes(text, chunks, separators) && chunk in chunks
    ensures Inside(chunk, text)
    decreases |chunks|
  {
    hide Decomposes, IsGap;
    var i := FirstChunk(text, chunks, separators);
    if chunk == chunks[0] {
      assert OccursAt(text, chunk, i);
    } else {
      DecomposedInside(text[i + |chunks[0]|..], chunks[1..], separators, chunk);
      InsideLater(chunk, text, i + |chunks[0]|);
    }
  }

  // Separators that do not occur are passed over.
  lemma {:induction false} LevelReached(text: string, size: nat, separators: seq<string>, index: nat, k: nat)
    requires size >= 1 && Usable(separators) && |text| > size && FirstOccurring(text, separators, index, k)
    ensures Chunks(text, size, separators, index) ==
            RefineAll(Merge(Split(text, separators[k]), separators[k], size, ""), size, separators, k)
    decreases k - index
  {
    hide Merge, Split, Free, RefineAll;
    SplitIsSplit(text, separators[index]);
    if index < k {
      LevelReached(text, size, separators, index + 1, k);
    }
  }

  lemma {:induction false} NoLevelReached(text: string, size: nat, separators: seq<string>, index: nat)
    requires size >= 1 && Usable(separators) && |text| > size
    requires forall j :: index <= j < |separators| ==> Free(text, separators[j])
    ensures Chunks(text, size, separators, index) == HardCuts(text, size)
    decreases |separators| - index
  {
    hide Merge, Split, Free, RefineAll, HardCuts;
    if index < |separators| {
      SplitIsSplit(text, separators[index]);
      NoLevelReached(text, size, separators, index + 1);
    }
  }

  // The first separator that occurs decides: its parts stay whole unless they are too long.
  lemma FirstSeparatorCuts(text: string, size: nat, separators: seq<string>, index: nat, k: nat)
    requires size >= 1 && Usable(separators) && |text| > size && FirstOccurring(text, separators, index, k)
    ensures CutsAtParts(Split(text, separators[k]), separators[k], size, Chunks(text, size, separators, index))
  {
    var sep := separators[k];
    var parts := Split(text, sep);
    var raw := Merge(parts, sep, size, "");
    LevelReached(text, size, separators, index, k);
    hide Chunks, RefineAll, Merge, Split, FirstOccurring, WholeParts, Inside;
    assert parts[0..] == parts;
    forall r | r in raw
      ensures Merged(parts, sep, size, r)
    {
      MergeJoins(parts, sep, size, 0, 0, "", r);
    }
    forall c | c in Chunks(text, size, separators, index)
      ensures WholeParts(parts, sep, c) || InsideLongPart(parts, size, c)
    {
      RefineMembers(raw, size, separators, k, c);
      if !(c in raw && |c| <= size) {
        var r :| r in raw && |r| > size && c in Chunks(r, size, separators, k + 1);
        ChunksDecompose(r, size, separators, k + 1);
        DecomposedInside(r, Chunks(r, size, separators, k + 1), separators, c);
      }
    }
    if forall p :: p in parts ==> |p| <= size {
      RefineNothing(raw, size, separators, k);
      MergeIsMaximal(parts, sep, size, "");
    }
  }

  // Cuts of one size: the text, cut into pieces of that size and what is left.
  ghost predicate EqualCuts(text: string, size: nat, chunks: seq<string>) {
    && Tail(chunks, "") == text
    && (forall i :: 0 <= i < |chunks| - 1 ==> |chunks[i]| == size)
    && (forall i :: 0 <= i < |chunks| ==> 0 < |chunks[i]| <= size)
  }

  lemma {:induction false} HardCutsAreEqual(text: string, size: nat)
    requires size >= 1
    ensures EqualCuts(text, size, HardCuts(text, size))
    decreases |text|
  {
    HardCutsFit(text, size);
    HardCutsJoin(text, size);
  }

  lemma JoinFirst(chunk: string, chunks: seq<string>)
    ensures Tail([chunk] + chunks, "") == chunk + Tail(chunks, "")
  {
    var all := [chunk] + chunks;
    assert all[0] == chunk && all[1..] == chunks;
    assert "" + chunk == chunk;
  }

  lemma {:induction false} HardCutsJoin(text: string, size: nat)
    requires size >= 1
    ensures Tail(HardCuts(text, size), "") == text
    decreases |text|
  {
    if text != "" {
      hide *;
      var end := if size < |text| then size else |text|;
      var first, rest := text[..end], text[end..];
      CutOnce(text, size);
      HardCutsJoin(rest, size);
      JoinFirst(first, HardCuts(rest, size));
      BothHalves(text, end);
    }
  }

  lemma BothHalves(text: string, i: nat)
    requires i <= |text|
    ensures text[..i] + text[i..] == text
  {
  }

  // How the chunks of a long text come about.
  ghost predicate CutByFirstSeparator(text: string, size: nat, separators: seq<string>, chunks: seq<string>) {
    && (forall k: nat :: FirstOccurring(text, separators, 0, k) ==>
          exists parts :: IsSplit(text, separators[k], parts) && CutsAtParts(parts, separators[k], size, chunks))
    && ((forall j :: 0 <= j < |separators| ==> Free(text, separators[j])) ==> EqualCuts(text, size, chunks))
  }

  lemma ChunksAreCut(text: string, size: nat, separators: seq<string>)
    requires size >= 1 && Usable(separators) && |text| > size
    ensures CutByFirstSeparator(text, size, separators, Chunks(text, size, separators, 0))
  {
    hide Chunks, Split, IsSplit, CutsAtParts, EqualCuts, HardCuts, Free;
    forall k: nat | FirstOccurring(text, separators, 0, k)
      ensures exists parts :: IsSplit(text, separators[k], parts)
                              && CutsAtParts(parts, separators[k], size, Chunks(text, size, separators, 0))
    {
      SplitIsSplit(text, separators[k]);
      FirstSeparatorCuts(text, size, separators, 0, k);
    }
    if forall j :: 0 <= j < |separators| ==> Free(text, separators[j]) {
      NoLevelReached(text, size, separators, 0);
      HardCutsAreEqual(text, size);
    }
  }

  // ----- Overlap -----

  // The first space of the text is at `i`.
  ghost predicate FirstSpace(text: string, i: nat) {
    i < |text| && text[i] == ' ' && forall j :: 0 <= j < i ==> text[j] != ' '
  }

  // An end of the text of length `n` is wanted: all of it, or what follows its first space if
  // that is neither its first nor its last character.
  ghost predicate CutAfterSpace(text: string, n: nat) {
    && (forall i: nat :: FirstSpace(text, i) && 0 < i < |text| - 1 ==> n == |text| - i - 1)
    && ((forall i: nat :: FirstSpace(text, i) ==> i == 0 || i >= |text| - 1) ==> n == |text|)
  }

  lemma SpaceFound(text: string)
    ensures var i := FirstAt(text, " ");
            && (i < |text| ==> FirstSpace(text, i)) && (forall j: nat :: FirstSpace(text, j) ==> j == i)
  {
    hide FirstAt;
    var i := FirstAt(text, " ");
    forall j: nat | j < |text|
      ensures OccursAt(text, " ", j) <==> text[j] == ' '
    {
      assert text[j..j + 1] == [text[j]];
    }
  }

  // `_get_overlap_prefix`: the end of the previous chunk, cut after a space where there is one.
  function OverlapPrefix(text: string, overlap: nat): (prefix: string)
    ensures |prefix| <= overlap
    ensures |prefix| <= |text| && text[|text| - |prefix|..] == prefix
    ensures |prefix| < |text| && |prefix| < overlap ==> text[|text| - |prefix| - 1] == ' '
    ensures overlap > 0 && text != "" ==> prefix != ""
    ensures |text| <= overlap ==> prefix == text
    ensures |text| > overlap ==> CutAfterSpace(text[|text| - overlap..], |prefix|)
  {
    if |text| <= overlap then text
    else
      var candidate := text[|text| - overlap..];
      var space := FirstAt(candidate, " ");
      SpaceFound(candidate);
      if 0 < space < |candidate| - 1 then
        assert candidate[space..space + 1] == " ";
        assert candidate[space + 1..] == text[|text| - overlap + space + 1..];
        candidate[space + 1..]
      else candidate
  }

  // How many characters of the previous chunk a chunk is given.
  function Carried(previous: string, chunk: string, size: nat, overlap: nat): (k: nat)
    ensures k <= |previous| && k <= overlap
    ensures |chunk| <= size ==> k + |chunk| <= size
    ensures |chunk| >= size ==> k == 0
    ensures overlap > 0 && previous != "" && |chunk| < size ==> k > 0
  {
    var wanted := |OverlapPrefix(previous, overlap)|;
    var room := if size > |chunk| then size - |chunk| else 0;
    if wanted > room then room else wanted
  }

  // The prefix, shortened at its front to what the chunk leaves room for.
  method PrefixFor(previous: string, chunk: string, size: nat, overlap: nat) returns (prefix: string)
    ensures var k := Carried(previous, chunk, size, overlap);
            prefix == previous[|previous| - k..]
  {
    hide OverlapPrefix, FirstAt, CutAfterSpace, Carried;
    CarriedIs(previous, chunk, size, overlap);
    prefix := OverlapPrefix(previous, overlap);
    var room := if size > |chunk| then size - |chunk| else 0;
    if |prefix| > room {
      EndOfEnd(previous, |prefix|, room);
      prefix := if room > 0 then prefix[|prefix| - room..] else "";
    }
  }

  lemma FirstKeepsItself(raw: seq<string>, size: nat, overlap: int)
    requires |raw| > 0
    ensures WithOverlap(raw, 0, size, overlap) == raw[0]
  {
  }

  lemma LaterCarries(raw: seq<string>, i: nat, size: nat, overlap: nat)
    requires 0 < i < |raw| && overlap > 0
    ensures var k := Carried(raw[i - 1], raw[i], size, overlap);
            WithOverlap(raw, i, size, overlap) == raw[i - 1][|raw[i - 1]| - k..] + raw[i]
  {
  }

  // The overlap loop, run once over the raw chunks of the whole text.
  method AddOverlap(raw: seq<string>, size: nat, overlap: nat) returns (chunks: seq<string>)
    requires |raw| > 1 && overlap > 0
    ensures |chunks| == |raw|
    ensures forall i :: 0 <= i < |raw| ==> chunks[i] == WithOverlap(raw, i, size, overlap)
  {
    hide *;
    FirstKeepsItself(raw, size, overlap);
    chunks := [raw[0]];
    for i := 1 to |raw|
      invariant |chunks| == i
      invariant forall j :: 0 <= j < i ==> chunks[j] == WithOverlap(raw, j, size, overlap)
    {
      var prefix := PrefixFor(raw[i - 1], raw[i], size, overlap);
      LaterCarries(raw, i, size, overlap);
      chunks := chunks + [prefix + raw[i]];
    }
  }

  // `chunk_text`: each chunk after the first begins with the end of the raw chunk before it.
  method ChunkText(text: string, size: nat, overlap: int, separators: seq<string>)
    returns (chunks: seq<string>, ghost raw: seq<string>)
    requires size >= 1 && Usable(separators)
    ensures raw == Chunks(text, size, separators, 0) && Decomposes(text, raw, separators)
    ensures text != "" ==> Fitting(chunks, size)
    ensures |text| > size ==> CutByFirstSeparator(text, size, separators, raw)
    ensures |chunks| == |raw|
    ensures forall i :: 0 <= i < |raw| ==> chunks[i] == WithOverlap(raw, i, size, overlap)
    ensures overlap <= 0 ==> chunks == raw
    ensures overlap > 0 && raw != [] ==> chunks[0] == raw[0]
    ensures forall i :: 0 < i < |raw| && overlap > 0 ==> Overlaps(raw[i - 1], raw[i], size, overlap, chunks[i])
    ensures |text| <= size ==> chunks == [text]
  {
    hide Decomposes, IsGap, Chunks, CutByFirstSeparator, Overlaps;
    if |text| <= size {
      WholeText(text, separators);
      ShortText(text, size, separators);
      return [text], [text];
    }
    var plain := ChunkWithSeparators(text, size, separators, 0);
    ChunksDecompose(text, size, separators, 0);
    ChunksFit(text, size, separators, 0);
    ChunksAreCut(text, size, separators);
    raw := plain;
    if overlap > 0 && |plain| > 1 {
      chunks := AddOverlap(plain, size, overlap);
    } else {
      chunks := plain;
    }
    forall i | 0 < i < |raw| && overlap > 0
      ensures Overlaps(raw[i - 1], raw[i], size, overlap, chunks[i])
    {
      LaterOverlaps(raw, i, size, overlap);
    }
  }

  // The chunk begins with as much of the end of the previous one as is wanted and fits.
  ghost predicate Overlaps(previous: string, own: string, size: nat, overlap: nat, chunk: string) {
    var wanted := |OverlapPrefix(previous, overlap)|;
    var k := if |own| >= size then 0 else if wanted <= size - |own| then wanted else size - |own|;
    k <= |previous| && chunk == previous[|previous| - k..] + own
  }

  lemma LaterOverlaps(raw: seq<string>, i: nat, size: nat, overlap: nat)
    requires 0 < i < |raw| && overlap > 0
    ensures Overlaps(raw[i - 1], raw[i], size, overlap, WithOverlap(raw, i, size, overlap))
  {
    hide *;
    var previous, own := raw[i - 1], raw[i];
    LaterCarries(raw, i, size, overlap);
    CarriedIs(previous, own, size, overlap);
    OverlapsWith(previous, own, size, overlap, Carried(previous, own, size, overlap), WithOverlap(raw, i, size, overlap));
  }

  lemma OverlapsWith(previous: string, own: string, size: nat, overlap: nat, k: nat, chunk: string)
    requires var wanted := |OverlapPrefix(previous, overlap)|;
             k == if |own| >= size then 0 else if wanted <= size - |own| then wanted else size - |own|
    requires k <= |previous| && chunk == previous[|previous| - k..] + own
    ensures Overlaps(previous, own, size, overlap, chunk)
  {
    hide OverlapPrefix;
  }

  lemma CarriedIs(previous: string, own: string, size: nat, overlap: nat)
    ensures var wanted := |OverlapPrefix(previous, overlap)|;
            Carried(previous, own, size, overlap) ==
            if |own| >= size then 0 else if wanted <= size - |own| then wanted else size - |own|
  {
    hide OverlapPrefix;
  }

  lemma ShortText(text: string, size: nat, separators: seq<string>)
    requires size >= 1 && Usable(separators) && |text| <= size
    ensures Chunks(text, size, separators, 0) == [text]
  {
  }

  lemma EndOfEnd(s: string, m: nat, n: nat)
    requires n <= m <= |s|
    ensures s[|s| - m..][m - n..] == s[|s| - n..]
  {
  }

  // The chunk at `i` as it is returned: an end of the raw chunk before it, then its own raw chunk.
  function WithOverlap(raw: seq<string>, i: nat, size: nat, overlap: int): (chunk: string)
    requires i < |raw|
    ensures |raw[i]| <= |chunk| && chunk[|chunk| - |raw[i]|..] == raw[i]
    ensures |raw[i]| <= size ==> |chunk| <= size
  {
    if i == 0 || overlap <= 0 then raw[i]
    else
      var k := Carried(raw[i - 1], raw[i], size, overlap);
      raw[i - 1][|raw[i - 1]| - k..] + raw[i]
  }
}
