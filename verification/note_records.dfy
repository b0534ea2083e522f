// From a note's content to its index rows: parsing, embedding and record building.
module NoteRecords {
  import opened IndexTables

  type Content = string

  datatype ParseStatus = Success | Empty | ParseError | Unsupported

  datatype LinkInfo = LinkInfo(kind: string, target: string, normalized: string, details: string)

  datatype Parsed = Parsed(status: ParseStatus, chunks: seq<string>, links: seq<LinkInfo>, aliases: seq<string>)

  // The parts this model does not look into: the parsers, the embedding model, string
  // trimming and link normalization. `cap` is the limit on chunks per note.
  datatype Pipeline = Pipeline(
    parse: (Path, Content) -> Parsed,
    embed: string -> Vector,
    strip: string -> string,
    normalize: string -> string,
    cap: nat)

  // A parse succeeds exactly when it yields chunks, and lists each (type, target) once.
  ghost predicate WellParsed(p: Parsed) {
    && (p.status == Success <==> p.chunks != [])
    && (forall i, j :: 0 <= i < j < |p.links| ==>
          (p.links[i].kind, p.links[i].target) != (p.links[j].kind, p.links[j].target))
  }

  ghost predicate WellFormed(pipe: Pipeline) {
    pipe.cap >= 1 && forall p, c :: WellParsed(pipe.parse(p, c))
  }

  // The per-note limit on chunks.
  function Capped(pipe: Pipeline, chunks: seq<string>): (r: seq<string>) {
    if |chunks| > pipe.cap then chunks[..pipe.cap] else chunks
  }

  function EmbedRows(pipe: Pipeline, p: Path, chunks: seq<string>): (rows: seq<Row>)
    ensures |rows| == |chunks| && forall r :: r in rows ==> r.path == p
  {
    seq(|chunks|, i requires 0 <= i < |chunks| => ChunkRow(p, chunks[i], pipe.embed(chunks[i])))
  }

  // A link as the parser records it: external links count as resolved.
  function LinkRowOf(p: Path, l: LinkInfo): Row {
    LinkRow(p, l.kind, l.target, l.normalized, "", l.kind == "external", l.details)
  }

  function LinkRows(p: Path, links: seq<LinkInfo>): (rows: seq<Row>)
    ensures |rows| == |links| && forall r :: r in rows ==> r.path == p && r.LinkRow?
  {
    seq(|links|, i requires 0 <= i < |links| => LinkRowOf(p, links[i]))
  }

  // `_index_aliases`: blank aliases are skipped.
  function AliasRows(pipe: Pipeline, p: Path, aliases: seq<string>): (rows: seq<Row>)
    ensures forall r :: r in rows ==> r.path == p && r.AliasRow?
  {
    if aliases == [] then []
    else
      var a := aliases[|aliases| - 1];
      AliasRows(pipe, p, aliases[..|aliases| - 1])
      + if a != "" && pipe.strip(a) != "" then [AliasRow(p, pipe.strip(a), pipe.normalize(a))] else []
  }

  // ----- The rows a note should have in each table -----

  datatype Kind = Chunks | Links | Aliases

  function RowsOfParsed(pipe: Pipeline, kind: Kind, p: Path, parsed: Parsed): (rows: seq<Row>)
    ensures forall r :: r in rows ==> r.path == p
  {
    if parsed.status != Success then []
    else match kind
      case Chunks => EmbedRows(pipe, p, Capped(pipe, parsed.chunks))
      case Links => LinkRows(p, parsed.links)
      case Aliases => AliasRows(pipe, p, parsed.aliases)
  }

  // Forget how a link was resolved.
  function Erase(r: Row): Row {
    if r.LinkRow? then LinkRow(r.path, r.kind, r.target, r.normalized, "", r.kind == "external", r.details) else r
  }

  function EraseAll(rows: seq<Row>): (t: seq<Row>)
    ensures |t| == |rows| && forall i :: 0 <= i < |rows| ==> t[i] == Erase(rows[i])
  {
    seq(|rows|, i requires 0 <= i < |rows| => Erase(rows[i]))
  }

  // Erasing forgets nothing but where a link leads.
  lemma SameOnceErased(a: Row, b: Row)
    requires a.LinkRow? && b.LinkRow?
    ensures Erase(a) == Erase(b) <==>
            && a.path == b.path && a.kind == b.kind && a.target == b.target
            && a.normalized == b.normalized && a.details == b.details
  {
  }

  lemma EraseAllAppend(s: seq<Row>, t: seq<Row>)
    ensures EraseAll(s + t) == EraseAll(s) + EraseAll(t)
  {
  }

  lemma {:induction false} EraseWithoutPath(rows: seq<Row>, p: Path)
    ensures EraseAll(WithoutPath(rows, p)) == WithoutPath(EraseAll(rows), p)
  {
    if rows != [] {
      EraseWithoutPath(rows[1..], p);
      EraseAllAppend(if rows[0].path == p then [] else [rows[0]], WithoutPath(rows[1..], p));
      assert EraseAll(rows)[1..] == EraseAll(rows[1..]);
    }
  }

  lemma ParsedRowsAreErased(pipe: Pipeline, kind: Kind, p: Path, parsed: Parsed)
    ensures EraseAll(RowsOfParsed(pipe, kind, p, parsed)) == RowsOfParsed(pipe, kind, p, parsed)
  {
    var rows := RowsOfParsed(pipe, kind, p, parsed);
    forall i | 0 <= i < |rows|
      ensures Erase(rows[i]) == rows[i]
    {
      assert rows[i] in rows;
    }
  }

  lemma EraseRemove(t: seq<Row>, i: nat)
    requires i < |t|
    ensures multiset(t) == multiset(t[..i] + t[i + 1..]) + multiset{t[i]}
    ensures multiset(EraseAll(t)) == multiset(EraseAll(t[..i] + t[i + 1..])) + multiset{Erase(t[i])}
  {
    assert t == t[..i] + [t[i]] + t[i + 1..];
    var e := EraseAll(t);
    assert e == e[..i] + [e[i]] + e[i + 1..];
    assert EraseAll(t[..i] + t[i + 1..]) == e[..i] + e[i + 1..];
  }

  // Erasing depends only on the multiset of rows.
  lemma {:induction false} EraseMultiset(s: seq<Row>, t: seq<Row>)
    requires multiset(s) == multiset(t)
    ensures multiset(EraseAll(s)) == multiset(EraseAll(t))
    decreases |s|
  {
    if s == [] {
      assert |t| == |multiset(t)| == |multiset(s)| == 0;
    } else {
      assert s[0] in multiset(t);
      var i :| 0 <= i < |t| && t[i] == s[0];
      EraseRemove(s, 0);
      EraseRemove(t, i);
      assert s[..0] + s[1..] == s[1..];
      var rest := t[..i] + t[i + 1..];
      assert multiset(s[1..]) == multiset(s) - multiset{s[0]};
      assert multiset(rest) == multiset(t) - multiset{t[i]};
      EraseMultiset(s[1..], rest);
    }
  }

  // ----- Many notes -----

  type Result = (Path, Parsed)

  // The rows of a list of parse results, in that order.
  function RowsOfAll(pipe: Pipeline, kind: Kind, results: seq<Result>): seq<Row> {
    if results == [] then []
    else
      var last := results[|results| - 1];
      RowsOfAll(pipe, kind, results[..|results| - 1]) + RowsOfParsed(pipe, kind, last.0, last.1)
  }

  function ChunkTotal(pipe: Pipeline, results: seq<Result>): nat {
    if results == [] then 0
    else
      var last := results[|results| - 1];
      ChunkTotal(pipe, results[..|results| - 1])
      + if last.1.status == Success then |Capped(pipe, last.1.chunks)| else 0
  }

  lemma {:induction false} ChunkTotalIsRowCount(pipe: Pipeline, results: seq<Result>)
    ensures |RowsOfAll(pipe, Chunks, results)| == ChunkTotal(pipe, results)
  {
    if results != [] {
      ChunkTotalIsRowCount(pipe, results[..|results| - 1]);
    }
  }

  ghost predicate DistinctPaths(results: seq<Result>) {
    forall i, j :: 0 <= i < j < |results| ==> results[i].0 != results[j].0
  }

  lemma {:induction false} RowsOfAllCount(pipe: Pipeline, kind: Kind, results: seq<Result>, r: Row)
    requires DistinctPaths(results)
    ensures (forall i :: 0 <= i < |results| ==> results[i].0 != r.path) ==> multiset(RowsOfAll(pipe, kind, results))[r] == 0
    ensures forall i :: 0 <= i < |results| && results[i].0 == r.path ==>
              multiset(RowsOfAll(pipe, kind, results))[r]
              == multiset(RowsOfParsed(pipe, kind, results[i].0, results[i].1))[r]
  {
    if results != [] {
      hide RowsOfParsed;
      var front, last := results[..|results| - 1], results[|results| - 1];
      RowsOfAllCount(pipe, kind, front, r);
      var rows := RowsOfParsed(pipe, kind, last.0, last.1);
      assert r in multiset(rows) <==> r in rows;
      assert r.path != last.0 ==> multiset(rows)[r] == 0;
      assert forall i :: 0 <= i < |front| ==> front[i] == results[i];
    }
  }

  // ----- What a table holds of a note -----

  // The rows of one note, in order.
  ghost function RowsFor(rows: seq<Row>, p: Path): seq<Row> {
    if rows == [] then []
    else RowsFor(rows[..|rows| - 1], p) + if rows[|rows| - 1].path == p then [rows[|rows| - 1]] else []
  }

  // One row for each chunk up to the limit, with the chunk and its own vector.
  ghost predicate ChunksRecorded(pipe: Pipeline, p: Path, parsed: Parsed, rows: seq<Row>) {
    && |rows| == (if |parsed.chunks| <= pipe.cap then |parsed.chunks| else pipe.cap)
    && forall i :: 0 <= i < |rows| ==>
         && rows[i].ChunkRow? && rows[i].path == p
         && rows[i].text == parsed.chunks[i] && rows[i].vector == pipe.embed(parsed.chunks[i])
  }

  // The row says of the link what the parser found, and leads nowhere yet.
  ghost predicate LinkRecorded(p: Path, l: LinkInfo, r: Row) {
    && r.LinkRow? && r.path == p
    && r.kind == l.kind && r.target == l.target && r.normalized == l.normalized && r.details == l.details
    && r.to == "" && (r.resolved <==> l.kind == "external")
  }

  ghost predicate LinksRecorded(p: Path, parsed: Parsed, rows: seq<Row>) {
    |rows| == |parsed.links| && forall i :: 0 <= i < |rows| ==> LinkRecorded(p, parsed.links[i], rows[i])
  }

  ghost predicate Blank(pipe: Pipeline, alias: string) {
    alias == "" || pipe.strip(alias) == ""
  }

  ghost predicate AliasRecorded(pipe: Pipeline, p: Path, alias: string, r: Row) {
    r.AliasRow? && r.path == p && r.alias == pipe.strip(alias) && r.aliasNormalized == pipe.normalize(alias)
  }

  // The positions of the aliases that are not blank, in order.
  ghost predicate PicksAliases(pipe: Pipeline, aliases: seq<string>, at: seq<nat>) {
    && (forall i, j :: 0 <= i < j < |at| ==> at[i] < at[j])
    && (forall i :: 0 <= i < |at| ==> at[i] < |aliases|)
    && (forall j: nat :: j < |aliases| ==> (j in at <==> !Blank(pipe, aliases[j])))
  }

  // One row for each of them, with the trimmed alias and its normalized form.
  ghost predicate AliasesAt(pipe: Pipeline, p: Path, aliases: seq<string>, at: seq<nat>, rows: seq<Row>) {
    && PicksAliases(pipe, aliases, at) && |rows| == |at|
    && forall i :: 0 <= i < |rows| ==> AliasRecorded(pipe, p, aliases[at[i]], rows[i])
  }

  ghost predicate AliasesRecorded(pipe: Pipeline, p: Path, parsed: Parsed, rows: seq<Row>) {
    exists at :: AliasesAt(pipe, p, parsed.aliases, at, rows)
  }

  // What table `kind` is to hold of a note that was parsed like this.
  ghost predicate IsRecorded(pipe: Pipeline, kind: Kind, p: Path, parsed: Parsed, rows: seq<Row>) {
    if parsed.status != Success then rows == []
    else match kind
      case Chunks => ChunksRecorded(pipe, p, parsed, rows)
      case Links => LinksRecorded(p, parsed, rows)
      case Aliases => AliasesRecorded(pipe, p, parsed, rows)
  }

  lemma {:induction false} AliasRowsAt(pipe: Pipeline, p: Path, aliases: seq<string>) returns (at: seq<nat>)
    ensures AliasesAt(pipe, p, aliases, at, AliasRows(pipe, p, aliases))
  {
    at := [];
    if aliases != [] {
      hide AliasesAt, AliasRecorded;
      var n := |aliases| - 1;
      at := AliasRowsAt(pipe, p, aliases[..n]);
      AliasesNext(pipe, p, aliases, at, AliasRows(pipe, p, aliases[..n]));
      if !Blank(pipe, aliases[n]) {
        assert AliasRecorded(pipe, p, aliases[n], AliasRow(p, pipe.strip(aliases[n]), pipe.normalize(aliases[n]))) by {
          NewAliasRow(pipe, p, aliases[n]);
        }
        at := at + [n];
      }
    }
  }

  lemma NewAliasRow(pipe: Pipeline, p: Path, alias: string)
    ensures AliasRecorded(pipe, p, alias, AliasRow(p, pipe.strip(alias), pipe.normalize(alias)))
  {
  }

  lemma AliasesNext(pipe: Pipeline, p: Path, aliases: seq<string>, at: seq<nat>, rows: seq<Row>)
    requires aliases != [] && AliasesAt(pipe, p, aliases[..|aliases| - 1], at, rows)
    ensures var n := |aliases| - 1;
            if Blank(pipe, aliases[n]) then AliasesAt(pipe, p, aliases, at, rows)
            else forall r :: AliasRecorded(pipe, p, aliases[n], r) ==>
                   AliasesAt(pipe, p, aliases, at + [n], rows + [r])
  {
    hide AliasRecorded, Blank, PicksAliases;
    PicksNext(pipe, aliases, at);
    PicksBound(pipe, aliases[..|aliases| - 1], at);
  }

  lemma PicksBound(pipe: Pipeline, aliases: seq<string>, at: seq<nat>)
    requires PicksAliases(pipe, aliases, at)
    ensures forall i :: 0 <= i < |at| ==> at[i] < |aliases|
  {
  }

  lemma PicksNext(pipe: Pipeline, aliases: seq<string>, at: seq<nat>)
    requires aliases != [] && PicksAliases(pipe, aliases[..|aliases| - 1], at)
    ensures var n := |aliases| - 1;
            PicksAliases(pipe, aliases, if Blank(pipe, aliases[n]) then at else at + [n])
  {
    hide Blank;
    var n := |aliases| - 1;
    assert forall i :: 0 <= i < |at| ==> at[i] < n;
    assert n in at + [n];
  }

  // The rows a note is given are what a table is to hold of it.
  lemma ParsedRowsRecorded(pipe: Pipeline, kind: Kind, p: Path, parsed: Parsed)
    ensures IsRecorded(pipe, kind, p, parsed, RowsOfParsed(pipe, kind, p, parsed))
  {
    if kind == Aliases && parsed.status == Success {
      var at := AliasRowsAt(pipe, p, parsed.aliases);
    }
  }

  lemma {:induction false} RowsForAppend(s: seq<Row>, t: seq<Row>, p: Path)
    ensures RowsFor(s + t, p) == RowsFor(s, p) + RowsFor(t, p)
  {
    if t == [] {
      assert s + t == s;
    } else {
      var n := |t| - 1;
      assert (s + t)[..|s + t| - 1] == s + t[..n];
      RowsForAppend(s, t[..n], p);
    }
  }

  lemma {:induction false} RowsForOwn(rows: seq<Row>, q: Path, p: Path)
    requires forall r :: r in rows ==> r.path == q
    ensures RowsFor(rows, p) == if p == q then rows else []
  {
    if rows != [] {
      RowsForOwn(rows[..|rows| - 1], q, p);
      assert rows == rows[..|rows| - 1] + [rows[|rows| - 1]];
    }
  }

  // Deleting a note's rows leaves those of every other note, in order.
  lemma {:induction false} RowsForWithout(rows: seq<Row>, q: Path, p: Path)
    ensures RowsFor(WithoutPath(rows, q), p) == if p == q then [] else RowsFor(rows, p)
  {
    if rows != [] {
      var first := [rows[0]];
      assert rows == first + rows[1..];
      RowsForWithout(rows[1..], q, p);
      RowsForAppend(first, rows[1..], p);
      RowsForOwn(first, rows[0].path, p);
      RowsForAppend(if rows[0].path == q then [] else first, WithoutPath(rows[1..], q), p);
    }
  }

  // Replacing a note's rows changes nothing else.
  lemma RowsForReplaced(before: seq<Row>, q: Path, rows: seq<Row>, p: Path)
    requires forall r :: r in rows ==> r.path == q
    ensures RowsFor(WithoutPath(before, q) + rows, p) == if p == q then rows else RowsFor(before, p)
  {
    RowsForAppend(WithoutPath(before, q), rows, p);
    RowsForWithout(before, q, p);
    RowsForOwn(rows, q, p);
  }

  // In the rows of many notes each has its own, and other paths have none.
  lemma {:induction false} RowsForAll(pipe: Pipeline, kind: Kind, results: seq<Result>, i: nat)
    requires DistinctPaths(results) && i < |results|
    ensures RowsFor(RowsOfAll(pipe, kind, results), results[i].0)
            == RowsOfParsed(pipe, kind, results[i].0, results[i].1)
  {
    hide RowsOfParsed, RowsFor;
    var front, last, p := results[..|results| - 1], results[|results| - 1], results[i].0;
    RowsForAppend(RowsOfAll(pipe, kind, front), RowsOfParsed(pipe, kind, last.0, last.1), p);
    RowsForOwn(RowsOfParsed(pipe, kind, last.0, last.1), last.0, p);
    if i < |front| {
      RowsForAll(pipe, kind, front, i);
    } else {
      RowsForNone(pipe, kind, front, p);
    }
  }

  lemma {:induction false} RowsForNone(pipe: Pipeline, kind: Kind, results: seq<Result>, p: Path)
    requires forall i :: 0 <= i < |results| ==> results[i].0 != p
    ensures RowsFor(RowsOfAll(pipe, kind, results), p) == []
  {
    if results != [] {
      var front, last := results[..|results| - 1], results[|results| - 1];
      RowsForNone(pipe, kind, front, p);
      RowsForAppend(RowsOfAll(pipe, kind, front), RowsOfParsed(pipe, kind, last.0, last.1), p);
      RowsForOwn(RowsOfParsed(pipe, kind, last.0, last.1), last.0, p);
    }
  }

  lemma {:induction false} RowsForCount(rows: seq<Row>, p: Path, r: Row)
    ensures multiset(RowsFor(rows, p))[r] == if r.path == p then multiset(rows)[r] else 0
  {
    if rows != [] {
      RowsForCount(rows[..|rows| - 1], p, r);
      assert rows == rows[..|rows| - 1] + [rows[|rows| - 1]];
    }
  }

  // The link row of some parsed note.
  ghost predicate ParsedLink(results: seq<Result>, r: Row) {
    exists i: nat, j: nat :: ParsedLinkAt(results, i, j, r)
  }

  ghost predicate ParsedLinkAt(results: seq<Result>, i: nat, j: nat, r: Row) {
    && i < |results| && results[i].1.status == Success && j < |results[i].1.links|
    && LinkRecorded(results[i].0, results[i].1.links[j], r)
  }

  lemma LinksOfNote(pipe: Pipeline, results: seq<Result>, i: nat, r: Row)
    requires i < |results|
    ensures r in RowsOfParsed(pipe, Links, results[i].0, results[i].1) <==>
            exists j: nat :: ParsedLinkAt(results, i, j, r)
  {
    var rows := RowsOfParsed(pipe, Links, results[i].0, results[i].1);
    if r in rows {
      var j: nat :| j < |rows| && rows[j] == r;
      assert ParsedLinkAt(results, i, j, r);
    }
    if j: nat :| ParsedLinkAt(results, i, j, r) {
      assert rows[j] == r;
    }
  }

  lemma {:induction false} LinksOfAll(pipe: Pipeline, results: seq<Result>, r: Row)
    ensures r in RowsOfAll(pipe, Links, results) <==> ParsedLink(results, r)
  {
    if results != [] {
      var front, n := results[..|results| - 1], |results| - 1;
      LinksOfAll(pipe, front, r);
      LinksOfNote(pipe, results, n, r);
      ParsedLinkNext(results, r);
      hide RowsOfParsed, ParsedLinkAt, ParsedLink;
      assert RowsOfAll(pipe, Links, results)
             == RowsOfAll(pipe, Links, front) + RowsOfParsed(pipe, Links, results[n].0, results[n].1);
    }
  }

  lemma ParsedLinkNext(results: seq<Result>, r: Row)
    requires results != []
    ensures var n := |results| - 1;
            ParsedLink(results, r) <==> ParsedLink(results[..n], r) || exists j: nat :: ParsedLinkAt(results, n, j, r)
  {
    var n := |results| - 1;
    hide LinkRecorded;
    forall i: nat, j: nat
      ensures i < n ==> (ParsedLinkAt(results, i, j, r) <==> ParsedLinkAt(results[..n], i, j, r))
      ensures ParsedLinkAt(results, i, j, r) ==> i <= n
      ensures ParsedLinkAt(results[..n], i, j, r) ==> i < n
    {
    }
  }
}
