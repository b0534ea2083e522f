// Runs of edits, per-note reindexing and full rebuilds: the incremental index
// agrees with a rebuild of the final vault.
module IncrementalIndex {
  import opened IndexTables
  import opened NoteRecords
  import opened Options
  import opened VaultIndexing
  import LinkResolution

  type Vault = map<Path, Content>

  function Lookup(v: Vault, p: Path): Option<Content> {
    if p in v then Some(v[p]) else None
  }

  // A reindex call between reading its note and replacing the note's rows. It is
  // `current` while the note has not been edited since the call read it.
  datatype Reading = Reading(path: Path, content: Option<Content>, current: bool)

  // A full rebuild in progress: the paths it scanned, the results of those parsed so far and
  // the ones still to parse. The vault is scanned before the write lock is taken. `changed`
  // are the paths edited since the rebuild looked at them.
  datatype Rebuild = Rebuild(
    scanned: set<Path>, results: seq<Result>, todo: set<Path>, changed: set<Path>, locked: bool)

  // `dirty` are the paths edited since the reading that their rows come from. `wrecked` are
  // the tables that a failed call has left as they were when its rollback failed as well, or
  // that a rebuild has published without a link that its resolution lost.
  datatype State = State(
    vault: Vault, tables: TableRows, hand: Option<Reading>, rebuilds: map<nat, Rebuild>, dirty: set<Path>,
    wrecked: set<Kind>)

  // How a rebuild's publishing ends: with all tables, with none, or, when a publish raises
  // after it has taken effect, with that one.
  datatype Outcome = AllTables | NoTable | OneTable(kind: Kind)

  datatype Event =
    | Edit(path: Path, content: Option<Content>)
    | Read(path: Path)
    | Commit(applied: bool, stuck: set<Kind>)
    | Scan(id: nat)
    | Lock(id: nat)
    | Parse(id: nat, path: Path)
    | Publish(id: nat, outcome: Outcome, stuck: set<Kind>)

  // What readers compare: the two resolution fields of links do not count.
  function Seen(k: Kind, rows: seq<Row>): seq<Row> {
    if k == Links then EraseAll(rows) else rows
  }

  // The parse results a rebuild of vault `v` gets, in any order.
  ghost predicate ResultsOf(pipe: Pipeline, v: Vault, results: seq<Result>) {
    && DistinctPaths(results)
    && (forall p :: p in v <==> exists i :: 0 <= i < |results| && results[i].0 == p)
    && (forall i :: 0 <= i < |results| && results[i].0 in v ==>
          results[i].1 == pipe.parse(results[i].0, v[results[i].0]))
  }

  // The rows `full_reindex` publishes for these results.
  ghost predicate PublishedRows(pipe: Pipeline, k: Kind, results: seq<Result>, rows: seq<Row>) {
    multiset(Seen(k, rows)) == multiset(Seen(k, RowsOfAll(pipe, k, results)))
  }

  // Nothing is known of the stuck tables.
  ghost predicate PublishedTables(
      pipe: Pipeline, results: seq<Result>, outcome: Outcome, stuck: set<Kind>, before: TableRows, after: TableRows)
  {
    forall k :: k !in stuck ==>
      if outcome == AllTables || outcome == OneTable(k)
      then PublishedRows(pipe, k, results, after.Of(k)) else after.Of(k) == before.Of(k)
  }

  ghost predicate RestoredTables(stuck: set<Kind>, before: TableRows, after: TableRows) {
    forall k :: k !in stuck ==> after.Of(k) == before.Of(k)
  }

  ghost predicate ReplacedTables(pipe: Pipeline, before: TableRows, after: TableRows, r: Reading) {
    forall k :: after.Of(k) == WithoutPath(before.Of(k), r.path) + NoteRows(pipe, k, r.path, r.content)
  }

  // Parsing a note that is gone by then is an error.
  function ParsedAt(pipe: Pipeline, v: Vault, p: Path): Parsed {
    if p in v then pipe.parse(p, v[p]) else Parsed(ParseError, [], [], [])
  }

  ghost predicate Init(s: State) {
    s.tables == TableRows([], [], []) && s.hand == None && s.rebuilds == map[] && s.dirty == s.vault.Keys
    && s.wrecked == {}
  }

  // An edit of a path that the rebuild does not look at any more.
  function Noticed(r: Rebuild, p: Path): Rebuild {
    if p in r.todo then r else r.(changed := r.changed + {p})
  }

  // The write lock is held: by a reindex call, or by one of the rebuilds.
  ghost predicate LockFree(s: State) {
    s.hand == None && forall id :: id in s.rebuilds ==> !s.rebuilds[id].locked
  }

  function DirtyAfter(dirty: set<Path>, r: Rebuild, outcome: Outcome): set<Path> {
    match outcome
    case AllTables => r.changed
    case NoTable => dirty
    case OneTable(_) => dirty + r.changed
  }

  ghost predicate Step(pipe: Pipeline, s: State, e: Event, s': State) {
    match e
    case Edit(p, content) =>
      && s' == s.(vault := if content == None then s.vault - {p} else s.vault[p := content.value],
                  hand := if s.hand.Some? && s.hand.value.path == p
                          then Some(s.hand.value.(current := false)) else s.hand,
                  rebuilds := map id | id in s.rebuilds :: Noticed(s.rebuilds[id], p),
                  dirty := s.dirty + {p})
    case Read(p) =>
      LockFree(s) && s' == s.(hand := Some(Reading(p, Lookup(s.vault, p), true)))
    case Commit(applied, stuck) =>
      && s.hand.Some?
      && var r := s.hand.value;
      if applied then
        && ReplacedTables(pipe, s.tables, s'.tables, r)
        && s' == s.(tables := s'.tables, hand := None, dirty := if r.current then s.dirty - {r.path} else s.dirty)
      else
        && RestoredTables(stuck, s.tables, s'.tables)
        && s' == s.(tables := s'.tables, hand := None, wrecked := s.wrecked + stuck)
    case Scan(id) =>
      && id !in s.rebuilds
      && s' == s.(rebuilds := s.rebuilds[id := Rebuild(s.vault.Keys, [], s.vault.Keys, {}, false)])
    case Lock(id) =>
      && LockFree(s) && id in s.rebuilds
      && s' == s.(rebuilds := s.rebuilds[id := s.rebuilds[id].(locked := true)])
    case Parse(id, p) =>
      && id in s.rebuilds && s.rebuilds[id].locked && p in s.rebuilds[id].todo
      && var r := s.rebuilds[id];
      s' == s.(rebuilds := s.rebuilds[id :=
                 r.(results := r.results + [(p, ParsedAt(pipe, s.vault, p))], todo := r.todo - {p})])
    case Publish(id, outcome, stuck) =>
      && s.hand == None && id in s.rebuilds && s.rebuilds[id].locked
      && var r := s.rebuilds[id];
      && (outcome != NoTable ==> r.todo == {} && CountErrors(r.results) == 0)
      && PublishedTables(pipe, r.results, outcome, stuck, s.tables, s'.tables)
      && s' == s.(tables := s'.tables, rebuilds := s.rebuilds - {id}, dirty := DirtyAfter(s.dirty, r, outcome),
                  wrecked := if outcome == AllTables then stuck else s.wrecked + stuck)
  }

  ghost predicate Run(pipe: Pipeline, states: seq<State>, events: seq<Event>) {
    && |states| == |events| + 1 && Init(states[0])
    && forall i :: 0 <= i < |events| ==> Step(pipe, states[i], events[i], states[i + 1])
  }

  // ----- The invariant -----

  // Rows of note `p` in table `k` are those of its current content.
  ghost predicate Fresh(pipe: Pipeline, s: State, k: Kind, p: Path) {
    forall r: Row :: r.path == p ==>
      multiset(Seen(k, s.tables.Of(k)))[r] == multiset(NoteRows(pipe, k, p, Lookup(s.vault, p)))[r]
  }

  // What the rebuild has found out about a path is still so, unless the path was edited since.
  ghost predicate UpToDate(pipe: Pipeline, v: Vault, r: Rebuild, p: Path) {
    if p in r.changed || p in r.todo then true
    else if exists i :: 0 <= i < |r.results| && r.results[i].0 == p
    then forall i :: 0 <= i < |r.results| && r.results[i].0 == p ==> r.results[i].1 == ParsedAt(pipe, v, p)
    else p !in v
  }

  ghost predicate RebuildOk(pipe: Pipeline, v: Vault, r: Rebuild) {
    && DistinctPaths(r.results)
    && (forall i :: 0 <= i < |r.results| ==>
          r.results[i].0 !in r.todo && (WellFormed(pipe) ==> WellParsed(r.results[i].1)))
    && (forall p :: p in r.scanned <==> p in r.todo || exists i :: 0 <= i < |r.results| && r.results[i].0 == p)
    && (forall p {:trigger UpToDate(pipe, v, r, p)} :: UpToDate(pipe, v, r, p))
  }

  ghost predicate Inv(pipe: Pipeline, s: State) {
    && (forall k, p {:trigger Fresh(pipe, s, k, p)} :: p !in s.dirty && k !in s.wrecked ==> Fresh(pipe, s, k, p))
    && (s.hand.Some? ==>
          if s.hand.value.current then s.hand.value.content == Lookup(s.vault, s.hand.value.path)
          else s.hand.value.path in s.dirty)
    && (forall id :: id in s.rebuilds ==> RebuildOk(pipe, s.vault, s.rebuilds[id]))
  }

  lemma SeenNoteRows(pipe: Pipeline, k: Kind, p: Path, content: Option<Content>)
    ensures Seen(k, NoteRows(pipe, k, p, content)) == NoteRows(pipe, k, p, content)
  {
    if content.Some? {
      ParsedRowsAreErased(pipe, k, p, pipe.parse(p, content.value));
    }
  }

  lemma NoRowsElsewhere(pipe: Pipeline, k: Kind, p: Path, content: Option<Content>, r: Row)
    requires r.path != p
    ensures multiset(NoteRows(pipe, k, p, content))[r] == 0
  {
    assert r !in NoteRows(pipe, k, p, content);
  }

  lemma ReplacedCount(pipe: Pipeline, k: Kind, before: seq<Row>, after: seq<Row>, p: Path, content: Option<Content>, r: Row)
    requires after == WithoutPath(before, p) + NoteRows(pipe, k, p, content)
    ensures multiset(Seen(k, after))[r] ==
            if r.path == p then multiset(NoteRows(pipe, k, p, content))[r] else multiset(Seen(k, before))[r]
  {
    hide NoteRows;
    var rows := NoteRows(pipe, k, p, content);
    SeenNoteRows(pipe, k, p, content);
    EraseAllAppend(WithoutPath(before, p), rows);
    EraseWithoutPath(before, p);
    assert Seen(k, after) == WithoutPath(Seen(k, before), p) + rows;
    WithoutPathCount(Seen(k, before), p, r);
    if r.path != p {
      NoRowsElsewhere(pipe, k, p, content, r);
    }
  }

  lemma RebuiltCount(pipe: Pipeline, k: Kind, v: Vault, results: seq<Result>, r: Row)
    requires ResultsOf(pipe, v, results)
    ensures multiset(Seen(k, RowsOfAll(pipe, k, results)))[r]
            == multiset(NoteRows(pipe, k, r.path, Lookup(v, r.path)))[r]
  {
    AllRowsErased(pipe, k, results);
    RowsOfAllCount(pipe, k, results, r);
    if r.path in v {
      var i :| 0 <= i < |results| && results[i].0 == r.path;
      assert results[i].1 == pipe.parse(r.path, v[r.path]);
    }
  }

  lemma {:induction false} NoErrorAt(results: seq<Result>, i: nat)
    requires CountErrors(results) == 0 && i < |results|
    ensures results[i].1.status != ParseError
  {
    if i < |results| - 1 {
      NoErrorAt(results[..|results| - 1], i);
    }
  }

  // What a rebuild publishes for a path that was not edited since it was looked at.
  lemma PublishedCount(pipe: Pipeline, k: Kind, v: Vault, rb: Rebuild, r: Row)
    requires RebuildOk(pipe, v, rb) && rb.todo == {} && CountErrors(rb.results) == 0 && r.path !in rb.changed
    ensures multiset(Seen(k, RowsOfAll(pipe, k, rb.results)))[r]
            == multiset(NoteRows(pipe, k, r.path, Lookup(v, r.path)))[r]
  {
    hide Seen, RowsOfAll;
    AllRowsErased(pipe, k, rb.results);
    RowsOfAllCount(pipe, k, rb.results, r);
    assert UpToDate(pipe, v, rb, r.path);
    if i :| 0 <= i < |rb.results| && rb.results[i].0 == r.path {
      NoErrorAt(rb.results, i);
    }
  }

  lemma {:induction false} AllRowsErased(pipe: Pipeline, k: Kind, results: seq<Result>)
    ensures Seen(k, RowsOfAll(pipe, k, results)) == RowsOfAll(pipe, k, results)
  {
    if results == [] {
      assert EraseAll([]) == [];
    } else {
      var front, last := results[..|results| - 1], results[|results| - 1];
      AllRowsErased(pipe, k, front);
      ParsedRowsAreErased(pipe, k, last.0, last.1);
      EraseAllAppend(RowsOfAll(pipe, k, front), RowsOfParsed(pipe, k, last.0, last.1));
    }
  }

  lemma InitKeepsInv(pipe: Pipeline, s: State)
    requires Init(s)
    ensures Inv(pipe, s)
  {
    assert EraseAll([]) == [];
    forall k, p | p !in s.dirty
      ensures Fresh(pipe, s, k, p)
    {
      assert Lookup(s.vault, p) == None;
    }
  }

  lemma StepKeepsFresh(pipe: Pipeline, s: State, e: Event, s': State, k: Kind, p: Path)
    requires Inv(pipe, s) && Step(pipe, s, e, s') && p !in s'.dirty && k !in s'.wrecked
    ensures Fresh(pipe, s', k, p)
  {
    hide NoteRows, Seen, RowsOfAll, WithoutPath, RebuildOk, CountErrors, LockFree;
    if e.Commit? {
      CommitKeepsFresh(pipe, s, e.applied, e.stuck, s', k, p);
    } else if e.Publish? && (e.outcome == AllTables || e.outcome == OneTable(k)) {
      forall r: Row | r.path == p
        ensures multiset(Seen(k, s'.tables.Of(k)))[r] == multiset(NoteRows(pipe, k, p, Lookup(s'.vault, p)))[r]
      {
        PublishedCount(pipe, k, s.vault, s.rebuilds[e.id], r);
      }
    } else {
      assert Fresh(pipe, s, k, p);
      assert s'.tables.Of(k) == s.tables.Of(k);
    }
  }

  lemma EditKeepsRebuild(pipe: Pipeline, v: Vault, r: Rebuild, p: Path, v': Vault)
    requires RebuildOk(pipe, v, r)
    requires forall q :: q != p ==> (q in v' <==> q in v) && (q in v ==> v'[q] == v[q])
    ensures RebuildOk(pipe, v', Noticed(r, p))
  {
    forall q
      ensures UpToDate(pipe, v', Noticed(r, p), q)
    {
      assert UpToDate(pipe, v, r, q);
      if q != p {
        assert ParsedAt(pipe, v', q) == ParsedAt(pipe, v, q);
      }
      hide ParsedAt;
    }
  }

  lemma ParseKeepsRebuild(pipe: Pipeline, v: Vault, r: Rebuild, p: Path)
    requires RebuildOk(pipe, v, r) && p in r.todo
    ensures RebuildOk(pipe, v, r.(results := r.results + [(p, ParsedAt(pipe, v, p))], todo := r.todo - {p}))
  {
    var r' := r.(results := r.results + [(p, ParsedAt(pipe, v, p))], todo := r.todo - {p});
    assert forall i :: 0 <= i < |r.results| ==> r'.results[i] == r.results[i];
    assert r'.results[|r.results|].0 == p;
    forall q
      ensures UpToDate(pipe, v, r', q)
      ensures q in r'.scanned <==> q in r'.todo || exists i :: 0 <= i < |r'.results| && r'.results[i].0 == q
    {
      assert UpToDate(pipe, v, r, q);
    }
  }

  lemma LockKeepsRebuild(pipe: Pipeline, v: Vault, r: Rebuild)
    requires RebuildOk(pipe, v, r)
    ensures RebuildOk(pipe, v, r.(locked := true))
  {
    forall q
      ensures UpToDate(pipe, v, r.(locked := true), q)
    {
      assert UpToDate(pipe, v, r, q);
    }
  }

  lemma ScannedIsOk(pipe: Pipeline, v: Vault)
    ensures RebuildOk(pipe, v, Rebuild(v.Keys, [], v.Keys, {}, false))
  {
  }

  lemma StepKeepsRebuilds(pipe: Pipeline, s: State, e: Event, s': State, id: nat)
    requires Inv(pipe, s) && Step(pipe, s, e, s') && id in s'.rebuilds
    ensures RebuildOk(pipe, s'.vault, s'.rebuilds[id])
  {
    hide Fresh, ReplacedTables, RestoredTables, PublishedTables, RebuildOk, ParsedAt, LockFree;
    match e
    case Edit(p, content) => EditKeepsRebuild(pipe, s.vault, s.rebuilds[id], p, s'.vault);
    case Parse(at, p) =>
      if id == at {
        ParseKeepsRebuild(pipe, s.vault, s.rebuilds[id], p);
      }
    case Lock(at) =>
      if id == at {
        LockKeepsRebuild(pipe, s.vault, s.rebuilds[id]);
      }
    case Scan(at) => ScannedIsOk(pipe, s.vault);
    case _ =>
  }

  lemma StepKeepsInv(pipe: Pipeline, s: State, e: Event, s': State)
    requires Inv(pipe, s) && Step(pipe, s, e, s')
    ensures Inv(pipe, s')
  {
    forall id | id in s'.rebuilds
      ensures RebuildOk(pipe, s'.vault, s'.rebuilds[id])
    {
      StepKeepsRebuilds(pipe, s, e, s', id);
    }
    forall k, p | p !in s'.dirty && k !in s'.wrecked
      ensures Fresh(pipe, s', k, p)
    {
      StepKeepsFresh(pipe, s, e, s', k, p);
    }
    hide Fresh, RebuildOk, ReplacedTables, RestoredTables, PublishedTables, LockFree;
  }

  lemma CommitKeepsFresh(
      pipe: Pipeline, s: State, applied: bool, stuck: set<Kind>, s': State, k: Kind, p: Path)
    requires Inv(pipe, s) && Step(pipe, s, Commit(applied, stuck), s') && p !in s'.dirty && k !in s'.wrecked
    ensures Fresh(pipe, s', k, p)
  {
    hide NoteRows, Seen, RowsOfAll, WithoutPath, RebuildOk;
    var rd := s.hand.value;
    assert p !in s.dirty ==> Fresh(pipe, s, k, p);
    if applied {
      forall r: Row | r.path == p
        ensures multiset(Seen(k, s'.tables.Of(k)))[r] == multiset(NoteRows(pipe, k, p, Lookup(s'.vault, p)))[r]
      {
        ReplacedCount(pipe, k, s.tables.Of(k), s'.tables.Of(k), rd.path, rd.content, r);
      }
    }
  }

  lemma {:induction false} RunKeepsInv(pipe: Pipeline, states: seq<State>, events: seq<Event>, i: nat)
    requires Run(pipe, states, events) && i < |states|
    ensures Inv(pipe, states[i])
  {
    hide Inv, Step;
    if i == 0 {
      InitKeepsInv(pipe, states[0]);
    } else {
      RunKeepsInv(pipe, states, events, i - 1);
      StepKeepsInv(pipe, states[i - 1], events[i - 1], states[i]);
    }
  }

  // Incremental equals full: whenever no path was edited since the reading its rows come
  // from, a table that no failure has wrecked holds what a rebuild of the vault publishes.
  lemma IncrementalEqualsFull(
      pipe: Pipeline, states: seq<State>, events: seq<Event>, results: seq<Result>, k: Kind)
    requires Run(pipe, states, events)
    requires var last := states[|states| - 1]; last.dirty == {} && k !in last.wrecked && ResultsOf(pipe, last.vault, results)
    ensures multiset(Seen(k, states[|states| - 1].tables.Of(k))) == multiset(Seen(k, RowsOfAll(pipe, k, results)))
  {
    hide NoteRows, Seen, RowsOfAll, ResultsOf;
    var last := states[|states| - 1];
    RunKeepsInv(pipe, states, events, |states| - 1);
    forall r: Row
      ensures multiset(Seen(k, last.tables.Of(k)))[r] == multiset(Seen(k, RowsOfAll(pipe, k, results)))[r]
    {
      assert Fresh(pipe, last, k, r.path);
      RebuiltCount(pipe, k, last.vault, results, r);
    }
  }

  // So each table then holds of every path exactly what its note parses to, and nothing of a
  // path without a note.
  lemma NotesAreRecorded(pipe: Pipeline, states: seq<State>, events: seq<Event>, k: Kind, p: Path) returns (rows: seq<Row>)
    requires Run(pipe, states, events)
    requires var last := states[|states| - 1]; p !in last.dirty && k !in last.wrecked
    ensures var last := states[|states| - 1];
            && multiset(RowsFor(Seen(k, last.tables.Of(k)), p)) == multiset(rows)
            && if p in last.vault then IsRecorded(pipe, k, p, pipe.parse(p, last.vault[p]), rows) else rows == []
  {
    var last := states[|states| - 1];
    rows := NoteRows(pipe, k, p, Lookup(last.vault, p));
    RunKeepsInv(pipe, states, events, |states| - 1);
    assert Fresh(pipe, last, k, p);
    if p in last.vault {
      ParsedRowsRecorded(pipe, k, p, pipe.parse(p, last.vault[p]));
    }
    hide NoteRows, Seen, IsRecorded, RowsFor;
    forall r: Row
      ensures multiset(RowsFor(Seen(k, last.tables.Of(k)), p))[r] == multiset(rows)[r]
    {
      RowsForCount(Seen(k, last.tables.Of(k)), p, r);
      if r.path != p {
        NoRowsElsewhere(pipe, k, p, Lookup(last.vault, p), r);
      }
    }
  }

  // ----- What a rebuild leaves of a note edited meanwhile -----

  // The rows of what the rebuild parsed for a path; none when it did not scan it.
  ghost function RowsParsedFor(pipe: Pipeline, k: Kind, results: seq<Result>, p: Path): seq<Row> {
    if results == [] then []
    else
      var last := results[|results| - 1];
      if last.0 == p then RowsOfParsed(pipe, k, p, last.1)
      else RowsParsedFor(pipe, k, results[..|results| - 1], p)
  }

  lemma {:induction false} ParsedForCount(pipe: Pipeline, k: Kind, results: seq<Result>, p: Path, r: Row)
    requires DistinctPaths(results)
    ensures multiset(RowsParsedFor(pipe, k, results, p))[r] ==
            if r.path == p then multiset(RowsOfAll(pipe, k, results))[r] else 0
  {
    if results != [] {
      var front, last := results[..|results| - 1], results[|results| - 1];
      ParsedForCount(pipe, k, front, p, r);
      var rows := RowsOfParsed(pipe, k, last.0, last.1);
      assert r in multiset(rows) <==> r in rows;
      assert RowsOfAll(pipe, k, results) == RowsOfAll(pipe, k, front) + rows;
      if last.0 == p && r.path == p {
        RowsOfAllCount(pipe, k, front, r);
        assert forall i :: 0 <= i < |front| ==> front[i].0 == results[i].0 != p;
      }
    }
  }

  // After a rebuild has published a table, a path's rows there are those of its current
  // content exactly when what the rebuild parsed for it yields the same rows.
  lemma FreshAfterPublish(
      pipe: Pipeline, s: State, id: nat, outcome: Outcome, stuck: set<Kind>, s': State, k: Kind, p: Path)
    requires Inv(pipe, s) && Step(pipe, s, Publish(id, outcome, stuck), s')
    requires (outcome == AllTables || outcome == OneTable(k)) && k !in stuck
    ensures Fresh(pipe, s', k, p) <==>
            multiset(RowsParsedFor(pipe, k, s.rebuilds[id].results, p))
            == multiset(NoteRows(pipe, k, p, Lookup(s.vault, p)))
  {
    hide Seen, RowsOfAll, NoteRows, RowsParsedFor, UpToDate, CountErrors;
    var results := s.rebuilds[id].results;
    var parsed, current := RowsParsedFor(pipe, k, results, p), NoteRows(pipe, k, p, Lookup(s.vault, p));
    AllRowsErased(pipe, k, results);
    assert multiset(Seen(k, s'.tables.Of(k))) == multiset(RowsOfAll(pipe, k, results));
    forall r: Row
      ensures r.path == p ==> multiset(Seen(k, s'.tables.Of(k)))[r] == multiset(parsed)[r]
      ensures r.path != p ==> multiset(parsed)[r] == 0 == multiset(current)[r]
    {
      ParsedForCount(pipe, k, results, p, r);
      if r.path != p {
        NoRowsElsewhere(pipe, k, p, Lookup(s.vault, p), r);
      }
    }
    if Fresh(pipe, s', k, p) {
      assert forall r: Row :: multiset(parsed)[r] == multiset(current)[r];
    }
  }

  // A note is missing from a completed rebuild exactly when the rebuild never scanned its
  // path, or found nothing to index when it parsed it.
  lemma MissingAfterPublish(pipe: Pipeline, s: State, id: nat, stuck: set<Kind>, s': State, p: Path)
    requires WellFormed(pipe) && Inv(pipe, s) && Step(pipe, s, Publish(id, AllTables, stuck), s')
    requires Chunks !in stuck
    ensures var rb := s.rebuilds[id];
            (forall r :: r in s'.tables.chunks ==> r.path != p) <==>
            p !in rb.scanned || exists i :: 0 <= i < |rb.results| && rb.results[i].0 == p
                                            && rb.results[i].1.status != Success
  {
    var rb := s.rebuilds[id];
    hide RowsOfAll, UpToDate, CountErrors, Fresh, EraseAll, WellParsed, DistinctPaths;
    MissingWhenNotParsed(pipe, rb.results, p);
    assert PublishedRows(pipe, Chunks, rb.results, s'.tables.Of(Chunks));
    SameMembers(s'.tables.chunks, RowsOfAll(pipe, Chunks, rb.results));
    NeverParsed(rb, p);
  }

  lemma NeverParsed(rb: Rebuild, p: Path)
    requires DistinctPaths(rb.results) && rb.todo == {}
    requires p in rb.scanned <==> p in rb.todo || exists i :: 0 <= i < |rb.results| && rb.results[i].0 == p
    ensures (forall i :: 0 <= i < |rb.results| && rb.results[i].0 == p ==> rb.results[i].1.status != Success) <==>
            p !in rb.scanned || exists i :: 0 <= i < |rb.results| && rb.results[i].0 == p
                                            && rb.results[i].1.status != Success
  {
    if i :| 0 <= i < |rb.results| && rb.results[i].0 == p {
      assert forall j :: 0 <= j < |rb.results| && rb.results[j].0 == p ==> j == i;
    }
  }

  lemma SameMembers(s: seq<Row>, t: seq<Row>)
    requires multiset(s) == multiset(t)
    ensures forall r :: r in s <==> r in t
  {
    forall r
      ensures r in s <==> r in t
    {
      assert r in s <==> r in multiset(s);
    }
  }

  ghost function RowsOfNote(pipe: Pipeline, p: Path, c: Content): TableRows {
    TableRows(NoteRows(pipe, Chunks, p, Some(c)), NoteRows(pipe, Links, p, Some(c)), NoteRows(pipe, Aliases, p, Some(c)))
  }

  const NO_ROWS := TableRows([], [], [])

  // A rebuild of an empty vault is scanned, then note `p` is written and reindexed.
  lemma NoteAfterScan(pipe: Pipeline, p: Path, c: Content, rb: Rebuild, s0: State, s1: State, s2: State, s3: State, s4: State)
    requires rb == Rebuild({}, [], {}, {p}, false)
    requires s0 == State(map[], NO_ROWS, None, map[], {}, {})
    requires s1 == s0.(rebuilds := map[0 := Rebuild({}, [], {}, {}, false)])
    requires s2 == State(map[p := c], NO_ROWS, None, map[0 := rb], {p}, {})
    requires s3 == s2.(hand := Some(Reading(p, Some(c), true)))
    requires s4 == State(map[p := c], RowsOfNote(pipe, p, c), None, map[0 := rb], {}, {})
    ensures Init(s0) && Step(pipe, s0, Scan(0), s1) && Step(pipe, s1, Edit(p, Some(c)), s2)
    ensures Step(pipe, s2, Read(p), s3) && Step(pipe, s3, Commit(true, {}), s4)
  {
    NoteRowsOfKinds(pipe, p, c, RowsOfNote(pipe, p, c));
    hide NoteRows;
    assert s0.vault.Keys == {} && s0.vault[p := c] == s2.vault && s0.dirty + {p} == s2.dirty;
    assert (map id | id in s1.rebuilds :: Noticed(s1.rebuilds[id], p)) == s2.rebuilds;
    assert Lookup(s2.vault, p) == Some(c);
    assert WithoutPath([], p) == [];
    assert ReplacedTables(pipe, NO_ROWS, RowsOfNote(pipe, p, c), s3.hand.value);
  }

  // The rebuild then takes the lock and publishes what it scanned.
  lemma PublishOfEmptyScan(pipe: Pipeline, p: Path, s4: State, s5: State, s6: State)
    requires s4.hand == None && s4.rebuilds == map[0 := Rebuild({}, [], {}, {p}, false)]
    requires s5 == s4.(rebuilds := map[0 := Rebuild({}, [], {}, {p}, true)])
    requires s6 == s4.(tables := NO_ROWS, rebuilds := map[], dirty := {p}, wrecked := {})
    ensures Step(pipe, s4, Lock(0), s5) && Step(pipe, s5, Publish(0, AllTables, {}), s6)
  {
    assert s4.rebuilds[0 := s4.rebuilds[0].(locked := true)] == s5.rebuilds;
    NothingPublished(pipe, s4.tables);
    assert s5.rebuilds - {0} == map[];
    hide PublishedTables, CountErrors;
  }

  // An applied reindex after the last edit is not enough when a rebuild is under way: the
  // vault is scanned before the write lock is taken, so a note created and reindexed in
  // between is missing from what the rebuild publishes.
  lemma RebuildLosesNote(pipe: Pipeline, p: Path, c: Content) returns (states: seq<State>, events: seq<Event>)
    requires WellFormed(pipe) && pipe.parse(p, c).status == Success
    ensures Run(pipe, states, events)
    ensures events == [Scan(0), Edit(p, Some(c)), Read(p), Commit(true, {}), Lock(0), Publish(0, AllTables, {})]
    ensures states[4].dirty == {} && NoteRows(pipe, Chunks, p, Some(c)) != []
    ensures states[6].vault == map[p := c] && states[6].tables == NO_ROWS && states[6].dirty == {p}
  {
    var rb := Rebuild({}, [], {}, {p}, false);
    var s0 := State(map[], NO_ROWS, None, map[], {}, {});
    var s1 := s0.(rebuilds := map[0 := Rebuild({}, [], {}, {}, false)]);
    var s2 := State(map[p := c], NO_ROWS, None, map[0 := rb], {p}, {});
    var s3 := s2.(hand := Some(Reading(p, Some(c), true)));
    var s4 := State(map[p := c], RowsOfNote(pipe, p, c), None, map[0 := rb], {}, {});
    var s5 := s4.(rebuilds := map[0 := Rebuild({}, [], {}, {p}, true)]);
    var s6 := s4.(tables := NO_ROWS, rebuilds := map[], dirty := {p});
    NoteAfterScan(pipe, p, c, rb, s0, s1, s2, s3, s4);
    PublishOfEmptyScan(pipe, p, s4, s5, s6);
    assert WellParsed(pipe.parse(p, c));
    hide Step, Init, WellFormed;
    states := [s0, s1, s2, s3, s4, s5, s6];
    events := [Scan(0), Edit(p, Some(c)), Read(p), Commit(true, {}), Lock(0), Publish(0, AllTables, {})];
  }

  lemma NoteRowsOfKinds(pipe: Pipeline, p: Path, c: Content, rows: TableRows)
    requires rows.chunks == NoteRows(pipe, Chunks, p, Some(c)) && rows.links == NoteRows(pipe, Links, p, Some(c))
    requires rows.aliases == NoteRows(pipe, Aliases, p, Some(c))
    ensures forall k :: rows.Of(k) == NoteRows(pipe, k, p, Some(c))
  {
  }

  lemma NothingPublished(pipe: Pipeline, before: TableRows)
    ensures PublishedTables(pipe, [], AllTables, {}, before, TableRows([], [], [])) && CountErrors([]) == 0
  {
  }

  // ----- The indexer takes these steps -----

  ghost function TablesOf(ix: VaultIndexer): TableRows
    reads ix
  {
    TableRows(ix.Contents(Chunks), ix.Contents(Links), ix.Contents(Aliases))
  }

  lemma TablesOfKind(ix: VaultIndexer, k: Kind)
    ensures TablesOf(ix).Of(k) == ix.Contents(k)
  {
  }

  // `reindex_note` on what it read is a Commit step, applied exactly when the status says so;
  // `stuck` are the tables whose restore fails.
  method ReindexIsCommit(
      ix: VaultIndexer, ghost s: State, r: Reading, embedFails: bool, fault: Fault, stuck: set<Kind>, compacted: bool)
    returns (status: ReindexStatus, ghost s': State)
    requires ix.Valid() && WellFormed(ix.pipe) && TablesOf(ix) == s.tables && s.hand == Some(r)
    modifies ix
    ensures ix.Valid() && TablesOf(ix) == s'.tables
    ensures Step(ix.pipe, s, Commit(Applied(status), stuck), s')
  {
    hide NoteRows, WithoutPath, ContentsOf, WellFormed, Step;
    var chunksIndexed;
    forall k
      ensures s.tables.Of(k) == ix.Contents(k)
    {
      TablesOfKind(ix, k);
    }
    status, chunksIndexed := ix.ReindexNote(r.path, r.content, embedFails, fault, stuck, compacted);
    forall k
      ensures TablesOf(ix).Of(k) == ix.Contents(k)
    {
      TablesOfKind(ix, k);
    }
    s' := CommitStep(ix.pipe, s, r, Applied(status), stuck, TablesOf(ix));
  }

  lemma CommitStep(pipe: Pipeline, s: State, r: Reading, applied: bool, stuck: set<Kind>, after: TableRows)
    returns (s': State)
    requires s.hand == Some(r)
    requires if applied then ReplacedTables(pipe, s.tables, after, r) else RestoredTables(stuck, s.tables, after)
    ensures Step(pipe, s, Commit(applied, stuck), s') && s'.tables == after
  {
    if applied {
      return s.(tables := after, hand := None, dirty := if r.current then s.dirty - {r.path} else s.dirty);
    }
    return s.(tables := after, hand := None, wrecked := s.wrecked + stuck);
  }

  // `full_reindex` with the results it has parsed is a Publish step, also when a publish
  // raises after it has taken effect. `stuck` are the tables whose rollback fails.
  method FullReindexIsPublish(
      ix: VaultIndexer, ghost s: State, id: nat, n: LinkResolution.Normalizer, results: seq<Result>, plan: Plan,
      stuck: set<Kind>)
    returns (stats: Stats, ghost outcome: Outcome, ghost s': State)
    requires ix.Valid() && WellFormed(ix.pipe) && TablesOf(ix) == s.tables && Inv(ix.pipe, s)
    requires s.hand == None && id in s.rebuilds && s.rebuilds[id].locked
    requires results == s.rebuilds[id].results && s.rebuilds[id].todo == {}
    modifies ix
    ensures ix.Valid() && TablesOf(ix) == s'.tables
    ensures Step(ix.pipe, s, Publish(id, outcome, Unknown(stats.status, plan, stuck)), s')
    ensures outcome == AllTables <==> stats.status == Completed
  {
    hide RowsOfAll, EraseAll, DistinctPaths, CountErrors, WellFormed, WellParsed, UpToDate, Fresh, ContentsOf, IsRebuilt,
      IsStaged, KeepsLinks, Step;
    ghost var before := TablesOf(ix);
    forall k
      ensures before.Of(k) == ix.Contents(k)
    {
      TablesOfKind(ix, k);
    }
    ghost var pathMap;
    stats, pathMap := ix.FullReindex(n, results, plan, stuck);
    ghost var after := TablesOf(ix);
    forall k
      ensures after.Of(k) == ix.Contents(k)
    {
      TablesOfKind(ix, k);
    }
    RebuiltUnlessLost(ix.pipe, n, results, plan, pathMap, before, after, stats.status, stuck);
    outcome := OutcomeOf(stats.status, plan, stuck, before, after);
    s' := PublishStep(ix.pipe, s, id, results, plan, stuck, stats.status, after);
  }

  // The tables of which nothing is known after a rebuild: those whose rollback failed, and
  // the links if an update of their resolution may have lost its row.
  ghost function Unknown(status: FullStatus, plan: Plan, stuck: set<Kind>): set<Kind> {
    (if status == Completed then {} else stuck)
    + if !KeepsLinks(plan) && (status == Completed || Landed(plan, Links)) then {Links} else {}
  }

  ghost function OutcomeOf(
      status: FullStatus, plan: Plan, stuck: set<Kind>, before: TableRows, after: TableRows): Outcome {
    var unknown := Unknown(status, plan, stuck);
    if status == Completed then AllTables
    else if Landed(plan, Links) && Links !in unknown && after.links != before.links then OneTable(Links)
    else if Landed(plan, Aliases) && Aliases !in unknown && after.aliases != before.aliases then OneTable(Aliases)
    else if Landed(plan, Chunks) && Chunks !in unknown && after.chunks != before.chunks then OneTable(Chunks)
    else NoTable
  }

  ghost predicate KeptOrRebuilt(
      pipe: Pipeline, results: seq<Result>, plan: Plan, status: FullStatus, k: Kind, before: TableRows, after: TableRows)
  {
    || (status != Completed && after.Of(k) == before.Of(k))
    || ((status == Completed || Landed(plan, k)) && CountErrors(results) == 0
        && IsRebuilt(pipe, k, after.Of(k), results))
  }

  lemma RebuiltUnlessLost(
      pipe: Pipeline, n: LinkResolution.Normalizer, results: seq<Result>, plan: Plan, m: map<string, Path>,
      before: TableRows, after: TableRows, status: FullStatus, stuck: set<Kind>)
    requires DistinctPaths(results) && forall i :: 0 <= i < |results| ==> WellParsed(results[i].1)
    requires status == Completed ==>
               CountErrors(results) == 0 && forall k :: IsStaged(pipe, n, results, plan, m, k, after.Of(k))
    requires status != Completed ==> forall k :: k !in stuck ==>
               || after.Of(k) == before.Of(k)
               || (Landed(plan, k) && CountErrors(results) == 0
                   && IsStaged(pipe, n, results, plan, m, k, after.Of(k)))
    ensures forall k :: k !in Unknown(status, plan, stuck) ==>
              KeptOrRebuilt(pipe, results, plan, status, k, before, after)
  {
    hide DistinctPaths, WellParsed, CountErrors, IsStaged, IsRebuilt, KeepsLinks;
    forall k | k !in Unknown(status, plan, stuck)
      ensures KeptOrRebuilt(pipe, results, plan, status, k, before, after)
    {
      if IsStaged(pipe, n, results, plan, m, k, after.Of(k)) && (k == Links ==> KeepsLinks(plan)) {
        StagedIsRebuilt(pipe, n, results, plan, m, k, after.Of(k));
      }
    }
  }

  lemma RebuiltIsPublished(pipe: Pipeline, k: Kind, rows: seq<Row>, results: seq<Result>)
    requires IsRebuilt(pipe, k, rows, results)
    ensures PublishedRows(pipe, k, results, rows)
  {
  }

  lemma PublishStep(
      pipe: Pipeline, s: State, id: nat, results: seq<Result>, plan: Plan, stuck: set<Kind>, status: FullStatus,
      after: TableRows)
    returns (s': State)
    requires s.hand == None && id in s.rebuilds && s.rebuilds[id].locked
    requires results == s.rebuilds[id].results && s.rebuilds[id].todo == {}
    requires status == Completed ==> CountErrors(results) == 0
    requires forall k :: k !in Unknown(status, plan, stuck) ==>
               KeptOrRebuilt(pipe, results, plan, status, k, s.tables, after)
    ensures Step(pipe, s, Publish(id, OutcomeOf(status, plan, stuck, s.tables, after), Unknown(status, plan, stuck)), s')
    ensures s'.tables == after
  {
    hide IsRebuilt, PublishedRows, CountErrors, KeepsLinks, Unknown;
    var unknown := Unknown(status, plan, stuck);
    var outcome := OutcomeOf(status, plan, stuck, s.tables, after);
    forall k | k !in unknown
      ensures if outcome == AllTables || outcome == OneTable(k)
              then PublishedRows(pipe, k, results, after.Of(k)) else after.Of(k) == s.tables.Of(k)
    {
      assert KeptOrRebuilt(pipe, results, plan, status, k, s.tables, after);
      if IsRebuilt(pipe, k, after.Of(k), results) {
        RebuiltIsPublished(pipe, k, after.Of(k), results);
      }
      match k
      case Chunks =>
      case Links =>
      case Aliases =>
    }
    s' := s.(tables := after, rebuilds := s.rebuilds - {id}, dirty := DirtyAfter(s.dirty, s.rebuilds[id], outcome),
             wrecked := if outcome == AllTables then unknown else s.wrecked + unknown);
  }
}
