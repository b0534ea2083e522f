// The index state machine: staged full rebuild, per-note replacement, rollback.
module VaultIndexing {
  import opened IndexTables
  import opened NoteRecords
  import opened LinkResolution
  import opened Options

  datatype Name = Canonical(kind: Kind) | Staging(kind: Kind)

  // The datasets on disk.
  type Db = map<Name, Table>

  // A dataset that does not exist yet counts as empty.
  function TableOf(db: Db, n: Name): Table {
    if n in db then db[n] else [[]]
  }

  function ContentsOf(db: Db, k: Kind): seq<Row> {
    Rows(TableOf(db, Canonical(k)))
  }

  // The table operation with number `op` raises; if it `lands`, it still leaves
  // a new version holding `wreck`.
  datatype Fault = Fault(op: nat, lands: bool, wreck: seq<Row>)

  function AfterWrite(t: Table, rows: seq<Row>, op: nat, fault: Fault): Table {
    if op != fault.op then t + [rows] else if fault.lands then t + [fault.wreck] else t
  }

  // Deleting the rows of one note takes operation `op`; adding rows, if any, the next one.
  function AfterReplace(t: Table, p: Path, rows: seq<Row>, op: nat, fault: Fault): Table {
    var deleted := AfterWrite(t, WithoutPath(Rows(t), p), op, fault);
    if op == fault.op || rows == [] then deleted
    else AfterWrite(deleted, Rows(deleted) + rows, op + 1, fault)
  }

  predicate ReplaceFails(rows: seq<Row>, op: nat, fault: Fault) {
    fault.op == op || (rows != [] && fault.op == op + 1)
  }

  lemma ReplaceOutcome(t: Table, p: Path, rows: seq<Row>, op: nat, fault: Fault)
    ensures var t' := AfterReplace(t, p, rows, op, fault);
            && |t'| >= |t| && t'[Version(t)] == Rows(t)
            && Rows(Restored(t', Version(t))) == Rows(t)
            && (!ReplaceFails(rows, op, fault) ==> Rows(t') == WithoutPath(Rows(t), p) + rows)
  {
    assert WithoutPath(Rows(t), p) + [] == WithoutPath(Rows(t), p);
  }

  type Snapshot = (Kind, nat)

  // Restoring publishes an earlier version again.
  function Restored(t: Table, version: nat): Table {
    if version < |t| then t + [t[version]] else t
  }

  function RestoreOne(db: Db, s: Snapshot, stuck: set<Kind>): Db {
    if s.0 in stuck then db else db[Canonical(s.0) := Restored(TableOf(db, Canonical(s.0)), s.1)]
  }

  // The snapshots are restored last first.
  function RestoreAll(db: Db, snapshots: seq<Snapshot>, stuck: set<Kind>): Db
    decreases |snapshots|
  {
    if snapshots == [] then db
    else RestoreAll(RestoreOne(db, snapshots[|snapshots| - 1], stuck), snapshots[..|snapshots| - 1], stuck)
  }

  lemma RestoreOneTable(db: Db, s: Snapshot, stuck: set<Kind>, n: Name)
    ensures var db' := RestoreOne(db, s, stuck);
            && TableOf(db', n) == (if n == Canonical(s.0) && s.0 !in stuck then Restored(TableOf(db, n), s.1) else TableOf(db, n))
            && (forall m :: m in db ==> m in db')
            && (forall m :: m in db' && m !in db ==> m.Canonical?)
  {
  }

  lemma {:induction false} RestoreAllTable(db: Db, snapshots: seq<Snapshot>, stuck: set<Kind>, n: Name)
    requires forall i, j :: 0 <= i < j < |snapshots| ==> snapshots[i].0 != snapshots[j].0
    ensures var db' := RestoreAll(db, snapshots, stuck);
            && ((forall i :: 0 <= i < |snapshots| ==> n != Canonical(snapshots[i].0) || snapshots[i].0 in stuck)
                  ==> TableOf(db', n) == TableOf(db, n))
            && (forall i :: 0 <= i < |snapshots| && n == Canonical(snapshots[i].0) && snapshots[i].0 !in stuck
                  ==> TableOf(db', n) == Restored(TableOf(db, n), snapshots[i].1))
            && (forall m :: m in db ==> m in db')
            && (forall m :: m in db' && m !in db ==> m.Canonical?)
    decreases |snapshots|
  {
    hide Restored, RestoreOne;
    if snapshots != [] {
      var last, front := snapshots[|snapshots| - 1], snapshots[..|snapshots| - 1];
      RestoreAllTable(RestoreOne(db, last, stuck), front, stuck, n);
      RestoreOneTable(db, last, stuck, n);
    }
  }

  // Every table is as before, or has a snapshot that still holds its rows from before.
  ghost predicate Saved(before: Db, now: Db, snapshots: seq<Snapshot>, k: Kind) {
    || (exists i :: 0 <= i < |snapshots| && snapshots[i].0 == k
          && snapshots[i].1 < |TableOf(now, Canonical(k))|
          && TableOf(now, Canonical(k))[snapshots[i].1] == ContentsOf(before, k))
    || (TableOf(now, Canonical(k)) == TableOf(before, Canonical(k)) && forall i :: 0 <= i < |snapshots| ==> snapshots[i].0 != k)
  }

  lemma RestoreAllContents(before: Db, now: Db, snapshots: seq<Snapshot>, stuck: set<Kind>, k: Kind)
    requires forall i, j :: 0 <= i < j < |snapshots| ==> snapshots[i].0 != snapshots[j].0
    requires Saved(before, now, snapshots, k) && k !in stuck
    ensures ContentsOf(RestoreAll(now, snapshots, stuck), k) == ContentsOf(before, k)
  {
    RestoreAllTable(now, snapshots, stuck, Canonical(k));
  }

  datatype TableRows = TableRows(chunks: seq<Row>, links: seq<Row>, aliases: seq<Row>) {
    function Of(k: Kind): seq<Row> {
      match k
      case Chunks => chunks
      case Links => links
      case Aliases => aliases
    }
  }

  // Tables are replaced in this order; each takes two operation numbers.
  function Rank(k: Kind): nat {
    match k
    case Chunks => 0
    case Links => 1
    case Aliases => 2
  }

  ghost predicate ReplacedAt(
      before: Db, now: Db, snapshots: seq<Snapshot>, p: Path, rows: TableRows, fault: Fault, k: Kind)
  {
    && TableOf(now, Staging(k)) == TableOf(before, Staging(k))
    && var t := TableOf(before, Canonical(k));
    if Rank(k) < |snapshots|
    then snapshots[Rank(k)] == (k, Version(t))
         && TableOf(now, Canonical(k)) == AfterReplace(t, p, rows.Of(k), 2 * Rank(k), fault)
    else TableOf(now, Canonical(k)) == t
  }

  // The first tables have been snapshotted and replaced, the rest not touched.
  ghost predicate Replaced(before: Db, now: Db, snapshots: seq<Snapshot>, p: Path, rows: TableRows, fault: Fault) {
    && |snapshots| <= 3
    && (forall i :: 0 <= i < |snapshots| ==> Rank(snapshots[i].0) == i)
    && (forall k {:trigger ReplacedAt(before, now, snapshots, p, rows, fault, k)} ::
          ReplacedAt(before, now, snapshots, p, rows, fault, k))
  }

  lemma ReplacedIsSaved(before: Db, now: Db, snapshots: seq<Snapshot>, p: Path, rows: TableRows, fault: Fault, k: Kind)
    requires Replaced(before, now, snapshots, p, rows, fault)
    ensures Saved(before, now, snapshots, k)
    ensures TableOf(now, Staging(k)) == TableOf(before, Staging(k))
  {
    hide AfterReplace;
    assert ReplacedAt(before, now, snapshots, p, rows, fault, k);
    ReplaceOutcome(TableOf(before, Canonical(k)), p, rows.Of(k), 2 * Rank(k), fault);
  }

  lemma ReplacedAll(before: Db, now: Db, snapshots: seq<Snapshot>, p: Path, rows: TableRows, fault: Fault, k: Kind)
    requires Replaced(before, now, snapshots, p, rows, fault) && |snapshots| == 3
    requires !ReplaceFails(rows.Of(k), 2 * Rank(k), fault)
    ensures ContentsOf(now, k) == WithoutPath(ContentsOf(before, k), p) + rows.Of(k)
    ensures TableOf(now, Staging(k)) == TableOf(before, Staging(k))
  {
    hide AfterReplace;
    assert ReplacedAt(before, now, snapshots, p, rows, fault, k);
    ReplaceOutcome(TableOf(before, Canonical(k)), p, rows.Of(k), 2 * Rank(k), fault);
  }

  lemma NothingReplaced(before: Db, p: Path, rows: TableRows, fault: Fault)
    ensures Replaced(before, before, [], p, rows, fault)
  {
  }

  lemma ReplaceNext(
      before: Db, now: Db, next: Db, snapshots: seq<Snapshot>, p: Path, rows: TableRows, fault: Fault, k: Kind)
    requires Replaced(before, now, snapshots, p, rows, fault) && Rank(k) == |snapshots|
    requires next == now[Canonical(k) := AfterReplace(TableOf(now, Canonical(k)), p, rows.Of(k), 2 * Rank(k), fault)]
    ensures Replaced(before, next, snapshots + [(k, Version(TableOf(now, Canonical(k))))], p, rows, fault)
  {
    hide AfterReplace;
    var snapshots' := snapshots + [(k, Version(TableOf(now, Canonical(k))))];
    forall j
      ensures ReplacedAt(before, next, snapshots', p, rows, fault, j)
    {
      assert ReplacedAt(before, now, snapshots, p, rows, fault, j);
      assert Rank(j) == Rank(k) ==> j == k;
    }
  }

  lemma SnapshotKindsDiffer(before: Db, now: Db, snapshots: seq<Snapshot>, p: Path, rows: TableRows, fault: Fault)
    requires Replaced(before, now, snapshots, p, rows, fault)
    ensures forall i, j :: 0 <= i < j < |snapshots| ==> snapshots[i].0 != snapshots[j].0
  {
    hide ReplacedAt, Rank;
    forall i, j | 0 <= i < j < |snapshots|
      ensures snapshots[i].0 != snapshots[j].0
    {
      assert Rank(snapshots[i].0) == i && Rank(snapshots[j].0) == j;
    }
  }

  const ALL_KINDS: set<Kind> := {Chunks, Links, Aliases}

  const AUTO_COMPACT_THRESHOLD: nat := 100

  datatype ReindexStatus = Updated | Emptied | Deleted | ParseFailed | AddFailed

  predicate Applied(status: ReindexStatus) {
    status in {Updated, Emptied, Deleted}
  }

  // The rows a note should have in table `k`, given its content or its absence.
  function NoteRows(pipe: Pipeline, k: Kind, p: Path, content: Option<Content>): (rows: seq<Row>)
    ensures forall r :: r in rows ==> r.path == p
  {
    if content == None then [] else RowsOfParsed(pipe, k, p, pipe.parse(p, content.value))
  }

  // What the table holds of the note: the rows of its content, or none for a missing note.
  ghost predicate NoteIsHeld(pipe: Pipeline, k: Kind, p: Path, content: Option<Content>, rows: seq<Row>) {
    if content == None then RowsFor(rows, p) == []
    else IsRecorded(pipe, k, p, pipe.parse(p, content.value), RowsFor(rows, p))
  }

  lemma ParsedTableRows(pipe: Pipeline, p: Path, parsed: Parsed)
    requires parsed.status == Success
    ensures forall k {:trigger RowsOfParsed(pipe, k, p, parsed)} ::
              RowsOfParsed(pipe, k, p, parsed)
              == TableRows(EmbedRows(pipe, p, Capped(pipe, parsed.chunks)), LinkRows(p, parsed.links),
                           AliasRows(pipe, p, parsed.aliases)).Of(k)
    ensures |RowsOfParsed(pipe, Chunks, p, parsed)| == |Capped(pipe, parsed.chunks)|
  {
  }

  // An empty parse leaves no rows anywhere, whatever links the parser reported.
  lemma NoChunksNoRows(pipe: Pipeline, p: Path, parsed: Parsed)
    requires WellParsed(parsed) && pipe.cap >= 1 && Capped(pipe, parsed.chunks) == []
    ensures forall k {:trigger RowsOfParsed(pipe, k, p, parsed)} ::
              RowsOfParsed(pipe, k, p, parsed) == TableRows([], [], []).Of(k)
  {
  }

  // ----- Full rebuild -----

  // Where a full rebuild fails: a shutdown seen before the result with that number, an
  // exception while resetting staging, in the store call with that number, while indexing
  // links and aliases, or at the publish with that number (0 links, 1 aliases, 2 chunks);
  // if `publishLands`, the failing publish has replaced its table all the same.
  datatype Plan = Plan(
    batchSize: nat, shutdownAt: nat, resetFails: bool, storeFailsAt: nat, graphFails: bool,
    publishFailsAt: nat, publishLands: bool, resolution: TableFaults)

  // No update of the link resolution loses its row.
  ghost predicate KeepsLinks(plan: Plan) {
    forall i: nat :: plan.resolution.updates(i) != Loses
  }

  ghost predicate ResolutionWorks(plan: Plan) {
    && !plan.resolution.paths && !plan.resolution.aliases && !plan.resolution.query
    && forall i: nat :: plan.resolution.updates(i) == Works
  }

  datatype FullStatus = Completed | Failed | Interrupted

  datatype Stats = Stats(status: FullStatus, totalNotes: nat, totalChunks: nat, parseErrors: nat)

  // A chunk record waiting to be embedded.
  type Pending = (Path, string)

  function PendingOf(pipe: Pipeline, p: Path, parsed: Parsed): seq<Pending> {
    var chunks := Capped(pipe, parsed.chunks);
    seq(|chunks|, i requires 0 <= i < |chunks| => (p, chunks[i]))
  }

  function EmbedBatch(pipe: Pipeline, batch: seq<Pending>): (rows: seq<Row>)
    ensures |rows| == |batch|
  {
    seq(|batch|, i requires 0 <= i < |batch| => ChunkRow(batch[i].0, batch[i].1, pipe.embed(batch[i].1)))
  }

  lemma EmbedBatchAppend(pipe: Pipeline, s: seq<Pending>, t: seq<Pending>)
    ensures EmbedBatch(pipe, s + t) == EmbedBatch(pipe, s) + EmbedBatch(pipe, t)
  {
  }

  lemma PendingRows(pipe: Pipeline, p: Path, parsed: Parsed)
    requires parsed.status == Success
    ensures EmbedBatch(pipe, PendingOf(pipe, p, parsed)) == RowsOfParsed(pipe, Chunks, p, parsed)
  {
  }

  function CountErrors(results: seq<Result>): nat {
    if results == [] then 0
    else CountErrors(results[..|results| - 1]) + if results[|results| - 1].1.status == ParseError then 1 else 0
  }

  function CountIndexed(results: seq<Result>): nat {
    if results == [] then 0
    else CountIndexed(results[..|results| - 1]) + if results[|results| - 1].1.status == Success then 1 else 0
  }

  // The counts are numbers of results.
  lemma {:induction false} CountsOfResults(results: seq<Result>)
    ensures CountIndexed(results) == |set i: nat | i < |results| && results[i].1.status == Success|
    ensures CountErrors(results) == 0 <==> forall i :: 0 <= i < |results| ==> results[i].1.status != ParseError
  {
    if results != [] {
      var n := |results| - 1;
      CountsOfResults(results[..n]);
      SuccessesNext(results);
    }
  }

  lemma SuccessesNext(results: seq<Result>)
    requires results != []
    ensures var n := |results| - 1;
            |set i: nat | i < |results| && results[i].1.status == Success| ==
            |set i: nat | i < n && results[..n][i].1.status == Success|
            + if results[n].1.status == Success then 1 else 0
  {
    var n := |results| - 1;
    var before := set i: nat | i < n && results[..n][i].1.status == Success;
    var all := set i: nat | i < |results| && results[i].1.status == Success;
    assert all == before + if results[n].1.status == Success then {n} else {};
  }

  // The alias records of the collected (path, aliases) pairs.
  function AliasRowsOfAll(pipe: Pipeline, all: seq<(Path, seq<string>)>): seq<Row> {
    if all == [] then []
    else AliasRowsOfAll(pipe, all[..|all| - 1]) + AliasRows(pipe, all[|all| - 1].0, all[|all| - 1].1)
  }

  // What the staging loop has gathered from a prefix of the results.
  ghost predicate Gathered(
      pipe: Pipeline, stored: seq<Row>, batch: seq<Pending>, links: seq<Row>, aliases: seq<(Path, seq<string>)>,
      notes: nat, chunks: nat, errors: nat, done: seq<Result>)
  {
    && stored + EmbedBatch(pipe, batch) == RowsOfAll(pipe, Chunks, done)
    && chunks == |stored|
    && links == RowsOfAll(pipe, Links, done)
    && AliasRowsOfAll(pipe, aliases) == RowsOfAll(pipe, Aliases, done)
    && notes == CountIndexed(done) && errors == CountErrors(done)
  }

  lemma ResultAppend(pipe: Pipeline, done: seq<Result>, p: Path, parsed: Parsed)
    ensures var done' := done + [(p, parsed)];
            && (forall k :: RowsOfAll(pipe, k, done') == RowsOfAll(pipe, k, done) + RowsOfParsed(pipe, k, p, parsed))
            && CountErrors(done') == CountErrors(done) + (if parsed.status == ParseError then 1 else 0)
            && CountIndexed(done') == CountIndexed(done) + (if parsed.status == Success then 1 else 0)
  {
    assert (done + [(p, parsed)])[..|done|] == done;
  }

  lemma AliasesAppend(pipe: Pipeline, aliases: seq<(Path, seq<string>)>, p: Path, more: seq<string>)
    ensures AliasRowsOfAll(pipe, if more == [] then aliases else aliases + [(p, more)])
            == AliasRowsOfAll(pipe, aliases) + AliasRows(pipe, p, more)
  {
    var aliases' := aliases + [(p, more)];
    assert aliases'[..|aliases|] == aliases;
  }

  lemma ParsedRows(pipe: Pipeline, p: Path, parsed: Parsed)
    ensures parsed.status != Success ==> forall k :: RowsOfParsed(pipe, k, p, parsed) == []
    ensures parsed.status == Success ==>
              && RowsOfParsed(pipe, Links, p, parsed) == LinkRows(p, parsed.links)
              && RowsOfParsed(pipe, Aliases, p, parsed) == AliasRows(pipe, p, parsed.aliases)
  {
  }

  lemma GatherNext(
      pipe: Pipeline, stored: seq<Row>, batch: seq<Pending>, links: seq<Row>, aliases: seq<(Path, seq<string>)>,
      notes: nat, chunks: nat, errors: nat, done: seq<Result>, p: Path, parsed: Parsed)
    requires Gathered(pipe, stored, batch, links, aliases, notes, chunks, errors, done)
    ensures var done' := done + [(p, parsed)];
            match parsed.status
            case ParseError => Gathered(pipe, stored, batch, links, aliases, notes, chunks, errors + 1, done')
            case Success =>
              Gathered(pipe, stored, batch + PendingOf(pipe, p, parsed), links + LinkRows(p, parsed.links),
                       if parsed.aliases == [] then aliases else aliases + [(p, parsed.aliases)],
                       notes + 1, chunks, errors, done')
            case _ => Gathered(pipe, stored, batch, links, aliases, notes, chunks, errors, done')
  {
    hide RowsOfAll, RowsOfParsed, CountErrors, CountIndexed, AliasRowsOfAll, EmbedBatch, PendingOf, LinkRows, AliasRows;
    ResultAppend(pipe, done, p, parsed);
    AliasesAppend(pipe, aliases, p, parsed.aliases);
    ParsedRows(pipe, p, parsed);
    if parsed.status == Success {
      EmbedBatchAppend(pipe, batch, PendingOf(pipe, p, parsed));
      PendingRows(pipe, p, parsed);
    }
  }

  lemma GatherStored(
      pipe: Pipeline, stored: seq<Row>, batch: seq<Pending>, links: seq<Row>, aliases: seq<(Path, seq<string>)>,
      notes: nat, chunks: nat, errors: nat, done: seq<Result>)
    requires Gathered(pipe, stored, batch, links, aliases, notes, chunks, errors, done)
    ensures Gathered(pipe, stored + EmbedBatch(pipe, batch), [], links, aliases, notes, chunks + |batch|, errors, done)
  {
    assert EmbedBatch(pipe, []) == [];
  }

  lemma NothingGathered(pipe: Pipeline)
    ensures Gathered(pipe, [], [], [], [], 0, 0, 0, [])
  {
    assert EmbedBatch(pipe, []) == [];
  }

  // ----- Publishing the staging tables -----

  // Links are published first and chunks last.
  function PublishRank(k: Kind): nat {
    match k
    case Links => 0
    case Aliases => 1
    case Chunks => 2
  }

  // A published table, with the version it had before, if it existed.
  type Commit = (Kind, Option<nat>)

  function CommitOf(before: Db, k: Kind): Commit {
    (k, if Canonical(k) in before then Some(Version(before[Canonical(k)])) else None)
  }

  function Published(before: Db, k: Kind): Table {
    var rows := Rows(TableOf(before, Staging(k)));
    if Canonical(k) in before then before[Canonical(k)] + [rows] else [rows]
  }

  // `_rollback_table`: restore the previous version, or empty a table that was new.
  function RolledBack(t: Table, previous: Option<nat>): Table {
    match previous
    case Some(v) => Restored(t, v)
    case None => t + [[]]
  }

  ghost predicate CommittedAt(before: Db, now: Db, committed: seq<Commit>, k: Kind) {
    if PublishRank(k) < |committed|
    then committed[PublishRank(k)] == CommitOf(before, k)
         && Canonical(k) in now && now[Canonical(k)] == Published(before, k)
    else (Canonical(k) in now <==> Canonical(k) in before)
         && TableOf(now, Canonical(k)) == TableOf(before, Canonical(k))
  }

  ghost predicate Committed(before: Db, now: Db, committed: seq<Commit>) {
    && |committed| <= 3
    && (forall i :: 0 <= i < |committed| ==> PublishRank(committed[i].0) == i)
    && (forall k :: TableOf(now, Staging(k)) == TableOf(before, Staging(k)))
    && (forall k {:trigger CommittedAt(before, now, committed, k)} :: CommittedAt(before, now, committed, k))
  }

  lemma CommitNext(before: Db, now: Db, committed: seq<Commit>, k: Kind)
    requires Committed(before, now, committed) && PublishRank(k) == |committed|
    ensures Committed(before, now[Canonical(k) := Published(now, k)], committed + [CommitOf(now, k)])
  {
    var next, committed' := now[Canonical(k) := Published(now, k)], committed + [CommitOf(now, k)];
    forall j
      ensures CommittedAt(before, next, committed', j)
    {
      assert CommittedAt(before, now, committed, j);
      assert PublishRank(j) == PublishRank(k) ==> j == k;
    }
  }

  lemma RolledBackContents(before: Db, now: Db, committed: seq<Commit>, k: Kind)
    requires CommittedAt(before, now, committed, k) && PublishRank(k) < |committed|
    ensures Rows(RolledBack(now[Canonical(k)], committed[PublishRank(k)].1)) == ContentsOf(before, k)
  {
  }

  lemma NothingCommitted(before: Db)
    ensures Committed(before, before, [])
  {
  }

  lemma AllCommitted(before: Db, now: Db, committed: seq<Commit>, k: Kind)
    requires Committed(before, now, committed) && |committed| == 3
    ensures Canonical(k) in now && ContentsOf(now, k) == Rows(TableOf(before, Staging(k)))
  {
    assert CommittedAt(before, now, committed, k);
  }

  // Nothing fails before the first publish.
  predicate Stages(plan: Plan, results: seq<Result>) {
    && CountErrors(results) == 0 && !plan.resetFails && plan.shutdownAt >= |results|
    && plan.storeFailsAt > |results| && !plan.graphFails
  }

  // A rebuild of notes that all parse meets no failure if none of its operations raises.
  lemma NothingFails(results: seq<Result>, batchSize: nat) returns (plan: Plan)
    requires forall i :: 0 <= i < |results| ==> results[i].1.status != ParseError
    ensures plan.batchSize == batchSize && plan.publishFailsAt >= 3
    ensures Stages(plan, results) && KeepsLinks(plan) && ResolutionWorks(plan)
  {
    CountsOfResults(results);
    plan := Plan(batchSize, |results|, false, |results| + 1, false, 3, false, TableFaults(false, false, false, _ => Works));
  }

  // The table whose publish raised after it had taken effect.
  predicate Landed(plan: Plan, k: Kind) {
    plan.publishLands && plan.publishFailsAt == PublishRank(k)
  }

  lemma PublishOrder()
    ensures PublishRank(Links) == 0 && PublishRank(Aliases) == 1 && PublishRank(Chunks) == 2
    ensures forall k, j :: PublishRank(k) == PublishRank(j) ==> k == j
  {
  }

  lemma LandedContents(before: Db, k: Kind)
    ensures ContentsOf(before[Canonical(k) := Published(before, k)], k) == Rows(TableOf(before, Staging(k)))
    ensures forall j :: j != k ==>
              ContentsOf(before[Canonical(k) := Published(before, k)], j) == ContentsOf(before, j)
  {
  }

  // A publish that takes effect without being recorded is as if the table had been so before.
  lemma LandAside(before: Db, now: Db, committed: seq<Commit>, k: Kind)
    requires Committed(before, now, committed) && PublishRank(k) == |committed|
    ensures Committed(before[Canonical(k) := Published(before, k)], now[Canonical(k) := Published(now, k)], committed)
  {
    var base, next := before[Canonical(k) := Published(before, k)], now[Canonical(k) := Published(now, k)];
    assert CommittedAt(before, now, committed, k);
    forall j
      ensures CommittedAt(base, next, committed, j)
    {
      assert CommittedAt(before, now, committed, j);
      assert PublishRank(j) == PublishRank(k) ==> j == k;
    }
  }

  // Where table `k` stands when the commits from number `i` on have been undone.
  ghost predicate Unwound(before: Db, now: Db, committed: seq<Commit>, i: nat, stuck: set<Kind>, k: Kind) {
    if PublishRank(k) < i then CommittedAt(before, now, committed, k)
    else k in stuck || ContentsOf(now, k) == ContentsOf(before, k)
  }

  lemma NotCommitted(before: Db, now: Db, committed: seq<Commit>, k: Kind)
    requires CommittedAt(before, now, committed, k)
    ensures PublishRank(k) >= |committed| ==> ContentsOf(now, k) == ContentsOf(before, k)
  {
  }

  lemma CommittedTableExists(before: Db, now: Db, committed: seq<Commit>, k: Kind)
    requires CommittedAt(before, now, committed, k) && PublishRank(k) < |committed|
    ensures Canonical(k) in now
  {
  }

  lemma UnwindStep(before: Db, now: Db, next: Db, committed: seq<Commit>, i: nat, stuck: set<Kind>, k: Kind)
    requires i < |committed| && PublishRank(committed[i].0) == i && Canonical(committed[i].0) in now
    requires Unwound(before, now, committed, i + 1, stuck, k)
    requires next == if committed[i].0 in stuck then now
                     else now[Canonical(committed[i].0) := RolledBack(now[Canonical(committed[i].0)], committed[i].1)]
    ensures Unwound(before, next, committed, i, stuck, k)
  {
    assert PublishRank(k) == i ==> k == committed[i].0;
    if PublishRank(k) == i {
      RolledBackContents(before, now, committed, k);
    }
  }

  // The indexed notes, in order of first appearance.
  function PathsOf(rows: seq<Row>): (paths: seq<Path>)
    ensures forall p :: p in paths <==> exists r :: r in rows && r.path == p
  {
    if rows == [] then []
    else
      var front, last := rows[..|rows| - 1], rows[|rows| - 1];
      var paths := PathsOf(front);
      assert rows == front + [last];
      if last.path in paths then paths else paths + [last.path]
  }

  // ----- Staged links -----

  // Every staged row comes from the parse of one note.
  lemma {:induction false} RowOrigin(pipe: Pipeline, k: Kind, results: seq<Result>, r: Row) returns (i: nat)
    requires r in RowsOfAll(pipe, k, results)
    ensures i < |results| && r in RowsOfParsed(pipe, k, results[i].0, results[i].1) && results[i].0 == r.path
    ensures k == Links ==> r.LinkRow?
  {
    var front, last := results[..|results| - 1], results[|results| - 1];
    if r in RowsOfAll(pipe, k, front) {
      i := RowOrigin(pipe, k, front, r);
    } else {
      i := |results| - 1;
      assert r in RowsOfParsed(pipe, k, last.0, last.1);
    }
  }

  lemma {:induction false} RowPlaced(pipe: Pipeline, k: Kind, results: seq<Result>, i: nat, r: Row)
    requires i < |results| && r in RowsOfParsed(pipe, k, results[i].0, results[i].1)
    ensures r in RowsOfAll(pipe, k, results)
  {
    if i < |results| - 1 {
      RowPlaced(pipe, k, results[..|results| - 1], i, r);
    }
  }

  // A note that was parsed with success has a chunk row.
  lemma ParsedNoteIndexed(pipe: Pipeline, results: seq<Result>, i: nat) returns (r: Row)
    requires i < |results| && WellParsed(results[i].1) && results[i].1.status == Success && pipe.cap >= 1
    ensures r in RowsOfAll(pipe, Chunks, results) && r.path == results[i].0
  {
    var rows := RowsOfParsed(pipe, Chunks, results[i].0, results[i].1);
    r := rows[0];
    RowPlaced(pipe, Chunks, results, i, r);
  }

  // A path has no chunk rows exactly when no parse of it succeeded.
  lemma MissingWhenNotParsed(pipe: Pipeline, results: seq<Result>, p: Path)
    requires pipe.cap >= 1 && forall i :: 0 <= i < |results| ==> WellParsed(results[i].1)
    ensures (forall r :: r in RowsOfAll(pipe, Chunks, results) ==> r.path != p) <==>
            (forall i :: 0 <= i < |results| && results[i].0 == p ==> results[i].1.status != Success)
  {
    if r :| r in RowsOfAll(pipe, Chunks, results) && r.path == p {
      var i := RowOrigin(pipe, Chunks, results, r);
      assert results[i].1.status == Success;
    }
    if i: nat :| i < |results| && results[i].0 == p && results[i].1.status == Success {
      var r := ParsedNoteIndexed(pipe, results, i);
    }
  }

  // Links and aliases belong to indexed notes only.
  lemma RowsOfIndexedNotes(pipe: Pipeline, k: Kind, results: seq<Result>, r: Row)
    requires pipe.cap >= 1 && forall i :: 0 <= i < |results| ==> WellParsed(results[i].1)
    requires r in RowsOfAll(pipe, k, results)
    ensures r.path in PathsOf(RowsOfAll(pipe, Chunks, results))
  {
    var i := RowOrigin(pipe, k, results, r);
    assert results[i].1.status == Success;
    var c := ParsedNoteIndexed(pipe, results, i);
  }

  lemma NoteLinksUnique(pipe: Pipeline, p: Path, parsed: Parsed)
    requires WellParsed(parsed)
    ensures AllLinks(RowsOfParsed(pipe, Links, p, parsed)) && UniqueKeys(RowsOfParsed(pipe, Links, p, parsed))
  {
    var rows := RowsOfParsed(pipe, Links, p, parsed);
    if parsed.status == Success {
      forall i, j | 0 <= i < j < |rows|
        ensures KeyOf(rows[i]) != KeyOf(rows[j])
      {
        assert (parsed.links[i].kind, parsed.links[i].target) != (parsed.links[j].kind, parsed.links[j].target);
      }
    }
  }

  lemma {:induction false} StagedLinksUnique(pipe: Pipeline, results: seq<Result>)
    requires DistinctPaths(results) && forall i :: 0 <= i < |results| ==> WellParsed(results[i].1)
    ensures AllLinks(RowsOfAll(pipe, Links, results)) && UniqueKeys(RowsOfAll(pipe, Links, results))
  {
    if results != [] {
      var front, last := results[..|results| - 1], results[|results| - 1];
      StagedLinksUnique(pipe, front);
      NoteLinksUnique(pipe, last.0, last.1);
      UniqueConcat(RowsOfAll(pipe, Links, front), RowsOfParsed(pipe, Links, last.0, last.1), last.0) by {
        forall r | r in RowsOfAll(pipe, Links, front)
          ensures r.path != last.0
        {
          var i := RowOrigin(pipe, Links, front, r);
          assert results[i].0 != results[|results| - 1].0;
        }
      }
    }
  }

  lemma UniqueConcat(s: seq<Row>, t: seq<Row>, p: Path)
    requires AllLinks(s) && UniqueKeys(s) && AllLinks(t) && UniqueKeys(t)
    requires (forall r :: r in s ==> r.path != p) && (forall r :: r in t ==> r.path == p)
    ensures AllLinks(s + t) && UniqueKeys(s + t)
  {
    var all := s + t;
    forall i, j | 0 <= i < j < |all|
      ensures KeyOf(all[i]) != KeyOf(all[j])
    {
      if i < |s| <= j {
        assert all[i] in s && all[j] in t;
      }
    }
  }

  // A run that loses no row is invisible once the two resolution fields are erased.
  lemma ResolutionErased(
      m: map<string, Path>, rows: seq<Row>, updates: seq<Row>, faults: nat -> UpdateFault, t: seq<Row>)
    requires AllLinks(rows) && UniqueKeys(rows) && AllLinks(updates) && UniqueKeys(updates)
    requires forall u :: u in updates ==> u in rows
    requires RunLeaves(m, rows, updates, faults, t) && forall i: nat :: i < |updates| ==> faults(i) != Loses
    ensures multiset(EraseAll(t)) == multiset(EraseAll(rows))
  {
    KeptRun(m, rows, updates, faults, t);
    EraseMultiset(t, AfterRunAll(m, updates, faults, rows));
    assert EraseAll(AfterRunAll(m, updates, faults, rows)) == EraseAll(rows);
  }

  // The lookup dictionary of a rebuild leads to indexed notes only, aliases included.
  lemma RebuildLookup(pipe: Pipeline, n: Normalizer, results: seq<Result>, m: map<string, Path>, name: string)
    requires pipe.cap >= 1 && forall i :: 0 <= i < |results| ==> WellParsed(results[i].1)
    requires Resolves(n, PathsOf(RowsOfAll(pipe, Chunks, results)), RowsOfAll(pipe, Aliases, results), m)
    ensures var paths, aliases := PathsOf(RowsOfAll(pipe, Chunks, results)), RowsOfAll(pipe, Aliases, results);
            && (name in m <==> exists p :: NamesNote(n, paths, name, p) || AliasOf(aliases, name, p))
            && (name in m ==> m[name] in paths)
            && ((exists p :: NamesNote(n, paths, name, p)) ==> name in m && NamesNote(n, paths, name, m[name]))
  {
    var paths, aliases := PathsOf(RowsOfAll(pipe, Chunks, results)), RowsOfAll(pipe, Aliases, results);
    forall a | a in aliases && a.AliasRow?
      ensures a.path in paths
    {
      RowsOfIndexedNotes(pipe, Aliases, results, a);
    }
    hide Resolves, NamesNote, AliasOf, PathsOf, RowsOfAll;
    LookupMeaning(n, paths, aliases, m, name);
  }

  // The links of a rebuild after resolution: each as the lookup dictionary resolves it.
  ghost predicate LinksResolved(
      pipe: Pipeline, n: Normalizer, results: seq<Result>, m: map<string, Path>, rows: seq<Row>)
  {
    && Resolves(n, PathsOf(RowsOfAll(pipe, Chunks, results)), RowsOfAll(pipe, Aliases, results), m)
    && (forall name :: name in m ==> m[name] in PathsOf(RowsOfAll(pipe, Chunks, results)))
    && multiset(rows) == multiset(ResolveAll(m, RowsOfAll(pipe, Links, results)))
  }

  // The links of a rebuild after a resolution in which table operations may fail.
  ghost predicate LinksTried(
      pipe: Pipeline, n: Normalizer, results: seq<Result>, faults: TableFaults, m: map<string, Path>, rows: seq<Row>)
  {
    var links, paths := RowsOfAll(pipe, Links, results), PathsOf(RowsOfAll(pipe, Chunks, results));
    && Resolves(n, paths, if faults.aliases then [] else RowsOfAll(pipe, Aliases, results), m)
    && AllLinks(links)
    && (forall u :: u in UpdatesOfRun(faults, m, links, paths) ==> Updatable(m, u))
    && rows == TryUpdates(m, links, UpdatesOfRun(faults, m, links, paths), faults.updates)
  }

  // What staging leaves in table `k`.
  ghost predicate IsStaged(
      pipe: Pipeline, n: Normalizer, results: seq<Result>, plan: Plan, m: map<string, Path>, k: Kind, rows: seq<Row>)
  {
    if k == Links then LinksTried(pipe, n, results, plan.resolution, m, rows) else rows == RowsOfAll(pipe, k, results)
  }

  // Staged links miss exactly the rows whose update lost them.
  lemma StagedLinksCount(
      pipe: Pipeline, n: Normalizer, results: seq<Result>, faults: TableFaults, m: map<string, Path>, rows: seq<Row>)
    requires DistinctPaths(results) && forall i :: 0 <= i < |results| ==> WellParsed(results[i].1)
    requires LinksTried(pipe, n, results, faults, m, rows)
    ensures var links, paths := RowsOfAll(pipe, Links, results), PathsOf(RowsOfAll(pipe, Chunks, results));
            |rows| == |links| - LostCount(faults.updates, |UpdatesOfRun(faults, m, links, paths)|)
  {
    var links, paths := RowsOfAll(pipe, Links, results), PathsOf(RowsOfAll(pipe, Chunks, results));
    StagedLinksUnique(pipe, results);
    hide RowsOfAll, PathsOf, Resolves, UniqueKeys, UpdatesOfRun, TryUpdates;
    RowsLost(faults, m, links, paths);
  }

  lemma StagedRowsAre(
      pipe: Pipeline, n: Normalizer, results: seq<Result>, plan: Plan, m: map<string, Path>, k: Kind, rows: seq<Row>)
    requires IsStaged(pipe, n, results, plan, m, k, rows) && k != Links
    ensures rows == RowsOfAll(pipe, k, results)
  {
  }

  // If no update loses its row, the staged tables are the rebuilt ones.
  lemma StagedIsRebuilt(
      pipe: Pipeline, n: Normalizer, results: seq<Result>, plan: Plan, m: map<string, Path>, k: Kind, rows: seq<Row>)
    requires DistinctPaths(results) && forall i :: 0 <= i < |results| ==> WellParsed(results[i].1)
    requires IsStaged(pipe, n, results, plan, m, k, rows) && (k == Links ==> KeepsLinks(plan))
    ensures IsRebuilt(pipe, k, rows, results)
  {
    if k == Links {
      var links, paths := RowsOfAll(pipe, Links, results), PathsOf(RowsOfAll(pipe, Chunks, results));
      var faults := plan.resolution;
      StagedLinksUnique(pipe, results);
      FailingResolution(faults, m, links, paths);
      hide RowsOfAll, PathsOf, Resolves, UniqueKeys, UpdatesOfRun, TryUpdates, RunLeaves, EraseAll;
      ResolutionErased(m, links, UpdatesOfRun(faults, m, links, paths), faults.updates, rows);
    }
  }

  ghost predicate Indexed(chunks: seq<Row>, p: Path) {
    exists c :: c in chunks && c.path == p
  }

  // What the link table of a rebuild holds: nothing but the links found, each leading nowhere
  // or where the dictionary says; all of them unless an update has lost its row; and without
  // failures every link that the dictionary has a note for leads to it, an indexed note.
  ghost predicate LinksHeld(
      pipe: Pipeline, results: seq<Result>, plan: Plan, m: map<string, Path>, links: seq<Row>, chunks: seq<Row>)
  {
    && OneRowPerLink(links)
    && (forall x :: x in links ==> exists r :: ParsedLink(results, r) && (x == r || LeadsTo(m, r, x)))
    && (KeepsLinks(plan) ==> forall r :: ParsedLink(results, r) ==> r in links || exists x :: x in links && LeadsTo(m, r, x))
    && (Resolvable(pipe, results, plan) ==>
          forall r :: ParsedLink(results, r) ==>
            if CanLead(m, r) then exists x :: x in links && LeadsTo(m, r, x) && Indexed(chunks, x.to) else r in links)
  }

  // Resolution meets no failure and no more links than it looks at.
  ghost predicate Resolvable(pipe: Pipeline, results: seq<Result>, plan: Plan) {
    pipe.cap >= 1 && ResolutionWorks(plan) && |UnresolvedRows(RowsOfAll(pipe, Links, results))| <= 100000
  }

  lemma StagedLinksHeld(
      pipe: Pipeline, n: Normalizer, results: seq<Result>, plan: Plan, m: map<string, Path>,
      links: seq<Row>, chunks: seq<Row>)
    requires DistinctPaths(results) && forall i :: 0 <= i < |results| ==> WellParsed(results[i].1)
    requires IsStaged(pipe, n, results, plan, m, Links, links) && chunks == RowsOfAll(pipe, Chunks, results)
    ensures LinksHeld(pipe, results, plan, m, links, chunks)
  {
    hide LinksHeld, Resolvable, NoRowLost, AllLead, KeptOrLed, IsStaged, Indexed;
    var found := RowsOfAll(pipe, Links, results);
    forall r
      ensures r in found <==> ParsedLink(results, r)
    {
      LinksOfAll(pipe, results, r);
    }
    hide *;
    StagedRunMeans(pipe, n, results, plan, m, links);
    if Resolvable(pipe, results, plan) {
      forall r, x | LeadsTo(m, r, x)
        ensures Indexed(chunks, x.to)
      {
        TargetIsIndexed(pipe, n, results, plan, m, links, r, x);
      }
    }
    LinksHeldFrom(pipe, results, plan, m, found, links, chunks);
  }

  lemma StagedRunMeans(
      pipe: Pipeline, n: Normalizer, results: seq<Result>, plan: Plan, m: map<string, Path>, links: seq<Row>)
    requires DistinctPaths(results) && forall i :: 0 <= i < |results| ==> WellParsed(results[i].1)
    requires IsStaged(pipe, n, results, plan, m, Links, links)
    ensures var found := RowsOfAll(pipe, Links, results);
            && OneRowPerLink(links) && KeptOrLed(m, found, links)
            && (KeepsLinks(plan) ==> NoRowLost(m, found, links))
            && (Resolvable(pipe, results, plan) ==> AllLead(m, found, links))
  {
    hide RowsOfAll, PathsOf, Resolves, UniqueKeys, UpdatesOfRun, TryUpdates, UnresolvedRows, OneRowPerLink, KeptOrLed,
      NoRowLost, AllLead;
    var found, paths := RowsOfAll(pipe, Links, results), PathsOf(RowsOfAll(pipe, Chunks, results));
    StagedLinksUnique(pipe, results);
    OneRowIsUnique(found);
    RunMeans(plan.resolution, m, found, paths);
    if Resolvable(pipe, results, plan) && paths == [] {
      if found != [] {
        assert found[0] in found;
        RowsOfIndexedNotes(pipe, Links, results, found[0]);
      }
      assert found == [];
      NoLinksAllLead(m, links);
    }
  }

  lemma NoLinksAllLead(m: map<string, Path>, links: seq<Row>)
    requires NoRowLost(m, [], links)
    ensures AllLead(m, [], links)
  {
  }

  lemma TargetIsIndexed(
      pipe: Pipeline, n: Normalizer, results: seq<Result>, plan: Plan, m: map<string, Path>, links: seq<Row>,
      r: Row, x: Row)
    requires DistinctPaths(results) && forall i :: 0 <= i < |results| ==> WellParsed(results[i].1)
    requires IsStaged(pipe, n, results, plan, m, Links, links) && Resolvable(pipe, results, plan) && LeadsTo(m, r, x)
    ensures Indexed(RowsOfAll(pipe, Chunks, results), x.to)
  {
    hide RowsOfAll, PathsOf, Resolves, TryUpdates, UpdatesOfRun, UnresolvedRows, WellParsed, DistinctPaths;
    RebuildLookup(pipe, n, results, m, r.normalized);
    PathIsIndexed(RowsOfAll(pipe, Chunks, results), m[r.normalized]);
  }

  lemma LinksHeldFrom(
      pipe: Pipeline, results: seq<Result>, plan: Plan, m: map<string, Path>,
      found: seq<Row>, links: seq<Row>, chunks: seq<Row>)
    requires forall r :: r in found <==> ParsedLink(results, r)
    requires OneRowPerLink(links) && KeptOrLed(m, found, links)
    requires KeepsLinks(plan) ==> NoRowLost(m, found, links)
    requires Resolvable(pipe, results, plan) ==>
               AllLead(m, found, links) && forall r, x :: LeadsTo(m, r, x) ==> Indexed(chunks, x.to)
    ensures LinksHeld(pipe, results, plan, m, links, chunks)
  {
    hide ParsedLink, LeadsTo, CanLead, OneRowPerLink, Indexed, Resolvable, KeepsLinks;
  }

  lemma PathIsIndexed(chunks: seq<Row>, p: Path)
    requires p in PathsOf(chunks)
    ensures Indexed(chunks, p)
  {
  }

  // What the other tables of a rebuild hold: of every note what it was parsed to.
  ghost predicate NotesHeld(pipe: Pipeline, results: seq<Result>, k: Kind, rows: seq<Row>) {
    && (forall i :: 0 <= i < |results| ==>
          IsRecorded(pipe, k, results[i].0, results[i].1, RowsFor(rows, results[i].0)))
    && (forall q :: (forall i :: 0 <= i < |results| ==> results[i].0 != q) ==> RowsFor(rows, q) == [])
  }

  lemma AllRowsHeld(pipe: Pipeline, results: seq<Result>, k: Kind)
    requires DistinctPaths(results)
    ensures NotesHeld(pipe, results, k, RowsOfAll(pipe, k, results))
  {
    hide RowsFor, RowsOfAll, IsRecorded, DistinctPaths;
    forall i | 0 <= i < |results|
      ensures IsRecorded(pipe, k, results[i].0, results[i].1, RowsFor(RowsOfAll(pipe, k, results), results[i].0))
    {
      RowsForAll(pipe, k, results, i);
      ParsedRowsRecorded(pipe, k, results[i].0, results[i].1);
    }
    forall q | forall i :: 0 <= i < |results| ==> results[i].0 != q
      ensures RowsFor(RowsOfAll(pipe, k, results), q) == []
    {
      RowsForNone(pipe, k, results, q);
    }
  }

  // Without failures the staged links are resolved as the lookup dictionary says.
  lemma ResolutionReachesRebuild(
      pipe: Pipeline, n: Normalizer, results: seq<Result>, plan: Plan, m: map<string, Path>, rows: seq<Row>)
    requires pipe.cap >= 1 && DistinctPaths(results) && forall i :: 0 <= i < |results| ==> WellParsed(results[i].1)
    requires IsStaged(pipe, n, results, plan, m, Links, rows) && ResolutionWorks(plan)
    requires |UnresolvedRows(RowsOfAll(pipe, Links, results))| <= MAX_UNRESOLVED
    ensures LinksResolved(pipe, n, results, m, rows)
  {
    hide Resolves, RowsOfAll, PathsOf, UnresolvedRows, SelectUpdates, ApplyUpdates, TryUpdates, ResolveAll, UniqueKeys;
    var links, paths := RowsOfAll(pipe, Links, results), PathsOf(RowsOfAll(pipe, Chunks, results));
    StagedLinksUnique(pipe, results);
    forall name | name in m
      ensures m[name] in paths
    {
      RebuildLookup(pipe, n, results, m, name);
    }
    WorkingUpdates(m, links, UpdatesOfRun(plan.resolution, m, links, paths), plan.resolution.updates);
    if paths == [] {
      if links != [] {
        assert links[0] in links;
        RowsOfIndexedNotes(pipe, Links, results, links[0]);
      }
      NoUpdates(m, links, plan.resolution.updates);
      assert ResolveAll(m, links) == links;
    } else {
      ResolutionIsPointwise(m, links);
    }
  }

  lemma StagedRows(
      pipe: Pipeline, stored: seq<Row>, links: seq<Row>, aliases: seq<(Path, seq<string>)>,
      notes: nat, chunks: nat, errors: nat, results: seq<Result>)
    requires Gathered(pipe, stored, [], links, aliases, notes, chunks, errors, results)
    ensures stored == RowsOfAll(pipe, Chunks, results) && links == RowsOfAll(pipe, Links, results)
    ensures AliasRowsOfAll(pipe, aliases) == RowsOfAll(pipe, Aliases, results)
    ensures notes == CountIndexed(results) && errors == CountErrors(results)
    ensures chunks == |stored| == ChunkTotal(pipe, results)
  {
    assert EmbedBatch(pipe, []) == [];
    ChunkTotalIsRowCount(pipe, results);
  }

  // The rows a rebuild gives table `k`; how far links are resolved is left open.
  ghost predicate IsRebuilt(pipe: Pipeline, k: Kind, rows: seq<Row>, results: seq<Result>) {
    if k == Links then multiset(EraseAll(rows)) == multiset(EraseAll(RowsOfAll(pipe, Links, results)))
    else rows == RowsOfAll(pipe, k, results)
  }

  class VaultIndexer {
    const pipe: Pipeline

    var db: Db
    // The open handle for each kind of table.
    var handles: map<Kind, Name>
    var operationsSinceCompact: nat

    ghost predicate Valid()
      reads this
    {
      forall k :: k in handles ==> handles[k] == Canonical(k) && handles[k] in db
    }

    function Contents(k: Kind): seq<Row>
      reads this
    {
      ContentsOf(db, k)
    }

    constructor (pipe: Pipeline)
      ensures Valid() && this.pipe == pipe && db == map[] && handles == map[]
    {
      this.pipe := pipe;
      db, handles, operationsSinceCompact := map[], map[], 0;
    }

    // `_ensure_table`, `_ensure_links_table`, `_ensure_aliases_table`.
    method EnsureTable(k: Kind)
      requires k in handles ==> handles[k] in db
      modifies this`db, this`handles
      ensures handles == if k in old(handles) then old(handles) else old(handles)[k := Canonical(k)]
      ensures db == old(db)[handles[k] := TableOf(old(db), handles[k])]
    {
      if k !in handles {
        if Canonical(k) !in db {
          db := db[Canonical(k) := [[]]];
        }
        handles := handles[k := Canonical(k)];
      }
    }

    // Take a snapshot, delete the rows of one note from one table, add the new ones.
    method ReplaceInTable(k: Kind, p: Path, rows: seq<Row>, op: nat, fault: Fault) returns (ok: bool, snapshot: Snapshot)
      requires Valid()
      modifies this`db, this`handles
      ensures Valid()
      ensures ok <==> !ReplaceFails(rows, op, fault)
      ensures snapshot == (k, Version(TableOf(old(db), Canonical(k))))
      ensures db == old(db)[Canonical(k) := AfterReplace(TableOf(old(db), Canonical(k)), p, rows, op, fault)]
    {
      EnsureTable(k);
      var n := handles[k];
      snapshot := (k, Version(db[n]));
      ok := fault.op != op;
      db := db[n := AfterWrite(db[n], WithoutPath(Rows(db[n]), p), op, fault)];
      if ok && rows != [] {
        ok := fault.op != op + 1;
        db := db[n := AfterWrite(db[n], Rows(db[n]) + rows, op + 1, fault)];
      }
    }

    // `_apply_note_records`. A restore that itself fails leaves its table as it is;
    // `stuck` names the tables for which that happens.
    method ApplyNoteRecords(
        p: Path, chunks: seq<Row>, links: seq<Row>, aliases: seq<Row>, fault: Fault, stuck: set<Kind>)
      returns (ok: bool)
      requires Valid()
      modifies this`db, this`handles
      ensures Valid()
      ensures ok <==> !ReplaceFails(chunks, 0, fault) && !ReplaceFails(links, 2, fault) && !ReplaceFails(aliases, 4, fault)
      ensures !ok ==> fault.op < 6
      ensures ok ==> forall k ::
                Contents(k) == WithoutPath(old(Contents(k)), p) + TableRows(chunks, links, aliases).Of(k)
      ensures !ok ==> forall k :: k !in stuck ==> Contents(k) == old(Contents(k))
      ensures forall k :: TableOf(db, Staging(k)) == TableOf(old(db), Staging(k))
    {
      hide AfterReplace, WithoutPath, Replaced;
      ghost var before, rows := db, TableRows(chunks, links, aliases);
      var snapshots: seq<Snapshot> := [];
      assert Replaced(before, db, snapshots, p, rows, fault) by { NothingReplaced(before, p, rows, fault); }
      var snapshot;
      ghost var now := db;
      ok, snapshot := ReplaceInTable(Chunks, p, chunks, 0, fault);
      ReplaceNext(before, now, db, snapshots, p, rows, fault, Chunks);
      snapshots := snapshots + [snapshot];
      if ok {
        now := db;
        ok, snapshot := ReplaceInTable(Links, p, links, 2, fault);
        ReplaceNext(before, now, db, snapshots, p, rows, fault, Links);
        snapshots := snapshots + [snapshot];
      }
      if ok {
        now := db;
        ok, snapshot := ReplaceInTable(Aliases, p, aliases, 4, fault);
        ReplaceNext(before, now, db, snapshots, p, rows, fault, Aliases);
        snapshots := snapshots + [snapshot];
      }
      if ok {
        forall k
          ensures ContentsOf(db, k) == WithoutPath(ContentsOf(before, k), p) + rows.Of(k)
          ensures TableOf(db, Staging(k)) == TableOf(before, Staging(k))
        {
          ReplacedAll(before, db, snapshots, p, rows, fault, k);
        }
      } else {
        forall k
          ensures Saved(before, db, snapshots, k)
          ensures TableOf(db, Staging(k)) == TableOf(before, Staging(k))
        {
          ReplacedIsSaved(before, db, snapshots, p, rows, fault, k);
        }
        SnapshotKindsDiffer(before, db, snapshots, p, rows, fault);
        Rollback(before, snapshots, stuck);
      }
    }

    // Restore the snapshots, last first.
    method Rollback(ghost before: Db, snapshots: seq<Snapshot>, stuck: set<Kind>)
      requires Valid()
      requires forall i, j :: 0 <= i < j < |snapshots| ==> snapshots[i].0 != snapshots[j].0
      requires forall k :: Saved(before, db, snapshots, k)
      modifies this`db
      ensures Valid()
      ensures forall k :: k !in stuck ==> Contents(k) == ContentsOf(before, k)
      ensures forall k :: TableOf(db, Staging(k)) == TableOf(old(db), Staging(k))
    {
      hide Saved, Restored;
      ghost var now := db;
      var i := |snapshots|;
      assert snapshots[..i] == snapshots;
      while i > 0
        invariant 0 <= i <= |snapshots|
        invariant RestoreAll(db, snapshots[..i], stuck) == RestoreAll(now, snapshots, stuck)
      {
        i := i - 1;
        assert snapshots[..i + 1][..i] == snapshots[..i];
        if snapshots[i].0 !in stuck {
          var n := Canonical(snapshots[i].0);
          db := db[n := Restored(TableOf(db, n), snapshots[i].1)];
        }
      }
      forall k | k !in stuck
        ensures ContentsOf(db, k) == ContentsOf(before, k)
      {
        hide *;
        RestoreAllContents(before, now, snapshots, stuck, k);
      }
      forall n: Name
        ensures n.Staging? ==> TableOf(db, n) == TableOf(now, n)
        ensures n in now ==> n in db
      {
        RestoreAllTable(now, snapshots, stuck, n);
      }
    }

    // `_record_incremental_operation`: every hundredth operation tries to compact.
    method RecordOperation(compacted: bool)
      modifies this`operationsSinceCompact
      ensures operationsSinceCompact ==
              if old(operationsSinceCompact) + 1 >= 100 && compacted then 0
              else old(operationsSinceCompact) + 1
    {
      operationsSinceCompact := operationsSinceCompact + 1;
      if operationsSinceCompact >= AUTO_COMPACT_THRESHOLD && compacted {
        operationsSinceCompact := 0;
      }
    }

    // `reindex_note` after the breaker let the call through. `content` is what the call
    // read, or None when it found the file missing.
    method ReindexNote(
        p: Path, content: Option<Content>, embedFails: bool, fault: Fault, stuck: set<Kind>, compacted: bool)
      returns (status: ReindexStatus, chunksIndexed: nat)
      requires Valid() && WellFormed(pipe)
      modifies this
      ensures Valid()
      ensures Applied(status) ==> forall k ::
                Contents(k) == WithoutPath(old(Contents(k)), p) + NoteRows(pipe, k, p, content)
      ensures !Applied(status) ==> forall k :: k !in stuck ==> Contents(k) == old(Contents(k))
      ensures Applied(status) ==> forall k :: NoteIsHeld(pipe, k, p, content, Contents(k))
      ensures Applied(status) ==> forall k, q :: q != p ==> RowsFor(Contents(k), q) == RowsFor(old(Contents(k)), q)
      ensures Applied(status) ==> (status == Deleted <==> content == None)
      ensures Applied(status) ==>
                (status == Updated <==> content.Some? && pipe.parse(p, content.value).status == Success)
      ensures Applied(status) ==> (status == Updated <==> |NoteRows(pipe, Chunks, p, content)| > 0)
      ensures status == AddFailed ==> embedFails || fault.op < 6
      ensures status == ParseFailed <==> content.Some? && pipe.parse(p, content.value).status == ParseError
      ensures status == Updated <==> chunksIndexed > 0
      ensures status == Updated ==> chunksIndexed == |NoteRows(pipe, Chunks, p, content)|
      ensures forall k :: TableOf(db, Staging(k)) == TableOf(old(db), Staging(k))
    {
      hide RowsOfParsed, WithoutPath, ReplaceFails, ContentsOf, NoteIsHeld, RowsFor;
      ghost var before := TableRows(Contents(Chunks), Contents(Links), Contents(Aliases));
      assert forall k :: Contents(k) == before.Of(k);
      chunksIndexed := 0;
      if content == None {
        var ok := ApplyNoteRecords(p, [], [], [], fault, stuck);
        if !ok {
          return AddFailed, 0;
        }
        ReplacedIsHeld(p, content, before);
        RecordOperation(compacted);
        return Deleted, 0;
      }
      var parsed := pipe.parse(p, content.value);
      assert WellParsed(parsed);
      if parsed.status == ParseError {
        return ParseFailed, 0;
      }
      var chunks := Capped(pipe, parsed.chunks);
      if chunks == [] {
        NoChunksNoRows(pipe, p, parsed);
        var ok := ApplyNoteRecords(p, [], [], [], fault, stuck);
        if !ok {
          return AddFailed, 0;
        }
        ReplacedIsHeld(p, content, before);
        RecordOperation(compacted);
        return Emptied, 0;
      }
      if embedFails {
        return AddFailed, 0;
      }
      ParsedTableRows(pipe, p, parsed);
      var ok := ApplyNoteRecords(
        p, EmbedRows(pipe, p, chunks), LinkRows(p, parsed.links), AliasRows(pipe, p, parsed.aliases), fault, stuck);
      if !ok {
        return AddFailed, 0;
      }
      ReplacedIsHeld(p, content, before);
      RecordOperation(compacted);
      return Updated, |chunks|;
    }

    lemma ReplacedIsHeld(p: Path, content: Option<Content>, before: TableRows)
      requires forall k :: Contents(k) == WithoutPath(before.Of(k), p) + NoteRows(pipe, k, p, content)
      ensures forall k :: NoteIsHeld(pipe, k, p, content, Contents(k))
      ensures forall k, q :: q != p ==> RowsFor(Contents(k), q) == RowsFor(before.Of(k), q)
    {
      hide RowsOfParsed, WithoutPath, ContentsOf, RowsFor, IsRecorded;
      forall k
        ensures NoteIsHeld(pipe, k, p, content, Contents(k))
      {
        RowsForReplaced(before.Of(k), p, NoteRows(pipe, k, p, content), p);
        if content.Some? { ParsedRowsRecorded(pipe, k, p, pipe.parse(p, content.value)); }
      }
      forall k, q | q != p
        ensures RowsFor(Contents(k), q) == RowsFor(before.Of(k), q)
      {
        RowsForReplaced(before.Of(k), p, NoteRows(pipe, k, p, content), q);
      }
    }

    // ----- Full rebuild -----

    // `_reset_staging_tables`, and pointing the handles at the staging tables.
    method OpenStaging()
      modifies this`db, this`handles
      ensures forall k :: TableOf(db, Canonical(k)) == TableOf(old(db), Canonical(k))
      ensures forall k :: (Canonical(k) in db <==> Canonical(k) in old(db))
      ensures forall k :: Staging(k) in db && Rows(db[Staging(k)]) == []
      ensures handles == map[Chunks := Staging(Chunks), Links := Staging(Links), Aliases := Staging(Aliases)]
    {
      db := db[Staging(Chunks) := TableOf(db, Staging(Chunks)) + [[]]];
      db := db[Staging(Links) := TableOf(db, Staging(Links)) + [[]]];
      db := db[Staging(Aliases) := TableOf(db, Staging(Aliases)) + [[]]];
      forall k
        ensures Staging(k) in db && Rows(db[Staging(k)]) == []
      {
        match k
        case Chunks =>
        case Links =>
        case Aliases =>
      }
      handles := map[Chunks := Staging(Chunks), Links := Staging(Links), Aliases := Staging(Aliases)];
    }

    // `_restore_canonical_handles`.
    method RestoreHandles()
      modifies this`handles
      ensures Valid() && forall k :: k in handles <==> Canonical(k) in db
    {
      handles := map k: Kind | k in ALL_KINDS && Canonical(k) in db :: Canonical(k);
      forall k: Kind
        ensures k in ALL_KINDS
      {
        match k
        case Chunks =>
        case Links =>
        case Aliases =>
      }
    }

    // `_store_staging_batch` for the store call with number `call`.
    method StoreBatch(batch: seq<Pending>, call: nat, plan: Plan) returns (ok: bool)
      requires Staging(Chunks) in db
      modifies this`db
      ensures ok <==> call != plan.storeFailsAt
      ensures ok ==> db == old(db)[Staging(Chunks) :=
                old(db)[Staging(Chunks)] + [Rows(old(db)[Staging(Chunks)]) + EmbedBatch(pipe, batch)]]
      ensures !ok ==> db == old(db)
    {
      ok := call != plan.storeFailsAt;
      if ok {
        var n := Staging(Chunks);
        db := db[n := db[n] + [Rows(db[n]) + EmbedBatch(pipe, batch)]];
      }
    }

    // Parse results arrive in completion order; chunks are embedded and stored in batches.
    method StageNotes(results: seq<Result>, plan: Plan)
      returns (outcome: FullStatus, links: seq<Row>, aliases: seq<(Path, seq<string>)>,
               notes: nat, chunks: nat, errors: nat)
      requires Staging(Chunks) in db && Rows(db[Staging(Chunks)]) == []
      modifies this`db
      ensures Staging(Chunks) in db && db == old(db)[Staging(Chunks) := db[Staging(Chunks)]]
      ensures outcome == Interrupted ==> plan.shutdownAt < |results|
      ensures outcome == Completed ==> plan.shutdownAt >= |results|
      ensures outcome == Completed ==>
                Gathered(pipe, Rows(db[Staging(Chunks)]), [], links, aliases, notes, chunks, errors, results)
      ensures plan.shutdownAt >= |results| && plan.storeFailsAt > |results| ==> outcome == Completed
    {
      hide Gathered, RowsOfAll, EmbedBatch, PendingOf, LinkRows;
      var batch: seq<Pending> := [];
      var calls := 0;
      links, aliases, notes, chunks, errors := [], [], 0, 0, 0;
      NothingGathered(pipe);
      var i := 0;
      while i < |results|
        invariant 0 <= i <= |results| && calls <= i
        invariant Staging(Chunks) in db && db == old(db)[Staging(Chunks) := db[Staging(Chunks)]]
        invariant Gathered(pipe, Rows(db[Staging(Chunks)]), batch, links, aliases, notes, chunks, errors, results[..i])
        invariant i <= plan.shutdownAt
      {
        if i == plan.shutdownAt {
          outcome := Interrupted;
          return;
        }
        var p, parsed := results[i].0, results[i].1;
        assert results[..i + 1] == results[..i] + [(p, parsed)];
        GatherNext(pipe, Rows(db[Staging(Chunks)]), batch, links, aliases, notes, chunks, errors, results[..i], p, parsed);
        i := i + 1;
        if parsed.status == ParseError {
          errors := errors + 1;
          continue;
        }
        if parsed.status != Success {
          continue;
        }
        notes := notes + 1;
        batch := batch + PendingOf(pipe, p, parsed);
        links := links + LinkRows(p, parsed.links);
        if parsed.aliases != [] {
          aliases := aliases + [(p, parsed.aliases)];
        }
        if |batch| >= plan.batchSize {
          GatherStored(pipe, Rows(db[Staging(Chunks)]), batch, links, aliases, notes, chunks, errors, results[..i]);
          var ok := StoreBatch(batch, calls, plan);
          if !ok {
            outcome := Failed;
            return;
          }
          calls := calls + 1;
          chunks := chunks + |batch|;
          batch := [];
        }
      }
      assert results[..i] == results;
      if batch != [] {
        GatherStored(pipe, Rows(db[Staging(Chunks)]), batch, links, aliases, notes, chunks, errors, results);
        var ok := StoreBatch(batch, calls, plan);
        if !ok {
          outcome := Failed;
          return;
        }
        chunks := chunks + |batch|;
      }
      outcome := Completed;
    }

    // `_replace_table_from_staging`: one commit, remembering the previous version.
    method PublishTable(k: Kind) returns (commit: Commit)
      requires Staging(k) in db
      modifies this`db
      ensures commit == CommitOf(old(db), k)
      ensures db == old(db)[Canonical(k) := Published(old(db), k)]
    {
      var rows := Rows(db[Staging(k)]);
      if Canonical(k) in db {
        commit := (k, Some(Version(db[Canonical(k)])));
        db := db[Canonical(k) := db[Canonical(k)] + [rows]];
      } else {
        commit := (k, None);
        db := db[Canonical(k) := [rows]];
      }
    }

    // One publish of the commit phase; a failing one raises before or after its commit.
    method TryPublish(k: Kind, plan: Plan, ghost before: Db, committed0: seq<Commit>)
      returns (ok: bool, committed: seq<Commit>, ghost base: Db)
      requires forall j :: Staging(j) in db
      requires Committed(before, db, committed0) && PublishRank(k) == |committed0|
      modifies this`db
      ensures ok <==> plan.publishFailsAt != PublishRank(k)
      ensures base == if ok || !plan.publishLands then before else before[Canonical(k) := Published(before, k)]
      ensures Committed(base, db, committed) && |committed| == |committed0| + (if ok then 1 else 0)
      ensures forall j :: Staging(j) in db
    {
      hide Published, CommittedAt;
      committed, base := committed0, before;
      ok := plan.publishFailsAt != PublishRank(k);
      if ok {
        CommitNext(before, db, committed, k);
        var commit := PublishTable(k);
        committed := committed + [commit];
      } else if plan.publishLands {
        LandAside(before, db, committed, k);
        var _ := PublishTable(k);
        base := before[Canonical(k) := Published(before, k)];
      }
    }

    // The commit phase: publish links, aliases and chunks, or undo what was published.
    method PublishAll(plan: Plan, stuck: set<Kind>) returns (ok: bool)
      requires forall k :: Staging(k) in db
      modifies this`db
      ensures ok <==> plan.publishFailsAt >= 3
      ensures ok ==> forall k :: Canonical(k) in db && Contents(k) == Rows(old(db)[Staging(k)])
      ensures !ok ==> forall k :: k !in stuck ==>
                Contents(k) == if Landed(plan, k) then Rows(old(db)[Staging(k)]) else old(Contents(k))
    {
      hide Published, Restored, CommittedAt, Committed, PublishRank;
      ghost var before := db;
      ghost var base := db;
      var committed: seq<Commit> := [];
      assert Committed(before, db, committed) by { NothingCommitted(before); }
      PublishOrder();
      ok, committed, base := TryPublish(Links, plan, before, committed);
      if ok {
        ok, committed, base := TryPublish(Aliases, plan, before, committed);
      }
      if ok {
        ok, committed, base := TryPublish(Chunks, plan, before, committed);
      }
      if ok {
        forall k
          ensures Canonical(k) in db && ContentsOf(db, k) == Rows(before[Staging(k)])
        {
          AllCommitted(before, db, committed, k);
        }
      } else {
        Unpublish(base, committed, stuck);
        forall k
          ensures ContentsOf(base, k) == if Landed(plan, k) then Rows(before[Staging(k)]) else ContentsOf(before, k)
        {
          LandedContents(before, k);
        }
      }
    }

    method Unpublish(ghost before: Db, committed: seq<Commit>, stuck: set<Kind>)
      requires Committed(before, db, committed)
      modifies this`db
      ensures forall k :: k !in stuck ==> Contents(k) == ContentsOf(before, k)
      ensures forall k :: TableOf(db, Staging(k)) == TableOf(old(db), Staging(k))
    {
      hide CommittedAt, RolledBack;
      var i := |committed|;
      forall k
        ensures Unwound(before, db, committed, i, stuck, k)
      {
        assert CommittedAt(before, db, committed, k);
        NotCommitted(before, db, committed, k);
      }
      while i > 0
        invariant 0 <= i <= |committed|
        invariant forall k {:trigger Unwound(before, db, committed, i, stuck, k)} ::
          Unwound(before, db, committed, i, stuck, k)
        invariant forall k :: TableOf(db, Staging(k)) == TableOf(old(db), Staging(k))
      {
        i := i - 1;
        ghost var now := db;
        var k := committed[i].0;
        assert Unwound(before, db, committed, i + 1, stuck, k);
        CommittedTableExists(before, db, committed, k);
        if k !in stuck {
          db := db[Canonical(k) := RolledBack(db[Canonical(k)], committed[i].1)];
        }
        forall j
          ensures Unwound(before, db, committed, i, stuck, j)
        {
          assert Unwound(before, now, committed, i + 1, stuck, j);
          UnwindStep(before, now, db, committed, i, stuck, j);
        }
      }
      forall k | k !in stuck
        ensures ContentsOf(db, k) == ContentsOf(before, k)
      {
        assert Unwound(before, db, committed, 0, stuck, k);
      }
    }

    // The links and aliases of the staged notes, and the resolution of the links.
    method StageGraph(
        n: Normalizer, links: seq<Row>, aliases: seq<(Path, seq<string>)>, plan: Plan)
      returns (ok: bool, ghost pathMap: map<string, Path>, ghost applied: seq<Row>)
      requires AllLinks(links)
      requires forall k :: Staging(k) in db
      requires Rows(db[Staging(Links)]) == [] && Rows(db[Staging(Aliases)]) == []
      modifies this`db
      ensures forall m :: m in old(db) <==> m in db
      ensures forall m :: m in db && m != Staging(Links) && m != Staging(Aliases) ==> db[m] == old(db)[m]
      ensures ok <==> !plan.graphFails
      ensures ok ==> Rows(db[Staging(Aliases)]) == AliasRowsOfAll(pipe, aliases)
      ensures ok ==> Resolves(n, PathsOf(Rows(db[Staging(Chunks)])),
                              if plan.resolution.aliases then [] else AliasRowsOfAll(pipe, aliases), pathMap)
      ensures ok ==> applied == UpdatesOfRun(plan.resolution, pathMap, links, PathsOf(Rows(db[Staging(Chunks)])))
      ensures ok ==> (forall u :: u in applied ==> Updatable(pathMap, u))
                     && Rows(db[Staging(Links)]) == TryUpdates(pathMap, links, applied, plan.resolution.updates)
    {
      hide TryUpdates, Resolves, AliasRows, UpdatesOfRun, PathsOf, Updatable, OneRowPerLink, KeptOrLed, NoRowLost,
        AllLead, CanLead, UnresolvedRows;
      pathMap, applied := map[], [];
      ok := !plan.graphFails;
      if !ok {
        return;
      }
      ghost var before := db;
      for i := 0 to |aliases|
        invariant db == before[Staging(Aliases) := TableOf(db, Staging(Aliases))]
        invariant Rows(TableOf(db, Staging(Aliases))) == AliasRowsOfAll(pipe, aliases[..i])
      {
        assert aliases[..i + 1][..i] == aliases[..i];
        var records := AliasRows(pipe, aliases[i].0, aliases[i].1);
        if records != [] {
          var t := db[Staging(Aliases)];
          db := db[Staging(Aliases) := t + [Rows(t) + records]];
        }
      }
      assert aliases[..|aliases|] == aliases;
      if links != [] {
        db := db[Staging(Links) := db[Staging(Links)] + [links]];
      }
      var resolved, _, m, updates := ResolveLinkTargets(
        n, Rows(db[Staging(Links)]), PathsOf(Rows(db[Staging(Chunks)])), Rows(db[Staging(Aliases)]),
        plan.resolution);
      pathMap, applied := m, updates;
      db := db[Staging(Links) := db[Staging(Links)] + [resolved]];
    }

    // The staging phase of `full_reindex`: no canonical table is touched.
    method Stage(n: Normalizer, results: seq<Result>, plan: Plan)
      returns (stats: Stats, ghost pathMap: map<string, Path>)
      requires DistinctPaths(results) && forall i :: 0 <= i < |results| ==> WellParsed(results[i].1)
      modifies this`db, this`handles
      ensures forall k :: TableOf(db, Canonical(k)) == TableOf(old(db), Canonical(k))
      ensures stats.status == Completed ==>
                forall k :: Staging(k) in db && IsStaged(pipe, n, results, plan, pathMap, k, Rows(db[Staging(k)]))
      ensures stats.status == Completed ==>
        && stats.totalNotes == CountIndexed(results) && stats.parseErrors == 0 == CountErrors(results)
        && stats.totalChunks == ChunkTotal(pipe, results) == |Rows(db[Staging(Chunks)])|
      ensures stats.status == Interrupted ==> plan.shutdownAt < |results|
      ensures Stages(plan, results) ==> stats.status == Completed
    {
      hide RowsOfAll, TryUpdates, EraseAll, DistinctPaths, AliasRowsOfAll, ChunkTotal, CountErrors, CountIndexed, UniqueKeys,
        Resolves, PathsOf, UpdatesOfRun;
      pathMap := map[];
      if plan.resetFails {
        stats := Stats(Failed, 0, 0, 0);
        return;
      }
      OpenStaging();
      var outcome, links, aliases, notes, chunks, errors := StageNotes(results, plan);
      stats := Stats(outcome, notes, chunks, errors);
      if outcome != Completed {
        return;
      }
      StagedRows(pipe, Rows(db[Staging(Chunks)]), links, aliases, notes, chunks, errors, results);
      stats := Stats(Failed, notes, chunks, errors);
      if errors > 0 {
        return;
      }
      StagedLinksUnique(pipe, results);
      var ok;
      ghost var applied;
      ok, pathMap, applied := StageGraph(n, links, aliases, plan);
      if !ok {
        return;
      }
      stats := Stats(Completed, notes, chunks, errors);
    }

    // What the tables of a completed rebuild amount to.
    lemma CompletedRebuild(n: Normalizer, results: seq<Result>, plan: Plan, m: map<string, Path>)
      requires DistinctPaths(results) && forall i :: 0 <= i < |results| ==> WellParsed(results[i].1)
      requires forall k :: IsStaged(pipe, n, results, plan, m, k, Contents(k))
      ensures forall k :: (k == Links ==> KeepsLinks(plan)) ==> IsRebuilt(pipe, k, Contents(k), results)
      ensures pipe.cap >= 1 && ResolutionWorks(plan)
              && |UnresolvedRows(RowsOfAll(pipe, Links, results))| <= MAX_UNRESOLVED
              ==> LinksResolved(pipe, n, results, m, Contents(Links))
      ensures forall k :: k != Links ==> NotesHeld(pipe, results, k, Contents(k))
      ensures LinksHeld(pipe, results, plan, m, Contents(Links), Contents(Chunks))
    {
      hide *;
      forall k | k != Links
        ensures NotesHeld(pipe, results, k, Contents(k))
      {
        StagedRowsAre(pipe, n, results, plan, m, k, Contents(k));
        AllRowsHeld(pipe, results, k);
      }
      StagedRowsAre(pipe, n, results, plan, m, Chunks, Contents(Chunks));
      StagedLinksHeld(pipe, n, results, plan, m, Contents(Links), Contents(Chunks));
      forall k | k == Links ==> KeepsLinks(plan)
        ensures IsRebuilt(pipe, k, Contents(k), results)
      {
        StagedIsRebuilt(pipe, n, results, plan, m, k, Contents(k));
      }
      if pipe.cap >= 1 && ResolutionWorks(plan)
         && |UnresolvedRows(RowsOfAll(pipe, Links, results))| <= MAX_UNRESOLVED {
        ResolutionReachesRebuild(pipe, n, results, plan, m, Contents(Links));
      }
    }

    // `full_reindex`. `results` are the parse results of all notes in completion order.
    method FullReindex(n: Normalizer, results: seq<Result>, plan: Plan, stuck: set<Kind>)
      returns (stats: Stats, ghost pathMap: map<string, Path>)
      requires Valid() && DistinctPaths(results) && forall i :: 0 <= i < |results| ==> WellParsed(results[i].1)
      modifies this
      ensures Valid() && forall k :: k in handles <==> Canonical(k) in db
      ensures stats.status != Completed ==> forall k :: k !in stuck ==>
                || Contents(k) == old(Contents(k))
                || (Landed(plan, k) && CountErrors(results) == 0
                    && IsStaged(pipe, n, results, plan, pathMap, k, Contents(k)))
      ensures stats.status == Completed ==> forall k :: IsStaged(pipe, n, results, plan, pathMap, k, Contents(k))
      ensures stats.status == Completed ==> forall k :: (k == Links ==> KeepsLinks(plan)) ==>
                IsRebuilt(pipe, k, Contents(k), results)
      ensures stats.status == Completed && pipe.cap >= 1 && ResolutionWorks(plan)
              && |UnresolvedRows(RowsOfAll(pipe, Links, results))| <= MAX_UNRESOLVED
              ==> LinksResolved(pipe, n, results, pathMap, Contents(Links))
      ensures stats.status == Completed ==> forall k :: k != Links ==> NotesHeld(pipe, results, k, Contents(k))
      ensures stats.status == Completed ==>
                LinksHeld(pipe, results, plan, pathMap, Contents(Links), Contents(Chunks))
      ensures stats.status == Completed ==>
        && stats.totalNotes == CountIndexed(results) && stats.parseErrors == 0 == CountErrors(results)
        && stats.totalChunks == ChunkTotal(pipe, results) == |Contents(Chunks)|
      ensures stats.status == Completed ==>
        && stats.totalNotes == (|set i: nat | i < |results| && results[i].1.status == Success|)
        && forall i :: 0 <= i < |results| ==> results[i].1.status != ParseError
      ensures stats.status == Interrupted ==> plan.shutdownAt < |results|
      ensures Stages(plan, results) ==> stats.status == if plan.publishFailsAt >= 3 then Completed else Failed
      ensures Stages(plan, results) && plan.publishFailsAt < 3 ==> forall k :: k !in stuck ==>
                if Landed(plan, k) then IsStaged(pipe, n, results, plan, pathMap, k, Contents(k))
                else Contents(k) == old(Contents(k))
    {
      hide RowsOfAll, EraseAll, DistinctPaths, ChunkTotal, CountErrors, CountIndexed, IsRebuilt, IsStaged, LinksResolved,
        UnresolvedRows, KeepsLinks, ResolutionWorks, NotesHeld, LinksHeld;
      stats, pathMap := Stage(n, results, plan);
      if stats.status == Completed {
        var ok := PublishAll(plan, stuck);
        if ok {
          operationsSinceCompact := 0;
        } else {
          stats := stats.(status := Failed);
        }
      }
      RestoreHandles();
      if stats.status == Completed {
        CompletedRebuild(n, results, plan, pathMap);
        CountsOfResults(results);
      }
    }
  }

  // A publish that raises after it has taken effect stays: with an empty index and one note,
  // a rebuild whose publish of the chunks lands and raises is reported as failed and leaves
  // the note's chunk in the public table.
  method LandedPublishStays(pipe: Pipeline, n: Normalizer, p: Path)
    returns (indexer: VaultIndexer, stats: Stats)
    requires pipe.cap >= 1
    ensures stats.status == Failed
    ensures indexer.Contents(Chunks) == [ChunkRow(p, "text", pipe.embed("text"))]
    ensures indexer.Contents(Links) == [] && indexer.Contents(Aliases) == []
  {
    indexer := new VaultIndexer(pipe);
    var parsed := Parsed(Success, ["text"], [], []);
    var results := [(p, parsed)];
    assert results[..0] == [] && CountErrors(results) == 0;
    assert RowsOfAll(pipe, Chunks, results) == [] + RowsOfParsed(pipe, Chunks, p, parsed);
    assert Capped(pipe, parsed.chunks) == ["text"];
    ghost var pathMap;
    var plan := Plan(1, 1, false, 2, false, 2, true, TableFaults(false, false, false, _ => Works));
    stats, pathMap := indexer.FullReindex(n, results, plan, {});
    assert Landed(plan, Chunks);
  }
}
