// `_resolve_link_targets`: pointing unresolved internal links at indexed notes.
module LinkResolution {
  import opened IndexTables
  import opened Sorting

  const MAX_UNRESOLVED: nat := 100000

  // What identifies a link row when it is deleted and added again.
  datatype Key = Key(path: Path, kind: string, target: string)

  function KeyOf(r: Row): Key
    requires r.LinkRow?
  {
    Key(r.path, r.kind, r.target)
  }

  // `normalize_link_target` applied to the stem of a path and to the path itself.
  datatype Normalizer = Normalizer(stem: Path -> string, full: Path -> string)

  ghost predicate AllLinks(rows: seq<Row>) {
    forall r :: r in rows ==> r.LinkRow?
  }

  ghost predicate UniqueKeys(rows: seq<Row>)
    requires AllLinks(rows)
  {
    forall i, j :: 0 <= i < j < |rows| ==> KeyOf(rows[i]) != KeyOf(rows[j])
  }

  // ----- Where links lead -----

  // At most one row for each note, link type and target.
  ghost predicate OneRowPerLink(rows: seq<Row>) {
    && (forall r :: r in rows ==> r.LinkRow?)
    && forall i, j :: 0 <= i < j < |rows| ==>
         rows[i].path != rows[j].path || rows[i].kind != rows[j].kind || rows[i].target != rows[j].target
  }

  ghost predicate SameLink(r: Row, x: Row) {
    && r.LinkRow? && x.LinkRow? && r.path == x.path && r.kind == x.kind && r.target == x.target
    && r.normalized == x.normalized && r.details == x.details
  }

  // An internal link that leads nowhere yet and that the dictionary has a note for.
  ghost predicate CanLead(m: map<string, Path>, r: Row) {
    r.LinkRow? && !r.resolved && r.kind != "external" && r.normalized in m && m[r.normalized] != ""
  }

  // `x` is the link `r`, leading to that note.
  ghost predicate LeadsTo(m: map<string, Path>, r: Row, x: Row) {
    CanLead(m, r) && SameLink(r, x) && x.resolved && x.to == m[r.normalized]
  }

  ghost predicate KeptOrLed(m: map<string, Path>, rows: seq<Row>, t: seq<Row>) {
    forall x :: x in t ==> x in rows || exists r :: r in rows && LeadsTo(m, r, x)
  }

  ghost predicate NoRowLost(m: map<string, Path>, rows: seq<Row>, t: seq<Row>) {
    |t| == |rows| && forall r :: r in rows ==> r in t || exists x :: x in t && LeadsTo(m, r, x)
  }

  ghost predicate AllLead(m: map<string, Path>, rows: seq<Row>, t: seq<Row>) {
    && |t| == |rows|
    && forall r :: r in rows ==> if CanLead(m, r) then exists x :: x in t && LeadsTo(m, r, x) else r in t
  }

  // ----- The lookup dictionary -----

  ghost predicate NamesNote(n: Normalizer, paths: seq<Path>, name: string, p: Path) {
    p in paths && (n.stem(p) == name || n.full(p) == name)
  }

  ghost predicate AliasOf(aliases: seq<Row>, name: string, p: Path) {
    exists a :: a in aliases && a.AliasRow? && a.aliasNormalized == name && a.path == p
  }

  // Every name and alias is mapped; a note name never loses to an alias.
  ghost predicate Resolves(n: Normalizer, paths: seq<Path>, aliases: seq<Row>, m: map<string, Path>) {
    && (forall p :: p in paths ==> n.stem(p) in m && n.full(p) in m)
    && (forall a :: a in aliases && a.AliasRow? ==> a.aliasNormalized in m)
    && (forall name :: name in m ==>
          NamesNote(n, paths, name, m[name])
          || (AliasOf(aliases, name, m[name]) && forall p :: !NamesNote(n, paths, name, p)))
  }

  method BuildPathMap(n: Normalizer, paths: seq<Path>, aliases: seq<Row>) returns (pathMap: map<string, Path>)
    ensures Resolves(n, paths, aliases, pathMap)
  {
    pathMap := map[];
    for i := 0 to |paths|
      invariant forall p :: p in paths[..i] ==> n.stem(p) in pathMap && n.full(p) in pathMap
      invariant forall name :: name in pathMap ==> NamesNote(n, paths, name, pathMap[name])
    {
      var path := paths[i];
      var stem := n.stem(path);
      if stem !in pathMap {
        pathMap := pathMap[stem := path];
      }
      var full := n.full(path);
      if full !in pathMap {
        pathMap := pathMap[full := path];
      }
    }
    ghost var names := pathMap.Keys;
    for i := 0 to |aliases|
      invariant names <= pathMap.Keys
      invariant forall a :: a in aliases[..i] && a.AliasRow? ==> a.aliasNormalized in pathMap
      invariant forall name :: name in pathMap ==>
        if name in names then NamesNote(n, paths, name, pathMap[name]) else AliasOf(aliases, name, pathMap[name])
    {
      var a := aliases[i];
      if a.AliasRow? && a.aliasNormalized !in pathMap {
        assert AliasOf(aliases, a.aliasNormalized, a.path);
        pathMap := pathMap[a.aliasNormalized := a.path];
      }
    }
  }

  // ----- Resolving -----

  // The rows that the query for unresolved links returns.
  predicate Unresolved(r: Row) {
    r.LinkRow? && !r.resolved && r.kind != "external"
  }

  function UnresolvedRows(rows: seq<Row>): (u: seq<Row>)
    ensures forall r :: r in u <==> r in rows && Unresolved(r)
    ensures |u| <= |rows|
  {
    if rows == [] then []
    else
      assert rows == [rows[0]] + rows[1..];
      (if Unresolved(rows[0]) then [rows[0]] else []) + UnresolvedRows(rows[1..])
  }

  // The note a normalized target leads to; an empty path counts as none.
  predicate Leads(m: map<string, Path>, r: Row) {
    r.LinkRow? && r.normalized in m && m[r.normalized] != ""
  }

  function Resolve(m: map<string, Path>, r: Row): Row {
    if Unresolved(r) && Leads(m, r) then Pointed(r, m[r.normalized]) else r
  }

  function ResolveAll(m: map<string, Path>, rows: seq<Row>): (t: seq<Row>)
    ensures |t| == |rows| && forall i :: 0 <= i < |rows| ==> t[i] == Resolve(m, rows[i])
  {
    seq(|rows|, i requires 0 <= i < |rows| => Resolve(m, rows[i]))
  }

  function WithoutKey(rows: seq<Row>, k: Key): (t: seq<Row>)
    requires AllLinks(rows)
    ensures forall r :: r in t <==> r in rows && KeyOf(r) != k
  {
    if rows == [] then []
    else
      assert rows == [rows[0]] + rows[1..];
      (if KeyOf(rows[0]) == k then [] else [rows[0]]) + WithoutKey(rows[1..], k)
  }

  function KeyCount(rows: seq<Row>, k: Key): nat
    requires AllLinks(rows)
  {
    if rows == [] then 0
    else (if KeyOf(rows[0]) == k then 1 else 0) + KeyCount(rows[1..], k)
  }

  lemma {:induction false} WithoutKeySize(rows: seq<Row>, k: Key)
    requires AllLinks(rows)
    ensures |WithoutKey(rows, k)| == |rows| - KeyCount(rows, k)
  {
    if rows != [] {
      WithoutKeySize(rows[1..], k);
    }
  }

  lemma {:induction false} KeyCountWithout(rows: seq<Row>, k: Key, other: Key)
    requires AllLinks(rows)
    ensures AllLinks(WithoutKey(rows, k))
    ensures KeyCount(WithoutKey(rows, k), other) == if other == k then 0 else KeyCount(rows, other)
  {
    if rows != [] {
      KeyCountWithout(rows[1..], k, other);
      KeyCountAppend(if KeyOf(rows[0]) == k then [] else [rows[0]], WithoutKey(rows[1..], k), other);
    }
  }

  lemma {:induction false} KeyCountAppend(s: seq<Row>, t: seq<Row>, k: Key)
    requires AllLinks(s) && AllLinks(t)
    ensures AllLinks(s + t)
    ensures KeyCount(s + t, k) == KeyCount(s, k) + KeyCount(t, k)
  {
    if s == [] {
      assert s + t == t;
    } else {
      KeyCountAppend(s[1..], t, k);
      assert (s + t)[1..] == s[1..] + t;
    }
  }

  lemma {:induction false} KeyCountPositive(rows: seq<Row>, k: Key)
    requires AllLinks(rows)
    ensures KeyCount(rows, k) > 0 <==> exists r :: r in rows && KeyOf(r) == k
  {
    if rows != [] {
      KeyCountPositive(rows[1..], k);
      assert forall r :: r in rows <==> r == rows[0] || r in rows[1..];
    }
  }

  lemma {:induction false} UniqueKeysCount(rows: seq<Row>, k: Key)
    requires AllLinks(rows) && UniqueKeys(rows)
    ensures KeyCount(rows, k) <= 1
  {
    if rows != [] {
      UniqueKeysCount(rows[1..], k);
      KeyCountPositive(rows[1..], k);
    }
  }

  function FirstWithKey(rows: seq<Row>, k: Key): (r: Row)
    requires AllLinks(rows) && exists r :: r in rows && KeyOf(r) == k
    ensures r in rows && r.LinkRow? && KeyOf(r) == k
  {
    if KeyOf(rows[0]) == k then rows[0]
    else
      assert rows == [rows[0]] + rows[1..];
      FirstWithKey(rows[1..], k)
  }

  // ----- Applying updates as delete-and-add -----

  ghost predicate HasKey(rows: seq<Row>, k: Key)
    requires AllLinks(rows)
  {
    exists r :: r in rows && KeyOf(r) == k
  }

  function Pointed(r: Row, to: Path): (t: Row)
    requires r.LinkRow?
    ensures t.LinkRow? && KeyOf(t) == KeyOf(r)
  {
    LinkRow(r.path, r.kind, r.target, r.normalized, to, true, r.details)
  }

  // Read the first row with the key, delete every row with it, add the changed row.
  function ApplyUpdate(rows: seq<Row>, k: Key, to: Path): (t: seq<Row>)
    requires AllLinks(rows)
    ensures AllLinks(t)
  {
    if exists r :: r in rows && KeyOf(r) == k then
      WithoutKey(rows, k) + [Pointed(FirstWithKey(rows, k), to)]
    else rows
  }

  ghost predicate Updatable(m: map<string, Path>, u: Row) {
    Unresolved(u) && Leads(m, u)
  }

  ghost function ApplyUpdates(m: map<string, Path>, rows: seq<Row>, updates: seq<Row>): (t: seq<Row>)
    requires AllLinks(rows) && forall u :: u in updates ==> Updatable(m, u)
    ensures AllLinks(t)
  {
    if updates == [] then rows
    else
      var u := updates[|updates| - 1];
      assert u in updates && Updatable(m, u);
      ApplyUpdate(ApplyUpdates(m, rows, updates[..|updates| - 1]), KeyOf(u), m[u.normalized])
  }

  ghost function UpdatedKeys(updates: seq<Row>): set<Key>
    requires AllLinks(updates)
  {
    set u | u in updates :: KeyOf(u)
  }

  // The loop that pairs unresolved rows with the notes they lead to.
  method CollectUpdates(m: map<string, Path>, unresolved: seq<Row>) returns (updates: seq<Row>)
    ensures updates == Leading(m, unresolved)
  {
    updates := [];
    for i := 0 to |unresolved|
      invariant updates == Leading(m, unresolved[..i])
    {
      assert unresolved[..i + 1][..i] == unresolved[..i];
      if Leads(m, unresolved[i]) {
        updates := updates + [unresolved[i]];
      }
    }
    assert unresolved[..|unresolved|] == unresolved;
  }

  // How much of one update takes effect: all of it, none of it, or the delete without the add.
  // The source logs a failure and goes on with the next update.
  datatype UpdateFault = Works | Misses | Loses

  function TryUpdate(rows: seq<Row>, k: Key, to: Path, fault: UpdateFault): (t: seq<Row>)
    requires AllLinks(rows)
    ensures AllLinks(t)
  {
    match fault
    case Works => ApplyUpdate(rows, k, to)
    case Misses => rows
    case Loses => WithoutKey(rows, k)
  }

  ghost function TryUpdates(m: map<string, Path>, rows: seq<Row>, updates: seq<Row>, faults: nat -> UpdateFault): (t: seq<Row>)
    requires AllLinks(rows) && forall u :: u in updates ==> Updatable(m, u)
    ensures AllLinks(t)
  {
    if updates == [] then rows
    else
      var n := |updates| - 1;
      assert updates[n] in updates && Updatable(m, updates[n]);
      TryUpdate(TryUpdates(m, rows, updates[..n], faults), KeyOf(updates[n]), m[updates[n].normalized], faults(n))
  }

  method RunUpdates(m: map<string, Path>, rows: seq<Row>, updates: seq<Row>, faults: nat -> UpdateFault)
    returns (links: seq<Row>)
    requires AllLinks(rows) && forall u :: u in updates ==> Updatable(m, u)
    ensures AllLinks(links) && links == TryUpdates(m, rows, updates, faults)
  {
    links := rows;
    for i := 0 to |updates|
      invariant AllLinks(links) && links == TryUpdates(m, rows, updates[..i], faults)
    {
      var u := updates[i];
      assert u in updates;
      assert updates[..i + 1][..i] == updates[..i];
      links := TryUpdate(links, KeyOf(u), m[u.normalized], faults(i));
    }
    assert updates[..|updates|] == updates;
  }

  // Which of the table operations raise: reading the notes, the aliases or the unresolved
  // links, and what becomes of each update.
  datatype TableFaults = TableFaults(paths: bool, aliases: bool, query: bool, updates: nat -> UpdateFault)

  // The updates that a run tries: none when it cannot read the notes or the links.
  function UpdatesOfRun(faults: TableFaults, m: map<string, Path>, rows: seq<Row>, paths: seq<Path>): (t: seq<Row>)
    ensures forall r :: r in t ==> r in rows && Unresolved(r) && Leads(m, r)
  {
    if faults.paths || paths == [] || faults.query then [] else SelectUpdates(m, rows)
  }

  // `_resolve_link_targets`. Its answer counts the updates, whether they are applied or not.
  method ResolveLinkTargets(n: Normalizer, links0: seq<Row>, paths: seq<Path>, aliases: seq<Row>, faults: TableFaults)
    returns (links: seq<Row>, resolvedCount: nat, ghost pathMap: map<string, Path>, ghost applied: seq<Row>)
    requires AllLinks(links0)
    ensures AllLinks(links)
    ensures Resolves(n, paths, if faults.aliases then [] else aliases, pathMap)
    ensures applied == UpdatesOfRun(faults, pathMap, links0, paths)
    ensures forall u :: u in applied ==> Updatable(pathMap, u)
    ensures links == TryUpdates(pathMap, links0, applied, faults.updates) && resolvedCount == |applied|
    ensures OneRowPerLink(links0) ==> OneRowPerLink(links) && KeptOrLed(pathMap, links0, links)
    ensures OneRowPerLink(links0) && (forall i: nat :: i < resolvedCount ==> faults.updates(i) != Loses) ==>
              NoRowLost(pathMap, links0, links)
    ensures OneRowPerLink(links0) && !faults.paths && paths != [] && !faults.query && |UnresolvedRows(links0)| <= 100000
            && (forall i: nat :: i < resolvedCount ==> faults.updates(i) == Works) ==>
              && AllLead(pathMap, links0, links)
              && resolvedCount == |set r | r in links0 && CanLead(pathMap, r)|
  {
    hide Resolves, UnresolvedRows, Leading, TryUpdates, OneRowPerLink, KeptOrLed, NoRowLost, AllLead, CanLead;
    var m := BuildPathMap(n, paths, if faults.aliases then [] else aliases);
    pathMap := m;
    NoUpdates(m, links0, faults.updates);
    if OneRowPerLink(links0) {
      RunMeans(faults, m, links0, paths);
    }
    if faults.paths || paths == [] || faults.query {
      return links0, 0, m, [];
    }
    var unresolved := UnresolvedRows(links0);
    if |unresolved| > MAX_UNRESOLVED {
      unresolved := unresolved[..MAX_UNRESOLVED];
    }
    var updates := CollectUpdates(m, unresolved);
    assert updates == SelectUpdates(m, links0);
    resolvedCount := |updates|;
    links := RunUpdates(m, links0, updates, faults.updates);
    applied := updates;
  }

  lemma {:induction false} WorkingUpdates(m: map<string, Path>, rows: seq<Row>, updates: seq<Row>, faults: nat -> UpdateFault)
    requires AllLinks(rows) && forall u :: u in updates ==> Updatable(m, u)
    requires forall i: nat :: i < |updates| ==> faults(i) == Works
    ensures TryUpdates(m, rows, updates, faults) == ApplyUpdates(m, rows, updates)
  {
    if updates != [] {
      WorkingUpdates(m, rows, updates[..|updates| - 1], faults);
    }
  }

  lemma NoUpdates(m: map<string, Path>, rows: seq<Row>, faults: nat -> UpdateFault)
    requires AllLinks(rows)
    ensures ApplyUpdates(m, rows, []) == TryUpdates(m, rows, [], faults) == rows
  {
  }

  function Leading(m: map<string, Path>, rows: seq<Row>): (t: seq<Row>)
    ensures forall r :: r in t <==> r in rows && Leads(m, r)
  {
    if rows == [] then []
    else
      assert rows == rows[..|rows| - 1] + [rows[|rows| - 1]];
      Leading(m, rows[..|rows| - 1]) + (if Leads(m, rows[|rows| - 1]) then [rows[|rows| - 1]] else [])
  }

  // The updates of one run: the resolvable rows among the first 100000 unresolved ones.
  function SelectUpdates(m: map<string, Path>, rows: seq<Row>): (t: seq<Row>)
    ensures forall r :: r in t ==> r in rows && Unresolved(r) && Leads(m, r)
    ensures |UnresolvedRows(rows)| <= MAX_UNRESOLVED ==> forall r :: r in rows && Unresolved(r) && Leads(m, r) ==> r in t
  {
    var u := UnresolvedRows(rows);
    var first := if |u| > MAX_UNRESOLVED then u[..MAX_UNRESOLVED] else u;
    assert forall r :: r in first ==> r in u;
    Leading(m, first)
  }

  // ----- Row counts -----

  lemma ApplyUpdateCounts(rows: seq<Row>, k: Key, to: Path, other: Key)
    requires AllLinks(rows)
    ensures KeyCount(ApplyUpdate(rows, k, to), other) ==
            if other == k && HasKey(rows, k) then 1 else KeyCount(rows, other)
    ensures |ApplyUpdate(rows, k, to)| == |rows| - KeyCount(rows, k) + (if HasKey(rows, k) then 1 else 0)
  {
    KeyCountPositive(rows, k);
    if HasKey(rows, k) {
      WithoutKeySize(rows, k);
      KeyCountWithout(rows, k, other);
      KeyCountAppend(WithoutKey(rows, k), [Pointed(FirstWithKey(rows, k), to)], other);
    }
  }

  lemma {:induction false} ApplyUpdatesKeyCount(m: map<string, Path>, rows: seq<Row>, updates: seq<Row>, k: Key)
    requires AllLinks(rows) && forall u :: u in updates ==> Updatable(m, u) && u in rows
    ensures KeyCount(ApplyUpdates(m, rows, updates), k) ==
            if k in UpdatedKeys(updates) then 1 else KeyCount(rows, k)
  {
    if updates != [] {
      hide KeyCount, ApplyUpdate;
      var front, u := updates[..|updates| - 1], updates[|updates| - 1];
      assert u in updates && Updatable(m, u);
      ApplyUpdatesKeyCount(m, rows, front, k);
      var cur := ApplyUpdates(m, rows, front);
      ApplyUpdateCounts(cur, KeyOf(u), m[u.normalized], k);
      KeyCountPositive(rows, k);
      KeyCountPositive(cur, k);
      UpdatedKeysAppend(front, u);
      assert updates == front + [u];
    }
  }

  lemma UpdatedKeysAppend(front: seq<Row>, u: Row)
    requires AllLinks(front) && u.LinkRow?
    ensures AllLinks(front + [u]) && UpdatedKeys(front + [u]) == UpdatedKeys(front) + {KeyOf(u)}
  {
    var all := front + [u];
    forall k
      ensures k in UpdatedKeys(all) <==> k in UpdatedKeys(front) + {KeyOf(u)}
    {
      if k in UpdatedKeys(front) {
        var r :| r in front && KeyOf(r) == k;
        assert r in all;
      }
      assert u in all;
    }
  }

  // A run keeps the number of rows exactly when no updated key belongs to several rows.
  lemma {:induction false} RowCountKept(m: map<string, Path>, rows: seq<Row>, updates: seq<Row>)
    requires AllLinks(rows) && forall u :: u in updates ==> Updatable(m, u) && u in rows
    ensures |ApplyUpdates(m, rows, updates)| <= |rows|
    ensures |ApplyUpdates(m, rows, updates)| == |rows| <==>
            forall u :: u in updates ==> KeyCount(rows, KeyOf(u)) == 1
  {
    if updates != [] {
      var front, u := updates[..|updates| - 1], updates[|updates| - 1];
      assert u in updates && Updatable(m, u);
      RowCountKept(m, rows, front);
      var cur, k := ApplyUpdates(m, rows, front), KeyOf(u);
      ApplyUpdateCounts(cur, k, m[u.normalized], k);
      ApplyUpdatesKeyCount(m, rows, front, k);
      KeyCountPositive(rows, k);
      KeyCountPositive(cur, k);
      if k in UpdatedKeys(front) {
        var f :| f in front && KeyOf(f) == k;
      }
      assert forall r :: r in updates <==> r in front || r == u;
    }
  }

  // ----- With unique keys -----

  lemma UniqueKeysMember(rows: seq<Row>, r: Row, t: Row)
    requires AllLinks(rows) && UniqueKeys(rows) && r in rows && t in rows && KeyOf(r) == KeyOf(t)
    ensures r == t
  {
  }

  lemma WithoutKeyUnique(rows: seq<Row>, k: Key)
    requires AllLinks(rows) && UniqueKeys(rows)
    ensures AllLinks(WithoutKey(rows, k)) && UniqueKeys(WithoutKey(rows, k))
  {
    if rows != [] {
      WithoutKeyUnique(rows[1..], k);
      var rest := WithoutKey(rows[1..], k);
      forall j | 0 <= j < |rest|
        ensures KeyOf(rest[j]) != KeyOf(rows[0])
      {
        assert rest[j] in rows[1..];
      }
    }
  }

  lemma UniqueKeysDistinct(rows: seq<Row>)
    requires AllLinks(rows) && UniqueKeys(rows)
    ensures Distinct(rows)
  {
  }

  // ----- Runs with failing updates -----

  // What update `i` leaves at its key.
  ghost predicate Leaves(m: map<string, Path>, updates: seq<Row>, faults: nat -> UpdateFault, i: nat, x: Row) {
    && i < |updates|
    && match faults(i)
       case Works => x == Resolve(m, updates[i])
       case Misses => x == updates[i]
       case Loses => false
  }

  // The rows without an update, and what each update leaves.
  ghost predicate Remains(m: map<string, Path>, rows: seq<Row>, updates: seq<Row>, faults: nat -> UpdateFault, x: Row) {
    (x in rows && x !in updates) || exists i :: Leaves(m, updates, faults, i, x)
  }

  function LostCount(faults: nat -> UpdateFault, n: nat): nat {
    if n == 0 then 0 else LostCount(faults, n - 1) + if faults(n - 1) == Loses then 1 else 0
  }

  ghost predicate RunLeaves(m: map<string, Path>, rows: seq<Row>, updates: seq<Row>, faults: nat -> UpdateFault, t: seq<Row>) {
    && AllLinks(t) && UniqueKeys(t) && |t| == |rows| - LostCount(faults, |updates|)
    && forall x :: x in t <==> Remains(m, rows, updates, faults, x)
  }

  lemma LeavesKey(m: map<string, Path>, updates: seq<Row>, faults: nat -> UpdateFault, i: nat, x: Row)
    requires AllLinks(updates) && Leaves(m, updates, faults, i, x)
    ensures x.LinkRow? && KeyOf(x) == KeyOf(updates[i])
  {
    assert updates[i] in updates;
  }

  lemma LeavesNext(m: map<string, Path>, front: seq<Row>, u: Row, faults: nat -> UpdateFault, i: nat, x: Row)
    ensures i != |front| ==> (Leaves(m, front + [u], faults, i, x) <==> Leaves(m, front, faults, i, x))
  {
  }

  // One more update replaces what there is at its key.
  lemma RemainsNext(m: map<string, Path>, rows: seq<Row>, front: seq<Row>, u: Row, faults: nat -> UpdateFault, x: Row)
    requires AllLinks(rows) && UniqueKeys(rows) && AllLinks(front + [u]) && UniqueKeys(front + [u]) && u in rows
    ensures Remains(m, rows, front + [u], faults, x) <==>
            (Remains(m, rows, front, faults, x) && x.LinkRow? && KeyOf(x) != KeyOf(u))
            || Leaves(m, front + [u], faults, |front|, x)
  {
    hide Leaves;
    var all := front + [u];
    assert all[|front|] == u;
    if x in rows && x !in front && x != u {
      assert KeyOf(x) != KeyOf(u) by { if KeyOf(x) == KeyOf(u) { UniqueKeysMember(rows, x, u); } }
    }
    if i: nat :| Leaves(m, all, faults, i, x) && i != |front| {
      LeavesNext(m, front, u, faults, i, x);
      LeavesKey(m, all, faults, i, x);
      assert i < |front| by { LeavesBound(m, all, faults, i, x); }
    }
    if i: nat :| Leaves(m, front, faults, i, x) {
      LeavesBound(m, front, faults, i, x);
      LeavesNext(m, front, u, faults, i, x);
    }
  }

  lemma LeavesBound(m: map<string, Path>, updates: seq<Row>, faults: nat -> UpdateFault, i: nat, x: Row)
    requires Leaves(m, updates, faults, i, x)
    ensures i < |updates|
  {
  }

  // One step of a run: `cur` is what the updates before `u` have left.
  lemma TryStep(
      m: map<string, Path>, rows: seq<Row>, front: seq<Row>, u: Row, faults: nat -> UpdateFault, cur: seq<Row>)
    requires AllLinks(rows) && UniqueKeys(rows) && AllLinks(front + [u]) && UniqueKeys(front + [u])
    requires u in rows && Updatable(m, u) && RunLeaves(m, rows, front, faults, cur)
    ensures RunLeaves(m, rows, front + [u], faults, TryUpdate(cur, KeyOf(u), m[u.normalized], faults(|front|)))
  {
    hide Remains;
    var k, to, n, all := KeyOf(u), m[u.normalized], |front|, front + [u];
    var t := TryUpdate(cur, k, to, faults(n));
    assert u in cur by { RemainsUntouched(m, rows, front, u, faults); }
    UniqueKeysMember(cur, u, FirstWithKey(cur, k));
    WithoutKeyUnique(cur, k);
    WithoutKeySize(cur, k);
    UniqueKeysCount(cur, k);
    KeyCountPositive(cur, k);
    assert Pointed(u, to) == Resolve(m, u);
    forall x
      ensures x in t <==> Remains(m, rows, all, faults, x)
    {
      RemainsNext(m, rows, front, u, faults, x);
      UpdateMembers(cur, u, to, faults(n), x);
    }
  }

  lemma RemainsUntouched(m: map<string, Path>, rows: seq<Row>, front: seq<Row>, u: Row, faults: nat -> UpdateFault)
    requires u in rows && AllLinks(front + [u]) && UniqueKeys(front + [u])
    ensures Remains(m, rows, front, faults, u)
  {
    var all := front + [u];
    forall i | 0 <= i < |front|
      ensures front[i] != u
    {
      assert KeyOf(all[i]) != KeyOf(all[|front|]);
    }
  }

  lemma UpdateMembers(cur: seq<Row>, u: Row, to: Path, fault: UpdateFault, x: Row)
    requires AllLinks(cur) && UniqueKeys(cur) && u in cur
    ensures x in TryUpdate(cur, KeyOf(u), to, fault) <==>
            (x in cur && KeyOf(x) != KeyOf(u))
            || match fault case Works => x == Pointed(u, to) case Misses => x == u case Loses => false
  {
    UniqueKeysMember(cur, u, FirstWithKey(cur, KeyOf(u)));
    if x in cur && KeyOf(x) == KeyOf(u) { UniqueKeysMember(cur, x, u); }
  }

  lemma {:induction false} UnresolvedUnique(rows: seq<Row>)
    requires AllLinks(rows) && UniqueKeys(rows)
    ensures UniqueKeys(UnresolvedRows(rows))
  {
    if rows != [] {
      UnresolvedUnique(rows[1..]);
      var rest := UnresolvedRows(rows[1..]);
      forall j | 0 <= j < |rest|
        ensures KeyOf(rest[j]) != KeyOf(rows[0])
      {
        assert rest[j] in rows[1..];
      }
    }
  }

  lemma {:induction false} LeadingUnique(m: map<string, Path>, rows: seq<Row>)
    requires AllLinks(rows) && UniqueKeys(rows)
    ensures UniqueKeys(Leading(m, rows))
  {
    if rows != [] {
      var n := |rows| - 1;
      LeadingUnique(m, rows[..n]);
      var before := Leading(m, rows[..n]);
      forall j | 0 <= j < |before|
        ensures KeyOf(before[j]) != KeyOf(rows[n])
      {
        assert before[j] in rows[..n];
      }
    }
  }

  lemma SelectedUnique(m: map<string, Path>, rows: seq<Row>)
    requires AllLinks(rows) && UniqueKeys(rows)
    ensures UniqueKeys(SelectUpdates(m, rows))
  {
    var u := UnresolvedRows(rows);
    UnresolvedUnique(rows);
    LeadingUnique(m, if |u| > MAX_UNRESOLVED then u[..MAX_UNRESOLVED] else u);
  }

  lemma {:induction false} RunKeepsLeaves(
      m: map<string, Path>, rows: seq<Row>, updates: seq<Row>, faults: nat -> UpdateFault)
    requires AllLinks(rows) && UniqueKeys(rows) && forall u :: u in updates ==> Updatable(m, u) && u in rows
    requires UniqueKeys(updates)
    ensures RunLeaves(m, rows, updates, faults, TryUpdates(m, rows, updates, faults))
  {
    if updates == [] {
      assert forall x, i: nat :: !Leaves(m, updates, faults, i, x);
    } else {
      var front, u := updates[..|updates| - 1], updates[|updates| - 1];
      assert u in updates && updates == front + [u];
      RunKeepsLeaves(m, rows, front, faults);
      TryStep(m, rows, front, u, faults, TryUpdates(m, rows, front, faults));
    }
  }

  lemma RunUpdatesUnique(faults: TableFaults, m: map<string, Path>, rows: seq<Row>, paths: seq<Path>)
    requires AllLinks(rows) && UniqueKeys(rows)
    ensures UniqueKeys(UpdatesOfRun(faults, m, rows, paths))
  {
    SelectedUnique(m, rows);
  }

  // With unique keys every failure costs at most its own row: an update that works resolves
  // its row, one that fails before its delete leaves it as it was, one whose add fails loses
  // it, and every other row stays.
  lemma FailingResolution(faults: TableFaults, m: map<string, Path>, rows: seq<Row>, paths: seq<Path>)
    requires AllLinks(rows) && UniqueKeys(rows)
    ensures var updates := UpdatesOfRun(faults, m, rows, paths);
            && (forall u :: u in updates ==> Updatable(m, u))
            && UniqueKeys(updates)
            && RunLeaves(m, rows, updates, faults.updates, TryUpdates(m, rows, updates, faults.updates))
  {
    RunUpdatesUnique(faults, m, rows, paths);
    hide UpdatesOfRun;
    RunKeepsLeaves(m, rows, UpdatesOfRun(faults, m, rows, paths), faults.updates);
  }

  // So a run loses rows exactly when an add fails, although its answer counts every update.
  lemma RowsLost(faults: TableFaults, m: map<string, Path>, rows: seq<Row>, paths: seq<Path>)
    requires AllLinks(rows) && UniqueKeys(rows)
    ensures var updates := UpdatesOfRun(faults, m, rows, paths);
            && (forall u :: u in updates ==> Updatable(m, u))
            && |TryUpdates(m, rows, updates, faults.updates)| == |rows| - LostCount(faults.updates, |updates|)
            && (|TryUpdates(m, rows, updates, faults.updates)| == |rows| <==>
                forall i: nat :: i < |updates| ==> faults.updates(i) != Loses)
  {
    FailingResolution(faults, m, rows, paths);
    hide UpdatesOfRun, TryUpdates;
    NoneLost(faults.updates, |UpdatesOfRun(faults, m, rows, paths)|);
  }

  // What a run that loses nothing makes of a row.
  ghost function AfterRun(m: map<string, Path>, updates: seq<Row>, faults: nat -> UpdateFault, r: Row): Row {
    if exists i: nat :: i < |updates| && updates[i] == r && faults(i) == Works then Resolve(m, r) else r
  }

  lemma RemainsIsAfterRun(
      m: map<string, Path>, rows: seq<Row>, updates: seq<Row>, faults: nat -> UpdateFault, x: Row)
    requires AllLinks(updates) && UniqueKeys(updates) && forall u :: u in updates ==> u in rows
    requires forall i: nat :: i < |updates| ==> faults(i) != Loses
    ensures Remains(m, rows, updates, faults, x) <==> exists r :: r in rows && x == AfterRun(m, updates, faults, r)
  {
    forall i: nat, j: nat | i < |updates| && j < |updates| && updates[i] == updates[j]
      ensures i == j
    {
    }
    if x in rows && x !in updates {
      assert AfterRun(m, updates, faults, x) == x;
    }
    if i: nat :| Leaves(m, updates, faults, i, x) {
      assert updates[i] in rows;
      assert x == AfterRun(m, updates, faults, updates[i]);
    }
    if r :| r in rows && x == AfterRun(m, updates, faults, r) {
      if i: nat :| i < |updates| && updates[i] == r {
        assert Leaves(m, updates, faults, i, x);
      }
    }
  }

  // Without a loss the run changes rows where they stand.
  lemma KeptRun(m: map<string, Path>, rows: seq<Row>, updates: seq<Row>, faults: nat -> UpdateFault, t: seq<Row>)
    requires AllLinks(rows) && UniqueKeys(rows) && AllLinks(updates) && UniqueKeys(updates)
    requires forall u :: u in updates ==> u in rows
    requires RunLeaves(m, rows, updates, faults, t) && forall i: nat :: i < |updates| ==> faults(i) != Loses
    ensures multiset(t) == multiset(AfterRunAll(m, updates, faults, rows))
  {
    var all := AfterRunAll(m, updates, faults, rows);
    forall x
      ensures x in t <==> x in all
    {
      RemainsIsAfterRun(m, rows, updates, faults, x);
      AfterRunMembers(m, updates, faults, rows, x);
    }
    hide Remains, AfterRun;
    assert AllLinks(all);
    assert UniqueKeys(all) by {
      assert forall i :: 0 <= i < |all| ==> KeyOf(all[i]) == KeyOf(rows[i]);
    }
    UniqueKeysDistinct(t);
    UniqueKeysDistinct(all);
    SameRowsSameMultiset(t, all);
  }

  ghost function AfterRunAll(
      m: map<string, Path>, updates: seq<Row>, faults: nat -> UpdateFault, rows: seq<Row>): (t: seq<Row>)
    ensures |t| == |rows| && forall i :: 0 <= i < |rows| ==> t[i] == AfterRun(m, updates, faults, rows[i])
    ensures forall i :: 0 <= i < |rows| && rows[i].LinkRow? ==> t[i].LinkRow? && KeyOf(t[i]) == KeyOf(rows[i])
  {
    seq(|rows|, i requires 0 <= i < |rows| => AfterRun(m, updates, faults, rows[i]))
  }

  lemma AfterRunMembers(
      m: map<string, Path>, updates: seq<Row>, faults: nat -> UpdateFault, rows: seq<Row>, x: Row)
    ensures x in AfterRunAll(m, updates, faults, rows) <==>
            exists r :: r in rows && x == AfterRun(m, updates, faults, r)
  {
    hide AfterRun;
    var all := AfterRunAll(m, updates, faults, rows);
    if r :| r in rows && x == AfterRun(m, updates, faults, r) {
      var i :| 0 <= i < |rows| && rows[i] == r;
      assert all[i] == x;
    }
  }

  lemma {:induction false} NoneLost(faults: nat -> UpdateFault, n: nat)
    ensures LostCount(faults, n) == 0 <==> forall i: nat :: i < n ==> faults(i) != Loses
  {
    if n > 0 { NoneLost(faults, n - 1); }
  }

  // With unique keys and at most 100000 unresolved links, a run without failures resolves
  // every resolvable link where it stands and changes nothing else.
  lemma ResolutionIsPointwise(m: map<string, Path>, rows: seq<Row>)
    requires AllLinks(rows) && UniqueKeys(rows) && |UnresolvedRows(rows)| <= MAX_UNRESOLVED
    ensures var updates := SelectUpdates(m, rows);
            && (forall u :: u in updates ==> Updatable(m, u))
            && multiset(ApplyUpdates(m, rows, updates)) == multiset(ResolveAll(m, rows))
  {
    var updates, working := SelectUpdates(m, rows), _ => Works;
    SelectedUnique(m, rows);
    RunKeepsLeaves(m, rows, updates, working);
    KeptRun(m, rows, updates, working, TryUpdates(m, rows, updates, working));
    WorkingUpdates(m, rows, updates, working);
    forall i | 0 <= i < |rows|
      ensures AfterRun(m, updates, working, rows[i]) == Resolve(m, rows[i])
    {
      assert rows[i] in rows;
      assert Updatable(m, rows[i]) ==> rows[i] in updates;
    }
    assert AfterRunAll(m, updates, working, rows) == ResolveAll(m, rows);
  }

  lemma OneRowIsUnique(rows: seq<Row>)
    requires AllLinks(rows)
    ensures OneRowPerLink(rows) <==> UniqueKeys(rows)
  {
  }

  // What a run means for the links themselves.
  lemma RunMeans(faults: TableFaults, m: map<string, Path>, rows: seq<Row>, paths: seq<Path>)
    requires OneRowPerLink(rows)
    ensures var updates := UpdatesOfRun(faults, m, rows, paths);
            AllLinks(rows) && (forall u :: u in updates ==> Updatable(m, u))
            && var t := TryUpdates(m, rows, updates, faults.updates);
            && OneRowPerLink(t) && KeptOrLed(m, rows, t)
            && ((forall i: nat :: i < |updates| ==> faults.updates(i) != Loses) ==> NoRowLost(m, rows, t))
            && (!faults.paths && paths != [] && !faults.query && |UnresolvedRows(rows)| <= 100000
                && (forall i: nat :: i < |updates| ==> faults.updates(i) == Works) ==>
                  AllLead(m, rows, t) && |updates| == |set r | r in rows && CanLead(m, r)|)
  {
    OneRowIsUnique(rows);
    FailingResolution(faults, m, rows, paths);
    var updates := UpdatesOfRun(faults, m, rows, paths);
    var t := TryUpdates(m, rows, updates, faults.updates);
    OneRowIsUnique(t);
    RunKeepsOrLeads(m, rows, updates, faults.updates, t);
    if forall i: nat :: i < |updates| ==> faults.updates(i) != Loses {
      RunLosesNothing(m, rows, updates, faults.updates, t);
    }
    if !faults.paths && paths != [] && !faults.query && |UnresolvedRows(rows)| <= 100000 {
      AllSelected(m, rows);
      if forall i: nat :: i < |updates| ==> faults.updates(i) == Works {
        RunLeadsAll(m, rows, updates, faults.updates, t);
      }
    }
  }

  lemma ResolvedLeads(m: map<string, Path>, u: Row)
    requires Updatable(m, u)
    ensures LeadsTo(m, u, Resolve(m, u))
  {
  }

  lemma RunKeepsOrLeads(
      m: map<string, Path>, rows: seq<Row>, updates: seq<Row>, faults: nat -> UpdateFault, t: seq<Row>)
    requires forall u :: u in updates ==> Updatable(m, u) && u in rows
    requires RunLeaves(m, rows, updates, faults, t)
    ensures KeptOrLed(m, rows, t)
  {
    hide Resolve, LeadsTo, Updatable;
    forall x | x in t
      ensures x in rows || exists r :: r in rows && LeadsTo(m, r, x)
    {
      if x !in rows {
        var i: nat :| Leaves(m, updates, faults, i, x);
        assert updates[i] in updates;
        ResolvedLeads(m, updates[i]);
      }
    }
  }

  lemma RunLosesNothing(
      m: map<string, Path>, rows: seq<Row>, updates: seq<Row>, faults: nat -> UpdateFault, t: seq<Row>)
    requires forall u :: u in updates ==> Updatable(m, u) && u in rows
    requires RunLeaves(m, rows, updates, faults, t) && forall i: nat :: i < |updates| ==> faults(i) != Loses
    ensures NoRowLost(m, rows, t)
  {
    hide Resolve, LeadsTo, Updatable;
    NoneLost(faults, |updates|);
    forall r | r in rows
      ensures r in t || exists x :: x in t && LeadsTo(m, r, x)
    {
      if i: nat :| i < |updates| && updates[i] == r {
        assert r in updates;
        ResolvedLeads(m, r);
        assert Leaves(m, updates, faults, i, if faults(i) == Works then Resolve(m, r) else r);
      }
    }
  }

  // Up to the limit every link that can lead somewhere is updated.
  lemma AllSelected(m: map<string, Path>, rows: seq<Row>)
    requires AllLinks(rows) && UniqueKeys(rows) && |UnresolvedRows(rows)| <= 100000
    ensures forall r :: r in SelectUpdates(m, rows) <==> r in rows && CanLead(m, r)
    ensures |SelectUpdates(m, rows)| == |set r | r in rows && CanLead(m, r)|
  {
    hide UniqueKeys;
    SelectedUnique(m, rows);
    hide UnresolvedRows, Leading;
    UniqueKeysDistinct(SelectUpdates(m, rows));
    DistinctMembers(SelectUpdates(m, rows));
    assert (set r | r in rows && CanLead(m, r)) == set r | r in SelectUpdates(m, rows);
  }

  lemma {:induction false} DistinctMembers(rows: seq<Row>)
    requires Distinct(rows)
    ensures |set r | r in rows| == |rows|
  {
    if rows != [] {
      var n := |rows| - 1;
      DistinctMembers(rows[..n]);
      assert (set r | r in rows) == (set r | r in rows[..n]) + {rows[n]};
      assert rows[n] !in rows[..n];
    }
  }

  lemma RunLeadsAll(
      m: map<string, Path>, rows: seq<Row>, updates: seq<Row>, faults: nat -> UpdateFault, t: seq<Row>)
    requires forall u :: u in updates ==> Updatable(m, u) && u in rows
    requires forall r :: r in updates <==> r in rows && CanLead(m, r)
    requires RunLeaves(m, rows, updates, faults, t) && forall i: nat :: i < |updates| ==> faults(i) == Works
    ensures AllLead(m, rows, t)
  {
    hide Resolve, LeadsTo, Updatable, CanLead;
    NoneLost(faults, |updates|);
    forall r | r in rows
      ensures if CanLead(m, r) then exists x :: x in t && LeadsTo(m, r, x) else r in t
    {
      if CanLead(m, r) {
        var i: nat :| i < |updates| && updates[i] == r;
        ResolvedLeads(m, r);
        assert Leaves(m, updates, faults, i, Resolve(m, r));
      }
    }
  }

  // What the lookup dictionary answers: it knows exactly the names and aliases of
  // the index, prefers a note called by the name, and only leads to indexed notes.
  lemma LookupMeaning(n: Normalizer, paths: seq<Path>, aliases: seq<Row>, m: map<string, Path>, name: string)
    requires Resolves(n, paths, aliases, m)
    requires forall a :: a in aliases && a.AliasRow? ==> a.path in paths
    ensures name in m <==> exists p :: NamesNote(n, paths, name, p) || AliasOf(aliases, name, p)
    ensures name in m ==> m[name] in paths
    ensures (exists p :: NamesNote(n, paths, name, p)) ==> name in m && NamesNote(n, paths, name, m[name])
  {
    if p :| NamesNote(n, paths, name, p) || AliasOf(aliases, name, p) {
      assert name in m;
    }
    if name in m {
      assert NamesNote(n, paths, name, m[name]) || AliasOf(aliases, name, m[name]);
    }
  }

  // Two links of one note with the same type and target collapse into one row.
  lemma DuplicateLinksCollapse() returns (m: map<string, Path>, rows: seq<Row>, updates: seq<Row>)
    ensures AllLinks(rows) && |rows| == 2 && rows[0] != rows[1] && updates == SelectUpdates(m, rows)
    ensures forall u :: u in updates ==> Updatable(m, u)
    ensures |ApplyUpdates(m, rows, updates)| == 1
  {
    hide ApplyUpdates;
    m := map["b" := "b.md"];
    var link := LinkRow("a.md", "wikilink", "B", "b", "", false, "first");
    var other := link.(details := "second");
    rows := [link, other];
    updates := SelectUpdates(m, rows);
    assert UnresolvedRows([other]) == [other];
    assert rows[1..] == [other];
    assert UnresolvedRows(rows) == rows;
    assert link in updates && other in updates;
    SizeBelow(m, rows, updates, link);
  }

  // Updating a key that two rows share leaves fewer rows.
  lemma SizeBelow(m: map<string, Path>, rows: seq<Row>, updates: seq<Row>, u: Row)
    requires AllLinks(rows) && |rows| == 2 && KeyOf(rows[0]) == KeyOf(rows[1]) && u in updates && u in rows
    requires forall v :: v in updates ==> Updatable(m, v) && v in rows
    ensures |ApplyUpdates(m, rows, updates)| == 1
  {
    hide ApplyUpdates;
    var k := KeyOf(u);
    assert rows[1..] == [rows[1]];
    assert KeyCount([rows[1]], k) == 1;
    assert KeyCount(rows, k) == 2;
    RowCountKept(m, rows, updates);
    ApplyUpdatesKeyCount(m, rows, updates, k);
    assert k in UpdatedKeys(updates);
    var t := ApplyUpdates(m, rows, updates);
    assert KeyCount([], k) == 0;
  }
}
