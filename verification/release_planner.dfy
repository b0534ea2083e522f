// The release planner: strict version tags on a commit graph.
module ReleasePlanner {
  import opened Options
  import opened Versions

  // ----- The commit graph -----

  type Commit = nat

  // `parents[c]` are the parents of commit `c`. Commits are numbered after their parents.
  datatype History = History(parents: seq<set<Commit>>)

  // New commits are added; the parents of a commit never change.
  predicate Extends(h: History, h': History) {
    h.parents <= h'.parents
  }

  // `merge-base --is-ancestor`: reflexive reachability along parents.
  predicate IsAncestor(h: History, a: Commit, c: Commit)
    decreases c
  {
    a == c || (c < |h.parents| && exists p :: p in h.parents[c] && p < c && IsAncestor(h, a, p))
  }

  // A way from `c` back to `a` along parents.
  ghost predicate IsWay(h: History, way: seq<Commit>, a: Commit, c: Commit) {
    && |way| > 0 && way[0] == c && way[|way| - 1] == a
    && forall i :: 0 <= i < |way| - 1 ==> StepsBack(h, way[i], way[i + 1])
  }

  ghost predicate StepsBack(h: History, c: Commit, p: Commit) {
    p < c < |h.parents| && p in h.parents[c]
  }

  // An ancestor is a commit that some way along parents leads back to.
  lemma {:induction false} AncestorHasWay(h: History, a: Commit, c: Commit)
    requires IsAncestor(h, a, c)
    ensures exists way :: IsWay(h, way, a, c)
    decreases c
  {
    if a == c {
      assert IsWay(h, [c], a, c);
    } else {
      var p :| p in h.parents[c] && p < c && IsAncestor(h, a, p);
      AncestorHasWay(h, a, p);
      var way :| IsWay(h, way, a, p);
      assert IsWay(h, [c] + way, a, c);
    }
  }

  lemma {:induction false} WayMakesAncestor(h: History, way: seq<Commit>, a: Commit, c: Commit)
    requires IsWay(h, way, a, c)
    ensures IsAncestor(h, a, c)
    decreases |way|
  {
    if |way| > 1 {
      assert StepsBack(h, way[0], way[1]);
      forall i | 0 <= i < |way[1..]| - 1
        ensures StepsBack(h, way[1..][i], way[1..][i + 1])
      {
        assert StepsBack(h, way[i + 1], way[i + 2]);
      }
      WayMakesAncestor(h, way[1..], a, way[1]);
    }
  }

  lemma AncestorIsReachable(h: History, a: Commit, c: Commit)
    ensures IsAncestor(h, a, c) <==> exists way :: IsWay(h, way, a, c)
  {
    if IsAncestor(h, a, c) {
      AncestorHasWay(h, a, c);
    }
    if way :| IsWay(h, way, a, c) {
      WayMakesAncestor(h, way, a, c);
    }
  }

  lemma {:induction false} AncestorIsOlder(h: History, a: Commit, c: Commit)
    requires IsAncestor(h, a, c)
    ensures a <= c
    decreases c
  {
    if a != c {
      var p :| p in h.parents[c] && p < c && IsAncestor(h, a, p);
      AncestorIsOlder(h, a, p);
    }
  }

  lemma {:induction false} AncestorTransitive(h: History, a: Commit, b: Commit, c: Commit)
    requires IsAncestor(h, a, b) && IsAncestor(h, b, c)
    ensures IsAncestor(h, a, c)
    decreases c
  {
    if b != c {
      var p :| p in h.parents[c] && p < c && IsAncestor(h, b, p);
      AncestorTransitive(h, a, b, p);
    }
  }

  lemma {:induction false} AncestryIsStable(h: History, h': History, a: Commit, c: Commit)
    requires Extends(h, h') && c < |h.parents|
    ensures IsAncestor(h', a, c) == IsAncestor(h, a, c)
    decreases c
  {
    assert h.parents[c] == h'.parents[c];
    forall p | p in h.parents[c] && p < c
      ensures IsAncestor(h', a, p) == IsAncestor(h, a, p)
    {
      AncestryIsStable(h, h', a, p);
    }
  }

  // Commits that release each other's history are the same commit.
  lemma AncestorAntisymmetric(h: History, a: Commit, b: Commit)
    requires IsAncestor(h, a, b) && IsAncestor(h, b, a)
    ensures a == b
  {
    AncestorIsOlder(h, a, b);
    AncestorIsOlder(h, b, a);
  }

  // ----- Release tags -----

  // A tag reference: the commit it leads to and whether it is an annotated tag.
  datatype TagRef = TagRef(commit: Commit, annotated: bool)

  type Tags = map<string, TagRef>

  datatype Release = Release(version: Version, commit: Commit)

  datatype Error = NotAnnotated | SameCommit | NotMonotonic | SeveralHeadTags | OlderRecovery | OutsideHistory | Collision

  datatype Result<T> = Ok(value: T) | Err(error: Error)

  // Sorted by version, each version once.
  ghost predicate Increasing(rs: seq<Release>) {
    forall i, j :: 0 <= i < j < |rs| ==> Less(rs[i].version, rs[j].version)
  }

  // The release list of a tag set: one entry for every tag that parses.
  ghost predicate Lists(rs: seq<Release>, tags: Tags) {
    && Increasing(rs)
    && (forall i :: 0 <= i < |rs| ==>
          Tag(rs[i].version) in tags && tags[Tag(rs[i].version)].commit == rs[i].commit)
    && (forall t :: t in tags && ParseTag(t).Some? ==>
          exists i :: 0 <= i < |rs| && Tag(rs[i].version) == t)
  }

  // Every release tag is annotated; other tags do not matter.
  ghost predicate Annotated(tags: Tags) {
    forall t :: t in tags && ParseTag(t).Some? ==> tags[t].annotated
  }

  // A list of a tag set holds exactly the releases that the tags name.
  lemma ListedExactly(rs: seq<Release>, tags: Tags, x: Release)
    requires Lists(rs, tags)
    ensures x in rs <==> Tag(x.version) in tags && tags[Tag(x.version)].commit == x.commit
  {
    hide Less, Tag, ParseTag;
    if Tag(x.version) in tags && tags[Tag(x.version)].commit == x.commit {
      ParseTagOfTag(x.version);
      var i :| 0 <= i < |rs| && Tag(rs[i].version) == Tag(x.version);
      ParseTagOfTag(rs[i].version);
      assert rs[i] == x;
    }
  }

  // Two increasing lists with the same members end in the same release.
  lemma LastIsNotEarlier(a: seq<Release>, b: seq<Release>)
    requires Increasing(a) && Increasing(b) && a != [] && forall x :: x in a ==> x in b
    ensures b != [] && AtMost(a[|a| - 1].version, b[|b| - 1].version)
  {
    assert a[|a| - 1] in b;
  }

  lemma FrontMembers(a: seq<Release>, x: Release)
    requires Increasing(a) && a != []
    ensures Increasing(a[..|a| - 1])
    ensures x in a[..|a| - 1] <==> x in a && x != a[|a| - 1]
  {
    assert a == a[..|a| - 1] + [a[|a| - 1]];
  }

  lemma {:induction false} IncreasingUnique(a: seq<Release>, b: seq<Release>)
    requires Increasing(a) && Increasing(b) && forall x :: x in a <==> x in b
    ensures a == b
  {
    assert b != [] ==> b[0] in b;
    if a != [] {
      var n, m := |a| - 1, |b| - 1;
      LastIsNotEarlier(a, b);
      LastIsNotEarlier(b, a);
      assert b[m] in a;
      assert a[n] == b[m];
      forall x
        ensures x in a[..n] <==> x in b[..m]
      {
        FrontMembers(a, x);
        FrontMembers(b, x);
      }
      FrontMembers(a, a[n]);
      FrontMembers(b, b[m]);
      IncreasingUnique(a[..n], b[..m]);
      assert a == a[..n] + [a[n]] && b == b[..m] + [b[m]];
    }
  }

  // The tags determine the release list.
  lemma ListsUnique(a: seq<Release>, b: seq<Release>, tags: Tags)
    requires Lists(a, tags) && Lists(b, tags)
    ensures a == b
  {
    forall x
      ensures x in a <==> x in b
    {
      ListedExactly(a, tags, x);
      ListedExactly(b, tags, x);
    }
    hide Tag, ParseTag;
    IncreasingUnique(a, b);
  }

  function InsertRelease(r: Release, rs: seq<Release>): (out: seq<Release>)
    ensures forall x :: x in out <==> x == r || x in rs
  {
    if rs == [] then [r]
    else if AtMost(r.version, rs[0].version) then [r] + rs
    else
      assert rs == [rs[0]] + rs[1..];
      [rs[0]] + InsertRelease(r, rs[1..])
  }

  lemma {:induction false} InsertKeepsIncreasing(r: Release, rs: seq<Release>)
    requires Increasing(rs) && forall x :: x in rs ==> x.version != r.version
    ensures Increasing(InsertRelease(r, rs))
  {
    if rs != [] && !AtMost(r.version, rs[0].version) {
      InsertKeepsIncreasing(r, rs[1..]);
      var rest := InsertRelease(r, rs[1..]);
      forall j | 0 <= j < |rest|
        ensures Less(rs[0].version, rest[j].version)
      {
        assert rest[j] in rest;
        if rest[j] != r {
          var k :| 0 <= k < |rs[1..]| && rs[1..][k] == rest[j];
          assert rs[k + 1] == rest[j];
        }
      }
    } else if rs != [] {
      assert rs[0] in rs;
    }
  }

  // `_all_release_tags`; `names` is the output of `git tag --list`.
  method AllReleaseTags(names: seq<string>, tags: Tags) returns (result: Result<seq<Release>>)
    requires forall t :: t in names <==> t in tags
    requires forall i, j :: 0 <= i < j < |names| ==> names[i] != names[j]
    ensures result.Err? <==> exists t :: t in tags && ParseTag(t).Some? && !tags[t].annotated
    ensures result.Err? ==> result.error == NotAnnotated
    ensures result.Ok? ==> Lists(result.value, tags)
  {
    hide Less, Tag, ParseTag;
    var found: seq<Release> := [];
    for i := 0 to |names|
      invariant Increasing(found)
      invariant forall t :: t in names[..i] && ParseTag(t).Some? ==> tags[t].annotated
      invariant forall x :: x in found <==>
        exists t :: t in names[..i] && ParseTag(t) == Some(x.version) && tags[t].commit == x.commit
    {
      var t := names[i];
      assert t in names;
      assert names[..i + 1] == names[..i] + [t];
      var version := ParseTag(t);
      if version.Some? {
        if !tags[t].annotated {
          return Err(NotAnnotated);
        }
        var r := Release(version.value, tags[t].commit);
        forall x | x in found
          ensures x.version != r.version
        {
          var u :| u in names[..i] && ParseTag(u) == Some(x.version) && tags[u].commit == x.commit;
          TagBijection(u, x.version);
          TagBijection(t, r.version);
        }
        InsertKeepsIncreasing(r, found);
        found := InsertRelease(r, found);
      }
    }
    assert names[..|names|] == names;
    ListsFound(found, names, tags);
    return Ok(found);
  }

  lemma ListsFound(found: seq<Release>, names: seq<string>, tags: Tags)
    requires forall t :: t in names <==> t in tags
    requires Increasing(found)
    requires forall x :: x in found <==>
               exists t :: t in names && ParseTag(t) == Some(x.version) && tags[t].commit == x.commit
    ensures Lists(found, tags)
  {
    hide Less, Tag, ParseTag;
    forall i | 0 <= i < |found|
      ensures Tag(found[i].version) in tags && tags[Tag(found[i].version)].commit == found[i].commit
    {
      var x := found[i];
      assert x in found;
      var t :| t in names && ParseTag(t) == Some(x.version) && tags[t].commit == x.commit;
      TagBijection(t, x.version);
    }
    forall t | t in tags && ParseTag(t).Some?
      ensures exists i :: 0 <= i < |found| && Tag(found[i].version) == t
    {
      var x := Release(ParseTag(t).value, tags[t].commit);
      assert t in names && ParseTag(t) == Some(x.version) && tags[t].commit == x.commit;
      var i :| 0 <= i < |found| && found[i] == x;
      TagBijection(t, x.version);
    }
  }

  // ----- Validating the history -----

  predicate AdjacentOk(h: History, previous: Release, current: Release) {
    previous.commit != current.commit && IsAncestor(h, previous.commit, current.commit)
  }

  predicate NeighboursOk(h: History, rs: seq<Release>, i: nat) {
    0 < i < |rs| && AdjacentOk(h, rs[i - 1], rs[i])
  }

  // Every release is a proper ancestor of the next one.
  ghost predicate Validated(h: History, rs: seq<Release>) {
    forall i {:trigger NeighboursOk(h, rs, i)} :: 0 < i < |rs| ==> NeighboursOk(h, rs, i)
  }

  // The first neighbouring pair that is not an ancestor and a descendant, and its error.
  ghost predicate BrokenAt(h: History, rs: seq<Release>, i: nat, error: Error) {
    && 0 < i < |rs| && !NeighboursOk(h, rs, i)
    && (forall j {:trigger NeighboursOk(h, rs, j)} :: 0 < j < i ==> NeighboursOk(h, rs, j))
    && error == if rs[i - 1].commit == rs[i].commit then SameCommit else NotMonotonic
  }

  // `_validate_release_history` looks at neighbouring pairs only.
  method ValidateReleaseHistory(h: History, rs: seq<Release>) returns (result: Result<()>)
    ensures result.Ok? <==> Validated(h, rs)
    ensures result.Err? ==> exists i :: BrokenAt(h, rs, i, result.error)
  {
    var i := 1;
    while i < |rs|
      invariant 1 <= i
      invariant forall j {:trigger NeighboursOk(h, rs, j)} :: 0 < j < i && j < |rs| ==> NeighboursOk(h, rs, j)
    {
      if rs[i - 1].commit == rs[i].commit {
        assert BrokenAt(h, rs, i, SameCommit);
        return Err(SameCommit);
      }
      if !IsAncestor(h, rs[i - 1].commit, rs[i].commit) {
        assert BrokenAt(h, rs, i, NotMonotonic);
        return Err(NotMonotonic);
      }
      i := i + 1;
    }
    return Ok(());
  }

  // The adjacent check implies one chain: any earlier release is a proper ancestor of any later one.
  lemma {:induction false} GlobalChain(h: History, rs: seq<Release>, i: nat, j: nat)
    requires Validated(h, rs) && i < j < |rs|
    ensures rs[i].commit != rs[j].commit && IsAncestor(h, rs[i].commit, rs[j].commit)
    decreases j
  {
    assert NeighboursOk(h, rs, j);
    if i < j - 1 {
      GlobalChain(h, rs, i, j - 1);
      AncestorTransitive(h, rs[i].commit, rs[j - 1].commit, rs[j].commit);
      if rs[i].commit == rs[j].commit {
        AncestorAntisymmetric(h, rs[i].commit, rs[j - 1].commit);
      }
    }
  }

  function Reachable(h: History, rs: seq<Release>, c: Commit): (r: seq<Release>)
    ensures |r| <= |rs|
  {
    if rs == [] then []
    else Reachable(h, rs[..|rs| - 1], c)
         + if IsAncestor(h, rs[|rs| - 1].commit, c) then [rs[|rs| - 1]] else []
  }

  // So the releases reachable from a commit are the first ones.
  lemma {:induction false} ReachableIsPrefix(h: History, rs: seq<Release>, c: Commit)
    requires Validated(h, rs)
    ensures Reachable(h, rs, c) == rs[..|Reachable(h, rs, c)|]
    ensures forall i :: 0 <= i < |rs| ==> (i < |Reachable(h, rs, c)| <==> IsAncestor(h, rs[i].commit, c))
  {
    if rs != [] {
      var n := |rs| - 1;
      var front := rs[..n];
      forall i | 0 < i < |front|
        ensures NeighboursOk(h, front, i)
      {
        assert NeighboursOk(h, rs, i);
      }
      ReachableIsPrefix(h, front, c);
      if IsAncestor(h, rs[n].commit, c) {
        forall i | 0 <= i < n
          ensures IsAncestor(h, front[i].commit, c)
        {
          GlobalChain(h, rs, i, n);
          AncestorTransitive(h, rs[i].commit, rs[n].commit, c);
        }
        if n > 0 { assert n - 1 < |Reachable(h, front, c)|; }
        assert Reachable(h, front, c) == front;
      }
    }
  }

  // ----- Classifying commits -----

  function MaxEffect(effects: seq<Bump>): Bump {
    if effects == [] then NoBump else MaxBump(MaxEffect(effects[..|effects| - 1]), effects[|effects| - 1])
  }

  // `classify_commits`, after `classify_commit` has mapped each message to its effect.
  method ClassifyCommits(effects: seq<Bump>) returns (bump: Bump)
    ensures bump == MaxEffect(effects)
  {
    bump := NoBump;
    for i := 0 to |effects|
      invariant bump == MaxEffect(effects[..i])
    {
      assert effects[..i + 1][..i] == effects[..i];
      bump := MaxBump(bump, effects[i]);
    }
    assert effects[..|effects|] == effects;
  }

  // The effect of a range is the strongest effect in it; their order does not matter.
  lemma {:induction false} MaxEffectIsMaximum(effects: seq<Bump>)
    ensures forall e :: e in effects ==> Rank(e) <= Rank(MaxEffect(effects))
    ensures MaxEffect(effects) == NoBump || MaxEffect(effects) in effects
  {
    if effects != [] {
      MaxEffectIsMaximum(effects[..|effects| - 1]);
      assert effects == effects[..|effects| - 1] + [effects[|effects| - 1]];
    }
  }

  // `previous..source`: what is reachable from the source but not from the previous release.
  function EffectsInRange(h: History, n: nat, source: Commit, previous: Option<Commit>, effect: Commit -> Bump): seq<Bump> {
    if n == 0 then []
    else EffectsInRange(h, n - 1, source, previous, effect)
         + if IsAncestor(h, n - 1, source) && (previous == None || !IsAncestor(h, n - 1, previous.value))
           then [effect(n - 1)] else []
  }

  // The commit belongs to the range after the previous release.
  predicate InRange(h: History, c: Commit, source: Commit, previous: Option<Commit>) {
    c < |h.parents| && IsAncestor(h, c, source) && (previous == None || !IsAncestor(h, c, previous.value))
  }

  lemma {:induction false} EffectsOfRange(
      h: History, n: nat, source: Commit, previous: Option<Commit>, effect: Commit -> Bump, e: Bump)
    requires n <= |h.parents|
    ensures e in EffectsInRange(h, n, source, previous, effect) <==>
            exists c: Commit :: c < n && InRange(h, c, source, previous) && effect(c) == e
  {
    if n > 0 {
      EffectsOfRange(h, n - 1, source, previous, effect, e);
      var before := EffectsInRange(h, n - 1, source, previous, effect);
      var all := EffectsInRange(h, n, source, previous, effect);
      assert all == before + (if InRange(h, n - 1, source, previous) then [effect(n - 1)] else []);
      assert e in all <==> e in before || (InRange(h, n - 1, source, previous) && effect(n - 1) == e);
    }
  }

  // ----- Planning -----

  datatype Plan = Plan(
    release: bool, source: Commit, version: Option<Version>, previous: Option<Version>,
    bump: Bump, recovery: bool, commitCount: nat)
  {
    function TagName(): Option<string> {
      if version.Some? then Some(Tag(version.value)) else None
    }
  }

  function HeadTags(rs: seq<Release>, source: Commit): seq<Release> {
    if rs == [] then []
    else HeadTags(rs[..|rs| - 1], source) + if rs[|rs| - 1].commit == source then [rs[|rs| - 1]] else []
  }

  // The decision over a validated release list.
  function Decide(h: History, rs: seq<Release>, tags: Tags, source: Commit, effect: Commit -> Bump): Result<Plan> {
    var reachable := Reachable(h, rs, source);
    var heads := HeadTags(reachable, source);
    var n := |reachable|;
    if |heads| > 1 then Err(SeveralHeadTags)
    else if heads != [] then
      if n > 0 && reachable[n - 1].version != heads[0].version then Err(OlderRecovery)
      else Ok(Plan(true, source, Some(heads[0].version), if n > 1 then Some(reachable[n - 2].version) else None,
                   NoBump, true, 0))
    else if n != |rs| then Err(OutsideHistory)
    else
      var previous := if n > 0 then Some(reachable[n - 1].version) else None;
      var base := if n > 0 then reachable[n - 1].version else Version(0, 0, 0);
      var effects := EffectsInRange(h, |h.parents|, source,
                                    if n > 0 then Some(reachable[n - 1].commit) else None, effect);
      match BumpVersion(base, MaxEffect(effects))
      case None => Ok(Plan(false, source, None, previous, NoBump, false, |effects|))
      case Some(next) =>
        if Tag(next) in tags then Err(Collision)
        else Ok(Plan(true, source, Some(next), previous, MaxEffect(effects), false, |effects|))
  }

  // What a plan says of the commits themselves: a release at the source is recovered;
  // otherwise the plan follows from the commits since the last release.
  ghost predicate PlanFits(h: History, rs: seq<Release>, source: Commit, effect: Commit -> Bump, p: Plan) {
    && p.source == source
    && if p.recovery then exists i :: Recovers(rs, source, i, p)
       else (forall r :: r in rs ==> r.commit != source)
            && ContinuesFrom(h, rs, source, effect, p, if rs != [] then Some(rs[|rs| - 1]) else None)
  }

  // The plan recovers release `i`, the only one at the source.
  ghost predicate Recovers(rs: seq<Release>, source: Commit, i: nat, p: Plan) {
    && i < |rs| && rs[i].commit == source && p.release && p.version == Some(rs[i].version)
    && p.previous == (if i > 0 then Some(rs[i - 1].version) else None)
    && p.bump == NoBump && p.commitCount == 0
  }

  // The strongest effect since the last release decides: breaking changes before features
  // before fixes, and nothing is released without one of them.
  ghost predicate ContinuesFrom(
      h: History, rs: seq<Release>, source: Commit, effect: Commit -> Bump, p: Plan, last: Option<Release>)
  {
    var previous := if last.Some? then Some(last.value.commit) else None;
    var v := if last.Some? then last.value.version else Version(0, 0, 0);
    && p.previous == (if last.Some? then Some(v) else None)
    && p.commitCount == |set c: Commit | c < |h.parents| && InRange(h, c, source, previous)|
    && (p.release <==> p.version.Some?)
    && (p.version == Some(Version(v.major + 1, 0, 0)) <==> HasEffect(h, source, previous, effect, Major))
    && (p.version == Some(Version(v.major, v.minor + 1, 0)) <==>
        HasEffect(h, source, previous, effect, Minor) && !HasEffect(h, source, previous, effect, Major))
    && (p.version == Some(Version(v.major, v.minor, v.patch + 1)) <==>
        HasEffect(h, source, previous, effect, Patch) && !HasEffect(h, source, previous, effect, Minor)
        && !HasEffect(h, source, previous, effect, Major))
    && (p.version == None <==>
        !HasEffect(h, source, previous, effect, Patch) && !HasEffect(h, source, previous, effect, Minor)
        && !HasEffect(h, source, previous, effect, Major))
    && p.bump == (if p.version == None then NoBump
                  else if HasEffect(h, source, previous, effect, Major) then Major
                  else if HasEffect(h, source, previous, effect, Minor) then Minor else Patch)
  }

  // Some commit after the previous release has this effect.
  ghost predicate HasEffect(h: History, source: Commit, previous: Option<Commit>, effect: Commit -> Bump, kind: Bump) {
    exists c: Commit :: InRange(h, c, source, previous) && effect(c) == kind
  }

  // What the planner answers once it has the release list.
  ghost predicate AnswersFor(
      h: History, rs: seq<Release>, tags: Tags, source: Commit, effect: Commit -> Bump, result: Result<Plan>) {
    && Lists(rs, tags)
    && if Validated(h, rs) then result == Decide(h, rs, tags, source, effect)
       else result.Err? && exists i :: BrokenAt(h, rs, i, result.error)
  }

  // What the planner answers for a commit graph and a tag set; it keeps no state of its own.
  ghost predicate Answers(h: History, tags: Tags, source: Commit, effect: Commit -> Bump, result: Result<Plan>) {
    if !Annotated(tags) then result == Err(NotAnnotated)
    else exists rs :: AnswersFor(h, rs, tags, source, effect, result)
  }

  // `plan_release`; the source commit is known to exist.
  method PlanRelease(h: History, names: seq<string>, tags: Tags, source: Commit, effect: Commit -> Bump)
    returns (result: Result<Plan>, ghost rs: seq<Release>)
    requires source < |h.parents|
    requires forall t :: t in names <==> t in tags
    requires forall i, j :: 0 <= i < j < |names| ==> names[i] != names[j]
    ensures result == Err(NotAnnotated) <==> exists t :: t in tags && ParseTag(t).Some? && !tags[t].annotated
    ensures result != Err(NotAnnotated) ==>
              && Lists(rs, tags)
              && (if Validated(h, rs) then result == Decide(h, rs, tags, source, effect)
                  else result.Err? && exists i :: BrokenAt(h, rs, i, result.error))
    ensures result.Err? ==> result.error in {NotAnnotated, SameCommit, NotMonotonic, OutsideHistory}
    ensures result == Err(OutsideHistory) <==>
              && Annotated(tags) && Lists(rs, tags) && Validated(h, rs)
              && (forall r :: r in rs ==> r.commit != source) && exists r :: r in rs && !IsAncestor(h, r.commit, source)
    ensures result.Ok? ==> PlanFits(h, rs, source, effect, result.value)
    ensures Answers(h, tags, source, effect, result)
  {
    hide Lists, Validated, Tag, ParseTag, Decide, PlanFits, IsAncestor;
    var listed := AllReleaseTags(names, tags);
    rs := [];
    if listed.Err? {
      return Err(listed.error), [];
    }
    rs := listed.value;
    var checked := ValidateReleaseHistory(h, listed.value);
    if checked.Err? {
      result := Err(checked.error);
      assert AnswersFor(h, rs, tags, source, effect, result);
      return;
    }
    result := Decide(h, listed.value, tags, source, effect);
    GuardsNeverFire(h, rs, tags, source, effect);
    if result.Ok? {
      DecisionFits(h, rs, tags, source, effect);
    }
    assert AnswersFor(h, rs, tags, source, effect, result);
  }

  lemma DecisionFits(h: History, rs: seq<Release>, tags: Tags, source: Commit, effect: Commit -> Bump)
    requires Lists(rs, tags) && Validated(h, rs) && Decide(h, rs, tags, source, effect).Ok?
    ensures PlanFits(h, rs, source, effect, Decide(h, rs, tags, source, effect).value)
  {
    hide Lists, Validated, Decide, InRange, ContinuesFrom;
    var p := Decide(h, rs, tags, source, effect).value;
    if i: nat :| i < |rs| && rs[i].commit == source {
      PlanAtRelease(h, rs, tags, source, effect, i);
      assert Recovers(rs, source, i, p);
    } else {
      NoReleaseNoRecovery(h, rs, tags, source, effect);
      DecisionContinues(h, rs, tags, source, effect);
    }
  }

  lemma NoReleaseNoRecovery(h: History, rs: seq<Release>, tags: Tags, source: Commit, effect: Commit -> Bump)
    requires Validated(h, rs) && Decide(h, rs, tags, source, effect).Ok?
    requires forall i :: 0 <= i < |rs| ==> rs[i].commit != source
    ensures !Decide(h, rs, tags, source, effect).value.recovery
    ensures Decide(h, rs, tags, source, effect).value.source == source
  {
    hide Tag, EffectsInRange, HeadTags, IsAncestor, MaxEffect, Validated;
    ReachableHeads(h, rs, source);
    hide Reachable;
  }

  lemma DecisionContinues(h: History, rs: seq<Release>, tags: Tags, source: Commit, effect: Commit -> Bump)
    requires Lists(rs, tags) && Validated(h, rs)
    requires Decide(h, rs, tags, source, effect).Ok? && !Decide(h, rs, tags, source, effect).value.recovery
    ensures ContinuesFrom(h, rs, source, effect, Decide(h, rs, tags, source, effect).value,
                          if rs != [] then Some(rs[|rs| - 1]) else None)
  {
    hide Lists, Validated, Decide, InRange, HasEffect, EffectsInRange;
    var last := if rs != [] then Some(rs[|rs| - 1].commit) else None;
    PlanOfEffects(h, rs, tags, source, effect);
    RangeSize(h, |h.parents|, source, last, effect);
    BumpOfRange(h, source, last, effect);
  }

  // The strongest effect, told of the effects that occur.
  lemma BumpOfRange(h: History, source: Commit, last: Option<Commit>, effect: Commit -> Bump)
    ensures MaxEffect(EffectsInRange(h, |h.parents|, source, last, effect)) ==
            if HasEffect(h, source, last, effect, Major) then Major
            else if HasEffect(h, source, last, effect, Minor) then Minor
            else if HasEffect(h, source, last, effect, Patch) then Patch else NoBump
  {
    hide MaxEffect, EffectsInRange, InRange;
    StrongestOfRange(h, source, last, effect);
  }

  lemma RangeStep(h: History, n: nat, source: Commit, previous: Option<Commit>, effect: Commit -> Bump)
    requires 0 < n <= |h.parents|
    ensures EffectsInRange(h, n, source, previous, effect) ==
            EffectsInRange(h, n - 1, source, previous, effect)
            + if InRange(h, n - 1, source, previous) then [effect(n - 1)] else []
  {
    hide IsAncestor;
  }

  lemma {:induction false} RangeSize(
      h: History, n: nat, source: Commit, previous: Option<Commit>, effect: Commit -> Bump)
    requires n <= |h.parents|
    ensures |EffectsInRange(h, n, source, previous, effect)| ==
            |set c: Commit | c < n && InRange(h, c, source, previous)|
  {
    hide InRange;
    if n > 0 {
      RangeStep(h, n, source, previous, effect);
      RangeSize(h, n - 1, source, previous, effect);
      hide EffectsInRange;
      var before := set c: Commit | c < n - 1 && InRange(h, c, source, previous);
      var all := set c: Commit | c < n && InRange(h, c, source, previous);
      assert all == before + if InRange(h, n - 1, source, previous) then {n - 1} else {};
    }
  }

  // ----- What validation guarantees -----

  lemma {:induction false} HeadTagsOfChain(h: History, rs: seq<Release>, source: Commit)
    requires Validated(h, rs) && forall i :: 0 <= i < |rs| ==> IsAncestor(h, rs[i].commit, source)
    ensures HeadTags(rs, source) ==
            if rs != [] && rs[|rs| - 1].commit == source then [rs[|rs| - 1]] else []
  {
    if rs != [] {
      var n := |rs| - 1;
      var front := rs[..n];
      forall i | 0 < i < |front|
        ensures NeighboursOk(h, front, i)
      {
        assert NeighboursOk(h, rs, i);
      }
      HeadTagsOfChain(h, front, source);
      if n > 0 && rs[n - 1].commit == source {
        GlobalChain(h, rs, n - 1, n);
        AncestorAntisymmetric(h, rs[n].commit, rs[n - 1].commit);
      }
    }
  }

  lemma PrefixValidated(h: History, rs: seq<Release>, k: nat)
    requires Validated(h, rs) && k <= |rs|
    ensures Validated(h, rs[..k])
  {
    forall i | 0 < i < k
      ensures NeighboursOk(h, rs[..k], i)
    {
      assert NeighboursOk(h, rs, i);
    }
  }

  // The reachable releases and the one at the source itself, if any.
  lemma ReachableHeads(h: History, rs: seq<Release>, source: Commit)
    requires Validated(h, rs)
    ensures var reachable := Reachable(h, rs, source);
            && reachable == rs[..|reachable|]
            && HeadTags(reachable, source) ==
               (if reachable != [] && reachable[|reachable| - 1].commit == source
                then [reachable[|reachable| - 1]] else [])
  {
    var reachable := Reachable(h, rs, source);
    ReachableIsPrefix(h, rs, source);
    PrefixValidated(h, rs, |reachable|);
    HeadTagsOfChain(h, reachable, source);
  }

  // A version above the last one cannot have a tag yet.
  lemma NextTagIsNew(rs: seq<Release>, tags: Tags, v: Version)
    requires Lists(rs, tags) && (rs != [] ==> Less(rs[|rs| - 1].version, v))
    ensures Tag(v) !in tags
  {
    hide Tag, ParseTag;
    TagBijection(Tag(v), v);
    forall i | 0 <= i < |rs|
      ensures Tag(rs[i].version) != Tag(v)
    {
      TagBijection(Tag(v), rs[i].version);
      if i < |rs| - 1 { LessTransitive(rs[i].version, rs[|rs| - 1].version, v); }
    }
  }

  lemma NextVersionIsNew(rs: seq<Release>, tags: Tags, kind: Bump)
    requires Lists(rs, tags) && kind != NoBump
    ensures var base := if rs != [] then rs[|rs| - 1].version else Version(0, 0, 0);
            Tag(BumpVersion(base, kind).value) !in tags
  {
    var base := if rs != [] then rs[|rs| - 1].version else Version(0, 0, 0);
    NextTagIsNew(rs, tags, BumpVersion(base, kind).value);
  }

  // A release at the source is the last reachable one.
  lemma ReleaseAtSource(h: History, rs: seq<Release>, source: Commit)
    requires Validated(h, rs)
    ensures (exists r :: r in rs && r.commit == source) <==> HeadTags(Reachable(h, rs, source), source) != []
    ensures |Reachable(h, rs, source)| != |rs| <==> exists r :: r in rs && !IsAncestor(h, r.commit, source)
  {
    var reachable := Reachable(h, rs, source);
    var n := |reachable|;
    ReachableHeads(h, rs, source);
    ReachableIsPrefix(h, rs, source);
    if r :| r in rs && r.commit == source {
      var i :| 0 <= i < |rs| && rs[i] == r;
      assert i < n;
      if i < n - 1 {
        GlobalChain(h, rs, i, n - 1);
        AncestorAntisymmetric(h, rs[n - 1].commit, source);
      }
    }
    if n > 0 { assert reachable[n - 1] == rs[n - 1]; }
    if n < |rs| {
      assert rs[n] in rs && !IsAncestor(h, rs[n].commit, source);
    }
    if r :| r in rs && !IsAncestor(h, r.commit, source) {
      var i :| 0 <= i < |rs| && rs[i] == r;
      assert !(i < n);
    }
  }

  // After validation three of the planner's errors never occur; the one that remains
  // occurs exactly when the source has no release of its own and some release is not below it.
  lemma GuardsNeverFire(h: History, rs: seq<Release>, tags: Tags, source: Commit, effect: Commit -> Bump)
    requires Lists(rs, tags) && Validated(h, rs)
    ensures var d := Decide(h, rs, tags, source, effect);
            && (d.Err? ==> d.error == OutsideHistory)
            && (d.Err? <==> (forall r :: r in rs ==> r.commit != source)
                            && exists r :: r in rs && !IsAncestor(h, r.commit, source))
  {
    hide Tag, EffectsInRange, Reachable, HeadTags, Lists, Validated, IsAncestor, MaxEffect;
    var reachable := Reachable(h, rs, source);
    ReachableHeads(h, rs, source);
    ReleaseAtSource(h, rs, source);
    BumpOrNone();
    if |reachable| == |rs| {
      assert reachable == rs;
      var base := if rs != [] then rs[|rs| - 1].version else Version(0, 0, 0);
      forall kind | kind != NoBump
        ensures Tag(BumpVersion(base, kind).value) !in tags
      {
        NextVersionIsNew(rs, tags, kind);
      }
    }
  }

  // A new release takes the version that the strongest effect since the last release asks
  // for; no release is planned exactly when no commit since then has an effect.
  lemma PlannedVersion(h: History, rs: seq<Release>, tags: Tags, source: Commit, effect: Commit -> Bump)
    requires Lists(rs, tags) && Validated(h, rs)
    requires Decide(h, rs, tags, source, effect).Ok? && !Decide(h, rs, tags, source, effect).value.recovery
    ensures var p := Decide(h, rs, tags, source, effect).value;
            var base := if rs != [] then rs[|rs| - 1].version else Version(0, 0, 0);
            var last := if rs != [] then Some(rs[|rs| - 1].commit) else None;
            && (forall c: Commit :: InRange(h, c, source, last) ==> Rank(effect(c)) <= Rank(p.bump))
            && (p.release <==> exists c: Commit :: InRange(h, c, source, last) && effect(c) != NoBump)
            && (p.release ==> exists c: Commit :: InRange(h, c, source, last) && effect(c) == p.bump)
            && p.version == BumpVersion(base, p.bump) && (p.release <==> p.bump != NoBump)
            && (p.release ==> forall r :: r in rs ==> Less(r.version, p.version.value))
  {
    hide *;
    var p := Decide(h, rs, tags, source, effect).value;
    var base := if rs != [] then rs[|rs| - 1].version else Version(0, 0, 0);
    var last := if rs != [] then Some(rs[|rs| - 1].commit) else None;
    PlanOfEffects(h, rs, tags, source, effect);
    StrongestOfRange(h, source, last, effect);
    if p.release {
      forall r | r in rs
        ensures Less(r.version, p.version.value)
      {
        ListsIncreasing(rs, tags);
        OlderThanNext(rs, base, p.bump, r);
      }
    }
  }

  lemma ListsIncreasing(rs: seq<Release>, tags: Tags)
    requires Lists(rs, tags)
    ensures Increasing(rs)
  {
  }

  lemma PlanOfEffects(h: History, rs: seq<Release>, tags: Tags, source: Commit, effect: Commit -> Bump)
    requires Validated(h, rs)
    requires Decide(h, rs, tags, source, effect).Ok? && !Decide(h, rs, tags, source, effect).value.recovery
    ensures var p := Decide(h, rs, tags, source, effect).value;
            var base := if rs != [] then rs[|rs| - 1].version else Version(0, 0, 0);
            var last := if rs != [] then Some(rs[|rs| - 1].commit) else None;
            && p.bump == MaxEffect(EffectsInRange(h, |h.parents|, source, last, effect))
            && p.previous == (if rs != [] then Some(base) else None)
            && p.commitCount == |EffectsInRange(h, |h.parents|, source, last, effect)|
            && p.version == BumpVersion(base, p.bump) && (p.version.Some? <==> p.bump != NoBump)
            && (p.release <==> p.bump != NoBump)
  {
    hide Tag, EffectsInRange, HeadTags, IsAncestor, MaxEffect, Validated;
    ReachableHeads(h, rs, source);
    assert Reachable(h, rs, source) == rs;
    hide Reachable;
  }

  lemma StrongestOfRange(h: History, source: Commit, last: Option<Commit>, effect: Commit -> Bump)
    ensures var bump := MaxEffect(EffectsInRange(h, |h.parents|, source, last, effect));
            && (forall c: Commit :: InRange(h, c, source, last) ==> Rank(effect(c)) <= Rank(bump))
            && (bump != NoBump ==> exists c: Commit :: InRange(h, c, source, last) && effect(c) == bump)
            && (bump != NoBump <==> exists c: Commit :: InRange(h, c, source, last) && effect(c) != NoBump)
  {
    hide IsAncestor, EffectsInRange, MaxEffect;
    var effects := EffectsInRange(h, |h.parents|, source, last, effect);
    MaxEffectIsMaximum(effects);
    forall c: Commit | InRange(h, c, source, last)
      ensures Rank(effect(c)) <= Rank(MaxEffect(effects))
    {
      EffectsOfRange(h, |h.parents|, source, last, effect, effect(c));
    }
    EffectsOfRange(h, |h.parents|, source, last, effect, MaxEffect(effects));
  }

  lemma OlderThanNext(rs: seq<Release>, base: Version, kind: Bump, r: Release)
    requires Increasing(rs) && r in rs && kind != NoBump && base == rs[|rs| - 1].version
    ensures Less(r.version, BumpVersion(base, kind).value)
  {
    BumpIsNext(base, kind, base);
    var i :| 0 <= i < |rs| && rs[i] == r;
    if i < |rs| - 1 {
      LessTransitive(r.version, base, BumpVersion(base, kind).value);
    }
  }

  lemma BumpOrNone()
    ensures forall v :: BumpVersion(v, NoBump) == None
  {
  }

  // Planning at a commit that carries a release recovers that release.
  lemma PlanAtRelease(h: History, rs: seq<Release>, tags: Tags, source: Commit, effect: Commit -> Bump, i: nat)
    requires Validated(h, rs) && i < |rs| && rs[i].commit == source
    ensures Decide(h, rs, tags, source, effect) ==
            Ok(Plan(true, source, Some(rs[i].version), if i > 0 then Some(rs[i - 1].version) else None, NoBump, true, 0))
  {
    var reachable := Reachable(h, rs, source);
    ReachableHeads(h, rs, source);
    ReachableIsPrefix(h, rs, source);
    if i < |reachable| - 1 {
      GlobalChain(h, rs, i, |reachable| - 1);
      AncestorAntisymmetric(h, rs[|reachable| - 1].commit, source);
    }
  }

  // ----- Sequences of releases -----

  datatype Repo = Repo(rs: seq<Release>, tags: Tags)

  ghost predicate Good(h: History, r: Repo) {
    && Lists(r.rs, r.tags) && Annotated(r.tags) && Validated(h, r.rs)
    && forall i :: 0 <= i < |r.rs| ==> r.rs[i].commit < |h.parents|
  }

  // In a good repository the planner reads back the carried list and answers its decision.
  lemma AnswerIsDecision(h: History, r: Repo, source: Commit, effect: Commit -> Bump, result: Result<Plan>)
    requires Good(h, r) && Answers(h, r.tags, source, effect, result)
    ensures result == Decide(h, r.rs, r.tags, source, effect)
  {
    hide Lists, Annotated, Validated, Decide;
    var rs :| AnswersFor(h, rs, r.tags, source, effect, result);
    ListsUnique(rs, r.rs, r.tags);
  }

  // A good repository stays good as commits are added.
  lemma GrowthKeepsGood(h: History, h': History, r: Repo)
    requires Good(h, r) && Extends(h, h')
    ensures Good(h', r)
  {
    hide Lists, Annotated, IsAncestor;
    forall i | 0 < i < |r.rs|
      ensures NeighboursOk(h', r.rs, i)
    {
      assert NeighboursOk(h, r.rs, i);
      AncestryIsStable(h, h', r.rs[i - 1].commit, r.rs[i].commit);
    }
  }

  // Tagging the source with the planned version; other plans leave the tags alone.
  function Carry(r: Repo, p: Plan): Repo {
    if p.release && !p.recovery && p.version.Some?
    then Repo(r.rs + [Release(p.version.value, p.source)], r.tags[Tag(p.version.value) := TagRef(p.source, true)])
    else r
  }

  // The planned tag extends the history: strictly later version, strictly later commit.
  lemma PlanKeepsHistory(h: History, r: Repo, source: Commit, effect: Commit -> Bump)
    requires source < |h.parents| && Good(h, r) && Decide(h, r.rs, r.tags, source, effect).Ok?
    ensures Good(h, Carry(r, Decide(h, r.rs, r.tags, source, effect).value))
  {
    hide Tag, EffectsInRange;
    var p := Decide(h, r.rs, r.tags, source, effect).value;
    ReachableHeads(h, r.rs, source);
    ReachableIsPrefix(h, r.rs, source);
    if p.release && !p.recovery {
      var v, n := p.version.value, |r.rs|;
      assert Reachable(h, r.rs, source) == r.rs;
      if n > 0 {
        assert Less(r.rs[n - 1].version, v);
      }
      AppendRelease(h, r, Release(v, source));
    }
  }

  lemma AppendRelease(h: History, r: Repo, next: Release)
    requires Good(h, r) && Tag(next.version) !in r.tags && next.commit < |h.parents|
    requires r.rs != [] ==> Less(r.rs[|r.rs| - 1].version, next.version) && AdjacentOk(h, r.rs[|r.rs| - 1], next)
    ensures Good(h, Repo(r.rs + [next], r.tags[Tag(next.version) := TagRef(next.commit, true)]))
  {
    hide Tag, ParseTag, IsAncestor;
    var rs', tags' := r.rs + [next], r.tags[Tag(next.version) := TagRef(next.commit, true)];
    var n := |r.rs|;
    assert Increasing(rs') by {
      forall i, j | 0 <= i < j < |rs'|
        ensures Less(rs'[i].version, rs'[j].version)
      {
        if j == n && i < n - 1 {
          assert Less(r.rs[i].version, r.rs[n - 1].version);
        }
      }
    }
    forall i | 0 < i < |rs'|
      ensures NeighboursOk(h, rs', i)
    {
      if i < n { assert NeighboursOk(h, r.rs, i); }
    }
    forall i | 0 <= i < |rs'|
      ensures Tag(rs'[i].version) in tags' && tags'[Tag(rs'[i].version)].commit == rs'[i].commit
    {
      if i < n { assert Tag(r.rs[i].version) in r.tags; }
    }
    forall t | t in tags' && ParseTag(t).Some?
      ensures exists i :: 0 <= i < |rs'| && Tag(rs'[i].version) == t
    {
      if t == Tag(next.version) {
        assert rs'[n] == next;
      } else {
        var i :| 0 <= i < n && Tag(r.rs[i].version) == t;
        assert rs'[i] == r.rs[i];
      }
    }
  }

  // A history of releases: the planner answers `plans[k]` at `sources[k]`, `repos[k + 1]`
  // results from carrying it out, and the commit graph may grow in between.
  ghost predicate Releases(
      hs: seq<History>, repos: seq<Repo>, sources: seq<Commit>, plans: seq<Plan>, effect: Commit -> Bump) {
    && |hs| == |repos| == |sources| + 1 && |plans| == |sources| && Good(hs[0], repos[0])
    && forall k :: 0 <= k < |sources| ==>
         Released(hs[k], hs[k + 1], repos[k], sources[k], effect, plans[k], repos[k + 1])
  }

  ghost predicate Released(
      h: History, h': History, r: Repo, source: Commit, effect: Commit -> Bump, plan: Plan, r': Repo) {
    Extends(h, h') && source < |h.parents| && Answers(h, r.tags, source, effect, Ok(plan)) && r' == Carry(r, plan)
  }

  lemma FirstIsGood(
      hs: seq<History>, repos: seq<Repo>, sources: seq<Commit>, plans: seq<Plan>, effect: Commit -> Bump)
    requires Releases(hs, repos, sources, plans, effect)
    ensures |hs| == |repos| == |plans| + 1 && |plans| == |sources| && Good(hs[0], repos[0])
  {
    hide Good, Answers, Carry;
  }

  lemma NextIsCarried(
      hs: seq<History>, repos: seq<Repo>, sources: seq<Commit>, plans: seq<Plan>, effect: Commit -> Bump, k: nat)
    requires Releases(hs, repos, sources, plans, effect) && k + 1 < |repos|
    ensures |hs| == |repos| == |plans| + 1 && |plans| == |sources|
    ensures Extends(hs[k], hs[k + 1]) && sources[k] < |hs[k].parents|
    ensures Answers(hs[k], repos[k].tags, sources[k], effect, Ok(plans[k]))
    ensures repos[k + 1] == Carry(repos[k], plans[k])
  {
    hide Good, Answers, Carry, Extends;
    assert Released(hs[k], hs[k + 1], repos[k], sources[k], effect, plans[k], repos[k + 1]);
  }

  // Every repository on the way has a monotone history and annotated release tags.
  lemma {:induction false} ReleasesStayGood(
      hs: seq<History>, repos: seq<Repo>, sources: seq<Commit>, plans: seq<Plan>, effect: Commit -> Bump, k: nat)
    requires Releases(hs, repos, sources, plans, effect) && k < |repos|
    ensures |hs| == |repos| && Good(hs[k], repos[k])
  {
    hide *;
    FirstIsGood(hs, repos, sources, plans, effect);
    if k > 0 {
      ReleasesStayGood(hs, repos, sources, plans, effect, k - 1);
      NextIsCarried(hs, repos, sources, plans, effect, k - 1);
      AnswerIsDecision(hs[k - 1], repos[k - 1], sources[k - 1], effect, Ok(plans[k - 1]));
      PlanKeepsHistory(hs[k - 1], repos[k - 1], sources[k - 1], effect);
      GrowthKeepsGood(hs[k - 1], hs[k], repos[k]);
    }
  }

  lemma CarryAppends(r: Repo, p: Plan)
    ensures r.rs <= Carry(r, p).rs
  {
  }

  lemma {:induction false} ReleasesOnlyAppend(
      hs: seq<History>, repos: seq<Repo>, sources: seq<Commit>, plans: seq<Plan>, effect: Commit -> Bump,
      j: nat, k: nat)
    requires Releases(hs, repos, sources, plans, effect) && j <= k < |repos|
    ensures repos[j].rs <= repos[k].rs
    decreases k
  {
    hide *;
    if j < k {
      ReleasesOnlyAppend(hs, repos, sources, plans, effect, j, k - 1);
      NextIsCarried(hs, repos, sources, plans, effect, k - 1);
      CarryAppends(repos[k - 1], plans[k - 1]);
    }
  }

  // A release that was carried out is recovered by whatever the planner answers when its
  // commit is planned again, after any number of later commits and releases.
  lemma RecoveryIsStable(
      hs: seq<History>, repos: seq<Repo>, sources: seq<Commit>, plans: seq<Plan>, effect: Commit -> Bump,
      j: nat, k: nat, again: Result<Plan>)
    requires Releases(hs, repos, sources, plans, effect) && j < k < |repos|
    requires |plans| == |sources| == |repos| - 1 && |hs| == |repos| && plans[j].release
    requires Answers(hs[k], repos[k].tags, sources[j], effect, again)
    ensures again.Ok? && again.value.recovery && again.value.release
    ensures again.value.version == plans[j].version && again.value.TagName() == plans[j].TagName()
  {
    hide Releases, Good, Answers, Decide, Carry, Tag;
    ReleasesStayGood(hs, repos, sources, plans, effect, j);
    ReleasesStayGood(hs, repos, sources, plans, effect, k);
    ReleasesOnlyAppend(hs, repos, sources, plans, effect, j + 1, k);
    NextIsCarried(hs, repos, sources, plans, effect, j);
    AnswerIsDecision(hs[j], repos[j], sources[j], effect, Ok(plans[j]));
    var at := ReleaseOfPlan(hs[j], repos[j], sources[j], effect);
    RecoversRelease(hs[k], repos[k], sources[j], effect, at, again);
  }

  // Planning at the commit of any release of a good repository recovers that release.
  lemma RecoversRelease(
      h: History, r: Repo, source: Commit, effect: Commit -> Bump, i: nat, result: Result<Plan>)
    requires Good(h, r) && i < |r.rs| && r.rs[i].commit == source && Answers(h, r.tags, source, effect, result)
    ensures result == Ok(Plan(true, source, Some(r.rs[i].version),
                              if i > 0 then Some(r.rs[i - 1].version) else None, NoBump, true, 0))
  {
    hide Lists, Annotated, Validated, Answers, Decide;
    AnswerIsDecision(h, r, source, effect, result);
    PlanAtRelease(h, r.rs, r.tags, source, effect, i);
  }

  // Where the planned release stands once it has been carried out.
  lemma ReleaseOfPlan(h: History, r: Repo, source: Commit, effect: Commit -> Bump) returns (at: nat)
    requires Good(h, r)
    requires Decide(h, r.rs, r.tags, source, effect).Ok? && Decide(h, r.rs, r.tags, source, effect).value.release
    ensures var p := Decide(h, r.rs, r.tags, source, effect).value;
            at < |Carry(r, p).rs| && p.version.Some? && Carry(r, p).rs[at] == Release(p.version.value, source)
  {
    hide Tag, EffectsInRange, Lists, Annotated, Validated, IsAncestor, Reachable, HeadTags, MaxEffect, BumpVersion;
    var p := Decide(h, r.rs, r.tags, source, effect).value;
    ReachableHeads(h, r.rs, source);
    at := if p.recovery then |Reachable(h, r.rs, source)| - 1 else |r.rs|;
  }
}
