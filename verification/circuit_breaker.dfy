// The reindex circuit breaker: how many attempts of one note it lets through.
module CircuitBreakers {

  type Path = string

  datatype Settings = Settings(maxAttempts: nat, window: real)

  // The values the indexer uses.
  const DEFAULTS := Settings(3, 60.0)

  // Attempts counted since the time of the first one.
  datatype Entry = Entry(count: nat, first: real)

  datatype Target = All | One(path: Path)

  type Attempts = map<Path, Entry>

  function Purged(cfg: Settings, a: Attempts, now: real): Attempts {
    map p | p in a && !(now - a[p].first > cfg.window) :: a[p]
  }

  function Blocks(cfg: Settings, a: Attempts, p: Path, now: real): bool {
    var kept := Purged(cfg, a, now);
    p in kept && kept[p].count >= cfg.maxAttempts
  }

  function Checked(cfg: Settings, a: Attempts, p: Path, now: real): Attempts {
    var kept := Purged(cfg, a, now);
    if p !in kept then kept[p := Entry(1, now)]
    else if kept[p].count >= cfg.maxAttempts then kept
    else kept[p := Entry(kept[p].count + 1, kept[p].first)]
  }

  // After the purge no entry is older than the window, so the branch that would
  // restart an expired entry is never taken.
  lemma ExpiredBranchUnreachable(cfg: Settings, a: Attempts, p: Path, now: real)
    requires p in Purged(cfg, a, now)
    ensures now - Purged(cfg, a, now)[p].first <= cfg.window
  {
  }

  class CircuitBreaker {
    const cfg: Settings
    var attempts: Attempts

    constructor (cfg: Settings)
      ensures this.cfg == cfg && attempts == map[]
    {
      this.cfg, attempts := cfg, map[];
    }

    // `_check_circuit_breaker`
    method Check(path: Path, now: real) returns (blocked: bool)
      modifies this
      ensures blocked <==>
                && path in old(attempts) && now - old(attempts)[path].first <= cfg.window
                && old(attempts)[path].count >= cfg.maxAttempts
      ensures forall p :: p != path ==>
                && (p in attempts <==> p in old(attempts) && now - old(attempts)[p].first <= cfg.window)
                && (p in attempts ==> attempts[p] == old(attempts)[p])
      ensures path in attempts
      ensures attempts[path] ==
                if path !in old(attempts) || now - old(attempts)[path].first > cfg.window then Entry(1, now)
                else if blocked then old(attempts)[path]
                else Entry(old(attempts)[path].count + 1, old(attempts)[path].first)
      ensures blocked == Blocks(cfg, old(attempts), path, now)
      ensures attempts == Checked(cfg, old(attempts), path, now)
      ensures cfg.window >= 0.0 ==> forall p :: p in attempts ==> now - attempts[p].first <= cfg.window
    {
      attempts := map p | p in attempts && !(now - attempts[p].first > cfg.window) :: attempts[p];
      if path in attempts {
        var entry := attempts[path];
        if now - entry.first <= cfg.window {
          if entry.count >= cfg.maxAttempts {
            return true;
          }
          attempts := attempts[path := Entry(entry.count + 1, entry.first)];
        } else {
          assert false;  // the purge has just removed every expired entry
        }
      } else {
        attempts := attempts[path := Entry(1, now)];
      }
      return false;
    }

    // `reset_circuit_breaker`, for one note or for all.
    method Reset(target: Target)
      modifies this
      ensures attempts == if target.One? then old(attempts) - {target.path} else map[]
    {
      if target == All {
        attempts := map[];
      } else if target.path in attempts {
        attempts := attempts - {target.path};
      }
    }
  }

  // ----- Sequences of calls -----

  datatype Call = Call(path: Path, time: real)

  ghost predicate Chronological(calls: seq<Call>) {
    forall i, j :: 0 <= i < j < |calls| ==> calls[i].time <= calls[j].time
  }

  function AttemptsAfter(cfg: Settings, calls: seq<Call>): Attempts {
    if calls == [] then map[]
    else
      var last := calls[|calls| - 1];
      Checked(cfg, AttemptsAfter(cfg, calls[..|calls| - 1]), last.path, last.time)
  }

  // Whether the last call was let through.
  predicate AdmitsLast(cfg: Settings, calls: seq<Call>)
    requires calls != []
  {
    var last := calls[|calls| - 1];
    !Blocks(cfg, AttemptsAfter(cfg, calls[..|calls| - 1]), last.path, last.time)
  }

  predicate Within(cfg: Settings, lo: real, t: real) {
    lo <= t <= lo + cfg.window
  }

  // How many calls for `p` were let through at times in [lo, lo + window].
  function AdmittedWithin(cfg: Settings, calls: seq<Call>, p: Path, lo: real): nat {
    if calls == [] then 0
    else
      var last := calls[|calls| - 1];
      AdmittedWithin(cfg, calls[..|calls| - 1], p, lo)
      + if last.path == p && AdmitsLast(cfg, calls) && Within(cfg, lo, last.time) then 1 else 0
  }

  // ----- Grouping admitted calls by the entry that counted them -----

  // The times an entry counted, oldest first.
  type Group = seq<real>

  ghost predicate GroupOk(cfg: Settings, g: Group) {
    && 1 <= |g| <= cfg.maxAttempts
    && forall i :: 0 <= i < |g| ==> g[0] <= g[i] <= g[0] + cfg.window
  }

  // Group `g` had expired when group `h` was started.
  ghost predicate ExpiredBefore(cfg: Settings, g: Group, h: Group) {
    |g| > 0 && |h| > 0 && g[0] + cfg.window < h[0]
  }

  ghost predicate GroupsOk(cfg: Settings, gs: seq<Group>) {
    gs != [] ==>
      var front, last := gs[..|gs| - 1], gs[|gs| - 1];
      && GroupsOk(cfg, front) && GroupOk(cfg, last)
      && (front != [] ==> ExpiredBefore(cfg, front[|front| - 1], last))
  }

  function CountIn(cfg: Settings, g: Group, lo: real): nat {
    if g == [] then 0
    else CountIn(cfg, g[..|g| - 1], lo) + if Within(cfg, lo, g[|g| - 1]) then 1 else 0
  }

  function CountGroups(cfg: Settings, gs: seq<Group>, lo: real): nat {
    if gs == [] then 0
    else CountGroups(cfg, gs[..|gs| - 1], lo) + CountIn(cfg, gs[|gs| - 1], lo)
  }

  ghost function Groups(cfg: Settings, calls: seq<Call>, p: Path): seq<Group>
  {
    if calls == [] then []
    else
      var front, last := calls[..|calls| - 1], calls[|calls| - 1];
      var gs := Groups(cfg, front, p);
      if last.path != p || !AdmitsLast(cfg, calls) then gs
      else if p in Purged(cfg, AttemptsAfter(cfg, front), last.time) && gs != []
      then gs[..|gs| - 1] + [gs[|gs| - 1] + [last.time]]
      else gs + [[last.time]]
  }

  lemma {:induction false} CountInBound(cfg: Settings, g: Group, lo: real)
    ensures CountIn(cfg, g, lo) <= |g|
    ensures |g| > 0 && !Within(cfg, lo, g[0]) ==> CountIn(cfg, g, lo) <= |g| - 1
    ensures (forall i :: 0 <= i < |g| ==> !Within(cfg, lo, g[i])) ==> CountIn(cfg, g, lo) == 0
  {
    if g != [] {
      CountInBound(cfg, g[..|g| - 1], lo);
    }
  }

  // Groups that end before the interval contribute nothing.
  lemma {:induction false} EarlierGroupsCountNothing(cfg: Settings, gs: seq<Group>, lo: real)
    requires GroupsOk(cfg, gs) && cfg.window >= 0.0
    requires gs != [] ==> |gs[|gs| - 1]| > 0 && gs[|gs| - 1][0] + cfg.window < lo
    ensures CountGroups(cfg, gs, lo) == 0
  {
    if gs != [] {
      var last := gs[|gs| - 1];
      CountInBound(cfg, last, lo);
      EarlierGroupsCountNothing(cfg, gs[..|gs| - 1], lo);
    }
  }

  // At most one group starts inside the interval, and at most one reaches into it from before.
  lemma {:induction false} GroupsBound(cfg: Settings, gs: seq<Group>, lo: real)
    requires GroupsOk(cfg, gs) && cfg.window >= 0.0 && cfg.maxAttempts >= 1
    ensures CountGroups(cfg, gs, lo) <= 2 * cfg.maxAttempts - 1
  {
    if gs != [] {
      var front, last := gs[..|gs| - 1], gs[|gs| - 1];
      CountInBound(cfg, last, lo);
      if last[0] > lo + cfg.window {
        GroupsBound(cfg, front, lo);
      } else if last[0] < lo {
        EarlierGroupsCountNothing(cfg, front, lo);
      } else if front != [] {
        var previous, before := front[|front| - 1], front[..|front| - 1];
        CountInBound(cfg, previous, lo);
        EarlierGroupsCountNothing(cfg, before, lo);
      }
    }
  }

  ghost predicate AllBy(g: Group, now: real) {
    forall j :: 0 <= j < |g| ==> g[j] <= now
  }

  // The open entry of `p` is the last group; a purged one has expired.
  ghost predicate Tracks(cfg: Settings, a: Attempts, gs: seq<Group>, p: Path, now: real) {
    && GroupsOk(cfg, gs)
    && (gs != [] ==> AllBy(gs[|gs| - 1], now))
    && (if p in a
        then |gs| > 0 && a[p] == Entry(|gs[|gs| - 1]|, gs[|gs| - 1][0])
        else gs == [] || (|gs[|gs| - 1]| > 0 && gs[|gs| - 1][0] + cfg.window < now))
  }

  lemma {:induction false} CallsTrackGroups(cfg: Settings, calls: seq<Call>, p: Path, lo: real)
    requires Chronological(calls) && calls != [] && cfg.window >= 0.0 && cfg.maxAttempts >= 1
    ensures Tracks(cfg, AttemptsAfter(cfg, calls), Groups(cfg, calls, p), p, calls[|calls| - 1].time)
    ensures CountGroups(cfg, Groups(cfg, calls, p), lo) == AdmittedWithin(cfg, calls, p, lo)
  {
    hide Tracks, CountGroups, Checked, Purged, Blocks, Within;
    var front, last := calls[..|calls| - 1], calls[|calls| - 1];
    var gs := Groups(cfg, front, p);
    if front != [] {
      CallsTrackGroups(cfg, front, p, lo);
      assert front[|front| - 1] == calls[|calls| - 2];
      StepTracks(cfg, AttemptsAfter(cfg, front), gs, p, front[|front| - 1].time, last, lo);
    } else {
      NothingTracked(cfg, p, last.time, lo);
      StepTracks(cfg, AttemptsAfter(cfg, front), gs, p, last.time, last, lo);
    }
  }

  lemma NothingTracked(cfg: Settings, p: Path, now: real, lo: real)
    ensures Tracks(cfg, map[], [], p, now) && CountGroups(cfg, [], lo) == 0
  {
  }

  lemma StepTracks(cfg: Settings, a: Attempts, gs: seq<Group>, p: Path, before: real, last: Call, lo: real)
    requires Tracks(cfg, a, gs, p, before) && before <= last.time && cfg.window >= 0.0 && cfg.maxAttempts >= 1
    ensures var gs' := if last.path != p || Blocks(cfg, a, p, last.time) then gs
                       else if p in Purged(cfg, a, last.time) && gs != []
                       then gs[..|gs| - 1] + [gs[|gs| - 1] + [last.time]]
                       else gs + [[last.time]];
            && Tracks(cfg, Checked(cfg, a, last.path, last.time), gs', p, last.time)
            && CountGroups(cfg, gs', lo) == CountGroups(cfg, gs, lo)
               + (if last.path == p && !Blocks(cfg, a, p, last.time) && Within(cfg, lo, last.time) then 1 else 0)
  {
    if last.path == p && !Blocks(cfg, a, p, last.time) {
      if p in Purged(cfg, a, last.time) {
        ExtendLast(cfg, gs, last.time, lo);
      } else {
        StartGroup(cfg, gs, last.time, lo);
      }
    }
  }

  lemma ExtendLast(cfg: Settings, gs: seq<Group>, now: real, lo: real)
    requires GroupsOk(cfg, gs) && gs != [] && |gs[|gs| - 1]| < cfg.maxAttempts
    requires gs[|gs| - 1][0] <= now <= gs[|gs| - 1][0] + cfg.window
    ensures var gs' := gs[..|gs| - 1] + [gs[|gs| - 1] + [now]];
            && GroupsOk(cfg, gs')
            && CountGroups(cfg, gs', lo) == CountGroups(cfg, gs, lo) + (if Within(cfg, lo, now) then 1 else 0)
  {
    var front, g := gs[..|gs| - 1], gs[|gs| - 1];
    var g' := g + [now];
    assert g'[..|g|] == g;
    assert (front + [g'])[..|front|] == front;
  }

  lemma StartGroup(cfg: Settings, gs: seq<Group>, now: real, lo: real)
    requires GroupsOk(cfg, gs) && cfg.maxAttempts >= 1 && cfg.window >= 0.0
    requires gs != [] ==> |gs[|gs| - 1]| > 0 && gs[|gs| - 1][0] + cfg.window < now
    ensures GroupsOk(cfg, gs + [[now]])
    ensures CountGroups(cfg, gs + [[now]], lo) == CountGroups(cfg, gs, lo) + (if Within(cfg, lo, now) then 1 else 0)
  {
    assert (gs + [[now]])[..|gs|] == gs;
    assert [now][..0] == [];
    assert CountIn(cfg, [now], lo) == if Within(cfg, lo, now) then 1 else 0;
  }

  // However the calls are timed, a closed interval as long as the window admits
  // at most 2 * maxAttempts - 1 attempts of one note.
  lemma AdmissionBound(cfg: Settings, calls: seq<Call>, p: Path, lo: real)
    requires Chronological(calls) && cfg.window >= 0.0 && cfg.maxAttempts >= 1
    ensures AdmittedWithin(cfg, calls, p, lo) <= 2 * cfg.maxAttempts - 1
  {
    if calls != [] {
      CallsTrackGroups(cfg, calls, p, lo);
      GroupsBound(cfg, Groups(cfg, calls, p), lo);
    }
  }

  // With the values the indexer uses: at most five attempts within any sixty seconds.
  lemma DefaultBound(calls: seq<Call>, p: Path, lo: real)
    requires Chronological(calls)
    ensures DEFAULTS.window == 60.0 && AdmittedWithin(DEFAULTS, calls, p, lo) <= 5
  {
    AdmissionBound(DEFAULTS, calls, p, lo);
  }

  // The bound is reached: five attempts within sixty seconds with the default settings.
  lemma AdmissionBoundIsTight(p: Path)
    ensures var calls := [Call(p, 0.0), Call(p, 60.0), Call(p, 60.0), Call(p, 61.0), Call(p, 61.0), Call(p, 61.0)];
            Chronological(calls) && AdmittedWithin(DEFAULTS, calls, p, 1.0) == 5
  {
    var c := [Call(p, 0.0), Call(p, 60.0), Call(p, 60.0), Call(p, 61.0), Call(p, 61.0), Call(p, 61.0)];
    assert c[..1] == [Call(p, 0.0)] && c[..1][..0] == [];
    assert c[..2][..1] == c[..1] && c[..3][..2] == c[..2] && c[..4][..3] == c[..3] && c[..5][..4] == c[..4];
    assert c[..6] == c;
    assert AttemptsAfter(DEFAULTS, c[..1]) == map[p := Entry(1, 0.0)];
    assert AttemptsAfter(DEFAULTS, c[..2]) == map[p := Entry(2, 0.0)];
    assert AttemptsAfter(DEFAULTS, c[..3]) == map[p := Entry(3, 0.0)];
    assert AttemptsAfter(DEFAULTS, c[..4]) == map[p := Entry(1, 61.0)];
    assert AttemptsAfter(DEFAULTS, c[..5]) == map[p := Entry(2, 61.0)];
    assert AdmittedWithin(DEFAULTS, c[..1], p, 1.0) == 0;
    assert AdmittedWithin(DEFAULTS, c[..2], p, 1.0) == 1;
    assert AdmittedWithin(DEFAULTS, c[..3], p, 1.0) == 2;
    assert AdmittedWithin(DEFAULTS, c[..4], p, 1.0) == 3;
    assert AdmittedWithin(DEFAULTS, c[..5], p, 1.0) == 4;
  }
}
