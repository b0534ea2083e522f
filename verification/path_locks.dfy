// Two-layer path locks: a thread lock inside each process, then a file lock across
// processes, taken for several paths in sorted order under one deadline.
module PathLocks {
  import Sorting

  // A canonical path, by its rank in the sorted order of paths.
  type Path = nat
  type Tid = nat
  type Pid = nat

  datatype Resource = ThreadLock(process: Pid, path: Path) | FileLock(path: Path)

  // The order in which every task takes what it needs.
  function Rank(r: Resource): nat {
    match r
    case ThreadLock(_, p) => 2 * p
    case FileLock(p) => 2 * p + 1
  }

  // Entering the locks, running the body under all of them, leaving, done.
  datatype Phase = Entering | Body | Leaving | Finished

  // A task of process `process` locking `paths`; it holds its first `held` resources.
  datatype Task = Task(process: Pid, paths: seq<Path>, phase: Phase, held: nat, timedOut: bool)

  // `advisory_path_locks` sorts the distinct paths.
  ghost predicate Sorted(paths: seq<Path>) {
    forall i, j :: 0 <= i < j < |paths| ==> paths[i] < paths[j]
  }

  function Needs(t: Task): (rs: seq<Resource>)
    ensures |rs| == 2 * |t.paths|
    ensures forall i :: 0 <= i < |rs| ==>
      rs[i] == if i % 2 == 0 then ThreadLock(t.process, t.paths[i / 2]) else FileLock(t.paths[i / 2])
  {
    seq(2 * |t.paths|, i requires 0 <= i < 2 * |t.paths| =>
      if i % 2 == 0 then ThreadLock(t.process, t.paths[i / 2]) else FileLock(t.paths[i / 2]))
  }

  lemma NeedsRanked(t: Task, i: nat, j: nat)
    requires Sorted(t.paths) && i < j < |Needs(t)|
    ensures Rank(Needs(t)[i]) < Rank(Needs(t)[j])
  {
    if i / 2 < j / 2 {
      assert t.paths[i / 2] < t.paths[j / 2];
    }
  }

  datatype State = State(tasks: map<Tid, Task>, holder: map<Resource, Tid>)

  datatype Event =
    | Acquire(id: Tid)   // the next resource is free and taken
    | TimeOut(id: Tid)   // waiting for the next resource gave up, or opening the lock file failed
    | EndBody(id: Tid)   // the body returned or raised
    | Release(id: Tid)   // unwinding releases the last resource taken

  function SetTask(s: State, id: Tid, t: Task): State {
    s.(tasks := s.tasks[id := t])
  }

  function Step(s: State, e: Event): State {
    if e.id !in s.tasks then s
    else
      var t := s.tasks[e.id];
      match (e, t.phase)
      case (Acquire(id), Entering) =>
        if t.held == |Needs(t)| then SetTask(s, id, t.(phase := Body))
        else if t.held < |Needs(t)| && Needs(t)[t.held] !in s.holder
        then SetTask(s, id, t.(held := t.held + 1)).(holder := s.holder[Needs(t)[t.held] := id])
        else s
      case (TimeOut(id), Entering) => SetTask(s, id, t.(phase := Leaving, timedOut := true))
      case (EndBody(id), Body) => SetTask(s, id, t.(phase := Leaving))
      case (Release(id), Leaving) =>
        if t.held == 0 then SetTask(s, id, t.(phase := Finished))
        else if t.held <= |Needs(t)|
        then SetTask(s, id, t.(held := t.held - 1)).(holder := s.holder - {Needs(t)[t.held - 1]})
        else s
      case _ => s
  }

  ghost predicate Init(s: State) {
    && s.holder == map[]
    && forall id :: id in s.tasks ==>
         Sorted(s.tasks[id].paths) && s.tasks[id].phase == Entering && s.tasks[id].held == 0 && !s.tasks[id].timedOut
  }

  ghost predicate Run(states: seq<State>, events: seq<Event>) {
    && |states| == |events| + 1 && Init(states[0])
    && forall i :: 0 <= i < |events| ==> states[i + 1] == Step(states[i], events[i])
  }

  // ----- The invariant -----

  ghost predicate TaskOk(s: State, id: Tid) {
    id in s.tasks ==>
      var t := s.tasks[id];
      && Sorted(t.paths) && t.held <= |Needs(t)|
      && (t.phase == Body ==> t.held == |Needs(t)|)
      && (t.phase == Finished ==> t.held == 0)
      && (forall i :: 0 <= i < t.held ==> Needs(t)[i] in s.holder && s.holder[Needs(t)[i]] == id)
  }

  ghost predicate HolderOk(s: State, r: Resource) {
    r in s.holder ==>
      var id := s.holder[r];
      id in s.tasks && exists i :: 0 <= i < s.tasks[id].held && i < |Needs(s.tasks[id])| && Needs(s.tasks[id])[i] == r
  }

  ghost predicate Inv(s: State) {
    && (forall id {:trigger TaskOk(s, id)} :: TaskOk(s, id))
    && (forall r {:trigger HolderOk(s, r)} :: HolderOk(s, r))
  }

  lemma NeedsDiffer(t: Task, i: nat, j: nat)
    requires Sorted(t.paths) && i < |Needs(t)| && j < |Needs(t)| && i != j
    ensures Needs(t)[i] != Needs(t)[j]
  {
    if i < j { NeedsRanked(t, i, j); } else { NeedsRanked(t, j, i); }
  }

  lemma AcquireKeepsInv(s: State, id: Tid)
    requires Inv(s) && id in s.tasks && s.tasks[id].phase == Entering
    requires s.tasks[id].held < |Needs(s.tasks[id])| && Needs(s.tasks[id])[s.tasks[id].held] !in s.holder
    ensures Inv(Step(s, Acquire(id)))
  {
    var s', t := Step(s, Acquire(id)), s.tasks[id];
    var t' := s'.tasks[id];
    assert Needs(t') == Needs(t);
    forall j
      ensures TaskOk(s', j)
    {
      assert TaskOk(s, j);
    }
    forall r
      ensures HolderOk(s', r)
    {
      assert HolderOk(s, r);
      if r == Needs(t)[t.held] {
        assert Needs(t')[t.held] == r;
      } else if r in s.holder && s.holder[r] == id {
        var i :| 0 <= i < t.held && i < |Needs(t)| && Needs(t)[i] == r;
        assert Needs(t')[i] == r;
      }
    }
  }

  ghost predicate Releasing(s: State, id: Tid) {
    && Inv(s) && id in s.tasks && s.tasks[id].phase == Leaving
    && 0 < s.tasks[id].held <= |Needs(s.tasks[id])|
  }

  lemma ReleaseKeepsTask(s: State, id: Tid, j: Tid)
    requires Releasing(s, id)
    ensures TaskOk(Step(s, Release(id)), j)
  {
    assert TaskOk(s, id) && TaskOk(s, j);
    hide Inv, HolderOk;
    var s', t := Step(s, Release(id)), s.tasks[id];
    var gone := Needs(t)[t.held - 1];
    if j == id {
      assert Needs(s'.tasks[id]) == Needs(t);
      forall i | 0 <= i < t.held - 1
        ensures Needs(t)[i] != gone
      {
        NeedsDiffer(t, i, t.held - 1);
      }
    }
  }

  lemma ReleaseKeepsHolder(s: State, id: Tid, r: Resource)
    requires Releasing(s, id)
    ensures HolderOk(Step(s, Release(id)), r)
  {
    assert TaskOk(s, id) && HolderOk(s, r);
    hide Inv, TaskOk;
    var s', t := Step(s, Release(id)), s.tasks[id];
    assert Needs(s'.tasks[id]) == Needs(t);
    assert s'.holder == s.holder - {Needs(t)[t.held - 1]};
    if r in s'.holder {
      var owner := s.holder[r];
      var i :| 0 <= i < s.tasks[owner].held && i < |Needs(s.tasks[owner])| && Needs(s.tasks[owner])[i] == r;
      assert i < s'.tasks[owner].held && Needs(s'.tasks[owner])[i] == r;
    }
  }

  lemma ReleaseKeepsInv(s: State, id: Tid)
    requires Inv(s) && id in s.tasks && s.tasks[id].phase == Leaving && s.tasks[id].held > 0
    ensures Inv(Step(s, Release(id)))
  {
    assert TaskOk(s, id);
    assert Releasing(s, id);
    hide TaskOk, HolderOk, Step, Releasing;
    forall j
      ensures TaskOk(Step(s, Release(id)), j)
    {
      ReleaseKeepsTask(s, id, j);
    }
    forall r
      ensures HolderOk(Step(s, Release(id)), r)
    {
      ReleaseKeepsHolder(s, id, r);
    }
  }

  // A change of phase that keeps what is held.
  lemma PhaseKeepsInv(s: State, id: Tid, t': Task)
    requires Inv(s) && id in s.tasks
    requires var t := s.tasks[id]; t'.process == t.process && t'.paths == t.paths && t'.held == t.held
    requires t'.phase == Body ==> t'.held == |Needs(t')|
    requires t'.phase == Finished ==> t'.held == 0
    ensures Inv(SetTask(s, id, t'))
  {
    var s' := SetTask(s, id, t');
    assert Needs(t') == Needs(s.tasks[id]);
    forall j
      ensures TaskOk(s', j)
    {
      assert TaskOk(s, j);
    }
    forall r
      ensures HolderOk(s', r)
    {
      assert HolderOk(s, r);
    }
  }

  lemma StepKeepsInv(s: State, e: Event)
    requires Inv(s)
    ensures Inv(Step(s, e))
  {
    if e.id in s.tasks {
      var id, t := e.id, s.tasks[e.id];
      assert TaskOk(s, id);
      hide Inv, TaskOk, HolderOk;
      match (e, t.phase)
      case (Acquire(_), Entering) =>
        if t.held == |Needs(t)| {
          PhaseKeepsInv(s, id, t.(phase := Body));
        } else if t.held < |Needs(t)| && Needs(t)[t.held] !in s.holder {
          AcquireKeepsInv(s, id);
        }
      case (TimeOut(_), Entering) => PhaseKeepsInv(s, id, t.(phase := Leaving, timedOut := true));
      case (EndBody(_), Body) => PhaseKeepsInv(s, id, t.(phase := Leaving));
      case (Release(_), Leaving) =>
        if t.held == 0 {
          PhaseKeepsInv(s, id, t.(phase := Finished));
        } else {
          ReleaseKeepsInv(s, id);
        }
      case _ =>
    }
  }

  lemma {:induction false} RunKeepsInv(states: seq<State>, events: seq<Event>, i: nat)
    requires Run(states, events) && i < |states|
    ensures Inv(states[i])
  {
    if i > 0 {
      RunKeepsInv(states, events, i - 1);
      hide Inv;
      StepKeepsInv(states[i - 1], events[i - 1]);
    }
  }

  // ----- Mutual exclusion and release -----

  // Two bodies never run under the lock of the same path, not even in different processes.
  lemma MutualExclusion(states: seq<State>, events: seq<Event>, i: nat, a: Tid, b: Tid, p: Path)
    requires Run(states, events) && i < |states|
    requires a in states[i].tasks && b in states[i].tasks
    requires states[i].tasks[a].phase == Body && states[i].tasks[b].phase == Body
    requires p in states[i].tasks[a].paths && p in states[i].tasks[b].paths
    ensures a == b
  {
    var s := states[i];
    RunKeepsInv(states, events, i);
    assert TaskOk(s, a) && TaskOk(s, b);
    var x :| 0 <= x < |s.tasks[a].paths| && s.tasks[a].paths[x] == p;
    var y :| 0 <= y < |s.tasks[b].paths| && s.tasks[b].paths[y] == p;
    assert Needs(s.tasks[a])[2 * x + 1] == FileLock(p);
    assert Needs(s.tasks[b])[2 * y + 1] == FileLock(p);
  }

  // Whichever way a task ended, it holds nothing any more.
  lemma FinishedHoldsNothing(states: seq<State>, events: seq<Event>, i: nat, id: Tid, r: Resource)
    requires Run(states, events) && i < |states|
    requires id in states[i].tasks && states[i].tasks[id].phase == Finished && r in states[i].holder
    ensures states[i].holder[r] != id
  {
    RunKeepsInv(states, events, i);
    assert TaskOk(states[i], id) && HolderOk(states[i], r);
  }

  // ----- Freedom from deadlock -----

  ghost predicate Blocked(s: State, id: Tid) {
    && id in s.tasks && s.tasks[id].phase == Entering
    && s.tasks[id].held < |Needs(s.tasks[id])|
    && Needs(s.tasks[id])[s.tasks[id].held] in s.holder
  }

  function Wanted(s: State, id: Tid): Resource
    requires Blocked(s, id)
  {
    Needs(s.tasks[id])[s.tasks[id].held]
  }

  // `a` waits for a resource that `b` holds.
  ghost predicate WaitsFor(s: State, a: Tid, b: Tid) {
    Blocked(s, a) && s.holder[Wanted(s, a)] == b
  }

  lemma WaitingClimbs(s: State, a: Tid, b: Tid)
    requires Inv(s) && WaitsFor(s, a, b) && Blocked(s, b)
    ensures Rank(Wanted(s, a)) < Rank(Wanted(s, b))
  {
    var r := Wanted(s, a);
    assert HolderOk(s, r) && TaskOk(s, b);
    var i :| 0 <= i < s.tasks[b].held && i < |Needs(s.tasks[b])| && Needs(s.tasks[b])[i] == r;
    NeedsRanked(s.tasks[b], i, s.tasks[b].held);
  }

  ghost predicate WaitChain(s: State, chain: seq<Tid>) {
    |chain| > 0 && forall i :: 0 < i < |chain| ==> WaitsFor(s, chain[i - 1], chain[i])
  }

  lemma {:induction false} ChainClimbs(s: State, chain: seq<Tid>, i: nat)
    requires Inv(s) && WaitChain(s, chain) && 0 < i < |chain| && Blocked(s, chain[|chain| - 1])
    ensures Blocked(s, chain[0]) && Blocked(s, chain[i]) && Rank(Wanted(s, chain[0])) < Rank(Wanted(s, chain[i]))
  {
    assert WaitsFor(s, chain[i - 1], chain[i]);
    if i < |chain| - 1 {
      assert WaitsFor(s, chain[i], chain[i + 1]);
    }
    if i > 1 {
      ChainClimbs(s, chain, i - 1);
    }
    WaitingClimbs(s, chain[i - 1], chain[i]);
  }

  // The wait-for graph has no cycle in any reachable state.
  lemma NoWaitCycle(states: seq<State>, events: seq<Event>, i: nat, chain: seq<Tid>)
    requires Run(states, events) && i < |states|
    requires |chain| >= 2 && WaitChain(states[i], chain)
    ensures chain[0] != chain[|chain| - 1]
  {
    RunKeepsInv(states, events, i);
    if chain[0] == chain[|chain| - 1] {
      assert WaitsFor(states[i], chain[0], chain[1]);
      ChainClimbs(states[i], chain, |chain| - 1);
    }
  }

  // Some event of the task other than giving up changes the state.
  ghost predicate CanMove(s: State, id: Tid) {
    exists e: Event :: e.id == id && !e.TimeOut? && Step(s, e) != s
  }

  lemma UnblockedMoves(s: State, id: Tid)
    requires Inv(s) && id in s.tasks && s.tasks[id].phase != Finished && !Blocked(s, id)
    ensures CanMove(s, id)
  {
    assert TaskOk(s, id);
    var t := s.tasks[id];
    var e := match t.phase
      case Entering => Acquire(id)
      case Body => EndBody(id)
      case _ => Release(id);
    assert Step(s, e).tasks[id] != t;
    assert Step(s, e) != s;
  }

  lemma {:induction false} BlockedLeadsToMover(s: State, id: Tid, bound: nat)
    requires Inv(s) && Blocked(s, id)
    requires forall j :: Blocked(s, j) ==> Rank(Wanted(s, j)) <= bound
    ensures exists j :: CanMove(s, j)
    decreases bound - Rank(Wanted(s, id))
  {
    var r := Wanted(s, id);
    var b := s.holder[r];
    assert HolderOk(s, r) && TaskOk(s, b);
    assert WaitsFor(s, id, b);
    if Blocked(s, b) {
      WaitingClimbs(s, id, b);
      BlockedLeadsToMover(s, b, bound);
    } else {
      assert s.tasks[b].held > 0;
      UnblockedMoves(s, b);
    }
  }

  ghost function Ranks(s: State): set<nat> {
    set id | id in s.tasks && Blocked(s, id) :: Rank(Wanted(s, id))
  }

  lemma {:induction false} SetHasBound(s: set<nat>) returns (bound: nat)
    ensures forall x :: x in s ==> x <= bound
    decreases |s|
  {
    if s == {} {
      return 0;
    }
    assert |s| > 0;
    var x := Sorting.Pick(s);
    var rest := SetHasBound(s - {x});
    bound := if x > rest then x else rest;
    assert forall y :: y in s ==> y == x || y in s - {x};
  }

  // While any task is unfinished, some task can move without waiting for a timeout.
  lemma SomeoneCanMove(states: seq<State>, events: seq<Event>, i: nat, id: Tid)
    requires Run(states, events) && i < |states|
    requires id in states[i].tasks && states[i].tasks[id].phase != Finished
    ensures exists j :: CanMove(states[i], j)
  {
    var s := states[i];
    RunKeepsInv(states, events, i);
    if Blocked(s, id) {
      var bound := SetHasBound(Ranks(s));
      forall j | Blocked(s, j)
        ensures Rank(Wanted(s, j)) <= bound
      {
        assert Rank(Wanted(s, j)) in Ranks(s);
      }
      BlockedLeadsToMover(s, id, bound);
    } else {
      UnblockedMoves(s, id);
    }
  }

  // ----- Deadlines -----

  function Max(a: real, b: real): (r: real)
    ensures r >= a && r >= b && (r == a || r == b)
  {
    if a >= b then a else b
  }

  function Min(a: real, b: real): (r: real)
    ensures r <= a && r <= b && (r == a || r == b)
  {
    if a <= b then a else b
  }

  // `advisory_path_locks` reads the clock at `outer` to compute what remains of the shared
  // deadline; `advisory_path_lock` reads it again at `inner` to set its own.
  function NestedDeadline(shared: real, outer: real, inner: real): real {
    inner + Max(0.0, shared - outer)
  }

  // The nested deadline exceeds the shared one exactly when time passes between the two
  // reads or the shared deadline is over already; never by more than those two delays.
  lemma NestedDeadlineDrift(shared: real, outer: real, inner: real)
    requires outer <= inner
    ensures NestedDeadline(shared, outer, inner) <= shared <==> inner == outer && outer <= shared
    ensures NestedDeadline(shared, outer, inner) == Max(shared, outer) + (inner - outer)
  {
  }

  lemma NestedDeadlineCanExceed()
    ensures NestedDeadline(5.0, 1.0, 1.5) > 5.0
  {
  }

  const POLL: real := 0.05

  // What an attempt to take the lock finds: it is free, another holds it, or the call fails.
  datatype Attempt = Free | Held | Broken

  datatype Wait = Acquired | TimedOut | Raised

  // `_acquire_flock`: poll without blocking until the lock is free or the deadline is over.
  // `attempt` says what is found at a given time; a sleep that begins at a given time may
  // last `oversleep` longer than asked.
  method AcquireFlock(attempt: real -> Attempt, oversleep: real -> real, start: real, deadline: real)
    returns (outcome: Wait, end: real, ghost polls: seq<real>)
    requires forall t :: oversleep(t) >= 0.0
    ensures |polls| > 0 && polls[0] == start && polls[|polls| - 1] == end >= start
    ensures forall i :: 0 <= i < |polls| - 1 ==>
              && attempt(polls[i]) == Held && polls[i] < deadline
              && polls[i + 1] == polls[i] + Min(0.05, deadline - polls[i]) + oversleep(polls[i])
    ensures outcome == match attempt(end) case Free => Acquired case Broken => Raised case Held => TimedOut
    ensures outcome == TimedOut ==> end >= deadline
    ensures end <= Max(start, deadline) + LastOversleep(oversleep, polls)
  {
    var now := start;
    polls := [now];
    while true
      invariant |polls| > 0 && polls[0] == start && polls[|polls| - 1] == now >= start
      invariant forall i :: 0 <= i < |polls| - 1 ==>
                  && attempt(polls[i]) == Held && polls[i] < deadline
                  && polls[i + 1] == polls[i] + Min(POLL, deadline - polls[i]) + oversleep(polls[i])
      invariant now <= Max(start, deadline) + LastOversleep(oversleep, polls)
      decreases ((deadline - now) / POLL).Floor + 1, if now < deadline then 1 else 0
    {
      var found := attempt(now);
      if found == Free {
        return Acquired, now, polls;
      }
      if found == Broken {
        return Raised, now, polls;
      }
      var remaining := deadline - now;
      if remaining <= 0.0 {
        return TimedOut, now, polls;
      }
      ghost var before := now;
      now := now + Min(POLL, remaining) + oversleep(now);
      polls := polls + [now];
      PauseShrinks(before, now, deadline);
    }
  }

  // By how much the last sleep, if any, exceeded what was asked.
  function LastOversleep(oversleep: real -> real, polls: seq<real>): real {
    if |polls| >= 2 then oversleep(polls[|polls| - 2]) else 0.0
  }

  lemma PauseShrinks(before: real, now: real, deadline: real)
    requires before < deadline && now >= before + Min(POLL, deadline - before)
    ensures now < deadline ==> ((deadline - now) / POLL).Floor < ((deadline - before) / POLL).Floor
    ensures now >= deadline ==> ((deadline - now) / POLL).Floor <= ((deadline - before) / POLL).Floor
    ensures ((deadline - before) / POLL).Floor >= 0
  {
    assert now < deadline ==> (deadline - now) / POLL <= (deadline - before) / POLL - 1.0;
  }

  // `_acquire_thread_lock`, called at `start`: `freeAt` is when the lock would be granted.
  method AcquireThreadLock(freeAt: real, start: real, deadline: real) returns (acquired: bool, end: real)
    ensures start <= end <= Max(start, deadline)
    ensures acquired <==> freeAt <= Max(start, deadline)
    ensures acquired ==> end == Max(start, freeAt)
    ensures !acquired ==> end == Max(start, deadline)
  {
    var remaining := Max(0.0, deadline - start);
    acquired := freeAt <= start + remaining;
    end := if acquired then Max(start, freeAt) else start + remaining;
  }

  // The time one path costs besides waiting: up to the first clock read, up to the second,
  // up to asking for the thread lock, opening the lock file, and sleeping too long, which is
  // by at most `slack`.
  datatype Delays = Delays(outer: real, inner: real, thread: real, open: real, oversleep: real -> real, slack: real)

  ghost predicate Sensible(d: Delays) {
    && d.outer >= 0.0 && d.inner >= 0.0 && d.thread >= 0.0 && d.open >= 0.0
    && d.slack >= 0.0 && forall t :: 0.0 <= d.oversleep(t) <= d.slack
  }

  function PathOverhead(d: Delays): real {
    d.outer + d.inner + d.thread + d.open + d.slack
  }

  // What the first `n` paths cost besides waiting.
  function Overhead(delays: nat -> Delays, n: nat): real {
    if n == 0 then 0.0
    else Overhead(delays, n - 1) + PathOverhead(delays(n - 1))
  }

  lemma {:induction false} OverheadGrows(delays: nat -> Delays, m: nat, n: nat)
    requires m <= n && forall i: nat :: i < n ==> Sensible(delays(i))
    ensures 0.0 <= Overhead(delays, m) <= Overhead(delays, n)
    decreases n
  {
    if n > 0 {
      OverheadGrows(delays, if m < n then m else n - 1, n - 1);
      assert Sensible(delays(n - 1));
    }
  }

  lemma OneMore(a: real, x: real)
    ensures (a + 1.0) * x == a * x + x
  {
  }

  // With the same delays for each path the overhead is their sum as often as there are paths.
  lemma {:induction false} OverheadOfEqual(delays: nat -> Delays, d: Delays, n: nat, each: real)
    requires forall i: nat :: i < n ==> delays(i) == d
    requires each == d.outer + d.inner + d.thread + d.open + d.slack
    ensures Overhead(delays, n) == n as real * each
  {
    if n > 0 {
      var a := (n - 1) as real;
      OverheadOfEqual(delays, d, n - 1, each);
      assert Overhead(delays, n) == a * each + each;
      OneMore(a, each);
      assert n as real == a + 1.0;
    }
  }

  // `clock[i]` is when path `i` is turned to and `clock[i + 1]` when its locks are had: not
  // late, and at a time when the thread lock has been granted and the file lock is found free.
  ghost predicate HadAt(
      clock: seq<real>, i: nat, shared: real, delays: nat -> Delays, freeAt: nat -> real,
      attempt: (nat, real) -> Attempt)
  {
    && i + 1 < |clock| && clock[i] <= clock[i + 1] <= shared + Overhead(delays, i + 1)
    && freeAt(i) <= clock[i + 1] && attempt(i, clock[i + 1]) == Free
  }

  // The locks of the paths are had one path after the other.
  ghost predicate HadInTurn(
      clock: seq<real>, shared: real, delays: nat -> Delays, freeAt: nat -> real, attempt: (nat, real) -> Attempt)
  {
    forall i: nat :: i + 1 < |clock| ==> HadAt(clock, i, shared, delays, freeAt, attempt)
  }

  lemma HadOneMore(
      clock: seq<real>, now: real, shared: real, delays: nat -> Delays, freeAt: nat -> real,
      attempt: (nat, real) -> Attempt)
    requires |clock| > 0 && HadInTurn(clock, shared, delays, freeAt, attempt)
    requires HadAt(clock + [now], |clock| - 1, shared, delays, freeAt, attempt)
    ensures HadInTurn(clock + [now], shared, delays, freeAt, attempt)
  {
    hide Overhead;
    forall i: nat | i + 1 < |clock + [now]|
      ensures HadAt(clock + [now], i, shared, delays, freeAt, attempt)
    {
      assert i + 1 < |clock| ==> HadAt(clock, i, shared, delays, freeAt, attempt);
    }
  }

  // `advisory_path_lock` in time, entered at `now` while acquiring under a shared deadline:
  // `_acquire_thread_lock` and then `_acquire_flock` under a deadline of its own.
  method AcquirePath(shared: real, now: real, d: Delays, freeAt: real, attempt: real -> Attempt)
    returns (outcome: Wait, end: real)
    requires Sensible(d)
    ensures now <= end <= Max(shared, now) + PathOverhead(d)
    ensures outcome == Acquired ==> freeAt <= end && attempt(end) == Free
    ensures outcome == TimedOut ==> end >= shared && (freeAt > shared || attempt(end) == Held)
    ensures outcome == Raised ==> attempt(end) == Broken
  {
    hide NestedDeadline;
    var outer := now + d.outer;
    var inner := outer + d.inner;
    var deadline := NestedDeadline(shared, outer, inner);
    NestedDeadlineDrift(shared, outer, inner);
    var acquired, granted := AcquireThreadLock(freeAt, inner + d.thread, deadline);
    if !acquired {
      return TimedOut, granted;
    }
    ghost var polls;
    outcome, end, polls := AcquireFlock(attempt, d.oversleep, granted + d.open, deadline);
  }

  // `advisory_path_locks` in time, under deadlines computed anew from what remains of the
  // shared one. The acquisition is over, one way or another, by the shared deadline plus the
  // time spent other than waiting.
  method AcquireInTime(
      count: nat, start: real, timeout: real, delays: nat -> Delays, freeAt: nat -> real,
      attempt: (nat, real) -> Attempt)
    returns (outcome: Wait, end: real, entered: nat, ghost clock: seq<real>)
    requires timeout >= 0.0 && forall i: nat :: i < count ==> Sensible(delays(i))
    ensures entered <= count && (outcome == Acquired <==> entered == count)
    ensures start <= end <= start + timeout + Overhead(delays, count)
    ensures |clock| == entered + 1 && clock[0] == start && (outcome == Acquired ==> end == clock[count])
    ensures HadInTurn(clock, start + timeout, delays, freeAt, attempt)
    ensures outcome == TimedOut ==>
              && entered < count && end >= start + timeout
              && (freeAt(entered) > start + timeout || attempt(entered, end) == Held)
    ensures outcome == Raised ==> entered < count && attempt(entered, end) == Broken
  {
    hide Sensible, PathOverhead;
    end, entered, outcome, clock := start, 0, Acquired, [start];
    while entered < count
      invariant entered <= count && outcome == Acquired
      invariant start <= end <= start + timeout + Overhead(delays, entered)
      invariant |clock| == entered + 1 && clock[0] == start && clock[entered] == end
      invariant HadInTurn(clock, start + timeout, delays, freeAt, attempt)
      decreases count - entered
    {
      var path := entered;
      OverheadGrows(delays, entered + 1, count);
      OverheadGrows(delays, entered, entered + 1);
      outcome, end := AcquirePath(start + timeout, end, delays(path), freeAt(path), t => attempt(path, t));
      if outcome != Acquired {
        return;
      }
      HadOneMore(clock, end, start + timeout, delays, freeAt, attempt);
      clock := clock + [end];
      entered := entered + 1;
    }
  }

  // ----- One call -----

  // What a task locking these paths holds while its body runs.
  ghost function BothLocks(process: Pid, paths: seq<Path>): set<Resource> {
    (set p | p in paths :: ThreadLock(process, p)) + (set p | p in paths :: FileLock(p))
  }

  // The order in which the paths are locked.
  function InOrder(paths: set<Path>): (s: seq<Path>)
    ensures Sorted(s) && forall p :: p in s <==> p in paths
  {
    Sorting.SortedSet(paths)
  }

  ghost function Mine(holder: map<Resource, Tid>, id: Tid): set<Resource> {
    set r | r in holder && holder[r] == id
  }

  // The locks of all processes, as one task sees them: between any two of its own moves the
  // other tasks take and release locks as they like, but never one that this task holds.
  class LockTable {
    var holder: map<Resource, Tid>
    // The locks under which each body ran.
    ghost var bodies: seq<set<Resource>>

    method Meanwhile(id: Tid, others: map<Resource, Tid>)
      modifies this`holder
      ensures Mine(holder, id) == old(Mine(holder, id))
      ensures forall r :: r !in Mine(holder, id) ==>
                (r in holder <==> r in others && others[r] != id) && (r in holder ==> holder[r] == others[r])
    {
      holder := map r | r in holder.Keys + others.Keys
                        && ((r in holder && holder[r] == id) || (r in others && others[r] != id))
                      :: if r in holder && holder[r] == id then id else others[r];
    }

    // `advisory_path_lock` up to its body: the thread lock, then the file lock. Waiting for
    // either ends with its being free or with a timeout; opening the lock file may fail.
    method EnterPathLock(id: Tid, process: Pid, path: Path, others: bool -> map<Resource, Tid>, openFails: bool)
      returns (entered: bool)
      requires BothLocks(process, [path]) !! Mine(holder, id)
      modifies this`holder
      ensures Mine(holder, id) == old(Mine(holder, id)) + (if entered then BothLocks(process, [path]) else {})
      ensures openFails ==> !entered
      ensures entered <==> !openFails && Open(others(false), id, ThreadLock(process, path))
                           && Open(others(true), id, FileLock(path))
    {
      OnePathsLocks(process, path);
      hide BothLocks;
      Meanwhile(id, others(false));
      if ThreadLock(process, path) in holder {
        return false;
      }
      TakeMine(holder, id, ThreadLock(process, path));
      holder := holder[ThreadLock(process, path) := id];
      Meanwhile(id, others(true));
      if openFails || FileLock(path) in holder {
        DropMine(holder, id, ThreadLock(process, path));
        holder := holder - {ThreadLock(process, path)};
        return false;
      }
      TakeMine(holder, id, FileLock(path));
      holder := holder[FileLock(path) := id];
      return true;
    }

    // `advisory_path_lock` after its body: the file lock, then the thread lock.
    method LeavePathLock(id: Tid, process: Pid, path: Path)
      requires BothLocks(process, [path]) <= Mine(holder, id)
      modifies this`holder
      ensures Mine(holder, id) == old(Mine(holder, id)) - BothLocks(process, [path])
      ensures forall r :: r !in BothLocks(process, [path]) ==>
                (r in holder <==> r in old(holder)) && (r in holder ==> holder[r] == old(holder)[r])
    {
      holder := holder - {FileLock(path)};
      holder := holder - {ThreadLock(process, path)};
    }

    // The loop that enters the locks one path after the other, up to the first refusal.
    method EnterAll(
        id: Tid, process: Pid, paths: seq<Path>, others: (nat, bool) -> map<Resource, Tid>, openFails: nat -> bool)
      returns (count: nat)
      requires Sorted(paths) && Mine(holder, id) == {}
      modifies this`holder
      ensures count <= |paths| && Mine(holder, id) == BothLocks(process, paths[..count])
      ensures forall i :: 0 <= i < count ==> Grantable(id, process, paths[i], others, openFails)
      ensures count < |paths| ==> !Grantable(id, process, paths[count], others, openFails)
    {
      hide BothLocks, Mine, Open;
      count := 0;
      NoLocks(process, paths);
      while count < |paths|
        invariant count <= |paths|
        invariant Mine(holder, id) == BothLocks(process, paths[..count])
        invariant forall i :: 0 <= i < count ==> Grantable(id, process, paths[i], others, openFails)
      {
        var p := paths[count];
        BothLocksApart(process, paths, count);
        var entered := EnterPathLock(id, process, p, late => others(p, late), openFails(p));
        if !entered {
          return;
        }
        count := count + 1;
      }
    }

    // Unwinding: what was entered last is left first.
    method LeaveAll(id: Tid, process: Pid, paths: seq<Path>, entered: nat)
      requires Sorted(paths) && entered <= |paths| && Mine(holder, id) == BothLocks(process, paths[..entered])
      modifies this`holder
      ensures Mine(holder, id) == {}
    {
      hide BothLocks, Mine;
      var count: nat := entered;
      while count > 0
        invariant count <= |paths|
        invariant Mine(holder, id) == BothLocks(process, paths[..count])
      {
        count := count - 1;
        BothLocksApart(process, paths, count);
        LeavePathLock(id, process, paths[count]);
      }
      NoLocks(process, paths);
    }

    // What the caller does inside the `with` block. It needs the locks of all the paths and
    // takes none of them away; other tasks go on meanwhile.
    method Body(id: Tid, process: Pid, paths: seq<Path>, others: map<Resource, Tid>)
      requires BothLocks(process, paths) <= Mine(holder, id)
      modifies this
      ensures Mine(holder, id) == old(Mine(holder, id))
      ensures bodies == old(bodies) + [old(Mine(holder, id))]
    {
      bodies := bodies + [Mine(holder, id)];
      Meanwhile(id, others);
    }

    // `advisory_path_locks`: the body runs once, under exactly the locks of all the paths, or
    // not at all, and on every way out nothing is held any more.
    method AdvisoryPathLocks(
        id: Tid, process: Pid, filePaths: set<Path>, others: (nat, bool) -> map<Resource, Tid>, openFails: nat -> bool,
        atBody: map<Resource, Tid>)
      returns (entered: bool)
      requires Mine(holder, id) == {}
      modifies this
      ensures Mine(holder, id) == {}
      ensures bodies == old(bodies) + if entered then [BothLocks(process, InOrder(filePaths))] else []
      ensures entered <==> forall p :: p in filePaths ==> Grantable(id, process, p, others, openFails)
    {
      hide Mine, Grantable, BothLocks, InOrder;
      var paths := InOrder(filePaths);
      var count := EnterAll(id, process, paths, others, openFails);
      assert paths[..|paths|] == paths;
      entered := count == |paths|;
      if entered {
        Body(id, process, paths, atBody);
      }
      assert count < |paths| ==> paths[count] in filePaths;
      LeaveAll(id, process, paths, count);
    }
  }

  // Nobody else holds the resource.
  predicate Open(others: map<Resource, Tid>, id: Tid, r: Resource) {
    r !in others || others[r] == id
  }

  ghost predicate Grantable(
      id: Tid, process: Pid, p: Path, others: (nat, bool) -> map<Resource, Tid>, openFails: nat -> bool) {
    !openFails(p) && Open(others(p, false), id, ThreadLock(process, p)) && Open(others(p, true), id, FileLock(p))
  }

  lemma TakeMine(holder: map<Resource, Tid>, id: Tid, r: Resource)
    ensures Mine(holder[r := id], id) == Mine(holder, id) + {r}
  {
  }

  lemma DropMine(holder: map<Resource, Tid>, id: Tid, r: Resource)
    ensures Mine(holder - {r}, id) == Mine(holder, id) - {r}
  {
  }

  lemma NoLocks(process: Pid, paths: seq<Path>)
    ensures BothLocks(process, paths[..0]) == {}
  {
  }

  lemma OnePathsLocks(process: Pid, path: Path)
    ensures BothLocks(process, [path]) == {ThreadLock(process, path), FileLock(path)}
  {
  }

  lemma BothLocksApart(process: Pid, paths: seq<Path>, i: nat)
    requires i < |paths| && forall a, b :: 0 <= a < b < |paths| ==> paths[a] < paths[b]
    ensures BothLocks(process, paths[..i + 1]) == BothLocks(process, paths[..i]) + BothLocks(process, [paths[i]])
    ensures BothLocks(process, [paths[i]]) !! BothLocks(process, paths[..i])
  {
    assert paths[..i + 1] == paths[..i] + [paths[i]];
  }
}
