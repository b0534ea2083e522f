// The background queue of enrichment jobs: a bounded queue, one worker, a bounded history.
// Each method of the class is one lock region or one queue operation of the source; the
// state machine runs them in every possible interleaving, with every outcome of a path and
// a failure of the worker at any point.
module EnrichmentJobs {
  import Sorting

  datatype Status = Queued | Running | Completed | CompletedWithErrors | Failed

  datatype Entry = Entry(path: int, success: bool)

  datatype Job = Job(
    status: Status, created: int, total: nat, processed: nat, succeeded: nat, failed: nat,
    results: seq<Entry>, returned: nat, truncated: nat)

  datatype Ticket = Ticket(id: int, paths: seq<int>)

  // Where the worker thread stands; `done` is its position in the list of paths.
  datatype Worker =
    | NotStarted
    | Waiting
    | Taken(ticket: Ticket)
    | Busy(ticket: Ticket, done: nat)
    | Exited

  datatype Limits = Limits(maxPending: nat, maxPaths: nat, maxHistory: nat, maxResults: nat)

  // `asked` and `made` are the observer's log: the paths of every accepted job and the
  // entries the worker has produced for it, also after the job was pruned.
  datatype State = State(
    jobs: map<int, Job>, queue: seq<Ticket>, accepting: bool, stopping: bool,
    worker: Worker, started: nat, asked: map<int, seq<int>>, made: map<int, seq<Entry>>)

  const INITIAL := State(map[], [], true, false, NotStarted, 0, map[], map[])

  // ----- The job table -----

  predicate IsTerminal(job: Job) {
    job.status in {Completed, CompletedWithErrors, Failed}
  }

  function Terminal(jobs: map<int, Job>): set<int> {
    set id | id in jobs && IsTerminal(jobs[id])
  }

  function NewJob(paths: seq<int>, created: int): Job {
    Job(Queued, created, |paths|, 0, 0, 0, [], 0, 0)
  }

  function Tally(job: Job, entry: Entry, maxResults: nat): Job {
    var kept := |job.results| < maxResults;
    job.(processed := job.processed + 1,
         succeeded := job.succeeded + (if entry.success then 1 else 0),
         failed := job.failed + (if entry.success then 0 else 1),
         results := if kept then job.results + [entry] else job.results,
         returned := job.returned + (if kept then 1 else 0),
         truncated := job.truncated + (if kept then 0 else 1))
  }

  function Finished(job: Job): Job {
    job.(status := if job.failed > 0 then CompletedWithErrors else Completed)
  }

  // Pruning takes away as many terminal jobs as exceed the history, none older than a job it keeps.
  ghost predicate Pruned(before: map<int, Job>, after: map<int, Job>, keep: nat) {
    && Narrowed(before, after)
    && |before.Keys - after.Keys| == (if |Terminal(before)| <= keep then 0 else |Terminal(before)| - keep)
    && OldestGone(before, after)
  }

  // Only terminal jobs are gone, and the others are as they were.
  ghost predicate Narrowed(before: map<int, Job>, after: map<int, Job>) {
    && (forall id :: id in after ==> id in before && after[id] == before[id])
    && (forall id :: id in before && id !in after ==> IsTerminal(before[id]))
  }

  ghost predicate OldestGone(before: map<int, Job>, after: map<int, Job>) {
    forall gone, kept :: gone in before && gone !in after && kept in before && kept in after && IsTerminal(before[kept]) ==>
      before[gone].created <= before[kept].created
  }

  // ----- The steps -----

  datatype Step =
    | Enqueue(id: int, paths: seq<int>, created: int)
    | Take
    | Start
    | Process(success: bool)
    | Finish
    | Fail
    | Exit
    | StopAccepting
    | SignalStop

  predicate Admits(s: State, limits: Limits) {
    s.accepting && |s.queue| < limits.maxPending
  }

  function EnsureWorker(w: Worker): Worker {
    if w in {NotStarted, Exited} then Waiting else w
  }

  function Starts(w: Worker): nat {
    if w in {NotStarted, Exited} then 1 else 0
  }

  ghost predicate EnqueueNext(s: State, ticket: Ticket, created: int, s': State, limits: Limits) {
    if !Admits(s, limits) then s' == s
    else
      && s' == s.(jobs := s'.jobs, queue := s.queue + [ticket],
                  worker := EnsureWorker(s.worker), started := s.started + Starts(s.worker),
                  asked := s.asked[ticket.id := ticket.paths], made := s.made[ticket.id := []])
      && Pruned(s.jobs[ticket.id := NewJob(ticket.paths, created)], s'.jobs, limits.maxHistory)
  }

  // The lock region that ends a job, where the job is still in the table and still active.
  ghost predicate EndNext(s: State, id: int, job: Job, s': State, limits: Limits) {
    && s' == s.(jobs := s'.jobs, worker := Waiting)
    && Pruned(s.jobs[id := job], s'.jobs, limits.maxHistory)
  }

  ghost predicate ProcessNext(s: State, id: int, entry: Entry, s': State, limits: Limits)
    requires s.worker.Busy?
  {
    if id in s.jobs && id in s.made
    then s' == s.(jobs := s.jobs[id := Tally(s.jobs[id], entry, limits.maxResults)],
                  worker := Busy(s.worker.ticket, s.worker.done + 1),
                  made := s.made[id := s.made[id] + [entry]])
    else s' == s.(worker := Busy(s.worker.ticket, s.worker.done + 1))
  }

  ghost predicate FailNext(s: State, id: int, s': State, limits: Limits) {
    if id in s.jobs && !IsTerminal(s.jobs[id])
    then EndNext(s, id, s.jobs[id].(status := Failed), s', limits)
    else s' == s.(worker := Waiting)
  }

  ghost predicate Next(s: State, e: Step, s': State, limits: Limits) {
    match e
    case Enqueue(id, paths, created) =>
      id !in s.asked && paths != [] && EnqueueNext(s, Ticket(id, paths), created, s', limits)
    case Take =>
      s.worker == Waiting && s.queue != [] && s' == s.(worker := Taken(s.queue[0]), queue := s.queue[1..])
    case Start =>
      && s.worker.Taken?
      && var id := s.worker.ticket.id;
         if id in s.jobs
         then s' == s.(jobs := s.jobs[id := s.jobs[id].(status := Running)], worker := Busy(s.worker.ticket, 0))
         else s' == s.(worker := Waiting)
    case Process(success) =>
      && s.worker.Busy? && s.worker.done < |s.worker.ticket.paths|
      && ProcessNext(s, s.worker.ticket.id, Entry(s.worker.ticket.paths[s.worker.done], success), s', limits)
    case Finish =>
      && s.worker.Busy? && s.worker.done >= |s.worker.ticket.paths|
      && var id := s.worker.ticket.id;
         if id in s.jobs then EndNext(s, id, Finished(s.jobs[id]), s', limits)
         else s' == s.(worker := Waiting)
    case Fail =>
      (s.worker.Taken? || s.worker.Busy?) && FailNext(s, s.worker.ticket.id, s', limits)
    case Exit =>
      s.worker == Waiting && s.queue == [] && s.stopping && s' == s.(worker := Exited)
    case StopAccepting => s' == s.(accepting := false)
    case SignalStop => !s.accepting && s' == s.(stopping := true)
  }

  ghost predicate Run(states: seq<State>, steps: seq<Step>, limits: Limits) {
    && |states| == |steps| + 1 && states[0] == INITIAL
    && forall i :: 0 <= i < |steps| ==> Next(states[i], steps[i], states[i + 1], limits)
  }

  // ----- Every job's counters -----

  function Successes(entries: seq<Entry>): nat {
    if entries == [] then 0
    else Successes(entries[..|entries| - 1]) + (if entries[|entries| - 1].success then 1 else 0)
  }

  // The record accounts exactly for the entries made so far, and they are for its first paths in order.
  ghost predicate Accounts(job: Job, paths: seq<int>, made: seq<Entry>, maxResults: nat) {
    && job.total == |paths| && job.processed == |made| <= |paths|
    && (forall i :: 0 <= i < |made| ==> made[i].path == paths[i])
    && job.succeeded == Successes(made) && job.failed == |made| - Successes(made)
    && job.results == (if |made| <= maxResults then made else made[..maxResults])
    && job.returned == |job.results| && job.truncated == |made| - |job.results|
  }

  predicate StatusAgrees(job: Job) {
    match job.status
    case Queued => job.processed == 0
    case Running => true
    case Completed => job.processed == job.total && job.failed == 0
    case CompletedWithErrors => job.processed == job.total && job.failed > 0
    case Failed => true
  }

  ghost predicate JobInv(s: State, id: int, limits: Limits) {
    id in s.jobs ==>
      && id in s.asked && id in s.made
      && Accounts(s.jobs[id], s.asked[id], s.made[id], limits.maxResults)
      && StatusAgrees(s.jobs[id])
  }

  // ----- The table's invariant -----

  ghost function Active(jobs: map<int, Job>): set<int> {
    jobs.Keys - Terminal(jobs)
  }

  ghost function QueuedIds(queue: seq<Ticket>): set<int> {
    set t | t in queue :: t.id
  }

  ghost function InHand(w: Worker): set<int> {
    if w.Taken? || w.Busy? then {w.ticket.id} else {}
  }

  // The active jobs are the queued ones and the one in hand, each once.
  ghost predicate Tickets(active: set<int>, queue: seq<Ticket>, hand: set<int>) {
    && active == QueuedIds(queue) + hand && QueuedIds(queue) !! hand
    && (forall i, j :: 0 <= i < j < |queue| ==> queue[i].id != queue[j].id)
  }

  ghost predicate TicketsInv(s: State, limits: Limits) {
    && Tickets(Active(s.jobs), s.queue, InHand(s.worker))
    && |s.queue| <= limits.maxPending
    && |Terminal(s.jobs)| <= limits.maxHistory
  }

  ghost predicate TicketInv(s: State, t: Ticket) {
    t.id in s.jobs && s.jobs[t.id].status == Queued && t.id in s.asked && s.asked[t.id] == t.paths && t.paths != []
  }

  ghost predicate HandInv(s: State) {
    && (forall i :: 0 <= i < |s.queue| ==> TicketInv(s, s.queue[i]))
    && (s.worker.Taken? ==> TicketInv(s, s.worker.ticket))
    && (s.worker.Busy? ==>
          var t := s.worker.ticket;
          && t.id in s.jobs && s.jobs[t.id].status == Running && s.jobs[t.id].processed == s.worker.done
          && t.id in s.asked && s.asked[t.id] == t.paths)
  }

  ghost predicate WorkerInv(s: State) {
    && s.started == (if s.worker == NotStarted then 0 else 1)
    && (s.worker == NotStarted ==> s.queue == [])
    && (s.worker == Exited ==> s.stopping && s.queue == [])
    && (s.stopping ==> !s.accepting)
  }

  ghost predicate Inv(s: State, limits: Limits) {
    && (forall id {:trigger JobInv(s, id, limits)} :: JobInv(s, id, limits))
    && TicketsInv(s, limits) && HandInv(s) && WorkerInv(s)
  }

  // ----- Pruning -----

  lemma PutJob(jobs: map<int, Job>, id: int, job: Job)
    ensures var after := jobs[id := job];
            && Terminal(after) == (if IsTerminal(job) then Terminal(jobs) + {id} else Terminal(jobs) - {id})
            && Active(after) == (if IsTerminal(job) then Active(jobs) - {id} else Active(jobs) + {id})
  {
  }

  lemma NarrowedActive(before: map<int, Job>, after: map<int, Job>)
    requires Narrowed(before, after)
    ensures Active(after) == Active(before)
    ensures forall id :: id in Active(before) ==> id in after && after[id] == before[id]
  {
    forall id
      ensures id in Active(after) <==> id in Active(before)
    {
    }
  }

  lemma CardSplit(whole: set<int>, left: set<int>, right: set<int>)
    requires whole == left + right && left !! right
    ensures |whole| == |left| + |right|
  {
  }

  lemma NarrowedSplits(before: map<int, Job>, after: map<int, Job>, gone: set<int>)
    requires Narrowed(before, after) && gone == before.Keys - after.Keys
    ensures Terminal(before) == Terminal(after) + gone && Terminal(after) !! gone
  {
    var t, u := Terminal(before), Terminal(after);
    forall id
      ensures id in t <==> id in u + gone
    {
      assert id in gone <==> id in before && id !in after;
    }
    assert forall id :: id in u ==> id in after;
  }

  lemma NarrowedTerminal(before: map<int, Job>, after: map<int, Job>)
    requires Narrowed(before, after)
    ensures |Terminal(before)| == |Terminal(after)| + |before.Keys - after.Keys|
  {
    hide Narrowed, Terminal;
    var gone := before.Keys - after.Keys;
    NarrowedSplits(before, after, gone);
    CardSplit(Terminal(before), Terminal(after), gone);
  }

  // Active jobs are never pruned, and the history fits its bound afterwards.
  lemma PrunedKeepsActive(before: map<int, Job>, after: map<int, Job>, keep: nat)
    requires Pruned(before, after, keep)
    ensures Active(after) == Active(before) && |Terminal(after)| <= keep
    ensures forall id :: id in Active(before) ==> id in after && after[id] == before[id]
  {
    hide OldestGone, Narrowed, Terminal, Active;
    NarrowedActive(before, after);
    NarrowedTerminal(before, after);
  }

  lemma {:induction false} PrunedExists(before: map<int, Job>, keep: nat) returns (after: map<int, Job>)
    ensures Pruned(before, after, keep)
    decreases |Terminal(before)|
  {
    if |Terminal(before)| <= keep {
      after := before;
      assert before.Keys - after.Keys == {};
    } else {
      var oldest := Oldest(before, Terminal(before));
      var rest := before - {oldest};
      assert Terminal(rest) == Terminal(before) - {oldest};
      after := PrunedExists(rest, keep);
      PruneOneMore(before, oldest, after, keep);
    }
  }

  lemma PruneOneMore(before: map<int, Job>, oldest: int, after: map<int, Job>, keep: nat)
    requires oldest in Terminal(before) && |Terminal(before)| > keep && Pruned(before - {oldest}, after, keep)
    requires forall id :: id in Terminal(before) ==> id in before && before[oldest].created <= before[id].created
    ensures Pruned(before, after, keep)
  {
    hide OldestGone, Narrowed, Terminal;
    TerminalMeans(before, oldest);
    NarrowedOneMore(before, oldest, after);
    OldestGoneOneMore(before, oldest, after);
    PruneCount(before, oldest, after);
  }

  lemma TerminalMeans(jobs: map<int, Job>, oldest: int)
    requires oldest in Terminal(jobs) && forall id :: id in Terminal(jobs) ==> jobs[oldest].created <= jobs[id].created
    ensures oldest in jobs && IsTerminal(jobs[oldest])
    ensures forall id :: id in jobs && IsTerminal(jobs[id]) ==> jobs[oldest].created <= jobs[id].created
  {
  }

  lemma PruneCount(before: map<int, Job>, oldest: int, after: map<int, Job>)
    requires oldest in Terminal(before) && oldest !in after && oldest in before
    ensures |Terminal(before)| == |Terminal(before - {oldest})| + 1
    ensures |before.Keys - after.Keys| == |(before - {oldest}).Keys - after.Keys| + 1
  {
    hide Terminal;
    var rest := before - {oldest};
    OneLessTerminal(before, oldest);
    OneLess(Terminal(before), Terminal(rest), {}, oldest);
    assert Terminal(before) - {} == Terminal(before) && Terminal(rest) - {} == Terminal(rest);
    OneLess(before.Keys, rest.Keys, after.Keys, oldest);
  }

  lemma OneLess(whole: set<int>, less: set<int>, aside: set<int>, x: int)
    requires whole == less + {x} && x !in less && x !in aside
    ensures |whole - aside| == |less - aside| + 1
  {
    assert whole - aside == (less - aside) + {x};
  }

  lemma OneLessTerminal(jobs: map<int, Job>, id: int)
    requires id in Terminal(jobs)
    ensures var rest := jobs - {id};
            && Terminal(jobs) == Terminal(rest) + {id} && id !in Terminal(rest)
            && jobs.Keys == rest.Keys + {id} && id !in rest.Keys
  {
  }

  lemma NarrowedOneMore(before: map<int, Job>, oldest: int, after: map<int, Job>)
    requires Narrowed(before - {oldest}, after) && oldest in before && IsTerminal(before[oldest])
    ensures Narrowed(before, after) && oldest !in after
  {
    var rest := before - {oldest};
    forall id | id in before && id !in after
      ensures IsTerminal(before[id])
    {
      assert id != oldest ==> id in rest && rest[id] == before[id];
    }
  }

  lemma OldestGoneOneMore(before: map<int, Job>, oldest: int, after: map<int, Job>)
    requires oldest in before && OldestGone(before - {oldest}, after) && oldest !in after
    requires forall id :: id in before && IsTerminal(before[id]) ==> before[oldest].created <= before[id].created
    ensures OldestGone(before, after)
  {
    var rest := before - {oldest};
    forall g, k | g in before && g !in after && k in before && k in after && IsTerminal(before[k])
      ensures before[g].created <= before[k].created
    {
      if g != oldest {
        assert g in rest && k in rest;
      }
    }
  }

  lemma {:induction false} Oldest(jobs: map<int, Job>, ids: set<int>) returns (oldest: int)
    requires ids != {} && ids <= jobs.Keys
    ensures oldest in ids && forall id :: id in ids ==> jobs[oldest].created <= jobs[id].created
    decreases |ids|
  {
    oldest := Sorting.Pick(ids);
    if ids != {oldest} {
      var other := Oldest(jobs, ids - {oldest});
      if jobs[other].created < jobs[oldest].created {
        oldest := other;
      }
    }
  }

  // ----- Every step keeps the counters -----

  lemma TallyKeepsAccounts(job: Job, paths: seq<int>, made: seq<Entry>, success: bool, maxResults: nat)
    requires Accounts(job, paths, made, maxResults) && |made| < |paths|
    ensures var entry := Entry(paths[|made|], success);
            Accounts(Tally(job, entry, maxResults), paths, made + [entry], maxResults)
  {
    var entry := Entry(paths[|made|], success);
    assert (made + [entry])[..|made|] == made;
  }

  lemma SuccessesBound(entries: seq<Entry>)
    ensures Successes(entries) <= |entries|
  {
  }

  lemma NewJobAccounts(paths: seq<int>, created: int, maxResults: nat)
    ensures Accounts(NewJob(paths, created), paths, [], maxResults) && StatusAgrees(NewJob(paths, created))
  {
  }

  lemma EnqueueKeepsJob(s: State, new_: int, paths: seq<int>, created: int, s': State, limits: Limits, id: int)
    requires JobInv(s, id, limits) && Next(s, Enqueue(new_, paths, created), s', limits)
    ensures JobInv(s', id, limits)
  {
    hide Accounts, Pruned;
    if Admits(s, limits) {
      NewJobAccounts(paths, created, limits.maxResults);
      OnlyPruned(s.jobs[new_ := NewJob(paths, created)], s'.jobs, limits.maxHistory, id);
    }
  }

  lemma FailKeepsJob(s: State, s': State, limits: Limits, id: int)
    requires JobInv(s, id, limits) && HandInv(s) && Next(s, Fail, s', limits)
    ensures JobInv(s', id, limits)
  {
    hide Accounts, Pruned;
    var t := s.worker.ticket;
    if t.id in s.jobs && !IsTerminal(s.jobs[t.id]) {
      OnlyPruned(s.jobs[t.id := s.jobs[t.id].(status := Failed)], s'.jobs, limits.maxHistory, id);
      if id == t.id {
        StatusAside(s.jobs[id], Failed, s.asked[id], s.made[id], limits.maxResults);
      }
    }
  }

  lemma StepKeepsJob(s: State, e: Step, s': State, limits: Limits, id: int)
    requires JobInv(s, id, limits) && HandInv(s) && Next(s, e, s', limits)
    ensures JobInv(s', id, limits)
  {
    hide Accounts, Pruned;
    match e {
      case Enqueue(new_, paths, created) =>
        EnqueueKeepsJob(s, new_, paths, created, s', limits, id);
      case Process(success) =>
        var t := s.worker.ticket;
        if id == t.id && id in s.jobs {
          ProcessKeepsJob(s, success, s', limits);
        }
      case Finish =>
        var t := s.worker.ticket;
        if t.id in s.jobs {
          OnlyPruned(s.jobs[t.id := Finished(s.jobs[t.id])], s'.jobs, limits.maxHistory, id);
          if id == t.id {
            FinishedAgrees(s.jobs[id], s.asked[id], s.made[id], limits.maxResults);
          }
        }
      case Fail =>
        FailKeepsJob(s, s', limits, id);
      case Start =>
        if id in s.jobs && id == s.worker.ticket.id {
          StatusAside(s.jobs[id], Running, s.asked[id], s.made[id], limits.maxResults);
        }
      case _ =>
    }
  }

  lemma ProcessKeepsJob(s: State, success: bool, s': State, limits: Limits)
    requires s.worker.Busy? && JobInv(s, s.worker.ticket.id, limits) && HandInv(s)
    requires Next(s, Process(success), s', limits)
    ensures JobInv(s', s.worker.ticket.id, limits)
  {
    var id, paths := s.worker.ticket.id, s.worker.ticket.paths;
    TallyKeepsAccounts(s.jobs[id], paths, s.made[id], success, limits.maxResults);
  }

  lemma OnlyPruned(before: map<int, Job>, after: map<int, Job>, keep: nat, id: int)
    requires Pruned(before, after, keep)
    ensures id in after ==> id in before && after[id] == before[id]
    ensures id in before && !IsTerminal(before[id]) ==> id in after
  {
  }

  lemma StatusAside(job: Job, status: Status, paths: seq<int>, made: seq<Entry>, maxResults: nat)
    requires Accounts(job, paths, made, maxResults)
    ensures Accounts(job.(status := status), paths, made, maxResults)
  {
  }

  lemma FinishedAgrees(job: Job, paths: seq<int>, made: seq<Entry>, maxResults: nat)
    requires Accounts(job, paths, made, maxResults) && job.processed >= |paths|
    ensures Accounts(Finished(job), paths, made, maxResults) && StatusAgrees(Finished(job))
  {
  }

  // ----- Every step keeps the table and the tickets in step -----

  lemma TicketsAppend(active: set<int>, queue: seq<Ticket>, hand: set<int>, t: Ticket)
    requires Tickets(active, queue, hand) && t.id !in active
    ensures Tickets(active + {t.id}, queue + [t], hand)
  {
    forall id
      ensures id in QueuedIds(queue + [t]) <==> id in QueuedIds(queue) || id == t.id
    {
      if id in QueuedIds(queue) {
        var u :| u in queue && u.id == id;
        assert u in queue + [t];
      }
      assert t in queue + [t];
    }
    forall i | 0 <= i < |queue|
      ensures queue[i].id in active
    {
      assert queue[i] in queue;
    }
  }

  lemma TicketsTake(active: set<int>, queue: seq<Ticket>)
    requires Tickets(active, queue, {}) && queue != []
    ensures Tickets(active, queue[1..], {queue[0].id})
  {
    forall id
      ensures id in QueuedIds(queue) <==> id in QueuedIds(queue[1..]) || id == queue[0].id
    {
      if id in QueuedIds(queue) {
        var u :| u in queue && u.id == id;
        assert u == queue[0] || u in queue[1..];
      }
      if id in QueuedIds(queue[1..]) {
        var u :| u in queue[1..] && u.id == id;
        assert u in queue;
      }
      assert queue[0] in queue;
    }
    forall u | u in queue[1..]
      ensures u.id != queue[0].id
    {
      var i :| 0 <= i < |queue[1..]| && queue[1..][i] == u;
      assert u == queue[i + 1];
    }
  }

  lemma TicketsEnd(active: set<int>, queue: seq<Ticket>, id: int)
    requires Tickets(active, queue, {id})
    ensures Tickets(active - {id}, queue, {})
  {
  }

  lemma TicketsEmpty()
    ensures Tickets({}, [], {})
  {
  }

  lemma EndKeepsTickets(s: State, job: Job, s': State, limits: Limits)
    requires TicketsInv(s, limits) && (s.worker.Taken? || s.worker.Busy?)
    requires IsTerminal(job) && EndNext(s, s.worker.ticket.id, job, s', limits)
    ensures TicketsInv(s', limits)
  {
    hide Tickets, Pruned, Terminal, Active;
    var id := s.worker.ticket.id;
    PutJob(s.jobs, id, job);
    PrunedKeepsActive(s.jobs[id := job], s'.jobs, limits.maxHistory);
    TicketsEnd(Active(s.jobs), s.queue, id);
  }

  lemma EnqueueKeepsTickets(s: State, ticket: Ticket, created: int, s': State, limits: Limits)
    requires TicketsInv(s, limits) && ticket.id !in s.jobs && EnqueueNext(s, ticket, created, s', limits)
    ensures TicketsInv(s', limits)
  {
    hide Tickets, Pruned, Terminal, Active, IsTerminal, QueuedIds;
    if Admits(s, limits) {
      NewIsNotTerminal(ticket.paths, created);
      NewIsNotActive(s.jobs, ticket.id);
      var job := NewJob(ticket.paths, created);
      PutJob(s.jobs, ticket.id, job);
      PrunedKeepsActive(s.jobs[ticket.id := job], s'.jobs, limits.maxHistory);
      TicketsAppend(Active(s.jobs), s.queue, InHand(s.worker), ticket);
      NotTerminal(s.jobs, ticket.id);
    }
  }

  lemma NewIsNotTerminal(paths: seq<int>, created: int)
    ensures !IsTerminal(NewJob(paths, created))
  {
  }

  lemma NewIsNotActive(jobs: map<int, Job>, id: int)
    requires id !in jobs
    ensures id !in Active(jobs)
  {
  }

  lemma NotTerminal(jobs: map<int, Job>, id: int)
    requires id !in jobs || !IsTerminal(jobs[id])
    ensures Terminal(jobs) - {id} == Terminal(jobs)
  {
  }

  // An active job stays in the table through every change of its record.
  lemma TouchKeepsTickets(s: State, id: int, job: Job, s': State, limits: Limits)
    requires TicketsInv(s, limits) && id in Active(s.jobs) && !IsTerminal(job)
    requires s'.jobs == s.jobs[id := job] && s'.queue == s.queue && InHand(s'.worker) == InHand(s.worker)
    ensures TicketsInv(s', limits)
  {
    hide Tickets;
    PutJob(s.jobs, id, job);
    NotTerminal(s.jobs, id);
    assert Active(s.jobs) + {id} == Active(s.jobs);
  }

  lemma InHandActive(s: State, limits: Limits)
    requires TicketsInv(s, limits) && (s.worker.Taken? || s.worker.Busy?)
    ensures s.worker.ticket.id in Active(s.jobs)
  {
  }

  lemma StepKeepsTickets(s: State, e: Step, s': State, limits: Limits)
    requires Inv(s, limits) && Next(s, e, s', limits)
    ensures TicketsInv(s', limits)
  {
    hide Tickets, Pruned, Terminal, TicketInv, JobInv;
    if s.worker.Taken? || s.worker.Busy? {
      InHandActive(s, limits);
    }
    match e {
      case Enqueue(id, paths, created) =>
        UnknownIsAbsent(s, id, limits);
        EnqueueKeepsTickets(s, Ticket(id, paths), created, s', limits);
      case Take => TicketsTake(Active(s.jobs), s.queue);
      case Start =>
        var id := s.worker.ticket.id;
        TouchKeepsTickets(s, id, s.jobs[id].(status := Running), s', limits);
      case Process(success) =>
        var id := s.worker.ticket.id;
        if id in s.made {
          var entry := Entry(s.worker.ticket.paths[s.worker.done], success);
          NotTerminalInActive(s.jobs, id);
          TouchKeepsTickets(s, id, Tally(s.jobs[id], entry, limits.maxResults), s', limits);
        }
      case Finish => EndKeepsTickets(s, Finished(s.jobs[s.worker.ticket.id]), s', limits);
      case Fail =>
        NotTerminalInActive(s.jobs, s.worker.ticket.id);
        EndKeepsTickets(s, s.jobs[s.worker.ticket.id].(status := Failed), s', limits);
      case _ =>
    }
  }

  lemma NotTerminalInActive(jobs: map<int, Job>, id: int)
    requires id in Active(jobs)
    ensures id in jobs && !IsTerminal(jobs[id])
  {
  }

  lemma UnknownIsAbsent(s: State, id: int, limits: Limits)
    requires JobInv(s, id, limits) && id !in s.asked
    ensures id !in s.jobs
  {
  }

  // What is not in the worker's hand keeps its record.
  lemma OthersUntouched(s: State, e: Step, s': State, limits: Limits, id: int)
    requires Next(s, e, s', limits) && id in s.jobs && !IsTerminal(s.jobs[id]) && id in s.asked
    requires !e.Enqueue? && !e.Take? ==> id !in InHand(s.worker)
    ensures id in s'.jobs && s'.jobs[id] == s.jobs[id] && id in s'.asked && s'.asked[id] == s.asked[id]
  {
    hide Pruned;
    match e {
      case Enqueue(fresh_, paths, created) =>
        if Admits(s, limits) {
          OnlyPruned(s.jobs[fresh_ := NewJob(paths, created)], s'.jobs, limits.maxHistory, id);
        }
      case Finish =>
        var t := s.worker.ticket;
        if t.id in s.jobs {
          OnlyPruned(s.jobs[t.id := Finished(s.jobs[t.id])], s'.jobs, limits.maxHistory, id);
        }
      case Fail =>
        var t := s.worker.ticket;
        if t.id in s.jobs && !IsTerminal(s.jobs[t.id]) {
          OnlyPruned(s.jobs[t.id := s.jobs[t.id].(status := Failed)], s'.jobs, limits.maxHistory, id);
        }
      case _ =>
    }
  }

  lemma QueuedNotInHand(s: State, limits: Limits, i: nat)
    requires TicketsInv(s, limits) && i < |s.queue|
    ensures s.queue[i].id !in InHand(s.worker)
  {
    assert s.queue[i] in s.queue;
  }

  lemma TicketKept(s: State, e: Step, s': State, limits: Limits, i: nat)
    requires Inv(s, limits) && Next(s, e, s', limits) && i < |s.queue|
    ensures TicketInv(s', s.queue[i])
  {
    hide TicketsInv, JobInv, Next;
    QueuedNotInHand(s, limits, i);
    OthersUntouched(s, e, s', limits, s.queue[i].id);
  }

  lemma StepKeepsQueued(s: State, e: Step, s': State, limits: Limits, i: nat)
    requires Inv(s, limits) && Next(s, e, s', limits) && i < |s'.queue|
    ensures TicketInv(s', s'.queue[i])
  {
    hide TicketsInv, JobInv, Pruned, TicketInv;
    var j := if e.Take? then i + 1 else i;
    if j < |s.queue| {
      TicketKept(s, e, s', limits, j);
    } else if e.Enqueue? {
      UnknownIsAbsent(s, e.id, limits);
      NewTicket(s, Ticket(e.id, e.paths), e.created, s', limits);
    }
  }

  lemma NewTicket(s: State, ticket: Ticket, created: int, s': State, limits: Limits)
    requires Admits(s, limits) && EnqueueNext(s, ticket, created, s', limits) && ticket.paths != []
    ensures TicketInv(s', ticket)
  {
    hide Pruned;
    OnlyPruned(s.jobs[ticket.id := NewJob(ticket.paths, created)], s'.jobs, limits.maxHistory, ticket.id);
  }

  lemma StepKeepsInHand(s: State, e: Step, s': State, limits: Limits)
    requires Inv(s, limits) && Next(s, e, s', limits)
    ensures s'.worker.Taken? ==> TicketInv(s', s'.worker.ticket)
    ensures s'.worker.Busy? ==>
              var t := s'.worker.ticket;
              && t.id in s'.jobs && s'.jobs[t.id].status == Running && s'.jobs[t.id].processed == s'.worker.done
              && t.id in s'.asked && s'.asked[t.id] == t.paths
  {
    hide TicketsInv, Pruned, Accounts;
    match e {
      case Take => TicketKept(s, e, s', limits, 0);
      case Enqueue(_, _, _) =>
        if s.worker.Taken? || s.worker.Busy? {
          OthersUntouched(s, e, s', limits, s.worker.ticket.id);
        }
      case Process(_) => assert JobInv(s, s.worker.ticket.id, limits);
      case Start => assert JobInv(s, s.worker.ticket.id, limits);
      case _ =>
    }
  }

  lemma StepKeepsWorker(s: State, e: Step, s': State, limits: Limits)
    requires WorkerInv(s) && Next(s, e, s', limits)
    ensures WorkerInv(s')
  {
    hide Pruned;
  }

  lemma StepKeepsInv(s: State, e: Step, s': State, limits: Limits)
    requires Inv(s, limits) && Next(s, e, s', limits)
    ensures Inv(s', limits)
  {
    hide JobInv, TicketsInv, TicketInv, WorkerInv, Next;
    StepKeepsTickets(s, e, s', limits);
    StepKeepsWorker(s, e, s', limits);
    StepKeepsInHand(s, e, s', limits);
    forall id
      ensures JobInv(s', id, limits)
    {
      assert JobInv(s, id, limits);
      StepKeepsJob(s, e, s', limits, id);
    }
    forall i | 0 <= i < |s'.queue|
      ensures TicketInv(s', s'.queue[i])
    {
      StepKeepsQueued(s, e, s', limits, i);
    }
  }

  lemma InitialInv(limits: Limits)
    ensures Inv(INITIAL, limits)
  {
    assert Active(INITIAL.jobs) == {} && Terminal(INITIAL.jobs) == {};
    TicketsEmpty();
    hide Accounts;
  }

  lemma {:induction false} RunKeepsInv(states: seq<State>, steps: seq<Step>, limits: Limits, i: nat)
    requires Run(states, steps, limits) && i < |states|
    ensures Inv(states[i], limits)
  {
    hide Inv, Next;
    if i == 0 {
      InitialInv(limits);
    } else {
      RunKeepsInv(states, steps, limits, i - 1);
      StepKeepsInv(states[i - 1], steps[i - 1], states[i], limits);
    }
  }

  // In every reachable state the counters of every job account exactly for its entries.
  lemma CountersAccount(states: seq<State>, steps: seq<Step>, limits: Limits, i: nat, id: int)
    requires Run(states, steps, limits) && i < |states| && id in states[i].jobs
    ensures id in states[i].asked && id in states[i].made
    ensures var job, asked, made := states[i].jobs[id], states[i].asked[id], states[i].made[id];
            && job.total == |asked|
            && job.processed == job.succeeded + job.failed == job.returned + job.truncated <= job.total
            && |job.results| == job.returned <= limits.maxResults
            && (job.truncated > 0 ==> job.returned == limits.maxResults)
            && StatusAgrees(job)
            && job.succeeded == Successes(made)
            && job.results <= made
            && (forall k :: 0 <= k < |job.results| ==> job.results[k].path == asked[k])
  {
    RunKeepsInv(states, steps, limits, i);
    assert JobInv(states[i], id, limits);
    SuccessesBound(states[i].made[id]);
  }

  // The table is bounded, one worker is ever started, and the branches for a job that is
  // missing from the table are never taken.
  lemma TableIsBounded(states: seq<State>, steps: seq<Step>, limits: Limits, i: nat)
    requires Run(states, steps, limits) && i < |states|
    ensures |states[i].jobs| <= limits.maxHistory + limits.maxPending + 1
    ensures states[i].started <= 1
    ensures states[i].worker.Taken? || states[i].worker.Busy? ==>
              states[i].worker.ticket.id in states[i].jobs
              && !IsTerminal(states[i].jobs[states[i].worker.ticket.id])
  {
    hide Accounts, JobInv, TicketInv, Next;
    RunKeepsInv(states, steps, limits, i);
    var s := states[i];
    ActiveCount(s, limits);
    CardSplit(s.jobs.Keys, Active(s.jobs), Terminal(s.jobs));
    if s.worker.Taken? || s.worker.Busy? {
      InHandActive(s, limits);
    }
  }

  lemma {:induction false} QueuedCount(queue: seq<Ticket>)
    ensures |QueuedIds(queue)| <= |queue|
  {
    if queue == [] {
      assert QueuedIds(queue) == {};
    } else {
      QueuedCount(queue[1..]);
      assert QueuedIds(queue) == QueuedIds(queue[1..]) + {queue[0].id} by {
        assert queue == [queue[0]] + queue[1..];
        assert forall t :: t in queue <==> t == queue[0] || t in queue[1..];
      }
    }
  }

  lemma ActiveCount(s: State, limits: Limits)
    requires TicketsInv(s, limits)
    ensures |Active(s.jobs)| <= limits.maxPending + 1
  {
    hide Active, Terminal, QueuedIds;
    QueuedCount(s.queue);
    CardSplit(Active(s.jobs), QueuedIds(s.queue), InHand(s.worker));
  }

  // ----- A finished job stays finished -----

  // A terminal record never changes again; it only leaves the table, and for good.
  ghost predicate Settled(s: State, id: int, job: Job) {
    && id in s.asked
    && (id in s.jobs ==> s.jobs[id] == job)
  }

  lemma SettledStays(s: State, e: Step, s': State, limits: Limits, id: int, job: Job)
    requires Inv(s, limits) && Next(s, e, s', limits) && IsTerminal(job) && Settled(s, id, job)
    ensures Settled(s', id, job) && (id in s'.jobs ==> id in s.jobs)
  {
    hide Pruned, TicketsInv, JobInv, Accounts;
    match e {
      case Enqueue(other, paths, created) =>
        if Admits(s, limits) {
          OnlyPruned(s.jobs[other := NewJob(paths, created)], s'.jobs, limits.maxHistory, id);
        }
      case Finish =>
        var t := s.worker.ticket;
        OnlyPruned(s.jobs[t.id := Finished(s.jobs[t.id])], s'.jobs, limits.maxHistory, id);
      case Fail =>
        var t := s.worker.ticket;
        if t.id in s.jobs && !IsTerminal(s.jobs[t.id]) {
          OnlyPruned(s.jobs[t.id := s.jobs[t.id].(status := Failed)], s'.jobs, limits.maxHistory, id);
        }
      case _ =>
    }
  }

  lemma {:induction false} TerminalIsFinal(
      states: seq<State>, steps: seq<Step>, limits: Limits, i: nat, j: nat, id: int)
    requires Run(states, steps, limits) && i <= j < |states|
    requires id in states[i].jobs && IsTerminal(states[i].jobs[id])
    ensures id in states[j].jobs ==> states[j].jobs[id] == states[i].jobs[id]
    ensures forall k :: i <= k <= j && id !in states[k].jobs ==> id !in states[j].jobs
    ensures Settled(states[j], id, states[i].jobs[id])
    decreases j
  {
    hide Next, Inv, Settled;
    RunKeepsInv(states, steps, limits, i);
    if i == j {
      SettledNow(states[i], id, limits);
    } else {
      TerminalIsFinal(states, steps, limits, i, j - 1, id);
      RunKeepsInv(states, steps, limits, j - 1);
      SettledStays(states[j - 1], steps[j - 1], states[j], limits, id, states[i].jobs[id]);
      SettledMeans(states[j], id, states[i].jobs[id]);
    }
  }

  lemma SettledNow(s: State, id: int, limits: Limits)
    requires Inv(s, limits) && id in s.jobs
    ensures Settled(s, id, s.jobs[id])
  {
    assert JobInv(s, id, limits);
  }

  lemma SettledMeans(s: State, id: int, job: Job)
    requires Settled(s, id, job)
    ensures id in s.jobs ==> s.jobs[id] == job
  {
  }

  // ----- Draining -----

  predicate ByWorker(e: Step) {
    e.Take? || e.Start? || e.Process? || e.Finish? || e.Fail? || e.Exit?
  }

  function QueueMoves(queue: seq<Ticket>): nat {
    if queue == [] then 0 else |queue[0].paths| + 3 + QueueMoves(queue[1..])
  }

  // A bound on the moves the worker can still make by itself.
  function Moves(s: State): nat {
    QueueMoves(s.queue) +
    match s.worker
    case NotStarted => 0
    case Waiting => 1
    case Taken(t) => |t.paths| + 3
    case Busy(t, done) => if done <= |t.paths| then |t.paths| - done + 2 else 2
    case Exited => 0
  }

  lemma MovesDecrease(s: State, e: Step, s': State, limits: Limits)
    requires Next(s, e, s', limits) && ByWorker(e) && s.worker != NotStarted
    ensures Moves(s') < Moves(s) && s'.worker != NotStarted && s'.stopping == s.stopping
  {
    hide Pruned;
  }

  // Whatever its outcomes and failures, a worker left alone makes at most `Moves` moves.
  lemma {:induction false} DrainBound(states: seq<State>, steps: seq<Step>, limits: Limits)
    requires |states| == |steps| + 1 && states[0].worker != NotStarted
    requires forall i :: 0 <= i < |steps| ==> Next(states[i], steps[i], states[i + 1], limits) && ByWorker(steps[i])
    ensures |steps| <= Moves(states[0]) - Moves(states[|steps|])
    decreases |steps|
  {
    hide Next, Moves;
    if steps != [] {
      MovesDecrease(states[0], steps[0], states[1], limits);
      assert states[1..][|steps[1..]|] == states[|steps|];
      DrainBound(states[1..], steps[1..], limits);
    }
  }

  // After stop the worker can move until it has ended, and then every job left is terminal.
  lemma StopDrains(s: State, limits: Limits)
    requires Inv(s, limits) && s.stopping && s.worker != NotStarted
    ensures s.worker == Exited ==> s.queue == [] && Active(s.jobs) == {}
    ensures s.worker != Exited ==> exists e, s' :: ByWorker(e) && Next(s, e, s', limits)
  {
    hide Accounts, JobInv, TicketInv;
    if s.worker == Exited {
      assert QueuedIds(s.queue) == {};
    } else {
      var e, s' := SomeMove(s, limits);
      assert ByWorker(e) && Next(s, e, s', limits);
    }
  }

  lemma SomeMove(s: State, limits: Limits) returns (e: Step, s': State)
    requires HandInv(s) && s.stopping && s.worker != NotStarted && s.worker != Exited
    ensures ByWorker(e) && Next(s, e, s', limits)
  {
    hide Pruned;
    match s.worker {
      case Waiting =>
        if s.queue != [] {
          e, s' := Take, s.(worker := Taken(s.queue[0]), queue := s.queue[1..]);
        } else {
          e, s' := Exit, s.(worker := Exited);
        }
      case Taken(t) =>
        e, s' := Start, s.(jobs := s.jobs[t.id := s.jobs[t.id].(status := Running)], worker := Busy(t, 0));
      case Busy(t, done) => e, s' := BusyMove(s, limits);
    }
  }

  lemma BusyMove(s: State, limits: Limits) returns (e: Step, s': State)
    requires s.worker.Busy? && s.worker.ticket.id in s.jobs
    ensures ByWorker(e) && Next(s, e, s', limits)
  {
    hide ProcessNext, EndNext, Finished;
    var t, done := s.worker.ticket, s.worker.done;
    if done < |t.paths| {
      e := Process(true);
      s' := ProcessMove(s, t.id, Entry(t.paths[done], true), limits);
    } else {
      e := Finish;
      s' := EndMove(s, t.id, Finished(s.jobs[t.id]), limits);
    }
  }

  lemma ProcessMove(s: State, id: int, entry: Entry, limits: Limits) returns (s': State)
    requires s.worker.Busy?
    ensures ProcessNext(s, id, entry, s', limits)
  {
    hide Tally;
    s' := if id in s.jobs && id in s.made
          then s.(jobs := s.jobs[id := Tally(s.jobs[id], entry, limits.maxResults)],
                  worker := Busy(s.worker.ticket, s.worker.done + 1), made := s.made[id := s.made[id] + [entry]])
          else s.(worker := Busy(s.worker.ticket, s.worker.done + 1));
  }

  lemma EndMove(s: State, id: int, job: Job, limits: Limits) returns (s': State)
    ensures EndNext(s, id, job, s', limits)
  {
    hide Pruned;
    var after := PrunedExists(s.jobs[id := job], limits.maxHistory);
    s' := s.(jobs := after, worker := Waiting);
  }

  // ----- The class -----

  // The paths that name notes, each once, in the order of their first occurrence.
  function NotePaths(paths: seq<int>, isNote: int -> bool): (r: seq<int>)
    ensures forall p :: p in r <==> p in paths && isNote(p)
    ensures forall i, j :: 0 <= i < j < |r| ==> r[i] != r[j]
  {
    if paths == [] then []
    else
      var p := paths[|paths| - 1];
      var before := paths[..|paths| - 1];
      assert paths == before + [p];
      var r := NotePaths(before, isNote);
      if isNote(p) && p !in r then r + [p] else r
  }

  // `p` occurs before `q` does.
  ghost predicate OccursBefore(paths: seq<int>, p: int, q: int) {
    exists a :: 0 <= a < |paths| && paths[a] == p && q !in paths[..a + 1]
  }

  lemma {:induction false} NotePathsInOrder(paths: seq<int>, isNote: int -> bool, i: nat, j: nat)
    requires i < j < |NotePaths(paths, isNote)|
    ensures OccursBefore(paths, NotePaths(paths, isNote)[i], NotePaths(paths, isNote)[j])
  {
    var n := |paths| - 1;
    var before, r := paths[..n], NotePaths(paths, isNote);
    var rest := NotePaths(before, isNote);
    if j < |rest| {
      NotePathsInOrder(before, isNote, i, j);
      var a :| 0 <= a < n && before[a] == r[i] && r[j] !in before[..a + 1];
      assert before[..a + 1] == paths[..a + 1];
    } else {
      assert r[i] in rest;
      var a :| 0 <= a < n && before[a] == r[i];
      assert paths[..a + 1] == before[..a + 1] && r[j] !in rest;
      assert forall p :: p in before[..a + 1] ==> p in before;
    }
  }

  // What the caller asked for: exactly the notes among the paths, each once, in the order in
  // which they first occur.
  ghost predicate NotesInOrder(paths: seq<int>, isNote: int -> bool, r: seq<int>) {
    && (forall p :: p in r <==> p in paths && isNote(p))
    && (forall i, j :: 0 <= i < j < |r| ==> r[i] != r[j] && OccursBefore(paths, r[i], r[j]))
  }

  lemma NotePathsAreInOrder(paths: seq<int>, isNote: int -> bool)
    ensures NotesInOrder(paths, isNote, NotePaths(paths, isNote))
  {
    hide OccursBefore;
    var r := NotePaths(paths, isNote);
    forall i, j | 0 <= i < j < |r|
      ensures OccursBefore(paths, r[i], r[j])
    {
      NotePathsInOrder(paths, isNote, i, j);
    }
  }

  datatype Reply = NoValidPath | TooManyPaths | Disabled | Stopped | QueueFull | Accepted(id: int, queuedPaths: nat)

  // The items of the table whose status is terminal.
  function TerminalItems(ids: seq<int>, jobs: map<int, Job>): (r: seq<(int, Job)>)
    ensures forall x :: x in r <==> x.0 in ids && x.0 in jobs && x.1 == jobs[x.0] && IsTerminal(x.1)
  {
    if ids == [] then []
    else if ids[0] in jobs && IsTerminal(jobs[ids[0]]) then [(ids[0], jobs[ids[0]])] + TerminalItems(ids[1..], jobs)
    else TerminalItems(ids[1..], jobs)
  }

  lemma {:induction false} TerminalItemsOnce(ids: seq<int>, jobs: map<int, Job>)
    requires forall i, j :: 0 <= i < j < |ids| ==> ids[i] != ids[j]
    ensures forall x :: multiset(TerminalItems(ids, jobs))[x] <= 1
  {
    if ids != [] {
      TerminalItemsOnce(ids[1..], jobs);
      if ids[0] in jobs {
        assert (ids[0], jobs[ids[0]]) !in TerminalItems(ids[1..], jobs);
      }
    }
  }

  function CreatedOrder(): ((int, Job), (int, Job)) -> bool {
    (x: (int, Job), y: (int, Job)) => x.1.created <= y.1.created
  }

  // The terminal jobs, each once, oldest first.
  ghost predicate ListsTerminal(ordered: seq<(int, Job)>, jobs: map<int, Job>) {
    && (forall x :: x in ordered <==> x.0 in jobs && x.1 == jobs[x.0] && IsTerminal(x.1))
    && (forall i, j :: 0 <= i < j < |ordered| ==> ordered[i].0 != ordered[j].0)
    && (forall i, j :: 0 <= i < j < |ordered| ==> ordered[i].1.created <= ordered[j].1.created)
  }

  lemma Listed(ids: seq<int>, jobs: map<int, Job>, id: int)
    requires forall k :: k in jobs ==> k in ids
    ensures id in jobs ==> id in ids
  {
  }

  lemma OrderedTerminal(ids: seq<int>, jobs: map<int, Job>)
    requires forall i, j :: 0 <= i < j < |ids| ==> ids[i] != ids[j]
    requires forall id :: id in jobs ==> id in ids
    ensures ListsTerminal(Sorting.SortBy(CreatedOrder(), TerminalItems(ids, jobs)), jobs)
  {
    var items := TerminalItems(ids, jobs);
    var ordered := Sorting.SortBy(CreatedOrder(), items);
    TerminalItemsOnce(ids, jobs);
    Sorting.OnceIsDistinct(ordered);
    Sorting.SortByOrdered(CreatedOrder(), items);
    Sorting.SortByMembers(CreatedOrder(), items);
    forall x
      ensures x in ordered <==> x.0 in jobs && x.1 == jobs[x.0] && IsTerminal(x.1)
    {
      assert x in ordered <==> x in items;
      assert x in items <==> x.0 in ids && x.0 in jobs && x.1 == jobs[x.0] && IsTerminal(x.1);
      Listed(ids, jobs, x.0);
    }
    forall i, j | 0 <= i < j < |ordered|
      ensures ordered[i].0 != ordered[j].0 && ordered[i].1.created <= ordered[j].1.created
    {
      assert ordered[i] in ordered && ordered[j] in ordered;
      assert ordered[i] == (ordered[i].0, jobs[ordered[i].0]) && ordered[j] == (ordered[j].0, jobs[ordered[j].0]);
      assert CreatedOrder()(ordered[i], ordered[j]);
    }
  }

  // The table without the first `n` of the listed jobs.
  lemma PrunesOldest(before: map<int, Job>, ordered: seq<(int, Job)>, n: nat, after: map<int, Job>, keep: nat)
    requires ListsTerminal(ordered, before)
    requires n == if |ordered| <= keep then 0 else |ordered| - keep
    requires after == before - FirstIds(ordered, n)
    ensures Pruned(before, after, keep)
  {
    hide FirstIds, Terminal, Narrowed, OldestGone;
    FirstIdsCount(ordered, n);
    FirstIdsCount(ordered, |ordered|);
    ListedIds(before, ordered);
    hide ListsTerminal;
    ListedNarrow(before, ordered, n, after);
    ListedOldest(before, ordered, n, after);
    ListedGone(before, ordered, n, after);
  }

  lemma ListedGone(before: map<int, Job>, ordered: seq<(int, Job)>, n: nat, after: map<int, Job>)
    requires ListsTerminal(ordered, before) && n <= |ordered| && after == before - FirstIds(ordered, n)
    ensures before.Keys - after.Keys == FirstIds(ordered, n)
  {
    forall id | id in FirstIds(ordered, n)
      ensures id in before
    {
      var k :| 0 <= k < n && ordered[k].0 == id;
      assert ordered[k] in ordered;
    }
  }

  ghost function FirstIds(ordered: seq<(int, Job)>, n: nat): set<int>
    requires n <= |ordered|
  {
    set k | 0 <= k < n :: ordered[k].0
  }

  lemma OneMoreId(ordered: seq<(int, Job)>, n: nat)
    requires n < |ordered|
    requires forall i, j :: 0 <= i < j < |ordered| ==> ordered[i].0 != ordered[j].0
    ensures FirstIds(ordered, n + 1) == FirstIds(ordered, n) + {ordered[n].0} && ordered[n].0 !in FirstIds(ordered, n)
  {
  }

  lemma {:induction false} FirstIdsCount(ordered: seq<(int, Job)>, n: nat)
    requires n <= |ordered|
    requires forall i, j :: 0 <= i < j < |ordered| ==> ordered[i].0 != ordered[j].0
    ensures |FirstIds(ordered, n)| == n
  {
    if n == 0 {
      assert FirstIds(ordered, 0) == {};
    } else {
      FirstIdsCount(ordered, n - 1);
      OneMoreId(ordered, n - 1);
      hide FirstIds;
    }
  }

  lemma ListedIds(jobs: map<int, Job>, ordered: seq<(int, Job)>)
    requires ListsTerminal(ordered, jobs)
    ensures FirstIds(ordered, |ordered|) == Terminal(jobs)
  {
    forall id
      ensures id in FirstIds(ordered, |ordered|) <==> id in Terminal(jobs)
    {
      if id in Terminal(jobs) {
        assert (id, jobs[id]) in ordered;
        var k :| 0 <= k < |ordered| && ordered[k] == (id, jobs[id]);
      }
      if id in FirstIds(ordered, |ordered|) {
        var k :| 0 <= k < |ordered| && ordered[k].0 == id;
        assert ordered[k] in ordered;
      }
    }
  }

  lemma ListedNarrow(before: map<int, Job>, ordered: seq<(int, Job)>, n: nat, after: map<int, Job>)
    requires ListsTerminal(ordered, before) && n <= |ordered| && after == before - FirstIds(ordered, n)
    ensures Narrowed(before, after)
  {
    forall id | id in before && id !in after
      ensures IsTerminal(before[id])
    {
      var k :| 0 <= k < n && ordered[k].0 == id;
      assert ordered[k] in ordered;
    }
  }

  lemma ListedOldest(before: map<int, Job>, ordered: seq<(int, Job)>, n: nat, after: map<int, Job>)
    requires ListsTerminal(ordered, before) && n <= |ordered| && after == before - FirstIds(ordered, n)
    ensures OldestGone(before, after)
  {
    forall gone, kept |
      gone in before && gone !in after && kept in before && kept in after && IsTerminal(before[kept])
      ensures before[gone].created <= before[kept].created
    {
      var k :| 0 <= k < n && ordered[k].0 == gone;
      assert ordered[k] in ordered;
      assert (kept, before[kept]) in ordered;
      var j :| 0 <= j < |ordered| && ordered[j] == (kept, before[kept]);
      assert kept !in FirstIds(ordered, n);
      assert !(j < n);
    }
  }

  lemma AcceptedIsStep(s: State, s': State, t: Ticket, created: int, limits: Limits)
    requires t.id !in s.asked && t.paths != [] && s.accepting && |s.queue| < limits.maxPending
    requires s' == s.(jobs := s'.jobs, queue := s.queue + [t], worker := EnsureWorker(s.worker),
                      started := s.started + Starts(s.worker),
                      asked := s.asked[t.id := t.paths], made := s.made[t.id := []])
    requires Pruned(s.jobs[t.id := NewJob(t.paths, created)], s'.jobs, limits.maxHistory)
    ensures Next(s, Enqueue(t.id, t.paths, created), s', limits)
  {
    hide Pruned;
  }

  lemma QueuedStays(before: map<int, Job>, after: map<int, Job>, keep: nat, id: int)
    requires Pruned(before, after, keep) && id in before && before[id].status == Queued
    ensures id in after && after[id] == before[id]
  {
  }

  class FrontmatterEnrichmentJobManager {
    const limits: Limits
    var jobs: map<int, Job>
    var queue: seq<Ticket>
    var accepting: bool
    var stopping: bool
    // The worker thread and the values it holds in its own variables.
    var worker: Worker
    ghost var started: nat
    ghost var asked: map<int, seq<int>>
    ghost var made: map<int, seq<Entry>>

    constructor (maxPending: int, maxPaths: int, maxHistory: int, maxResults: int)
      ensures limits.maxPending >= 1 && limits.maxPaths >= 1 && limits.maxHistory >= 1 && limits.maxResults >= 1
      ensures maxPending >= 1 ==> limits.maxPending == maxPending
      ensures maxHistory >= 1 ==> limits.maxHistory == maxHistory
      ensures maxPaths >= 1 ==> limits.maxPaths == maxPaths
      ensures maxResults >= 1 ==> limits.maxResults == maxResults
      ensures Abstract() == INITIAL
    {
      limits := Limits(AtLeastOne(maxPending), AtLeastOne(maxPaths), AtLeastOne(maxHistory), AtLeastOne(maxResults));
      jobs, queue, accepting, stopping, worker := map[], [], true, false, NotStarted;
      started, asked, made := 0, map[], map[];
    }

    ghost function Abstract(): State
      reads this
    {
      State(jobs, queue, accepting, stopping, worker, started, asked, made)
    }

    // `enqueue`, whose answer names the first refusal that applies; `id` is a fresh identifier.
    method EnqueueJob(paths: seq<int>, isNote: int -> bool, enabled: bool, id: int, now: int)
      returns (reply: Reply, ghost md: seq<int>)
      requires id !in asked
      modifies this
      ensures NotesInOrder(paths, isNote, md) && md == NotePaths(paths, isNote)
      ensures reply == NoValidPath <==> md == []
      ensures reply == TooManyPaths <==> |md| > 0 && |md| > limits.maxPaths
      ensures reply == Disabled <==> 0 < |md| <= limits.maxPaths && !enabled
      ensures reply == Stopped <==> 0 < |md| <= limits.maxPaths && enabled && !old(accepting)
      ensures reply == QueueFull <==>
                0 < |md| <= limits.maxPaths && enabled && old(accepting) && |old(queue)| >= limits.maxPending
      ensures reply.Accepted? <==>
                0 < |md| <= limits.maxPaths && enabled && old(accepting) && |old(queue)| < limits.maxPending
      ensures reply.Accepted? ==>
                && reply == Accepted(id, |md|) && queue == old(queue) + [Ticket(id, md)]
                && id in jobs && jobs[id] == Job(Queued, now, |md|, 0, 0, 0, [], 0, 0)
                && worker == (if old(worker) == NotStarted || old(worker) == Exited then Waiting else old(worker))
      ensures reply.Accepted? ==>
                Next(old(Abstract()), Enqueue(id, NotePaths(paths, isNote), now), Abstract(), limits)
      ensures !reply.Accepted? ==> Abstract() == old(Abstract())
    {
      hide Pruned, NotesInOrder, NotePaths, Next;
      var notes := NotePaths(paths, isNote);
      md := notes;
      NotePathsAreInOrder(paths, isNote);
      if notes == [] {
        return NoValidPath, md;
      }
      if |notes| > limits.maxPaths {
        return TooManyPaths, md;
      }
      if !enabled {
        return Disabled, md;
      }
      if !accepting {
        return Stopped, md;
      }
      if |queue| >= limits.maxPending {
        return QueueFull, md;
      }
      queue := queue + [Ticket(id, notes)];
      asked, made := asked[id := notes], made[id := []];
      jobs := jobs[id := NewJob(notes, now)];
      ghost var before := jobs;
      PruneTerminalJobsLocked();
      QueuedStays(before, jobs, limits.maxHistory, id);
      EnsureWorkerLocked();
      AcceptedIsStep(old(Abstract()), Abstract(), Ticket(id, notes), now, limits);
      return Accepted(id, |notes|), md;
    }

    // `_ensure_worker_locked`
    method EnsureWorkerLocked()
      modifies this`worker, this`started
      ensures worker == EnsureWorker(old(worker)) && started == old(started) + Starts(old(worker))
    {
      if worker != NotStarted && worker != Exited {
        return;
      }
      worker, started := Waiting, started + 1;
    }

    // `_prune_terminal_jobs_locked`: sorts the terminal jobs by age and deletes the first of them.
    method PruneTerminalJobsLocked()
      modifies this`jobs
      ensures Pruned(old(jobs), jobs, limits.maxHistory)
    {
      hide *;
      var ids := Sorting.SortedSet(jobs.Keys);
      var terminal := TerminalItems(ids, jobs);
      var ordered := Sorting.SortBy(CreatedOrder(), terminal);
      OrderedTerminal(ids, jobs);
      var toRemove := if |terminal| <= limits.maxHistory then 0 else |terminal| - limits.maxHistory;
      ghost var before := jobs;
      jobs := RemoveFirst(jobs, ordered, toRemove);
      PrunesOldest(before, ordered, toRemove, jobs, limits.maxHistory);
    }

    // The loop head of the worker: the loop condition and the timed `get`.
    method NextTicket()
      requires worker == Waiting
      modifies this`worker, this`queue
      ensures old(queue) != [] ==> worker == Taken(old(queue)[0]) && queue == old(queue)[1..]
      ensures old(queue) == [] ==> queue == [] && worker == if stopping then Exited else Waiting
      ensures old(queue) != [] ==> Next(old(Abstract()), Take, Abstract(), limits)
      ensures old(queue) == [] && stopping ==> Next(old(Abstract()), Exit, Abstract(), limits)
      ensures old(queue) == [] && !stopping ==> Abstract() == old(Abstract())
    {
      if !stopping || queue != [] {
        if queue != [] {
          worker, queue := Taken(queue[0]), queue[1..];
        }
      } else {
        worker := Exited;
      }
    }

    // The first lock region of `_run_job`.
    method BeginJob()
      requires worker.Taken?
      modifies this`worker, this`jobs
      ensures Next(old(Abstract()), Start, Abstract(), limits)
    {
      var id := worker.ticket.id;
      if id !in jobs {
        worker := Waiting;
        return;
      }
      jobs := jobs[id := jobs[id].(status := Running)];
      worker := Busy(worker.ticket, 0);
    }

    // The lock region after a path was enriched, or its enrichment raised.
    method RecordEntry(success: bool)
      requires worker.Busy? && worker.done < |worker.ticket.paths|
      requires worker.ticket.id in jobs ==> worker.ticket.id in made
      modifies this`worker, this`jobs, this`made
      ensures Next(old(Abstract()), Process(success), Abstract(), limits)
    {
      var id, entry := worker.ticket.id, Entry(worker.ticket.paths[worker.done], success);
      worker := Busy(worker.ticket, worker.done + 1);
      if id !in jobs {
        return;
      }
      var job := jobs[id];
      job := job.(processed := job.processed + 1);
      if success {
        job := job.(succeeded := job.succeeded + 1);
      } else {
        job := job.(failed := job.failed + 1);
      }
      if |job.results| < limits.maxResults {
        job := job.(results := job.results + [entry]);
        job := job.(returned := job.returned + 1);
      } else {
        job := job.(truncated := job.truncated + 1);
      }
      jobs := jobs[id := job];
      made := made[id := made[id] + [entry]];
    }

    // The last lock region of `_run_job`.
    method FinishJob()
      requires worker.Busy? && worker.done >= |worker.ticket.paths|
      modifies this`worker, this`jobs
      ensures Next(old(Abstract()), Finish, Abstract(), limits)
    {
      hide Pruned;
      var id := worker.ticket.id;
      worker := Waiting;
      if id !in jobs {
        return;
      }
      if jobs[id].failed > 0 {
        jobs := jobs[id := jobs[id].(status := CompletedWithErrors)];
      } else {
        jobs := jobs[id := jobs[id].(status := Completed)];
      }
      PruneTerminalJobsLocked();
    }

    // `_mark_job_failed`, when running the job raised.
    method MarkJobFailed()
      requires worker.Taken? || worker.Busy?
      modifies this`worker, this`jobs
      ensures Next(old(Abstract()), Fail, Abstract(), limits)
    {
      hide Pruned;
      var id := worker.ticket.id;
      worker := Waiting;
      if id !in jobs || IsTerminal(jobs[id]) {
        return;
      }
      jobs := jobs[id := jobs[id].(status := Failed)];
      PruneTerminalJobsLocked();
    }

    // `stop`, its lock region and then its event.
    method StopLocked()
      modifies this`accepting
      ensures Next(old(Abstract()), StopAccepting, Abstract(), limits)
    {
      accepting := false;
    }

    method StopSignal()
      requires !accepting
      modifies this`stopping
      ensures Next(old(Abstract()), SignalStop, Abstract(), limits)
    {
      stopping := true;
    }
  }

  function AtLeastOne(n: int): (r: nat)
    ensures r >= 1 && (n >= 1 ==> r == n)
  {
    if n < 1 then 1 else n
  }

  lemma NothingRemoved(jobs: map<int, Job>, ordered: seq<(int, Job)>)
    ensures jobs - FirstIds(ordered, 0) == jobs
  {
  }

  // The loop that deletes the oldest terminal jobs.
  method RemoveFirst(jobs0: map<int, Job>, ordered: seq<(int, Job)>, n: nat) returns (jobs: map<int, Job>)
    requires n <= |ordered|
    ensures jobs == jobs0 - FirstIds(ordered, n)
  {
    hide FirstIds;
    jobs := jobs0;
    NothingRemoved(jobs0, ordered);
    for i := 0 to n
      invariant jobs == jobs0 - FirstIds(ordered, i)
    {
      OneMoreRemoved(jobs0, ordered, i);
      jobs := jobs - {ordered[i].0};
    }
  }

  lemma OneMoreRemoved(before: map<int, Job>, ordered: seq<(int, Job)>, i: nat)
    requires i < |ordered|
    ensures before - FirstIds(ordered, i) - {ordered[i].0} == before - FirstIds(ordered, i + 1)
  {
    assert FirstIds(ordered, i + 1) == FirstIds(ordered, i) + {ordered[i].0};
  }
}
