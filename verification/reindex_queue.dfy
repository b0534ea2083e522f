// The bounded, coalescing reindex queue with its single background worker.
// Each method of the class is one lock region or one queue operation of the source;
// the state machine below runs them in every possible interleaving.
module ReindexQueues {
  import opened Sorting

  // A note path, of which only its identity matters here, or the key for a full sync.
  datatype Key = Sync | Note(path: int)

  // Where the worker thread stands: waiting for a key, having taken one from the
  // queue, having observed its version, reindexing it, or finished for good.
  datatype Worker =
    | NotStarted
    | Waiting
    | Taken(key: Key)
    | Observed(key: Key, version: nat)
    | Working(key: Key, version: nat)
    | Exited

  // What an observer sees happen: accepted requests and started reindex attempts.
  datatype Happening = Requested(key: Key) | Attempted(key: Key)

  datatype Status = Queued | Coalesced | QueueFull | Stopped

  datatype State = State(
    versions: map<Key, nat>, queue: seq<Key>, accepting: bool, stopping: bool,
    worker: Worker, started: nat, history: seq<Happening>)

  const INITIAL := State(map[], [], true, false, NotStarted, 0, [])

  // ----- The steps -----

  function EnqueueStatus(s: State, key: Key, maxPending: nat): Status {
    if !s.accepting then Stopped
    else if key in s.versions then Coalesced
    else if |s.versions| >= maxPending then QueueFull
    else Queued
  }

  // A worker is started only when none is alive.
  function EnsureWorker(s: State): State {
    if s.worker in {NotStarted, Exited} then s.(worker := Waiting, started := s.started + 1) else s
  }

  function Enqueue(s: State, key: Key, maxPending: nat): State {
    match EnqueueStatus(s, key, maxPending)
    case Stopped => s
    case QueueFull => s
    case Coalesced =>
      if key in s.versions
      then s.(versions := s.versions[key := s.versions[key] + 1], history := s.history + [Requested(key)])
      else s
    case Queued =>
      EnsureWorker(s.(versions := s.versions[key := 1], queue := s.queue + [key],
                      history := s.history + [Requested(key)]))
  }

  // One move of the worker thread. With nothing to do it waits, or ends once stopping.
  function WorkerStep(s: State): State {
    match s.worker
    case Waiting =>
      if s.queue != [] then s.(worker := Taken(s.queue[0]), queue := s.queue[1..])
      else if s.stopping then s.(worker := Exited)
      else s
    case Taken(k) =>
      if k in s.versions then s.(worker := Observed(k, s.versions[k])) else s.(worker := Waiting)
    case Observed(k, v) => s.(worker := Working(k, v), history := s.history + [Attempted(k)])
    case Working(k, v) =>
      if k in s.versions && s.versions[k] == v then s.(versions := s.versions - {k}, worker := Waiting)
      else if k in s.versions then s.(queue := s.queue + [k], worker := Waiting)
      else s.(worker := Waiting)
    case _ => s
  }

  datatype Step = Request(key: Key) | Work | StopAccepting | SignalStop

  // `stop` closes the queue in one lock region and sets the event afterwards.
  ghost predicate Next(s: State, e: Step, s': State, maxPending: nat) {
    match e
    case Request(key) => s' == Enqueue(s, key, maxPending)
    case Work => s' == WorkerStep(s)
    case StopAccepting => s' == s.(accepting := false)
    case SignalStop => !s.accepting && s' == s.(stopping := true)
  }

  ghost predicate Run(states: seq<State>, steps: seq<Step>, maxPending: nat) {
    && |states| == |steps| + 1 && states[0] == INITIAL
    && forall i :: 0 <= i < |steps| ==> Next(states[i], steps[i], states[i + 1], maxPending)
  }

  // ----- The queue invariant -----

  ghost function InHand(w: Worker): set<Key> {
    match w
    case Taken(k) => {k}
    case Observed(k, _) => {k}
    case Working(k, _) => {k}
    case _ => {}
  }

  ghost function KeysOf(q: seq<Key>): set<Key> {
    set k | k in q
  }

  // The keys with a version are the queued ones and the one in hand, each once.
  ghost predicate Accounts(keys: set<Key>, queue: seq<Key>, hand: set<Key>) {
    keys == KeysOf(queue) + hand && Distinct(queue) && KeysOf(queue) !! hand
  }

  ghost predicate QueueInv(s: State, maxPending: nat) {
    && Accounts(s.versions.Keys, s.queue, InHand(s.worker))
    && |s.versions| <= maxPending
    && (s.worker.Observed? || s.worker.Working? ==> s.worker.version <= s.versions[s.worker.key])
  }

  ghost predicate WorkerInv(s: State) {
    && s.started == (if s.worker == NotStarted then 0 else 1)
    && (s.worker == NotStarted ==> s.queue == [])
    && (s.worker == Exited ==> s.stopping && s.queue == [])
    && (s.stopping ==> !s.accepting)
  }

  // ----- No lost update -----

  // The last accepted request for `k` has not been followed by an attempt.
  ghost predicate Owed(h: seq<Happening>, k: Key) {
    h != [] &&
    match h[|h| - 1]
    case Requested(j) => j == k || Owed(h[..|h| - 1], k)
    case Attempted(j) => j != k && Owed(h[..|h| - 1], k)
  }

  // The worker is bound to attempt `k` again: it is queued, or in hand before its
  // attempt started, or in hand with a version that is out of date.
  ghost predicate Pending(s: State, k: Key) {
    || k in s.queue
    || s.worker == Taken(k)
    || (s.worker.Observed? && s.worker.key == k)
    || (s.worker.Working? && s.worker.key == k && k in s.versions && s.worker.version < s.versions[k])
  }

  ghost predicate Promise(s: State) {
    forall k {:trigger Owed(s.history, k)} :: Owed(s.history, k) ==> Pending(s, k)
  }

  ghost predicate Inv(s: State, maxPending: nat) {
    QueueInv(s, maxPending) && WorkerInv(s) && Promise(s)
  }

  lemma OwedAppend(h: seq<Happening>, x: Happening, k: Key)
    ensures Owed(h + [x], k) ==
            match x
            case Requested(j) => j == k || Owed(h, k)
            case Attempted(j) => j != k && Owed(h, k)
  {
    assert (h + [x])[..|h|] == h;
  }

  // The branch for a key without a version is never taken.
  lemma MissingVersionUnreachable(s: State, maxPending: nat)
    requires Inv(s, maxPending) && s.worker.Taken?
    ensures s.worker.key in s.versions
  {
    assert s.worker.key in InHand(s.worker);
  }

  lemma KeysAppend(q: seq<Key>, k: Key)
    requires Distinct(q) && k !in KeysOf(q)
    ensures KeysOf(q + [k]) == KeysOf(q) + {k} && Distinct(q + [k])
  {
    forall x
      ensures x in KeysOf(q + [k]) <==> x in KeysOf(q) + {k}
    {
    }
  }

  lemma KeysTail(q: seq<Key>)
    requires Distinct(q) && q != []
    ensures KeysOf(q[1..]) == KeysOf(q) - {q[0]} && Distinct(q[1..])
  {
    assert q == [q[0]] + q[1..];
  }

  lemma AccountsAppend(keys: set<Key>, queue: seq<Key>, hand: set<Key>, k: Key)
    requires Accounts(keys, queue, hand) && k !in keys
    ensures Accounts(keys + {k}, queue + [k], hand)
  {
    KeysAppend(queue, k);
  }

  lemma AccountsTake(keys: set<Key>, queue: seq<Key>)
    requires Accounts(keys, queue, {}) && queue != []
    ensures Accounts(keys, queue[1..], {queue[0]})
  {
    KeysTail(queue);
    assert queue[0] in KeysOf(queue);
  }

  lemma AccountsSettle(keys: set<Key>, queue: seq<Key>, k: Key)
    requires Accounts(keys, queue, {k})
    ensures Accounts(keys - {k}, queue, {}) && Accounts(keys, queue + [k], {})
  {
    KeysAppend(queue, k);
  }

  lemma AddKeepsQueue(s: State, key: Key, worker: Worker, maxPending: nat)
    requires QueueInv(s, maxPending) && key !in s.versions && |s.versions| < maxPending
    requires worker == s.worker || (InHand(s.worker) == {} && worker == Waiting)
    ensures QueueInv(s.(versions := s.versions[key := 1], queue := s.queue + [key], worker := worker), maxPending)
  {
    hide Accounts;
    HandHasVersion(s, maxPending);
    AccountsAppend(s.versions.Keys, s.queue, InHand(s.worker), key);
    var versions := s.versions[key := 1];
    assert versions.Keys == s.versions.Keys + {key};
    assert |versions.Keys| == |s.versions.Keys| + 1;
  }

  lemma CoalesceKeepsQueue(s: State, key: Key, maxPending: nat)
    requires QueueInv(s, maxPending) && key in s.versions
    ensures QueueInv(s.(versions := s.versions[key := s.versions[key] + 1]), maxPending)
  {
    hide Accounts;
    var versions := s.versions[key := s.versions[key] + 1];
    assert versions.Keys == s.versions.Keys;
    assert |versions.Keys| == |s.versions.Keys|;
  }

  lemma RequestKeepsQueue(s: State, key: Key, maxPending: nat)
    requires QueueInv(s, maxPending) && WorkerInv(s)
    ensures QueueInv(Enqueue(s, key, maxPending), maxPending) && WorkerInv(Enqueue(s, key, maxPending))
  {
    hide Accounts;
    var s' := Enqueue(s, key, maxPending);
    match EnqueueStatus(s, key, maxPending) {
      case Queued => AddKeepsQueue(s, key, s'.worker, maxPending);
      case Coalesced => CoalesceKeepsQueue(s, key, maxPending);
      case _ =>
    }
  }

  lemma RequestKeepsPromise(s: State, key: Key, maxPending: nat, k: Key)
    requires QueueInv(s, maxPending) && (Owed(s.history, k) ==> Pending(s, k))
    ensures var s' := Enqueue(s, key, maxPending); Owed(s'.history, k) ==> Pending(s', k)
  {
    hide Owed, Distinct;
    OwedAppend(s.history, Requested(key), k);
    assert key in s.versions <==> key in KeysOf(s.queue) + InHand(s.worker);
  }

  lemma RequestKeepsInv(s: State, key: Key, maxPending: nat)
    requires Inv(s, maxPending)
    ensures Inv(Enqueue(s, key, maxPending), maxPending)
  {
    hide QueueInv, WorkerInv, Owed, Pending, Enqueue;
    RequestKeepsQueue(s, key, maxPending);
    var s' := Enqueue(s, key, maxPending);
    forall k
      ensures Owed(s'.history, k) ==> Pending(s', k)
    {
      RequestKeepsPromise(s, key, maxPending, k);
    }
  }

  lemma TakeKeepsQueue(s: State, maxPending: nat)
    requires QueueInv(s, maxPending) && s.worker == Waiting && s.queue != []
    ensures QueueInv(s.(worker := Taken(s.queue[0]), queue := s.queue[1..]), maxPending)
  {
    hide Accounts;
    AccountsTake(s.versions.Keys, s.queue);
  }

  lemma PopKeepsQueue(s: State, maxPending: nat)
    requires QueueInv(s, maxPending) && s.worker.Working?
    ensures QueueInv(s.(versions := s.versions - {s.worker.key}, worker := Waiting), maxPending)
  {
    hide Accounts;
    var k := s.worker.key;
    AccountsSettle(s.versions.Keys, s.queue, k);
    assert (s.versions - {k}).Keys == s.versions.Keys - {k};
    assert |(s.versions - {k}).Keys| <= |s.versions.Keys|;
  }

  lemma RequeueKeepsQueue(s: State, maxPending: nat)
    requires QueueInv(s, maxPending) && s.worker.Working?
    ensures QueueInv(s.(queue := s.queue + [s.worker.key], worker := Waiting), maxPending)
  {
    hide Accounts;
    AccountsSettle(s.versions.Keys, s.queue, s.worker.key);
  }

  lemma WorkKeepsQueue(s: State, maxPending: nat)
    requires QueueInv(s, maxPending) && WorkerInv(s)
    ensures QueueInv(WorkerStep(s), maxPending) && WorkerInv(WorkerStep(s))
  {
    hide QueueInv;
    if s.worker == Waiting && s.queue != [] {
      TakeKeepsQueue(s, maxPending);
    } else if s.worker.Working? {
      var k := s.worker.key;
      if k in s.versions && s.versions[k] == s.worker.version {
        PopKeepsQueue(s, maxPending);
      } else {
        HandHasVersion(s, maxPending);
        RequeueKeepsQueue(s, maxPending);
      }
    } else {
      OtherMoveKeepsQueue(s, maxPending);
    }
  }

  lemma OtherMoveKeepsQueue(s: State, maxPending: nat)
    requires QueueInv(s, maxPending) && !s.worker.Working? && !(s.worker == Waiting && s.queue != [])
    ensures QueueInv(WorkerStep(s), maxPending)
  {
    hide Accounts;
    HandHasVersion(s, maxPending);
    SameHandKeepsQueue(s, WorkerStep(s), maxPending);
  }

  lemma SameHandKeepsQueue(s: State, s': State, maxPending: nat)
    requires QueueInv(s, maxPending)
    requires s'.versions == s.versions && s'.queue == s.queue && InHand(s'.worker) == InHand(s.worker)
    requires s'.worker.Observed? || s'.worker.Working? ==>
               s'.worker.key in s.versions && s'.worker.version <= s.versions[s'.worker.key]
    ensures QueueInv(s', maxPending)
  {
    hide Accounts, InHand;
  }

  lemma HandHasVersion(s: State, maxPending: nat)
    requires QueueInv(s, maxPending)
    ensures forall k :: k in InHand(s.worker) ==> k in s.versions
  {
  }

  lemma WorkKeepsPromise(s: State, maxPending: nat, k: Key)
    requires QueueInv(s, maxPending) && (Owed(s.history, k) ==> Pending(s, k))
    ensures var s' := WorkerStep(s); Owed(s'.history, k) ==> Pending(s', k)
  {
    hide Owed, Distinct;
    if s.worker.Observed? {
      OwedAppend(s.history, Attempted(s.worker.key), k);
    }
    if s.worker.Waiting? && s.queue != [] {
      assert s.queue == [s.queue[0]] + s.queue[1..];
    }
    if s.worker.Taken? {
      assert s.worker.key in InHand(s.worker);
    }
  }

  lemma WorkKeepsInv(s: State, maxPending: nat)
    requires Inv(s, maxPending)
    ensures Inv(WorkerStep(s), maxPending)
  {
    hide QueueInv, WorkerInv, Owed, Pending, WorkerStep;
    WorkKeepsQueue(s, maxPending);
    var s' := WorkerStep(s);
    forall k
      ensures Owed(s'.history, k) ==> Pending(s', k)
    {
      WorkKeepsPromise(s, maxPending, k);
    }
  }

  lemma {:induction false} RunKeepsInv(states: seq<State>, steps: seq<Step>, maxPending: nat, i: nat)
    requires Run(states, steps, maxPending) && i < |states|
    ensures Inv(states[i], maxPending)
  {
    hide Inv, Next;
    if i == 0 {
      InitialInv(maxPending);
    } else {
      RunKeepsInv(states, steps, maxPending, i - 1);
      StepKeepsInv(states[i - 1], steps[i - 1], states[i], maxPending);
    }
  }

  lemma InitialInv(maxPending: nat)
    ensures Inv(INITIAL, maxPending)
  {
  }

  lemma StepKeepsInv(s: State, e: Step, s': State, maxPending: nat)
    requires Inv(s, maxPending) && Next(s, e, s', maxPending)
    ensures Inv(s', maxPending)
  {
    hide Accounts, Owed, Enqueue, WorkerStep, Distinct;
    match e
    case Request(key) => RequestKeepsInv(s, key, maxPending);
    case Work => WorkKeepsInv(s, maxPending);
    case StopAccepting => SameButFlags(s, s', maxPending);
    case SignalStop => SameButFlags(s, s', maxPending);
  }

  lemma SameButFlags(s: State, s': State, maxPending: nat)
    requires Inv(s, maxPending) && s' == s.(accepting := s'.accepting, stopping := s'.stopping)
    requires s'.stopping ==> !s'.accepting
    requires s.stopping ==> s'.stopping
    ensures Inv(s', maxPending)
  {
    hide Accounts, Owed;
    forall k
      ensures Owed(s'.history, k) ==> Pending(s', k)
    {
      assert Owed(s.history, k) ==> Pending(s, k);
    }
  }

  // Every accepted request is followed by an attempt or the worker is still bound to make one.
  lemma NoLostUpdate(states: seq<State>, steps: seq<Step>, maxPending: nat, i: nat, key: Key)
    requires Run(states, steps, maxPending) && i < |states|
    ensures Owed(states[i].history, key) ==> Pending(states[i], key)
    ensures states[i].versions == map[] ==> !Owed(states[i].history, key)
  {
    RunKeepsInv(states, steps, maxPending, i);
    var s := states[i];
    assert Owed(s.history, key) ==> Pending(s, key);
    if Pending(s, key) {
      PendingHasVersion(s, maxPending, key);
    }
  }

  lemma PendingHasVersion(s: State, maxPending: nat, key: Key)
    requires QueueInv(s, maxPending) && Pending(s, key)
    ensures key in s.versions
  {
    HandHasVersion(s, maxPending);
    assert key in s.queue ==> key in KeysOf(s.queue);
  }

  // At most one worker thread is ever started, and the table never outgrows its bound.
  lemma OneWorkerBoundedTable(states: seq<State>, steps: seq<Step>, maxPending: nat, i: nat)
    requires Run(states, steps, maxPending) && i < |states|
    ensures states[i].started <= 1 && |states[i].versions| <= maxPending
    ensures states[i].worker.Taken? ==> states[i].worker.key in states[i].versions
  {
    RunKeepsInv(states, steps, maxPending, i);
    if states[i].worker.Taken? {
      MissingVersionUnreachable(states[i], maxPending);
    }
  }

  // ----- Every request is attempted -----

  // Moves the worker makes before it is done with the key in hand.
  function Left(w: Worker): nat {
    match w
    case Taken(_) => 3
    case Observed(_, _) => 2
    case Working(_, _) => 1
    case _ => 0
  }

  function Position(q: seq<Key>, k: Key): (i: nat)
    ensures i <= |q| && (k in q <==> i < |q|)
    ensures i < |q| ==> q[i] == k
  {
    if q == [] || q[0] == k then 0 else 1 + Position(q[1..], k)
  }

  lemma PositionAppend(q: seq<Key>, x: Key, k: Key)
    requires k in q
    ensures Position(q + [x], k) == Position(q, k)
  {
    if q[0] != k {
      assert (q + [x])[1..] == q[1..] + [x];
    }
  }

  lemma PositionNew(q: seq<Key>, k: Key)
    requires k !in q
    ensures Position(q + [k], k) == |q|
  {
    if q != [] {
      assert (q + [k])[1..] == q[1..] + [k];
    }
  }

  // A bound on the worker's moves up to and including its next attempt of a pending key.
  function Distance(s: State, k: Key, maxPending: nat): nat {
    if s.worker == Taken(k) then 2
    else if s.worker.Observed? && s.worker.key == k then 1
    else if k in s.queue then Left(s.worker) + 4 * Position(s.queue, k) + 3
    else 4 * maxPending
  }

  lemma QueueFits(s: State, maxPending: nat)
    requires QueueInv(s, maxPending)
    ensures |s.queue| + |InHand(s.worker)| <= maxPending
    ensures s.worker.Working? ==> s.worker.key !in s.queue
  {
    DistinctKeys(s.queue);
    var queued, hand := KeysOf(s.queue), InHand(s.worker);
    assert |queued + hand| == |queued| + |hand|;
    assert s.versions.Keys == queued + hand;
    assert |s.versions| == |s.versions.Keys|;
    assert s.worker.Working? ==> s.worker.key in hand;
  }

  lemma {:induction false} DistinctKeys(q: seq<Key>)
    requires Distinct(q)
    ensures |KeysOf(q)| == |q|
  {
    if q == [] {
      assert KeysOf(q) == {};
    } else {
      KeysTail(q);
      DistinctKeys(q[1..]);
      assert KeysOf(q) == KeysOf(q[1..]) + {q[0]};
    }
  }

  lemma DistanceBound(s: State, k: Key, maxPending: nat)
    requires QueueInv(s, maxPending) && Pending(s, k)
    ensures 1 <= Distance(s, k, maxPending) <= 4 * maxPending
  {
    hide QueueInv;
    QueueFits(s, maxPending);
    PendingHasVersion(s, maxPending, k);
    NonemptyTable(s, maxPending, k);
  }

  lemma NonemptyTable(s: State, maxPending: nat, k: Key)
    requires QueueInv(s, maxPending) && k in s.versions
    ensures maxPending >= 1
  {
    assert k in s.versions.Keys;
    assert |s.versions| != 0;
  }

  // What a move of the worker does for a pending key: it attempts it, or brings it nearer.
  ghost predicate Nearer(s: State, s': State, k: Key, maxPending: nat) {
    || s'.history == s.history + [Attempted(k)]
    || (Pending(s', k) && Distance(s', k, maxPending) < Distance(s, k, maxPending))
  }

  lemma SettleApproaches(s: State, k: Key, maxPending: nat)
    requires QueueInv(s, maxPending) && s.worker.Working? && Pending(s, k)
    ensures Nearer(s, WorkerStep(s), k, maxPending)
  {
    hide Accounts;
    HandHasVersion(s, maxPending);
    QueueFits(s, maxPending);
    var j := s.worker.key;
    if j == k {
      PositionNew(s.queue, k);
    } else {
      PositionAppend(s.queue, j, k);
    }
  }

  lemma WorkApproaches(s: State, k: Key, maxPending: nat)
    requires QueueInv(s, maxPending) && WorkerInv(s) && Pending(s, k)
    ensures Nearer(s, WorkerStep(s), k, maxPending)
  {
    hide Accounts;
    if s.worker.Working? {
      SettleApproaches(s, k, maxPending);
    } else {
      HandHasVersion(s, maxPending);
      if s.worker == Waiting {
        assert s.queue == [s.queue[0]] + s.queue[1..];
      }
    }
  }

  // Nothing the producers or `stop` do takes it further away.
  lemma OthersKeepDistance(s: State, e: Step, s': State, k: Key, maxPending: nat)
    requires QueueInv(s, maxPending) && WorkerInv(s) && Pending(s, k) && Next(s, e, s', maxPending) && e != Work
    ensures Pending(s', k) && Distance(s', k, maxPending) <= Distance(s, k, maxPending)
  {
    hide Accounts;
    HandHasVersion(s, maxPending);
    if e.Request? && k in s.queue && s'.queue != s.queue {
      PositionAppend(s.queue, e.key, k);
    }
  }

  lemma HistoryGrows(s: State, e: Step, s': State, maxPending: nat)
    requires Next(s, e, s', maxPending)
    ensures s.history <= s'.history
  {
  }

  // How many of the steps from `i` up to `j` are moves of the worker.
  function WorkSteps(steps: seq<Step>, i: nat, j: nat): nat
    requires j <= |steps|
    decreases j
  {
    if j <= i then 0 else WorkSteps(steps, i, j - 1) + (if steps[j - 1] == Work then 1 else 0)
  }

  // What happened from state `i` up to state `j`.
  ghost predicate AttemptedSince(s: State, s': State, k: Key) {
    s.history <= s'.history && Attempted(k) in s'.history[|s.history|..]
  }

  lemma {:induction false} ApproachOverRun(
      states: seq<State>, steps: seq<Step>, maxPending: nat, i: nat, j: nat, k: Key)
    requires Run(states, steps, maxPending) && i <= j < |states| && Pending(states[i], k)
    ensures states[i].history <= states[j].history
    ensures AttemptedSince(states[i], states[j], k)
            || (Pending(states[j], k)
                && Distance(states[j], k, maxPending) + WorkSteps(steps, i, j) <= Distance(states[i], k, maxPending))
    decreases j
  {
    hide Pending, Distance, Next, QueueInv, WorkerInv, Promise, WorkerStep;
    if i < j {
      var s, e, s' := states[j - 1], steps[j - 1], states[j];
      ApproachOverRun(states, steps, maxPending, i, j - 1, k);
      RunKeepsInv(states, steps, maxPending, j - 1);
      HistoryGrows(s, e, s', maxPending);
      if AttemptedSince(states[i], s, k) {
        AttemptStays(states[i], s, s', k);
      } else if e == Work {
        WorkIsStep(s, s', maxPending);
        WorkApproaches(s, k, maxPending);
        if s'.history == s.history + [Attempted(k)] {
          AttemptNow(states[i], s, s', k);
        }
      } else {
        OthersKeepDistance(s, e, s', k, maxPending);
      }
    }
  }

  lemma WorkIsStep(s: State, s': State, maxPending: nat)
    requires Next(s, Work, s', maxPending)
    ensures s' == WorkerStep(s)
  {
  }

  lemma AttemptStays(s0: State, s: State, s': State, k: Key)
    requires AttemptedSince(s0, s, k) && s.history <= s'.history
    ensures AttemptedSince(s0, s', k)
  {
    var n := |s0.history|;
    var x :| 0 <= x < |s.history[n..]| && s.history[n..][x] == Attempted(k);
    assert s'.history[n..][x] == Attempted(k);
  }

  lemma AttemptNow(s0: State, s: State, s': State, k: Key)
    requires s0.history <= s.history && s'.history == s.history + [Attempted(k)]
    ensures AttemptedSince(s0, s', k)
  {
    var n := |s0.history|;
    assert s'.history[n..][|s.history| - n] == Attempted(k);
  }

  // Whatever the producers do, a pending key is attempted within four moves of the worker
  // for each place in the table.
  lemma PendingIsAttempted(states: seq<State>, steps: seq<Step>, maxPending: nat, i: nat, j: nat, k: Key)
    requires Run(states, steps, maxPending) && i <= j < |states| && Pending(states[i], k)
    requires WorkSteps(steps, i, j) >= 4 * maxPending
    ensures AttemptedSince(states[i], states[j], k)
  {
    hide Pending, Distance, QueueInv, WorkerInv, Promise;
    RunKeepsInv(states, steps, maxPending, i);
    RunKeepsInv(states, steps, maxPending, j);
    DistanceBound(states[i], k, maxPending);
    ApproachOverRun(states, steps, maxPending, i, j, k);
    if Pending(states[j], k) {
      DistanceBound(states[j], k, maxPending);
    }
  }

  // A request is accepted while the queue is open if its key has a version already or the
  // table has room; it is then followed by an attempt of the key that starts after it, also
  // when it arrives while the same key is being processed.
  lemma RequestIsAttempted(states: seq<State>, steps: seq<Step>, maxPending: nat, i: nat, j: nat, k: Key)
    requires Run(states, steps, maxPending) && i < j < |states| && steps[i] == Request(k)
    requires states[i].accepting && (k in states[i].versions || |states[i].versions| < maxPending)
    requires WorkSteps(steps, i + 1, j) >= 4 * maxPending
    ensures AttemptedSince(states[i + 1], states[j], k)
  {
    hide Owed, QueueInv, WorkerInv, AttemptedSince;
    RunKeepsInv(states, steps, maxPending, i + 1);
    assert states[i + 1].history == states[i].history + [Requested(k)];
    OwedAppend(states[i].history, Requested(k), k);
    assert Owed(states[i + 1].history, k) ==> Pending(states[i + 1], k);
    PendingIsAttempted(states, steps, maxPending, i + 1, j, k);
  }

  // ----- Draining after stop -----

  // Moves the worker has left: a key is requeued only when its version is out of date,
  // which happens at most once after the queue stopped accepting.
  ghost function Moves(s: State): nat {
    4 * |s.queue| +
    match s.worker
    case Taken(_) => 3
    case Observed(k, v) => if k in s.versions && s.versions[k] != v then 6 else 2
    case Working(k, v) => if k in s.versions && s.versions[k] != v then 5 else 1
    case _ => 0
  }

  lemma MoveDecreases(s: State, maxPending: nat)
    requires Inv(s, maxPending) && Moves(s) > 0 && s.worker != NotStarted
    ensures Moves(WorkerStep(s)) == Moves(s) - 1
    ensures WorkerStep(s).worker != NotStarted
  {
    HandHasVersion(s, maxPending);
  }

  ghost function Drained(s: State, moves: nat): State
    decreases moves
  {
    if moves == 0 then s else Drained(WorkerStep(s), moves - 1)
  }

  // Once the queue accepts nothing more, the worker alone empties the table in exactly
  // `Moves` moves; by then every accepted request has been followed by an attempt.
  lemma {:induction false} StopDrains(s: State, maxPending: nat)
    requires Inv(s, maxPending) && s.stopping && s.worker != NotStarted
    ensures var d := Drained(s, Moves(s));
            && Inv(d, maxPending) && d.versions == map[] && d.queue == []
            && (forall k :: !Owed(d.history, k))
            && WorkerStep(d).worker == Exited
    decreases Moves(s)
  {
    hide QueueInv, Owed, Moves, WorkerStep;
    if Moves(s) == 0 {
      NoMovesLeft(s, maxPending);
    } else {
      WorkKeepsInv(s, maxPending);
      MoveDecreases(s, maxPending);
      StillStopping(s);
      StopDrains(WorkerStep(s), maxPending);
    }
  }

  lemma StillStopping(s: State)
    ensures WorkerStep(s).stopping == s.stopping
  {
  }

  lemma NoMovesLeft(s: State, maxPending: nat)
    requires Inv(s, maxPending) && s.stopping && s.worker != NotStarted && Moves(s) == 0
    ensures s.versions == map[] && s.queue == [] && WorkerStep(s).worker == Exited
    ensures forall k :: !Owed(s.history, k)
  {
    hide Owed;
    assert InHand(s.worker) == {} && s.queue == [];
    EmptyTable(s, maxPending);
    forall k
      ensures !Owed(s.history, k)
    {
      assert Owed(s.history, k) ==> Pending(s, k);
    }
  }

  lemma EmptyTable(s: State, maxPending: nat)
    requires QueueInv(s, maxPending) && InHand(s.worker) == {} && s.queue == []
    ensures s.versions == map[]
  {
    assert KeysOf(s.queue) == {};
    assert s.versions.Keys == {};
  }

  // ----- The class -----

  class ReindexQueue {
    const maxPending: nat
    var versions: map<Key, nat>
    var queue: seq<Key>
    var accepting: bool
    var stopping: bool
    // The worker thread and the values it holds in its own variables.
    var worker: Worker
    ghost var started: nat
    ghost var history: seq<Happening>

    constructor (maxPending: int)
      ensures this.maxPending == if maxPending < 1 then 1 else maxPending
      ensures Abstract() == INITIAL
    {
      this.maxPending := if maxPending < 1 then 1 else maxPending;
      versions, queue, accepting, stopping, worker := map[], [], true, false, NotStarted;
      started, history := 0, [];
    }

    ghost function Abstract(): State
      reads this
    {
      State(versions, queue, accepting, stopping, worker, started, history)
    }

    // `_enqueue_key`, one lock region.
    method EnqueueKey(key: Key) returns (status: Status)
      modifies this
      ensures status == Stopped <==> !old(accepting)
      ensures status == Coalesced <==> old(accepting) && key in old(versions)
      ensures status == QueueFull <==> old(accepting) && key !in old(versions) && |old(versions)| >= maxPending
      ensures status == Queued <==> old(accepting) && key !in old(versions) && |old(versions)| < maxPending
      ensures status in {Stopped, QueueFull} ==> Abstract() == old(Abstract())
      ensures status == Coalesced ==>
                versions == old(versions)[key := old(versions)[key] + 1] && queue == old(queue) && worker == old(worker)
      ensures status == Queued ==>
                && versions == old(versions)[key := 1] && queue == old(queue) + [key]
                && worker == (if old(worker) == NotStarted || old(worker) == Exited then Waiting else old(worker))
      ensures Abstract() == Enqueue(old(Abstract()), key, maxPending)
    {
      if !accepting {
        return Stopped;
      }
      if key in versions {
        versions := versions[key := versions[key] + 1];
        history := history + [Requested(key)];
        return Coalesced;
      }
      if |versions| >= maxPending {
        return QueueFull;
      }
      versions := versions[key := 1];
      queue := queue + [key];
      history := history + [Requested(key)];
      EnsureWorkerLocked();
      return Queued;
    }

    // `_ensure_worker_locked`
    method EnsureWorkerLocked()
      modifies this`worker, this`started
      ensures Abstract() == EnsureWorker(old(Abstract()))
    {
      if worker != NotStarted && worker != Exited {
        return;
      }
      worker, started := Waiting, started + 1;
    }

    // The worker loop's head: the loop condition and the timed `get`.
    method NextKey()
      requires worker == Waiting
      modifies this
      ensures old(queue) != [] ==> worker == Taken(old(queue)[0]) && queue == old(queue)[1..]
      ensures old(queue) == [] ==> queue == [] && worker == if stopping then Exited else Waiting
      ensures versions == old(versions)
      ensures Abstract() == WorkerStep(old(Abstract()))
    {
      if !stopping || queue != [] {
        if queue != [] {
          worker, queue := Taken(queue[0]), queue[1..];
        }
      } else {
        worker := Exited;
      }
    }

    // The lock region that reads the version of the key in hand.
    method ObserveVersion()
      requires worker.Taken?
      modifies this
      ensures Abstract() == WorkerStep(old(Abstract()))
    {
      var key := worker.key;
      if key !in versions {
        worker := Waiting;
        return;
      }
      worker := Observed(key, versions[key]);
    }

    // The reindex attempt itself, outside the lock; whatever it returns or raises, the
    // worker goes on to settle the key.
    method Attempt()
      requires worker.Observed?
      modifies this
      ensures Abstract() == WorkerStep(old(Abstract()))
    {
      history := history + [Attempted(worker.key)];
      worker := Working(worker.key, worker.version);
    }

    // The `finally` lock region: forget the key, or queue it again if it changed meanwhile.
    method Settle()
      requires worker.Working?
      modifies this
      ensures var k, v := old(worker).key, old(worker).version;
              && worker == Waiting
              && versions == (if k in old(versions) && old(versions)[k] == v then old(versions) - {k} else old(versions))
              && queue == (if k in old(versions) && old(versions)[k] != v then old(queue) + [k] else old(queue))
      ensures Abstract() == WorkerStep(old(Abstract()))
    {
      var key, observed := worker.key, worker.version;
      if key in versions && versions[key] == observed {
        versions := versions - {key};
      } else if key in versions {
        queue := queue + [key];
      }
      worker := Waiting;
    }

    // `stop`, its lock region and then its event.
    method StopLocked()
      modifies this`accepting
      ensures Next(old(Abstract()), StopAccepting, Abstract(), maxPending)
    {
      accepting := false;
    }

    method StopSignal()
      requires !accepting
      modifies this`stopping
      ensures Next(old(Abstract()), SignalStop, Abstract(), maxPending)
    {
      stopping := true;
    }
  }
}
