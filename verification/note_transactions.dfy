// Concurrent create, write, append, frontmatter, delete and move operations on
// notes: per-path locks around a read-modify-write whose replacement checks that
// the file still has the revision observed at the start.
module NoteTransactions {
  import opened Options

  type Path = string
  type Text = string

  // A file and its revision. Every write gives a file a revision never used before.
  datatype File = File(text: Text, revision: nat)

  type Files = map<Path, File>

  type Contents = map<Path, Text>

  function TextsOf(files: Files): Contents {
    map p | p in files :: files[p].text
  }

  // `file_revision`: None for a missing file.
  function Revision(files: Files, p: Path): Option<nat> {
    if p in files then Some(files[p].revision) else None
  }

  // ----- The operations and what each means on its own -----

  // What a rewriting function makes of a note: leave it, refuse, or new text.
  datatype Rewriting = Keep | Refuse | NewText(text: Text)

  datatype Op =
    | Create(path: Path, text: Text)
    | Write(path: Path, text: Text)
    | Append(path: Path, text: Text, separator: Text)
    | Rewrite(path: Path, rewriting: Text -> Rewriting)  // frontmatter update, id, enrichment
    | Delete(path: Path)
    | Move(path: Path, to: Path)

  predicate EndsWith(s: Text, suffix: Text) {
    |s| >= |suffix| && s[|s| - |suffix|..] == suffix
  }

  function AppendText(existing: Text, text: Text, separator: Text): Text {
    if EndsWith(existing, separator) then existing + text else existing + separator + text
  }

  // The text an operation that reads the note would leave, with the size limit applied.
  function Computed(op: Op, text: Text, limit: nat): Rewriting {
    match op
    case Append(_, more, sep) =>
      var t := AppendText(text, more, sep);
      if |t| > limit then Refuse else NewText(t)
    case Rewrite(_, f) => f(text)
    case _ => Keep
  }

  // The sequential meaning: the contents after the operation, or None when it refuses.
  function Apply(op: Op, c: Contents, limit: nat): Option<Contents> {
    match op
    case Create(p, t) => if p in c then None else Some(c[p := t])
    case Write(p, t) => Some(c[p := t])
    case Append(p, _, _) =>
      if p !in c then None
      else (match Computed(op, c[p], limit)
            case NewText(t) => Some(c[p := t])
            case _ => None)
    case Rewrite(p, _) =>
      if p !in c then None
      else (match Computed(op, c[p], limit)
            case Keep => Some(c)
            case Refuse => None
            case NewText(t) => Some(c[p := t]))
    case Delete(p) => if p in c then Some(c - {p}) else None
    case Move(p, to) => if p in c && to !in c then Some((c - {p})[to := c[p]]) else None
  }

  // ----- What the operations promise of a note's text -----

  ghost function AppendedLength(before: Text, more: Text, separator: Text): nat {
    |before| + |more|
    + if |before| >= |separator| && before[|before| - |separator|..] == separator then 0 else |separator|
  }

  // An append keeps the whole note and puts the new text after it, with exactly one separator
  // in between unless the note ends with it.
  ghost predicate Appended(before: Text, after: Text, more: Text, separator: Text) {
    && before <= after && |after| == AppendedLength(before, more, separator)
    && |after| >= |separator| + |more| && after[|after| - |separator| - |more|..] == separator + more
  }

  // Which texts an operation that reads the note refuses, and which it leaves as they are.
  ghost predicate Refuses(op: Op, text: Text, limit: nat) {
    match op
    case Append(_, more, sep) => AppendedLength(text, more, sep) > limit
    case Rewrite(_, f) => f(text) == Refuse
    case _ => false
  }

  ghost predicate Keeps(op: Op, text: Text) {
    op.Rewrite? && op.rewriting(text) == Keep
  }

  ghost predicate SameElsewhere(c: Contents, c': Contents, p: Path) {
    forall q :: q != p ==> (q in c <==> q in c') && (q in c ==> c'[q] == c[q])
  }

  // What a successful operation makes of the vault.
  ghost predicate Effect(op: Op, c: Contents, c': Contents, limit: nat) {
    match op
    case Create(p, t) => p !in c && c' == c[p := t]
    case Write(p, t) => c' == c[p := t]
    case Append(p, more, sep) =>
      && p in c && p in c' && Appended(c[p], c'[p], more, sep) && |c'[p]| <= limit && SameElsewhere(c, c', p)
    case Rewrite(p, f) =>
      p in c && if f(c[p]) == Keep then c' == c else f(c[p]).NewText? && c' == c[p := f(c[p]).text]
    case Delete(p) => p in c && c' == c - {p}
    case Move(p, to) => p in c && to !in c && c' == (c - {p})[to := c[p]]
  }

  lemma AppendTextAppends(before: Text, more: Text, separator: Text)
    ensures Appended(before, AppendText(before, more, separator), more, separator)
  {
    var t := AppendText(before, more, separator);
    if EndsWith(before, separator) {
      var k := |before| - |separator|;
      assert before == before[..k] + separator;
      assert t == before[..k] + (separator + more);
    } else {
      assert t == before + (separator + more);
    }
  }

  lemma AppendedIsUnique(before: Text, t: Text, u: Text, more: Text, separator: Text)
    requires Appended(before, t, more, separator) && Appended(before, u, more, separator)
    ensures t == u
  {
    var k := |t| - |separator| - |more|;
    assert k <= |before|;
    assert t == t[..k] + t[k..] && u == u[..k] + u[k..];
    assert t[..k] == before[..k] == u[..k];
  }

  lemma ComputedMeans(op: Op, text: Text, limit: nat)
    requires Reads(op)
    ensures Computed(op, text, limit) == Refuse <==> Refuses(op, text, limit)
    ensures Computed(op, text, limit) == Keep <==> Keeps(op, text)
  {
    if op.Append? { AppendTextAppends(text, op.text, op.separator); }
  }

  // The operations do exactly this, and nothing else meets the description.
  lemma ApplyIsEffect(op: Op, c: Contents, c': Contents, limit: nat)
    ensures Apply(op, c, limit) == Some(c') <==> Effect(op, c, c', limit)
  {
    hide AppendText, Appended;
    if op.Append? && op.path in c {
      var p := op.path;
      AppendTextAppends(c[p], op.text, op.separator);
      var t := AppendText(c[p], op.text, op.separator);
      AppendedFits(c[p], t, op.text, op.separator, limit);
      if Effect(op, c, c', limit) {
        AppendedIsUnique(c[p], t, c'[p], op.text, op.separator);
        AppendedFits(c[p], c'[p], op.text, op.separator, limit);
        assert c' == c[p := t];
      }
    }
  }

  lemma ComputedHasEffect(op: Op, c: Contents, limit: nat)
    requires Reads(op) && op.path in c
    ensures match Computed(op, c[op.path], limit)
            case Refuse => true
            case Keep => Effect(op, c, c, limit)
            case NewText(t) => Effect(op, c, c[op.path := t], limit)
  {
    hide AppendText, Effect;
    match Computed(op, c[op.path], limit)
    case Refuse =>
    case Keep => ApplyIsEffect(op, c, c, limit);
    case NewText(t) => ApplyIsEffect(op, c, c[op.path := t], limit);
  }

  lemma AppendedFits(before: Text, after: Text, more: Text, separator: Text, limit: nat)
    requires Appended(before, after, more, separator)
    ensures |after| == AppendedLength(before, more, separator)
  {
  }

  predicate Reads(op: Op) { op.Append? || op.Rewrite? }

  function PathsOf(op: Op): set<Path> {
    if op.Move? then {op.path, op.to} else {op.path}
  }

  // ----- Processes -----

  datatype Verdict = Success | Refused | Conflict | TimedOut | Failed

  // Where an operation stands. `seen` is the revision of its path observed first, and
  // `text` what it read; a process past Start holds the locks of its paths until Done.
  datatype Stage =
    | Start
    | Locked
    | Observed(seen: Option<nat>)
    | HasText(seen: Option<nat>, text: Text)
    | Ready(seen: Option<nat>, text: Text, next: Text)
    | Done(verdict: Verdict)

  datatype Process = Process(op: Op, stage: Stage)

  type Id = nat

  // What changed the files, in order: operations that succeeded and external edits.
  datatype Change = Did(id: Id) | External(path: Path, text: Option<Text>)

  datatype State = State(
    files: Files, nextRevision: nat, processes: map<Id, Process>, locks: map<Path, Id>, log: seq<Change>)

  datatype Event =
    | Acquire(id: Id)
    | GiveUp(id: Id)
    | Observe(id: Id)
    | ReadText(id: Id)
    | Recheck(id: Id)
    | Commit(id: Id)
    | Break(id: Id)
    | Edit(path: Path, text: Option<Text>)

  // Refusals that need only the revision: create of an existing note, or anything but
  // write on a missing one.
  predicate RefusedEarly(op: Op, files: Files) {
    match op
    case Create(p, _) => p in files
    case Write(_, _) => false
    case Move(p, to) => p !in files || to in files
    case _ => op.path !in files
  }

  function Finish(s: State, id: Id, v: Verdict): State
    requires id in s.processes
  {
    s.(processes := s.processes[id := s.processes[id].(stage := Done(v))],
       locks := map p | p in s.locks && s.locks[p] != id :: s.locks[p])
  }

  function Advance(s: State, id: Id, stage: Stage): State
    requires id in s.processes
  {
    s.(processes := s.processes[id := s.processes[id].(stage := stage)])
  }

  function PutFile(s: State, p: Path, t: Text): State {
    s.(files := s.files[p := File(t, s.nextRevision)], nextRevision := s.nextRevision + 1)
  }

  // The replacement, once the revisions have been found unchanged.
  function Replace(s: State, op: Op, next: Text): State {
    match op
    case Create(p, t) => PutFile(s, p, t)
    case Write(p, t) => PutFile(s, p, t)
    case Delete(p) => s.(files := s.files - {p})
    case Move(p, to) => if p in s.files then s.(files := (s.files - {p})[to := s.files[p]]) else s
    case _ => PutFile(s, op.path, next)
  }

  // The check just before the replacement.
  predicate Unchanged(op: Op, files: Files, seen: Option<nat>) {
    Revision(files, op.path) == seen && (op.Move? ==> op.to !in files)
  }

  function Step(s: State, e: Event, limit: nat): State {
    match e
    case Edit(p, t) =>
      (if t == None then s.(files := s.files - {p}) else PutFile(s, p, t.value))
      .(log := s.log + [External(p, t)])
    case _ =>
      if e.id !in s.processes then s
      else ProcessStep(s, e, s.processes[e.id], limit)
  }

  function ProcessStep(s: State, e: Event, pr: Process, limit: nat): State
    requires !e.Edit? && e.id in s.processes && s.processes[e.id] == pr
  {
    var op := pr.op;
    match (e, pr.stage)
    case (Acquire(id), Start) =>
      if PathsOf(op) * s.locks.Keys != {} then s
      else Advance(s, id, Locked).(locks := s.locks + map p | p in PathsOf(op) :: id)
    case (GiveUp(id), Start) => Finish(s, id, TimedOut)
    case (Observe(id), Locked) =>
      if RefusedEarly(op, s.files) then Finish(s, id, Refused)
      else Advance(s, id, Observed(Revision(s.files, op.path)))
    case (ReadText(id), Observed(seen)) =>
      if !Reads(op) then s
      else if op.path in s.files then Advance(s, id, HasText(seen, s.files[op.path].text))
      else Finish(s, id, Failed)
    case (Recheck(id), HasText(seen, text)) =>
      if Revision(s.files, op.path) != seen then Finish(s, id, Conflict)
      else (match Computed(op, text, limit)
            case Refuse => Finish(s, id, Refused)
            case Keep => Finish(s, id, Success).(log := s.log + [Did(id)])
            case NewText(t) => Advance(s, id, Ready(seen, text, t)))
    case (Commit(id), Observed(seen)) =>
      if Reads(op) then s
      else if !Unchanged(op, s.files, seen) then Finish(s, id, Conflict)
      else Finish(Replace(s, op, ""), id, Success).(log := s.log + [Did(id)])
    case (Commit(id), Ready(seen, _, next)) =>
      if !Unchanged(op, s.files, seen) then Finish(s, id, Conflict)
      else Finish(Replace(s, op, next), id, Success).(log := s.log + [Did(id)])
    case (Break(id), stage) =>
      if stage.Start? || stage.Done? then s else Finish(s, id, Failed)
    case _ => s
  }

  ghost predicate Init(s: State) {
    && (forall id :: id in s.processes ==> s.processes[id].stage == Start)
    && s.locks == map[] && s.log == []
    && (forall p :: p in s.files ==> s.files[p].revision < s.nextRevision)
  }

  ghost predicate Run(states: seq<State>, events: seq<Event>, limit: nat) {
    && |states| == |events| + 1 && Init(states[0])
    && forall i :: 0 <= i < |events| ==> states[i + 1] == Step(states[i], events[i], limit)
  }

  // ----- Serializability -----

  // Replaying the changes one after the other; None if an operation would refuse.
  ghost function Replay(ops: map<Id, Op>, c: Contents, log: seq<Change>, limit: nat): Option<Contents> {
    if log == [] then Some(c)
    else
      var before := Replay(ops, c, log[..|log| - 1], limit);
      if before == None then None
      else match log[|log| - 1]
        case External(p, t) => Some(if t == None then before.value - {p} else before.value[p := t.value])
        case Did(id) => if id in ops then Apply(ops[id], before.value, limit) else None
  }

  ghost function OpsOf(s: State): map<Id, Op> {
    map id | id in s.processes :: s.processes[id].op
  }

  // What a process knows stays true until the file gets another revision.
  ghost predicate KnowsText(s: State, pr: Process) {
    match pr.stage
    case HasText(seen, text) =>
      pr.op.path in s.files && Some(s.files[pr.op.path].revision) == seen ==> s.files[pr.op.path].text == text
    case Ready(seen, text, next) =>
      pr.op.path in s.files && Some(s.files[pr.op.path].revision) == seen ==> s.files[pr.op.path].text == text
    case _ => true
  }

  ghost predicate StageOk(s: State, pr: Process, limit: nat) {
    && KnowsText(s, pr)
    && (match pr.stage
        case Observed(seen) =>
          && (seen.Some? ==> seen.value < s.nextRevision)
          && (pr.op.Create? ==> seen == None) && (!pr.op.Create? && !pr.op.Write? ==> seen.Some?)
        case HasText(seen, _) => Reads(pr.op) && seen.Some? && seen.value < s.nextRevision
        case Ready(seen, text, next) =>
          Reads(pr.op) && seen.Some? && seen.value < s.nextRevision && Computed(pr.op, text, limit) == NewText(next)
        case _ => true)
  }

  ghost predicate Active(stage: Stage) {
    !stage.Start? && !stage.Done?
  }

  // A lock is held exactly by the active process whose operation names the path.
  ghost predicate Holds(s: State, id: Id) {
    id in s.processes && Active(s.processes[id].stage) ==>
      forall p :: p in PathsOf(s.processes[id].op) ==> p in s.locks && s.locks[p] == id
  }

  ghost predicate Stages(s: State, limit: nat) {
    && (forall p :: p in s.files ==> s.files[p].revision < s.nextRevision)
    && (forall id {:trigger Holds(s, id)} :: Holds(s, id))
    && (forall id {:trigger s.processes[id]} :: id in s.processes ==> StageOk(s, s.processes[id], limit))
  }

  ghost predicate Serial(s: State, ops: map<Id, Op>, start: Contents, limit: nat) {
    OpsOf(s) == ops && Replay(ops, start, s.log, limit) == Some(TextsOf(s.files))
  }

  ghost function Times(log: seq<Change>, id: Id): nat {
    if log == [] then 0 else Times(log[..|log| - 1], id) + if log[|log| - 1] == Did(id) then 1 else 0
  }

  ghost predicate Succeeded(s: State, id: Id) {
    id in s.processes && s.processes[id].stage == Done(Success)
  }

  // The log lists every successful operation once and no other operation.
  ghost predicate LogOk(s: State) {
    forall id {:trigger Times(s.log, id)} :: Times(s.log, id) == if Succeeded(s, id) then 1 else 0
  }

  ghost predicate Inv(s: State, ops: map<Id, Op>, start: Contents, limit: nat) {
    Stages(s, limit) && Serial(s, ops, start, limit) && LogOk(s)
  }

  // ----- Steps that leave the files alone -----

  lemma AdvanceKeepsStages(s: State, id: Id, stage: Stage, limit: nat)
    requires Stages(s, limit) && id in s.processes
    requires Active(s.processes[id].stage) && Active(stage)
    requires StageOk(s, s.processes[id].(stage := stage), limit)
    ensures Stages(Advance(s, id, stage), limit)
  {
    var s' := Advance(s, id, stage);
    forall j
      ensures Holds(s', j)
      ensures j in s'.processes ==> StageOk(s', s'.processes[j], limit)
    {
      assert Holds(s, j);
      assert j in s.processes ==> StageOk(s, s.processes[j], limit);
    }
  }

  lemma FinishKeepsStages(s: State, id: Id, v: Verdict, limit: nat)
    requires Stages(s, limit) && id in s.processes
    ensures Stages(Finish(s, id, v), limit)
  {
    var s' := Finish(s, id, v);
    forall j
      ensures Holds(s', j)
      ensures j in s'.processes ==> StageOk(s', s'.processes[j], limit)
    {
      assert Holds(s, j);
      assert j in s.processes ==> StageOk(s, s.processes[j], limit);
    }
  }

  lemma AcquireKeepsStages(s: State, id: Id, limit: nat)
    requires Stages(s, limit) && id in s.processes && s.processes[id].stage == Start
    requires PathsOf(s.processes[id].op) * s.locks.Keys == {}
    ensures var s' := Advance(s, id, Locked);
            Stages(s'.(locks := s.locks + map p | p in PathsOf(s.processes[id].op) :: id), limit)
  {
    var s' := Advance(s, id, Locked).(locks := s.locks + map p | p in PathsOf(s.processes[id].op) :: id);
    forall j
      ensures Holds(s', j)
      ensures j in s'.processes ==> StageOk(s', s'.processes[j], limit)
    {
      assert Holds(s, j);
      assert j in s.processes ==> StageOk(s, s.processes[j], limit);
    }
  }

  // ----- Steps that change the files -----

  // Files at paths outside `touched` are as before; touched files are gone or have a
  // revision that was not handed out before.
  ghost predicate ChangesOnly(s: State, s': State, touched: set<Path>) {
    && s'.nextRevision >= s.nextRevision
    && (forall p :: p !in touched ==> (p in s.files <==> p in s'.files) && (p in s.files ==> s'.files[p] == s.files[p]))
    && (forall p :: p in s'.files ==> s'.files[p].revision < s'.nextRevision)
  }

  // An external edit cannot make what a process knows false: the new revision is fresh.
  lemma EditKeepsStages(s: State, p: Path, t: Option<Text>, limit: nat)
    requires Stages(s, limit)
    ensures Stages(Step(s, Edit(p, t), limit), limit)
  {
    var s' := Step(s, Edit(p, t), limit);
    forall j
      ensures Holds(s', j)
      ensures j in s'.processes ==> StageOk(s', s'.processes[j], limit)
    {
      assert Holds(s, j);
      assert j in s.processes ==> StageOk(s, s.processes[j], limit);
    }
  }

  // Two active processes name no path in common.
  lemma ActiveDisjoint(s: State, i: Id, j: Id, limit: nat)
    requires Stages(s, limit) && i in s.processes && j in s.processes && i != j
    requires Active(s.processes[i].stage) && Active(s.processes[j].stage)
    ensures PathsOf(s.processes[i].op) !! PathsOf(s.processes[j].op)
  {
    assert Holds(s, i) && Holds(s, j);
    forall p | p in PathsOf(s.processes[i].op)
      ensures p !in PathsOf(s.processes[j].op)
    {
      assert s.locks[p] == i;
    }
  }

  lemma ReplaceChangesOnly(s: State, op: Op, next: Text)
    requires forall p :: p in s.files ==> s.files[p].revision < s.nextRevision
    ensures ChangesOnly(s, Replace(s, op, next), PathsOf(op))
    ensures var s' := Replace(s, op, next);
            s'.processes == s.processes && s'.locks == s.locks && s'.log == s.log
  {
  }

  lemma CommitKeepsStages(s: State, id: Id, next: Text, limit: nat)
    requires Stages(s, limit) && id in s.processes && Active(s.processes[id].stage)
    ensures Stages(Finish(Replace(s, s.processes[id].op, next), id, Success), limit)
  {
    var op := s.processes[id].op;
    var r := Replace(s, op, next);
    var s' := Finish(r, id, Success);
    ReplaceChangesOnly(s, op, next);
    forall j
      ensures Holds(s', j)
      ensures j in s'.processes ==> StageOk(s', s'.processes[j], limit)
    {
      assert Holds(s, j);
      if j in s.processes && j != id {
        assert StageOk(s, s.processes[j], limit);
        if Active(s.processes[j].stage) {
          ActiveDisjoint(s, id, j, limit);
        }
      }
    }
  }

  // ----- The log -----

  lemma ReplayAppend(ops: map<Id, Op>, c: Contents, log: seq<Change>, x: Change, limit: nat)
    ensures Replay(ops, c, log + [x], limit) ==
            var before := Replay(ops, c, log, limit);
            if before == None then None
            else match x
              case External(p, t) => Some(if t == None then before.value - {p} else before.value[p := t.value])
              case Did(id) => if id in ops then Apply(ops[id], before.value, limit) else None
  {
    assert (log + [x])[..|log|] == log;
  }

  // A replacement whose check passed is the operation applied to the current contents.
  lemma ReplaceIsApply(s: State, op: Op, seen: Option<nat>, next: Text, limit: nat)
    requires Unchanged(op, s.files, seen)
    requires op.Create? ==> seen == None
    requires !op.Create? && !op.Write? ==> seen.Some?
    requires Reads(op) ==> op.path in s.files && Computed(op, s.files[op.path].text, limit) == NewText(next)
    ensures Apply(op, TextsOf(s.files), limit) == Some(TextsOf(Replace(s, op, next).files))
  {
    var c, c' := TextsOf(s.files), TextsOf(Replace(s, op, next).files);
    match op
    case Create(p, t) => assert c' == c[p := t];
    case Write(p, t) => assert c' == c[p := t];
    case Append(p, _, _) => assert c' == c[p := next];
    case Rewrite(p, _) => assert c' == c[p := next];
    case Delete(p) => assert c' == c - {p};
    case Move(p, to) => assert c' == (c - {p})[to := c[p]];
  }

  lemma TimesAppend(log: seq<Change>, x: Change, id: Id)
    ensures Times(log + [x], id) == Times(log, id) + (if x == Did(id) then 1 else 0)
  {
    assert (log + [x])[..|log|] == log;
  }

  lemma OpsKept(s: State, id: Id, stage: Stage, v: Verdict)
    requires id in s.processes
    ensures OpsOf(Advance(s, id, stage)) == OpsOf(s) && OpsOf(Finish(s, id, v)) == OpsOf(s)
  {
  }

  lemma AdvanceKeepsInv(s: State, id: Id, stage: Stage, ops: map<Id, Op>, start: Contents, limit: nat)
    requires Inv(s, ops, start, limit) && id in s.processes && Active(s.processes[id].stage) && Active(stage)
    requires StageOk(s, s.processes[id].(stage := stage), limit)
    ensures Inv(Advance(s, id, stage), ops, start, limit)
  {
    AdvanceKeepsStages(s, id, stage, limit);
    hide Stages, StageOk;
    OpsKept(s, id, stage, Failed);
  }

  // Ending without success changes neither the files nor the log.
  lemma GiveUpKeepsInv(s: State, id: Id, v: Verdict, ops: map<Id, Op>, start: Contents, limit: nat)
    requires Inv(s, ops, start, limit) && id in s.processes && !s.processes[id].stage.Done? && v != Success
    ensures Inv(Finish(s, id, v), ops, start, limit)
  {
    FinishKeepsStages(s, id, v, limit);
    hide Stages, StageOk;
    OpsKept(s, id, Start, v);
  }

  lemma AcquireKeepsInv(s: State, id: Id, ops: map<Id, Op>, start: Contents, limit: nat)
    requires Inv(s, ops, start, limit) && id in s.processes && s.processes[id].stage == Start
    requires PathsOf(s.processes[id].op) * s.locks.Keys == {}
    ensures var s' := Advance(s, id, Locked).(locks := s.locks + map p | p in PathsOf(s.processes[id].op) :: id);
            Inv(s', ops, start, limit)
  {
    AcquireKeepsStages(s, id, limit);
    hide Stages, StageOk;
    OpsKept(s, id, Locked, Failed);
  }

  // Success: the log grows by the operation, applied to the contents at that moment.
  lemma SuccessKeepsInv(s: State, r: State, id: Id, ops: map<Id, Op>, start: Contents, limit: nat)
    requires Inv(s, ops, start, limit) && id in s.processes && !s.processes[id].stage.Done?
    requires r.processes == s.processes && r.locks == s.locks && r.log == s.log
    requires Apply(s.processes[id].op, TextsOf(s.files), limit) == Some(TextsOf(r.files))
    requires Stages(Finish(r, id, Success), limit)
    ensures var f := Finish(r, id, Success); Inv(f.(log := s.log + [Did(id)]), ops, start, limit)
  {
    var f := Finish(r, id, Success);
    var s' := f.(log := s.log + [Did(id)]);
    assert Stages(s', limit) by { SameButLog(f, s', limit); }
    hide Stages, StageOk, Replay, Apply;
    OpsKept(r, id, Start, Success);
    assert ops[id] == s.processes[id].op;
    ReplayAppend(ops, start, s.log, Did(id), limit);
    forall j
      ensures Times(s'.log, j) == if Succeeded(s', j) then 1 else 0
    {
      TimesAppend(s.log, Did(id), j);
      assert Times(s.log, j) == if Succeeded(s, j) then 1 else 0;
    }
  }

  lemma SameButLog(f: State, s': State, limit: nat)
    requires Stages(f, limit) && s' == f.(log := s'.log)
    ensures Stages(s', limit)
  {
    forall j
      ensures Holds(s', j)
      ensures j in s'.processes ==> StageOk(s', s'.processes[j], limit)
    {
      assert Holds(f, j);
      assert j in f.processes ==> StageOk(f, f.processes[j], limit);
    }
  }

  lemma TextsAfterEdit(s: State, p: Path, t: Option<Text>, limit: nat)
    ensures var files := Step(s, Edit(p, t), limit).files;
            TextsOf(files) == if t == None then TextsOf(s.files) - {p} else TextsOf(s.files)[p := t.value]
  {
  }

  lemma EditKeepsInv(s: State, p: Path, t: Option<Text>, ops: map<Id, Op>, start: Contents, limit: nat)
    requires Inv(s, ops, start, limit)
    ensures Inv(Step(s, Edit(p, t), limit), ops, start, limit)
  {
    var s' := Step(s, Edit(p, t), limit);
    EditKeepsStages(s, p, t, limit);
    ReplayAppend(ops, start, s.log, External(p, t), limit);
    TextsAfterEdit(s, p, t, limit);
    hide Stages, Replay, TextsOf;
    forall j
      ensures Times(s'.log, j) == if Succeeded(s', j) then 1 else 0
    {
      TimesAppend(s.log, External(p, t), j);
    }
  }

  lemma CommitKeepsInv(s: State, id: Id, next: Text, seen: Option<nat>, ops: map<Id, Op>, start: Contents, limit: nat)
    requires Inv(s, ops, start, limit) && id in s.processes && Unchanged(s.processes[id].op, s.files, seen)
    requires (s.processes[id].stage == Observed(seen) && !Reads(s.processes[id].op))
             || (s.processes[id].stage.Ready? && s.processes[id].stage.seen == seen && s.processes[id].stage.next == next)
    ensures var op := s.processes[id].op;
            Inv(Finish(Replace(s, op, next), id, Success).(log := s.log + [Did(id)]), ops, start, limit)
  {
    var op := s.processes[id].op;
    assert StageOk(s, s.processes[id], limit);
    ReplaceIsApply(s, op, seen, next, limit);
    CommitKeepsStages(s, id, next, limit);
    ReplaceChangesOnly(s, op, next) by { assert Stages(s, limit); }
    SuccessKeepsInv(s, Replace(s, op, next), id, ops, start, limit);
  }

  lemma StepKeepsInv(s: State, e: Event, ops: map<Id, Op>, start: Contents, limit: nat)
    requires Inv(s, ops, start, limit)
    ensures Inv(Step(s, e, limit), ops, start, limit)
  {
    if e.Edit? {
      EditKeepsInv(s, e.path, e.text, ops, start, limit);
    } else if e.id in s.processes {
      var id, pr := e.id, s.processes[e.id];
      var op := pr.op;
      assert StageOk(s, pr, limit) by { assert Stages(s, limit); }
      hide Inv;
      match (e, pr.stage)
      case (Acquire(_), Start) =>
        if PathsOf(op) * s.locks.Keys == {} { AcquireKeepsInv(s, id, ops, start, limit); }
      case (GiveUp(_), Start) => GiveUpKeepsInv(s, id, TimedOut, ops, start, limit);
      case (Observe(_), Locked) =>
        if RefusedEarly(op, s.files) {
          GiveUpKeepsInv(s, id, Refused, ops, start, limit);
        } else {
          RevisionIsOld(s, op.path, ops, start, limit);
          AdvanceKeepsInv(s, id, Observed(Revision(s.files, op.path)), ops, start, limit);
        }
      case (ReadText(_), Observed(seen)) =>
        if Reads(op) {
          if op.path in s.files {
            AdvanceKeepsInv(s, id, HasText(seen, s.files[op.path].text), ops, start, limit);
          } else {
            GiveUpKeepsInv(s, id, Failed, ops, start, limit);
          }
        }
      case (Recheck(_), HasText(seen, text)) => RecheckKeepsInv(s, id, seen, text, ops, start, limit);
      case (Commit(_), Observed(seen)) =>
        if !Reads(op) {
          if Unchanged(op, s.files, seen) {
            CommitKeepsInv(s, id, "", seen, ops, start, limit);
          } else {
            GiveUpKeepsInv(s, id, Conflict, ops, start, limit);
          }
        }
      case (Commit(_), Ready(seen, _, next)) =>
        if Unchanged(op, s.files, seen) {
          CommitKeepsInv(s, id, next, seen, ops, start, limit);
        } else {
          GiveUpKeepsInv(s, id, Conflict, ops, start, limit);
        }
      case (Break(_), stage) =>
        if !stage.Start? && !stage.Done? { GiveUpKeepsInv(s, id, Failed, ops, start, limit); }
      case _ =>
    }
  }

  lemma RevisionIsOld(s: State, p: Path, ops: map<Id, Op>, start: Contents, limit: nat)
    requires Inv(s, ops, start, limit)
    ensures Revision(s.files, p).Some? ==> Revision(s.files, p).value < s.nextRevision
  {
  }

  lemma RecheckKeepsInv(s: State, id: Id, seen: Option<nat>, text: Text, ops: map<Id, Op>, start: Contents, limit: nat)
    requires Inv(s, ops, start, limit) && id in s.processes && s.processes[id].stage == HasText(seen, text)
    ensures Inv(Step(s, Recheck(id), limit), ops, start, limit)
  {
    var pr := s.processes[id];
    var op := pr.op;
    assert StageOk(s, pr, limit) by { assert Stages(s, limit); }
    if Revision(s.files, op.path) != seen {
      GiveUpKeepsInv(s, id, Conflict, ops, start, limit);
    } else {
      match Computed(op, text, limit)
      case Refuse => GiveUpKeepsInv(s, id, Refused, ops, start, limit);
      case Keep =>
        FinishKeepsStages(s, id, Success, limit);
        SuccessKeepsInv(s, s, id, ops, start, limit);
      case NewText(t) => AdvanceKeepsInv(s, id, Ready(seen, text, t), ops, start, limit);
    }
  }

  lemma InitInv(s: State, limit: nat)
    requires Init(s)
    ensures Inv(s, OpsOf(s), TextsOf(s.files), limit)
  {
  }

  lemma {:induction false} RunKeepsInv(states: seq<State>, events: seq<Event>, limit: nat, i: nat)
    requires Run(states, events, limit) && i < |states|
    ensures Inv(states[i], OpsOf(states[0]), TextsOf(states[0].files), limit)
  {
    hide Inv, Step;
    if i == 0 {
      InitInv(states[0], limit);
    } else {
      RunKeepsInv(states, events, limit, i - 1);
      StepKeepsInv(states[i - 1], events[i - 1], OpsOf(states[0]), TextsOf(states[0].files), limit);
    }
  }

  // Serializability: the files are what the successful operations and the external edits
  // leave when run one after the other in log order.
  lemma Serializable(states: seq<State>, events: seq<Event>, limit: nat, i: nat)
    requires Run(states, events, limit) && i < |states|
    ensures var s := states[i];
            && Replay(OpsOf(states[0]), TextsOf(states[0].files), s.log, limit) == Some(TextsOf(s.files))
            && (forall id :: Times(s.log, id) == if Succeeded(s, id) then 1 else 0)
  {
    hide Replay;
    RunKeepsInv(states, events, limit, i);
  }

  // In every run each success has exactly the effect that its operation promises, on the
  // vault as it is at that moment; an append keeps the whole note, whoever wrote it.
  lemma SuccessHasEffect(states: seq<State>, events: seq<Event>, limit: nat, i: nat, id: Id)
    requires Run(states, events, limit) && i < |events| && id in states[i].processes
    requires !Succeeded(states[i], id) && Succeeded(states[i + 1], id)
    ensures id in states[0].processes
    ensures Effect(states[0].processes[id].op, TextsOf(states[i].files), TextsOf(states[i + 1].files), limit)
  {
    hide Stages, Step, Times, Effect;
    var s, s', ops := states[i], states[i + 1], OpsOf(states[0]);
    RunKeepsInv(states, events, limit, i);
    RunKeepsInv(states, events, limit, i + 1);
    LogGrowth(s, events[i], limit);
    assert Times(s.log, id) == 0 && Times(s'.log, id) == 1;
    var x := s'.log[|s.log|];
    NewSuccess(s.log, x, id);
    assert s'.log[..|s'.log| - 1] == s.log;
    ApplyIsEffect(ops[id], TextsOf(s.files), TextsOf(s'.files), limit);
  }

  lemma NewSuccess(log: seq<Change>, x: Change, id: Id)
    requires Times(log, id) == 0 && Times(log + [x], id) == 1
    ensures x == Did(id)
  {
    TimesAppend(log, x, id);
  }

  // When an operation that holds its locks is turned away at its first look.
  lemma RefusedAtFirstLook(s: State, id: Id, limit: nat)
    requires id in s.processes && s.processes[id].stage == Locked
    ensures var op, s' := s.processes[id].op, Step(s, Observe(id), limit);
            && s'.files == s.files
            && (s'.processes[id].stage == Done(Refused) <==>
                match op
                case Create(p, _) => p in s.files
                case Write(_, _) => false
                case Append(p, _, _) => p !in s.files
                case Rewrite(p, _) => p !in s.files
                case Delete(p) => p !in s.files
                case Move(p, to) => p !in s.files || to in s.files)
            && (s'.processes[id].stage == Done(Refused) || s'.processes[id].stage == Observed(Revision(s.files, op.path)))
  {
  }

  // And when it is turned away after reading the note.
  lemma RefusedAfterReading(s: State, id: Id, limit: nat)
    requires id in s.processes && s.processes[id].stage.HasText? && Reads(s.processes[id].op)
    ensures var op, stage, s' := s.processes[id].op, s.processes[id].stage, Step(s, Recheck(id), limit);
            && s'.files == s.files
            && (s'.processes[id].stage == Done(Refused) <==>
                Revision(s.files, op.path) == stage.seen && Refuses(op, stage.text, limit))
  {
    ComputedMeans(s.processes[id].op, s.processes[id].stage.text, limit);
    hide Refuses, Computed;
  }

  // Conflicts, timeouts, refusals and failed writes leave every file as it was: only a
  // logged success or an external edit changes the files.
  lemma OnlyLoggedStepsChangeFiles(s: State, e: Event, limit: nat)
    requires Step(s, e, limit).log == s.log
    ensures Step(s, e, limit).files == s.files
  {
  }

  // ----- Cooperating operations do not disturb each other -----

  ghost predicate Undisturbed(s: State, id: Id) {
    id in s.processes ==>
      var pr := s.processes[id];
      match pr.stage
      case Observed(seen) => Unchanged(pr.op, s.files, seen)
      case HasText(seen, _) => Unchanged(pr.op, s.files, seen)
      case Ready(seen, _, _) => Unchanged(pr.op, s.files, seen)
      case Done(v) => v != Conflict
      case _ => true
  }

  // A process changes the files only by committing, and then only those of its operation.
  lemma StepChangesOwnPaths(s: State, e: Event, limit: nat)
    requires !e.Edit? && forall p :: p in s.files ==> s.files[p].revision < s.nextRevision
    ensures var s' := Step(s, e, limit);
            || s'.files == s.files
            || (e.id in s.processes && Active(s.processes[e.id].stage)
                && forall p :: p !in PathsOf(s.processes[e.id].op) ==> Revision(s'.files, p) == Revision(s.files, p))
  {
    hide Computed, RefusedEarly, EndsWith, Unchanged;
  }

  lemma StepKeepsOtherProcess(s: State, e: Event, limit: nat, id: Id)
    requires !e.Edit? && e.id != id && id in s.processes
    ensures id in Step(s, e, limit).processes && Step(s, e, limit).processes[id] == s.processes[id]
  {
    hide Computed, RefusedEarly, EndsWith, Unchanged;
  }

  lemma OwnStepKeepsUndisturbed(s: State, e: Event, limit: nat)
    requires !e.Edit? && Undisturbed(s, e.id)
    ensures Undisturbed(Step(s, e, limit), e.id)
  {
    hide Computed, EndsWith;
  }

  lemma OtherStepKeepsUndisturbed(s: State, e: Event, limit: nat, j: Id)
    requires !e.Edit? && e.id != j && Stages(s, limit) && Undisturbed(s, j)
    ensures Undisturbed(Step(s, e, limit), j)
  {
    hide Stages, Step;
    StepKeepsKeys(s, e, limit);
    if j in s.processes {
      StagesMean(s, j, limit);
      StepChangesOwnPaths(s, e, limit);
      StepKeepsOtherProcess(s, e, limit, j);
      if e.id in s.processes && Active(s.processes[e.id].stage) && Active(s.processes[j].stage) {
        ActiveDisjoint(s, e.id, j, limit);
      }
    }
  }

  lemma StepKeepsKeys(s: State, e: Event, limit: nat)
    ensures Step(s, e, limit).processes.Keys == s.processes.Keys
  {
    hide Computed, RefusedEarly, EndsWith, Unchanged;
  }

  lemma StepKeepsUndisturbed(s: State, e: Event, limit: nat, j: Id)
    requires Stages(s, limit) && Undisturbed(s, j)
    requires e.Edit? && j in s.processes ==> e.path !in PathsOf(s.processes[j].op)
    ensures Undisturbed(Step(s, e, limit), j)
  {
    hide Stages;
    if !e.Edit? {
      hide *;
      if e.id == j {
        OwnStepKeepsUndisturbed(s, e, limit);
      } else {
        OtherStepKeepsUndisturbed(s, e, limit, j);
      }
    }
  }

  // No other program edits the path.
  ghost predicate NoEditOf(events: seq<Event>, p: Path) {
    forall k :: 0 <= k < |events| && events[k].Edit? ==> events[k].path != p
  }

  // An operation whose notes no other program edits never ends in a conflict, however the
  // operations interleave.
  lemma {:induction false} NoConflictAmongCooperators(states: seq<State>, events: seq<Event>, limit: nat, i: nat, id: Id)
    requires Run(states, events, limit) && i < |states|
    requires id in states[0].processes ==> forall p :: p in PathsOf(states[0].processes[id].op) ==> NoEditOf(events, p)
    ensures Undisturbed(states[i], id)
  {
    if i > 0 {
      var s, e := states[i - 1], events[i - 1];
      NoConflictAmongCooperators(states, events, limit, i - 1, id);
      RunKeepsInv(states, events, limit, i - 1);
      if id in s.processes {
        SameOp(s, states[0], id);
        assert e.Edit? ==> forall p :: p in PathsOf(s.processes[id].op) ==> e.path != p;
      }
      StepKeepsUndisturbed(s, e, limit, id);
    }
  }

  lemma SameOp(s: State, s0: State, id: Id)
    requires OpsOf(s) == OpsOf(s0) && id in s.processes
    ensures id in s0.processes && s.processes[id].op == s0.processes[id].op
  {
    assert id in OpsOf(s) && OpsOf(s)[id] == OpsOf(s0)[id];
  }

  // ----- An external edit survives -----

  // The operation observed a revision that its file no longer has, or has ended otherwise.
  ghost predicate Overtaken(s: State, id: Id) {
    id in s.processes &&
      var pr := s.processes[id];
      match pr.stage
      case Observed(seen) => seen.Some? && Revision(s.files, pr.op.path) != seen
      case HasText(seen, _) => seen.Some? && Revision(s.files, pr.op.path) != seen
      case Ready(seen, _, _) => seen.Some? && Revision(s.files, pr.op.path) != seen
      case Done(v) => v != Success
      case _ => false
  }

  lemma StagesMean(s: State, id: Id, limit: nat)
    requires Stages(s, limit) && id in s.processes
    ensures StageOk(s, s.processes[id], limit)
    ensures forall p :: p in s.files ==> s.files[p].revision < s.nextRevision
  {
  }

  // Its own next steps find that out, or fail.
  lemma OwnStepKeepsOvertaken(s: State, e: Event, limit: nat)
    requires !e.Edit? && Stages(s, limit) && Overtaken(s, e.id)
    ensures Overtaken(Step(s, e, limit), e.id)
  {
    hide Stages, Computed, KnowsText;
    StagesMean(s, e.id, limit);
  }

  lemma EditKeepsOvertaken(s: State, e: Event, limit: nat, id: Id)
    requires e.Edit? && Stages(s, limit) && Overtaken(s, id)
    ensures Overtaken(Step(s, e, limit), id)
  {
    hide Stages, Computed, KnowsText, ProcessStep;
    StagesMean(s, id, limit);
  }

  // The steps of others do not bring the revision back.
  lemma OtherStepKeepsOvertaken(s: State, e: Event, limit: nat, id: Id)
    requires !e.Edit? && e.id != id && Stages(s, limit) && Overtaken(s, id)
    ensures Overtaken(Step(s, e, limit), id)
  {
    hide Stages, Step;
    StagesMean(s, id, limit);
    StepChangesOwnPaths(s, e, limit);
    StepKeepsOtherProcess(s, e, limit, id);
    if e.id in s.processes && Active(s.processes[e.id].stage) && Active(s.processes[id].stage) {
      ActiveDisjoint(s, e.id, id, limit);
      assert s.processes[id].op.path in PathsOf(s.processes[id].op);
    }
  }

  lemma StepKeepsOvertaken(s: State, e: Event, limit: nat, id: Id)
    requires Stages(s, limit) && Overtaken(s, id)
    ensures Overtaken(Step(s, e, limit), id)
  {
    hide *;
    if e.Edit? {
      EditKeepsOvertaken(s, e, limit, id);
    } else if e.id == id {
      OwnStepKeepsOvertaken(s, e, limit);
    } else {
      OtherStepKeepsOvertaken(s, e, limit, id);
    }
  }

  // A file changed behind an operation's back is never overwritten by it: revisions do not
  // return, so the operation can only end in a conflict or fail.
  lemma {:induction false} OvertakenNeverSucceeds(
      states: seq<State>, events: seq<Event>, limit: nat, i: nat, j: nat, id: Id)
    requires Run(states, events, limit) && i <= j < |states| && Overtaken(states[i], id)
    ensures Overtaken(states[j], id) && id in states[j].processes && states[j].processes[id].stage != Done(Success)
    decreases j
  {
    hide Overtaken, Step, Stages, Serial, LogOk;
    if i < j {
      OvertakenNeverSucceeds(states, events, limit, i, j - 1, id);
      RunKeepsInv(states, events, limit, j - 1);
      StepKeepsOvertaken(states[j - 1], events[j - 1], limit, id);
    }
    OvertakenIsNoSuccess(states[j], id);
  }

  lemma OvertakenIsNoSuccess(s: State, id: Id)
    requires Overtaken(s, id)
    ensures id in s.processes && s.processes[id].stage != Done(Success)
  {
  }

  // A commit succeeds exactly when the revisions are still the observed ones, and ends in a
  // conflict otherwise.
  lemma CommitNeedsSeenRevision(s: State, id: Id, limit: nat)
    requires id in s.processes
    requires s.processes[id].stage.Ready? || (s.processes[id].stage.Observed? && !Reads(s.processes[id].op))
    ensures var pr, s' := s.processes[id], Step(s, Commit(id), limit);
            if Unchanged(pr.op, s.files, pr.stage.seen) then s'.processes[id].stage == Done(Success)
            else s'.processes[id].stage == Done(Conflict) && s'.files == s.files
  {
  }

  // What an operation that found no file has left to do: it holds to that until it ends.
  lemma {:induction false} AbsenceRemembered(
      states: seq<State>, events: seq<Event>, limit: nat, i: nat, j: nat, id: Id)
    requires Run(states, events, limit) && i <= j < |states|
    requires id in states[i].processes && states[i].processes[id].stage == Observed(None)
    ensures id in states[j].processes && states[j].processes[id].op == states[i].processes[id].op
    ensures states[j].processes[id].stage == Observed(None) || states[j].processes[id].stage.Done?
    ensures !Reads(states[i].processes[id].op)
    decreases j
  {
    RunKeepsInv(states, events, limit, i);
    assert StageOk(states[i], states[i].processes[id], limit);
    if i < j {
      AbsenceRemembered(states, events, limit, i, j - 1, id);
      hide Inv;
      AbsenceStep(states[j - 1], events[j - 1], limit, id);
    }
  }

  lemma AbsenceStep(s: State, e: Event, limit: nat, id: Id)
    requires id in s.processes && !Reads(s.processes[id].op)
    requires s.processes[id].stage == Observed(None) || s.processes[id].stage.Done?
    ensures var s' := Step(s, e, limit);
            && id in s'.processes && s'.processes[id].op == s.processes[id].op
            && (s'.processes[id].stage == Observed(None) || s'.processes[id].stage.Done?)
  {
    hide Computed, RefusedEarly, Unchanged;
  }

  // An operation that found no file and commits when there is one ends in a conflict and
  // leaves the file alone, whoever created it.
  lemma UnseenFileSurvives(states: seq<State>, events: seq<Event>, limit: nat, i: nat, j: nat, id: Id)
    requires Run(states, events, limit) && i <= j < |events| && events[j] == Commit(id)
    requires id in states[i].processes && states[i].processes[id].stage == Observed(None)
    requires states[i].processes[id].op.path in states[j].files
    requires id in states[j].processes && !states[j].processes[id].stage.Done?
    ensures id in states[j + 1].processes && states[j + 1].processes[id].stage == Done(Conflict)
    ensures states[j + 1].files == states[j].files
  {
    AbsenceRemembered(states, events, limit, i, j, id);
    CommitNeedsSeenRevision(states[j], id, limit);
  }

  // ----- Concurrent creation -----

  // The operations on the path are creates and operations that read the note first.
  ghost predicate CreatesAndReads(ops: map<Id, Op>, p: Path) {
    forall id :: id in ops && p in PathsOf(ops[id]) ==> ops[id].Create? || Reads(ops[id])
  }

  predicate IsCreateOf(op: Op, p: Path) { op.Create? && op.path == p }

  // How many of the logged operations create the path.
  ghost function CreatedTimes(ops: map<Id, Op>, log: seq<Change>, p: Path): nat {
    if log == [] then 0
    else CreatedTimes(ops, log[..|log| - 1], p) + if Creation(ops, log[|log| - 1], p) then 1 else 0
  }

  ghost predicate Creation(ops: map<Id, Op>, x: Change, p: Path) {
    x.Did? && x.id in ops && IsCreateOf(ops[x.id], p)
  }

  lemma ApplyFrame(op: Op, c: Contents, limit: nat, p: Path)
    requires (p !in PathsOf(op) || Reads(op)) && Apply(op, c, limit).Some?
    ensures p in Apply(op, c, limit).value <==> p in c
  {
  }

  lemma {:induction false} ReplayCreates(ops: map<Id, Op>, start: Contents, log: seq<Change>, limit: nat, p: Path)
    requires CreatesAndReads(ops, p) && p !in start
    requires forall i :: 0 <= i < |log| && log[i].External? ==> log[i].path != p
    requires Replay(ops, start, log, limit).Some?
    ensures CreatedTimes(ops, log, p) <= 1
    ensures p in Replay(ops, start, log, limit).value <==> CreatedTimes(ops, log, p) == 1
  {
    if log != [] {
      var front, x := log[..|log| - 1], log[|log| - 1];
      ReplayCreates(ops, start, front, limit, p);
      if x.Did? && !IsCreateOf(ops[x.id], p) {
        ApplyFrame(ops[x.id], Replay(ops, start, front, limit).value, limit, p);
      }
    }
  }

  lemma LogGrowth(s: State, e: Event, limit: nat)
    ensures var log := Step(s, e, limit).log;
            if e.Edit? then log == s.log + [External(e.path, e.text)] else log == s.log || log == s.log + [Did(e.id)]
  {
  }

  lemma {:induction false} NoExternalOf(states: seq<State>, events: seq<Event>, limit: nat, i: nat, p: Path)
    requires Run(states, events, limit) && i < |states| && NoEditOf(events, p)
    ensures forall k :: 0 <= k < |states[i].log| && states[i].log[k].External? ==> states[i].log[k].path != p
  {
    hide Step;
    if i > 0 {
      NoExternalOf(states, events, limit, i - 1, p);
      LogGrowth(states[i - 1], events[i - 1], limit);
    }
  }

  // While creates, appends and frontmatter updates are the only operations on an absent note,
  // the note exists exactly when one of the creates has succeeded.
  lemma CreatesLog(states: seq<State>, events: seq<Event>, limit: nat, i: nat, p: Path)
    requires Run(states, events, limit) && i < |states|
    requires CreatesAndReads(OpsOf(states[0]), p) && p !in states[0].files && NoEditOf(events, p)
    ensures var made := CreatedTimes(OpsOf(states[0]), states[i].log, p);
            made <= 1 && (p in states[i].files <==> made == 1)
    ensures Stages(states[i], limit) && LogOk(states[i]) && OpsOf(states[i]) == OpsOf(states[0])
  {
    hide Replay, Stages, LogOk, Step, CreatedTimes;
    RunKeepsInv(states, events, limit, i);
    NoExternalOf(states, events, limit, i, p);
    ReplayCreates(OpsOf(states[0]), TextsOf(states[0].files), states[i].log, limit, p);
  }

  // A create is refused only when it finds the note there.
  lemma RefusalNeedsFile(s: State, e: Event, limit: nat, id: Id)
    requires Stages(s, limit) && id in s.processes && s.processes[id].op.Create?
    requires s.processes[id].stage != Done(Refused) && Step(s, e, limit).processes[id].stage == Done(Refused)
    ensures s.processes[id].op.path in s.files
  {
    hide Stages;
    StagesMean(s, id, limit);
  }

  lemma CreatedGrows(ops: map<Id, Op>, log: seq<Change>, x: Change, p: Path)
    ensures CreatedTimes(ops, log + [x], p) >= CreatedTimes(ops, log, p)
  {
    assert (log + [x])[..|log|] == log;
  }

  // A create is refused only because another one has succeeded.
  lemma {:induction false} RefusedAfterSuccess(
      states: seq<State>, events: seq<Event>, limit: nat, i: nat, p: Path, id: Id)
    requires Run(states, events, limit) && i < |states|
    requires CreatesAndReads(OpsOf(states[0]), p) && p !in states[0].files && NoEditOf(events, p)
    requires id in states[i].processes && states[i].processes[id].stage == Done(Refused)
    requires IsCreateOf(states[i].processes[id].op, p)
    ensures CreatedTimes(OpsOf(states[0]), states[i].log, p) == 1
  {
    hide Stages, Step, CreatedTimes, LogOk, NoEditOf;
    CreatesLog(states, events, limit, i, p);
    if i > 0 {
      var s, e := states[i - 1], events[i - 1];
      CreatesLog(states, events, limit, i - 1, p);
      StepKeepsKeys(s, e, limit);
      SameOp(s, states[0], id);
      SameOp(states[i], states[0], id);
      LogGrowth(s, e, limit);
      if s.processes[id].stage == Done(Refused) {
        RefusedAfterSuccess(states, events, limit, i - 1, p, id);
      } else {
        assert OpsOf(states[0])[id].Create?;
        RefusalNeedsFile(s, e, limit, id);
      }
      if states[i].log != s.log {
        CreatedGrows(OpsOf(states[0]), s.log, states[i].log[|s.log|], p);
      }
    }
  }

  lemma {:induction false} TimesCount(ops: map<Id, Op>, log: seq<Change>, p: Path, a: Id, b: Id)
    requires a != b && Creation(ops, Did(a), p) && Creation(ops, Did(b), p)
    ensures CreatedTimes(ops, log, p) >= Times(log, a) + Times(log, b)
  {
    if log != [] {
      TimesCount(ops, log[..|log| - 1], p, a, b);
    }
  }

  lemma {:induction false} SomeCreate(ops: map<Id, Op>, log: seq<Change>, p: Path) returns (id: Id)
    requires CreatedTimes(ops, log, p) >= 1
    ensures Creation(ops, Did(id), p) && Times(log, id) >= 1
  {
    if Creation(ops, log[|log| - 1], p) {
      id := log[|log| - 1].id;
    } else {
      id := SomeCreate(ops, log[..|log| - 1], p);
    }
  }

  // Every create of the path has ended, none by a timeout or a failed write.
  ghost predicate CreatesEnded(s: State, p: Path) {
    forall id :: id in s.processes && IsCreateOf(s.processes[id].op, p) ==>
      s.processes[id].stage in {Done(Success), Done(Refused), Done(Conflict)}
  }

  // Of any number of concurrent creates of an absent note no two succeed, and when all have
  // ended without a timeout or a failed write, one has; whatever runs on other notes, and
  // while appends and frontmatter updates run on this one.
  lemma OneCreateWins(states: seq<State>, events: seq<Event>, limit: nat, p: Path, witnessId: Id)
    requires Run(states, events, limit)
    requires CreatesAndReads(OpsOf(states[0]), p) && p !in states[0].files && NoEditOf(events, p)
    requires witnessId in states[0].processes && IsCreateOf(states[0].processes[witnessId].op, p)
    ensures var s := states[|states| - 1];
            && (forall a, b :: a != b && Succeeded(s, a) && Succeeded(s, b) && IsCreateOf(s.processes[a].op, p) ==>
                  !IsCreateOf(s.processes[b].op, p))
            && (CreatesEnded(s, p) ==> exists a :: Succeeded(s, a) && IsCreateOf(s.processes[a].op, p))
  {
    hide Replay, Stages, CreatedTimes, Times, NoEditOf, Step;
    var n := |states| - 1;
    var s, ops := states[n], OpsOf(states[0]);
    CreatesLog(states, events, limit, n, p);
    forall a, b | a != b && Succeeded(s, a) && Succeeded(s, b) && IsCreateOf(s.processes[a].op, p)
      ensures !IsCreateOf(s.processes[b].op, p)
    {
      assert Times(s.log, a) == 1 && Times(s.log, b) == 1;
      if IsCreateOf(s.processes[b].op, p) {
        TimesCount(ops, s.log, p, a, b);
      }
    }
    if CreatesEnded(s, p) {
      assert witnessId in ops && witnessId in OpsOf(s);
      SameOp(s, states[0], witnessId);
      assert PathsOf(s.processes[witnessId].op) == {p};
      NoConflictAmongCooperators(states, events, limit, n, witnessId);
      assert Undisturbed(s, witnessId);
      if s.processes[witnessId].stage == Done(Refused) {
        RefusedAfterSuccess(states, events, limit, n, p, witnessId);
        var a := SomeCreate(ops, s.log, p);
        assert Times(s.log, a) == if Succeeded(s, a) then 1 else 0;
        SameOp(s, states[0], a);
      } else {
        assert Succeeded(s, witnessId);
      }
    }
  }
}
