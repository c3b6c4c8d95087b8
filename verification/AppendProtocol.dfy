/** Many processes running run_guarded_mutation and atomic_quarantine_append of
    include/core.hpp against one log: every system call is a step of its own, steps
    of different processes interleave freely and a kill may come between any two.

    What is assumed of the system: flock excludes and is dropped with its process,
    rename replaces the log atomically, a process has one append at a time (the
    temporary file is named by pid) and nothing else writes the log meanwhile. */
module AppendProtocol {
  import opened Basics
  import opened Bytes
  import opened QuarantineLog

  type Pid = nat

  /** One call of atomic_quarantine_append; tickets number the calls. */
  datatype Job = Job(ticket: nat, hash: nat, signal: int, time: int, origin: Bytes)

  datatype Phase =
    | Idle
      // run_guarded_mutation: `at` is the number of renames before the pre-flight read
    | Started(hash: nat)
    | Refused(hash: nat)
    | Cleared(hash: nat, at: nat)
    | Forked(hash: nat, at: nat)
      // atomic_quarantine_append
    | Queued(job: Job)
    | Holding(job: Job)
    | HasText(job: Job, existing: Bytes)
    | Writing(job: Job, data: Bytes)
    | Closed(job: Job, data: Bytes)
    | Synced(job: Job, data: Bytes)
    | Unlocking(job: Job, renamed: bool)

  /** `history` lists the renames in order and `returned` the tickets of appends
      that came back after their rename; no step reads either. */
  datatype State = State(live: Bytes, temps: map<Pid, Bytes>, holder: Option<Pid>,
                         procs: map<Pid, Phase>, tickets: nat,
                         history: seq<Job>, returned: set<nat>)

  datatype Action =
    | Call(pid: Pid, hash: nat)
    | PreFlight(pid: Pid)
    | Leave(pid: Pid)
    | Fork(pid: Pid)
    | ChildExits(pid: Pid)
    | ChildCrashes(pid: Pid, signal: int, time: int, origin: Bytes)
    | Quarantine(pid: Pid, hash: nat, signal: int, time: int, origin: Bytes)
    | Lock(pid: Pid)
    | LockFails(pid: Pid)
    | Read(pid: Pid)
    | OpenTemp(pid: Pid)
    | OpenTempFails(pid: Pid)
    | Write(pid: Pid, upTo: nat)
    | Close(pid: Pid)
    | CloseShort(pid: Pid)
    | Sync(pid: Pid)
    | Rename(pid: Pid)
    | RenameFails(pid: Pid)
    | Unlock(pid: Pid)
    | Kill(pid: Pid)

  function PhaseOf(s: State, p: Pid): Phase {
    if p in s.procs then s.procs[p] else Idle
  }

  function Goto(s: State, p: Pid, phase: Phase): State {
    s.(procs := s.procs[p := phase])
  }

  function AppendText(log: Bytes, job: Job): Bytes {
    Appended(log, job.hash, job.signal, job.time, job.origin)
  }

  predicate InCritical(phase: Phase) {
    phase.Holding? || phase.HasText? || phase.Writing? || phase.Closed? || phase.Synced? || phase.Unlocking?
  }

  function TempOf(s: State, p: Pid): Bytes {
    if p in s.temps then s.temps[p] else []
  }

  /** Steps of a guarded run. A step that is not enabled changes nothing. */
  function DoCall(s: State, a: Action): State {
    var p, phase := a.pid, PhaseOf(s, a.pid);
    match a
    case Call(_, hash) => if phase.Idle? then Goto(s, p, Started(hash)) else s
    case PreFlight(_) =>
      if !phase.Started? then s
      else if Quarantined(s.live, phase.hash) then Goto(s, p, Refused(phase.hash))
      else Goto(s, p, Cleared(phase.hash, |s.history|))
    case Leave(_) => if phase.Refused? || phase.Cleared? then Goto(s, p, Idle) else s
    case Fork(_) => if phase.Cleared? then Goto(s, p, Forked(phase.hash, phase.at)) else s
    case ChildExits(_) => if phase.Forked? then Goto(s, p, Idle) else s
    case ChildCrashes(_, signal, time, origin) =>
      if phase.Forked?
      then Goto(s, p, Queued(Job(s.tickets, phase.hash, signal, time, origin))).(tickets := s.tickets + 1)
      else s
    case Quarantine(_, hash, signal, time, origin) =>
      if phase.Idle?
      then Goto(s, p, Queued(Job(s.tickets, hash, signal, time, origin))).(tickets := s.tickets + 1)
      else s
    case _ => s
  }

  /** Steps of an append up to the closed temporary file. */
  function DoWrite(s: State, a: Action): State {
    var p, phase := a.pid, PhaseOf(s, a.pid);
    match a
    case Lock(_) =>
      if phase.Queued? && s.holder.None? then Goto(s, p, Holding(phase.job)).(holder := Some(p)) else s
    case LockFails(_) => if phase.Queued? then Goto(s, p, Idle) else s
    case Read(_) => if phase.Holding? then Goto(s, p, HasText(phase.job, s.live)) else s
    case OpenTemp(_) =>
      if phase.HasText?
      then Goto(s, p, Writing(phase.job, AppendText(phase.existing, phase.job))).(temps := s.temps[p := []])
      else s
    case OpenTempFails(_) => if phase.HasText? then Goto(s, p, Unlocking(phase.job, false)) else s
    case Write(_, upTo) =>
      if phase.Writing? && |TempOf(s, p)| <= upTo <= |phase.data|
      then s.(temps := s.temps[p := phase.data[..upTo]]) else s
    case Close(_) =>
      if phase.Writing? && TempOf(s, p) == phase.data then Goto(s, p, Closed(phase.job, phase.data)) else s
      // the stream's state is never checked, so a write cut short goes unnoticed
    case CloseShort(_) => if phase.Writing? then Goto(s, p, Closed(phase.job, phase.data)) else s
    case _ => s
  }

  /** Steps of an append from there on, and the kill. */
  function DoPublish(s: State, a: Action): State {
    var p, phase := a.pid, PhaseOf(s, a.pid);
    match a
    case Sync(_) => if phase.Closed? then Goto(s, p, Synced(phase.job, phase.data)) else s
    case Rename(_) =>
      if phase.Synced?
      then Goto(s, p, Unlocking(phase.job, true))
             .(live := TempOf(s, p), temps := s.temps - {p}, history := s.history + [phase.job])
      else s
    case RenameFails(_) =>
      if phase.Synced? then Goto(s, p, Unlocking(phase.job, false)).(temps := s.temps - {p}) else s
    case Unlock(_) =>
      if phase.Unlocking?
      then Goto(s, p, Idle).(holder := None,
                             returned := if phase.renamed then s.returned + {phase.job.ticket} else s.returned)
      else s
    case Kill(_) =>
      Goto(s, p, Idle).(holder := if s.holder == Some(p) then None else s.holder)
    case _ => s
  }

  function Do(s: State, a: Action): State {
    match a
    case Call(_, _) => DoCall(s, a)
    case PreFlight(_) => DoCall(s, a)
    case Leave(_) => DoCall(s, a)
    case Fork(_) => DoCall(s, a)
    case ChildExits(_) => DoCall(s, a)
    case ChildCrashes(_, _, _, _) => DoCall(s, a)
    case Quarantine(_, _, _, _, _) => DoCall(s, a)
    case Sync(_) => DoPublish(s, a)
    case Rename(_) => DoPublish(s, a)
    case RenameFails(_) => DoPublish(s, a)
    case Unlock(_) => DoPublish(s, a)
    case Kill(_) => DoPublish(s, a)
    case _ => DoWrite(s, a)
  }

  function Init(log: Bytes): State {
    State(log, map[], None, map[], 0, [], {})
  }

  function Run(s: State, actions: seq<Action>): State {
    if actions == [] then s else Do(Run(s, actions[..|actions| - 1]), actions[|actions| - 1])
  }

  // ---------------------------------------------------------------- the log as a fold

  function Fold(log: Bytes, history: seq<Job>): Bytes {
    if history == [] then log else AppendText(Fold(log, history[..|history| - 1]), history[|history| - 1])
  }

  lemma FoldPush(log: Bytes, history: seq<Job>, job: Job)
    ensures Fold(log, history + [job]) == AppendText(Fold(log, history), job)
  {
    assert (history + [job])[..|history|] == history;
  }

  function JobRow(job: Job): Bytes {
    Row(Dec(job.hash), job.signal, job.time, job.origin)
  }

  function JobRows(history: seq<Job>): Bytes {
    if history == [] then [] else JobRows(history[..|history| - 1]) + JobRow(history[|history| - 1])
  }

  /** The header goes in at most once, in front: the log is the initial log
      followed by whole entries. */
  lemma {:induction false} FoldShape(log: Bytes, history: seq<Job>)
    ensures Fold(log, history) == if history == [] then log else Headed(log) + JobRows(history)
    decreases |history|
  {
    if history == [] {
    } else {
      var front, job := history[..|history| - 1], history[|history| - 1];
      FoldShape(log, front);
      if front == [] {
        assert [] + JobRow(job) == JobRow(job);
      } else {
        HeadedOnce(log, JobRows(front));
        Associate(Headed(log), JobRows(front), JobRow(job));
      }
    }
  }

  lemma HeadedOnce(log: Bytes, rest: Bytes)
    ensures Headed(Headed(log) + rest) == Headed(log) + rest
  {
  }

  ghost predicate PlainJobs(history: seq<Job>) {
    forall k :: 0 <= k < |history| ==> NEWLINE !in history[k].origin
  }

  ghost predicate Recorded(history: seq<Job>, n: nat, hash: nat) {
    exists k :: 0 <= k < n && k < |history| && history[k].hash == hash
  }

  lemma RecordedPush(history: seq<Job>, job: Job, n: nat, hash: nat)
    ensures n <= |history| ==> (Recorded(history + [job], n, hash) <==> Recorded(history, n, hash))
    ensures Recorded(history + [job], |history| + 1, hash) <==> Recorded(history, |history|, hash) || job.hash == hash
  {
    var longer := history + [job];
    assert longer[|history|] == job;
    assert forall k :: 0 <= k < |history| ==> longer[k] == history[k];
  }

  /** Text and history agree on every hash. */
  lemma {:induction false} FoldQuarantines(log: Bytes, history: seq<Job>, hash: nat)
    requires LineEnded(log) && PlainJobs(history)
    ensures LineEnded(Fold(log, history))
    ensures Quarantined(Fold(log, history), hash)
       <==> Quarantined(log, hash) || Recorded(history, |history|, hash)
    decreases |history|
  {
    if history == [] {
    } else {
      var front, job := history[..|history| - 1], history[|history| - 1];
      FoldQuarantines(log, front, hash);
      AppendedQuarantines(Fold(log, front), job.hash, job.signal, job.time, job.origin, hash);
      AppendedColumns(Fold(log, front), job.hash, job.signal, job.time, job.origin);
      SplitLast(history);
      RecordedPush(front, job, |front|, hash);
    }
  }

  // ---------------------------------------------------------------- lock and text

  /** What a process in this phase may rely on while nobody else moves the log. The
      temporary file holds a prefix of what was to be written. */
  ghost predicate PhaseOk(phase: Phase, temp: Bytes, holds: bool, live: Bytes) {
    && (InCritical(phase) <==> holds)
    && (phase.HasText? ==> phase.existing == live)
    && (phase.Writing? || phase.Closed? || phase.Synced? ==>
          phase.data == AppendText(live, phase.job) && temp <= phase.data)
  }

  ghost predicate ProcOk(s: State, p: Pid) {
    PhaseOk(PhaseOf(s, p), TempOf(s, p), s.holder == Some(p), s.live)
  }

  ghost predicate Guarded(s: State) {
    forall p :: ProcOk(s, p)
  }

  /** Only the moving process changes, and it takes or drops the lock only for
      itself. */
  ghost predicate OthersKept(s: State, s': State, p: Pid) {
    && (forall q :: q != p ==> PhaseOf(s', q) == PhaseOf(s, q))
    && (forall q :: q != p ==> TempOf(s', q) == TempOf(s, q))
    && (forall q :: q != p ==> (s'.holder == Some(q) <==> s.holder == Some(q)))
  }

  lemma LocalStep(s: State, s': State, p: Pid)
    requires Guarded(s) && OthersKept(s, s', p)
    requires s'.live == s.live && ProcOk(s', p)
    ensures Guarded(s')
  {
    forall q
      ensures ProcOk(s', q)
    {
      assert ProcOk(s, q);
    }
  }

  lemma CallIsLocal(s: State, a: Action)
    requires ProcOk(s, a.pid)
    ensures var s' := DoCall(s, a);
      OthersKept(s, s', a.pid) && s'.live == s.live && s'.history == s.history && ProcOk(s', a.pid)
  {
  }

  lemma WriteIsLocal(s: State, a: Action)
    requires ProcOk(s, a.pid)
    ensures var s' := DoWrite(s, a);
      OthersKept(s, s', a.pid) && s'.live == s.live && s'.history == s.history && ProcOk(s', a.pid)
  {
  }

  /** A step that replaces the log. */
  ghost predicate Renames(s: State, a: Action) {
    a.Rename? && PhaseOf(s, a.pid).Synced?
  }

  lemma PublishIsLocal(s: State, a: Action)
    requires ProcOk(s, a.pid) && !Renames(s, a)
    ensures var s' := DoPublish(s, a);
      OthersKept(s, s', a.pid) && s'.live == s.live && s'.history == s.history && ProcOk(s', a.pid)
  {
  }

  /** While p is about to rename, nobody else relies on the log. */
  lemma OthersSurviveRename(s: State, p: Pid, q: Pid)
    requires ProcOk(s, p) && ProcOk(s, q) && PhaseOf(s, p).Synced? && q != p
    ensures ProcOk(DoPublish(s, Rename(p)), q)
  {
    var s' := DoPublish(s, Rename(p));
    assert PhaseOf(s', q) == PhaseOf(s, q) && TempOf(s', q) == TempOf(s, q) && s'.holder == s.holder;
  }

  lemma RenameKeepsGuard(s: State, p: Pid)
    requires Guarded(s) && PhaseOf(s, p).Synced?
    ensures Guarded(DoPublish(s, Rename(p)))
  {
    var s' := DoPublish(s, Rename(p));
    assert ProcOk(s, p);
    assert PhaseOf(s', p).Unlocking? && s'.holder == s.holder;
    forall q
      ensures ProcOk(s', q)
    {
      if q != p {
        assert ProcOk(s, q);
        OthersSurviveRename(s, p, q);
      }
    }
  }

  /** Lock and text stay in agreement under every step, faulty ones included, and
      only a rename touches the log. */
  lemma StepKeepsGuard(s: State, a: Action)
    requires Guarded(s)
    ensures Guarded(Do(s, a))
    ensures !Renames(s, a) ==> Do(s, a).live == s.live && Do(s, a).history == s.history
  {
    assert ProcOk(s, a.pid);
    CallIsLocal(s, a);
    WriteIsLocal(s, a);
    if Renames(s, a) {
      RenameKeepsGuard(s, a.pid);
    } else {
      PublishIsLocal(s, a);
      LocalStep(s, Do(s, a), a.pid);
    }
  }

  lemma {:induction false} GuardReachable(log: Bytes, actions: seq<Action>)
    ensures Guarded(Run(Init(log), actions))
    decreases |actions|
  {
    if actions == [] {
    } else {
      GuardReachable(log, actions[..|actions| - 1]);
      StepKeepsGuard(Run(Init(log), actions[..|actions| - 1]), actions[|actions| - 1]);
    }
  }

  // ---------------------------------------------------------------- when the log is whole

  /** A rename publishes a temporary file that holds all that was to be written. */
  ghost predicate CompleteStep(s: State, a: Action) {
    Renames(s, a) ==> TempOf(s, a.pid) == PhaseOf(s, a.pid).data
  }

  /** Whatever was written of it, a rename makes a prefix of the appended log the
      live log. */
  lemma RenamePublishesPrefix(s: State, p: Pid)
    requires Guarded(s) && PhaseOf(s, p).Synced?
    ensures var s', job := Do(s, Rename(p)), PhaseOf(s, p).job;
      && s'.live == TempOf(s, p) <= AppendText(s.live, job) == PhaseOf(s, p).data
      && s'.history == s.history + [job]
  {
    assert ProcOk(s, p);
  }

  ghost predicate Whole(s: State, log: Bytes) {
    s.live == Fold(log, s.history)
  }

  lemma StepKeepsWholeExactly(s: State, a: Action, log: Bytes)
    requires Guarded(s) && Whole(s, log)
    ensures Whole(Do(s, a), log) <==> CompleteStep(s, a)
  {
    StepKeepsGuard(s, a);
    if Renames(s, a) {
      RenamePublishesPrefix(s, a.pid);
      FoldPush(log, s.history, PhaseOf(s, a.pid).job);
    }
  }

  /** One append, its writes cut short or not: the log is whole after its rename
      exactly when the temporary file was complete. */
  lemma AppendWholeExactly(s: State, p: Pid, log: Bytes)
    requires Guarded(s) && Whole(s, log) && PhaseOf(s, p).Writing?
    ensures var s' := Do(Do(Do(s, CloseShort(p)), Sync(p)), Rename(p));
      && s'.live == TempOf(s, p)
      && (Whole(s', log) <==> TempOf(s, p) == PhaseOf(s, p).data)
  {
    var s1 := Do(s, CloseShort(p));
    var s2 := Do(s1, Sync(p));
    StepKeepsGuard(s, CloseShort(p));
    StepKeepsGuard(s1, Sync(p));
    CloseStep(s, p, CloseShort(p));
    SyncStep(s1, p);
    RenamePublishesPrefix(s2, p);
    StepKeepsWholeExactly(s2, Rename(p), log);
  }

  function StateAt(log: Bytes, actions: seq<Action>, k: nat): State
    requires k <= |actions|
  {
    Run(Init(log), actions[..k])
  }

  ghost predicate CompleteAt(log: Bytes, actions: seq<Action>, k: nat)
    requires k < |actions|
  {
    CompleteStep(StateAt(log, actions, k), actions[k])
  }

  ghost predicate WholeAt(log: Bytes, actions: seq<Action>, k: nat)
    requires k <= |actions|
  {
    Whole(StateAt(log, actions, k), log)
  }

  /** Every rename of the run publishes a complete temporary file. */
  ghost predicate Complete(log: Bytes, actions: seq<Action>) {
    forall k :: 0 <= k < |actions| ==> CompleteAt(log, actions, k)
  }

  lemma NextState(log: Bytes, actions: seq<Action>, k: nat)
    requires k < |actions|
    ensures StateAt(log, actions, k + 1) == Do(StateAt(log, actions, k), actions[k])
  {
    assert actions[..k + 1] == actions[..k] + [actions[k]];
    RunPush(Init(log), actions[..k], actions[k]);
  }

  lemma WholeNext(log: Bytes, actions: seq<Action>, k: nat)
    requires k < |actions| && WholeAt(log, actions, k)
    ensures WholeAt(log, actions, k + 1) <==> CompleteAt(log, actions, k)
  {
    NextState(log, actions, k);
    GuardReachable(log, actions[..k]);
    StepKeepsWholeExactly(StateAt(log, actions, k), actions[k], log);
  }

  lemma {:induction false} WholeUpTo(log: Bytes, actions: seq<Action>, k: nat)
    requires k <= |actions| && forall j :: 0 <= j < k ==> CompleteAt(log, actions, j)
    ensures WholeAt(log, actions, k)
    decreases k
  {
    if k > 0 {
      WholeUpTo(log, actions, k - 1);
      WholeNext(log, actions, k - 1);
    }
  }

  /** The live log is whole at every moment of a run exactly when every rename of the
      run published a complete temporary file. */
  lemma {:induction false} WholeExactly(log: Bytes, actions: seq<Action>)
    ensures (forall k :: 0 <= k <= |actions| ==> WholeAt(log, actions, k)) <==> Complete(log, actions)
  {
    if Complete(log, actions) {
      forall k | 0 <= k <= |actions|
        ensures WholeAt(log, actions, k)
      {
        WholeUpTo(log, actions, k);
      }
    }
    if forall k :: 0 <= k <= |actions| ==> WholeAt(log, actions, k) {
      forall k | 0 <= k < |actions|
        ensures CompleteAt(log, actions, k)
      {
        assert WholeAt(log, actions, k) && WholeAt(log, actions, k + 1);
        WholeNext(log, actions, k);
      }
    }
  }

  lemma CompleteFront(log: Bytes, actions: seq<Action>)
    requires actions != [] && Complete(log, actions)
    ensures Complete(log, actions[..|actions| - 1])
  {
    var front := actions[..|actions| - 1];
    forall k | 0 <= k < |front|
      ensures CompleteAt(log, front, k)
    {
      assert front[..k] == actions[..k];
      assert CompleteAt(log, actions, k);
    }
  }

  lemma WholeAtEnd(log: Bytes, actions: seq<Action>)
    requires Complete(log, actions)
    ensures Whole(Run(Init(log), actions), log)
  {
    WholeUpTo(log, actions, |actions|);
    WholeSlice(actions);
  }

  /** Crash and concurrency atomicity: whatever is killed wherever, as long as no
      rename publishes less than was to be written, the live log is the initial log,
      headed once, followed by whole entries in rename order. */
  lemma {:induction false} LogIsInitialPlusWholeEntries(log: Bytes, actions: seq<Action>)
    requires Complete(log, actions)
    ensures var s := Run(Init(log), actions);
      s.live == if s.history == [] then log else Headed(log) + JobRows(s.history)
  {
    WholeAtEnd(log, actions);
    FoldShape(log, Run(Init(log), actions).history);
  }

  // ---------------------------------------------------------------- processes that complete their writes

  ghost predicate Faultless(actions: seq<Action>) {
    forall i :: 0 <= i < |actions| ==> !actions[i].CloseShort?
  }

  ghost predicate Filled(s: State, p: Pid) {
    var phase := PhaseOf(s, p);
    phase.Closed? || phase.Synced? ==> TempOf(s, p) == phase.data
  }

  lemma CallFills(s: State, a: Action)
    requires Filled(s, a.pid)
    ensures Filled(DoCall(s, a), a.pid)
  {
  }

  lemma WriteFills(s: State, a: Action)
    requires Filled(s, a.pid) && !a.CloseShort?
    ensures Filled(DoWrite(s, a), a.pid)
  {
  }

  lemma PublishFills(s: State, a: Action)
    requires Filled(s, a.pid)
    ensures Filled(DoPublish(s, a), a.pid)
  {
  }

  lemma StepFills(s: State, a: Action, p: Pid)
    requires Filled(s, p) && !a.CloseShort?
    ensures Filled(Do(s, a), p)
  {
    if a.pid == p {
      CallFills(s, a);
      WriteFills(s, a);
      PublishFills(s, a);
    } else {
      OthersUntouched(s, a, p);
    }
  }

  lemma OthersUntouched(s: State, a: Action, p: Pid)
    requires a.pid != p
    ensures PhaseOf(Do(s, a), p) == PhaseOf(s, p) && TempOf(Do(s, a), p) == TempOf(s, p)
  {
  }

  lemma {:induction false} FilledReachable(log: Bytes, actions: seq<Action>, p: Pid)
    requires Faultless(actions)
    ensures Filled(Run(Init(log), actions), p)
    decreases |actions|
  {
    if actions == [] {
    } else {
      FilledReachable(log, actions[..|actions| - 1], p);
      StepFills(Run(Init(log), actions[..|actions| - 1]), actions[|actions| - 1], p);
    }
  }

  /** A kill in the middle of a write is no such fault: with processes that complete
      the writes they live through, every rename is complete. */
  lemma FaultlessIsComplete(log: Bytes, actions: seq<Action>)
    requires Faultless(actions)
    ensures Complete(log, actions)
  {
    forall k | 0 <= k < |actions|
      ensures CompleteAt(log, actions, k)
    {
      FilledReachable(log, actions[..k], actions[k].pid);
    }
  }

  // The steps of one append on its own, one at a time.

  /** Nothing a reader of the log could see. */
  ghost predicate Quiet(s: State, s': State) {
    s'.live == s.live && s'.history == s.history
  }

  /** This action of p queues the job: a request, or the crash of its child. */
  ghost predicate Queues(s: State, p: Pid, first: Action, job: Job) {
    && first.pid == p && PhaseOf(Do(s, first), p) == Queued(job)
    && Do(s, first).holder == s.holder && Quiet(s, Do(s, first))
  }

  function Request(p: Pid, job: Job): Action {
    Quarantine(p, job.hash, job.signal, job.time, job.origin)
  }

  lemma RequestQueues(s: State, p: Pid, job: Job)
    requires PhaseOf(s, p).Idle?
    ensures Queues(s, p, Request(p, job), job.(ticket := s.tickets))
  {
  }

  /** A child killed by a signal has its content queued for quarantine, with that
      signal. */
  lemma CrashQueues(s: State, p: Pid, signal: int, time: int, origin: Bytes)
    requires PhaseOf(s, p).Forked?
    ensures Queues(s, p, ChildCrashes(p, signal, time, origin),
                   Job(s.tickets, PhaseOf(s, p).hash, signal, time, origin))
  {
  }

  lemma LockStep(s: State, p: Pid)
    requires PhaseOf(s, p).Queued? && s.holder.None?
    ensures PhaseOf(Do(s, Lock(p)), p) == Holding(PhaseOf(s, p).job) && Quiet(s, Do(s, Lock(p)))
  {
  }

  lemma ReadStep(s: State, p: Pid)
    requires PhaseOf(s, p).Holding?
    ensures PhaseOf(Do(s, Read(p)), p) == HasText(PhaseOf(s, p).job, s.live) && Quiet(s, Do(s, Read(p)))
  {
  }

  lemma OpenStep(s: State, p: Pid)
    requires PhaseOf(s, p).HasText?
    ensures var s', phase := Do(s, OpenTemp(p)), PhaseOf(s, p);
      && PhaseOf(s', p) == Writing(phase.job, AppendText(phase.existing, phase.job))
      && TempOf(s', p) == [] && Quiet(s, s')
  {
  }

  lemma WriteStep(s: State, p: Pid)
    requires PhaseOf(s, p).Writing? && TempOf(s, p) == []
    ensures var s', phase := Do(s, Write(p, |PhaseOf(s, p).data|)), PhaseOf(s, p);
      PhaseOf(s', p) == phase && TempOf(s', p) == phase.data && Quiet(s, s')
  {
    WholeSlice(PhaseOf(s, p).data);
  }

  lemma CloseStep(s: State, p: Pid, a: Action)
    requires PhaseOf(s, p).Writing? && (a == CloseShort(p) || (a == Close(p) && TempOf(s, p) == PhaseOf(s, p).data))
    ensures PhaseOf(Do(s, a), p) == Closed(PhaseOf(s, p).job, PhaseOf(s, p).data)
    ensures TempOf(Do(s, a), p) == TempOf(s, p) && Quiet(s, Do(s, a))
  {
  }

  lemma SyncStep(s: State, p: Pid)
    requires PhaseOf(s, p).Closed?
    ensures PhaseOf(Do(s, Sync(p)), p) == Synced(PhaseOf(s, p).job, PhaseOf(s, p).data)
    ensures TempOf(Do(s, Sync(p)), p) == TempOf(s, p) && Quiet(s, Do(s, Sync(p)))
  {
  }

  lemma RenameStep(s: State, p: Pid)
    requires PhaseOf(s, p).Synced?
    ensures var s', job := Do(s, Rename(p)), PhaseOf(s, p).job;
      && PhaseOf(s', p) == Unlocking(job, true)
      && s'.live == TempOf(s, p) && s'.history == s.history + [job]
  {
  }

  lemma UnlockStep(s: State, p: Pid)
    requires PhaseOf(s, p).Unlocking?
    ensures var s', phase := Do(s, Unlock(p)), PhaseOf(s, p);
      && PhaseOf(s', p).Idle? && s'.holder.None? && Quiet(s, s')
      && s'.returned == if phase.renamed then s.returned + {phase.job.ticket} else s.returned
  {
  }

  /** An append that fails, at whichever call, leaves log and history alone, gives back
      the lock if it had it, and returns no ticket. */
  lemma FailedAppendChangesNothing(s: State, p: Pid)
    ensures PhaseOf(s, p).Queued? ==>
      var s' := Do(s, LockFails(p));
      PhaseOf(s', p).Idle? && s'.holder == s.holder && s'.returned == s.returned && Quiet(s, s')
    ensures PhaseOf(s, p).HasText? ==>
      var s' := Do(Do(s, OpenTempFails(p)), Unlock(p));
      PhaseOf(s', p).Idle? && s'.holder.None? && s'.returned == s.returned && Quiet(s, s')
    ensures PhaseOf(s, p).Synced? ==>
      var s' := Do(Do(s, RenameFails(p)), Unlock(p));
      && PhaseOf(s', p).Idle? && s'.holder.None? && s'.returned == s.returned && Quiet(s, s')
      && p !in s'.temps
  {
  }

  /** A kill drops the process and its lock, nothing else. */
  lemma KillDropsLock(s: State, p: Pid)
    ensures var s' := Do(s, Kill(p));
      && PhaseOf(s', p).Idle? && s'.holder != Some(p) && (s.holder != Some(p) ==> s'.holder == s.holder)
      && Quiet(s, s') && s'.returned == s.returned && s'.temps == s.temps
  {
  }

  function Opening(p: Pid, first: Action): seq<Action> {
    [first] + [Lock(p)] + [Read(p)] + [OpenTemp(p)]
  }

  function Closing(p: Pid): seq<Action> {
    [Sync(p)] + [Rename(p)] + [Unlock(p)]
  }

  lemma UpToOpenTemp(s0: State, p: Pid, first: Action, job: Job)
    requires Queues(s0, p, first, job) && s0.holder.None?
    ensures var s := Run(s0, Opening(p, first));
      && PhaseOf(s, p) == Writing(job, AppendText(s0.live, job))
      && TempOf(s, p) == [] && Quiet(s0, s)
  {
    var a1 := [first];
    var a2, a3 := a1 + [Lock(p)], a1 + [Lock(p)] + [Read(p)];
    RunOne(s0, first);
    RunPush(s0, a1, Lock(p));
    LockStep(Run(s0, a1), p);
    RunPush(s0, a2, Read(p));
    ReadStep(Run(s0, a2), p);
    RunPush(s0, a3, OpenTemp(p));
    OpenStep(Run(s0, a3), p);
  }

  lemma FromClosed(s: State, p: Pid)
    requires PhaseOf(s, p).Closed?
    ensures var s', job := Run(s, Closing(p)), PhaseOf(s, p).job;
      && s'.live == TempOf(s, p) && s'.history == s.history + [job] && job.ticket in s'.returned
      && PhaseOf(s', p).Idle? && s'.holder.None?
  {
    var c1 := [Sync(p)];
    var c2 := c1 + [Rename(p)];
    RunOne(s, Sync(p));
    SyncStep(s, p);
    RunPush(s, c1, Rename(p));
    RenameStep(Run(s, c1), p);
    RunPush(s, c2, Unlock(p));
    UnlockStep(Run(s, c2), p);
  }

  ghost predicate FaultlessAction(a: Action) {
    !a.CloseShort? && PlainAction(a)
  }

  /** Steps of one process, none of them faulty. */
  ghost predicate StepsOf(actions: seq<Action>, p: Pid) {
    forall i :: 0 <= i < |actions| ==> actions[i].pid == p && FaultlessAction(actions[i])
  }

  lemma StepsOfConcat(a: seq<Action>, b: seq<Action>, p: Pid)
    requires StepsOf(a, p) && StepsOf(b, p)
    ensures StepsOf(a + b, p)
  {
  }

  lemma AppendSteps(p: Pid, first: Action, n: nat)
    requires first.pid == p && FaultlessAction(first)
    ensures StepsOf(Opening(p, first) + [Write(p, n)] + [Close(p)] + Closing(p), p)
  {
    assert StepsOf(Opening(p, first), p) && StepsOf(Closing(p), p);
    StepsOfConcat(Opening(p, first), [Write(p, n)], p);
    StepsOfConcat(Opening(p, first) + [Write(p, n)], [Close(p)], p);
    StepsOfConcat(Opening(p, first) + [Write(p, n)] + [Close(p)], Closing(p), p);
  }

  function WholeAppend(p: Pid, first: Action, n: nat): seq<Action> {
    Opening(p, first) + [Write(p, n)] + [Close(p)] + Closing(p)
  }

  lemma AppendActions(p: Pid, first: Action, n: nat)
    requires first.pid == p
    ensures var actions := WholeAppend(p, first, n);
      actions != [] && actions[0] == first && forall i :: 0 <= i < |actions| ==> actions[i].pid == p
  {
    assert WholeAppend(p, first, n) == Opening(p, first) + ([Write(p, n)] + [Close(p)] + Closing(p));
    assert Opening(p, first)[0] == first;
  }

  /** The job is in the log and the process is back, the lock free. */
  ghost predicate Landed(s: State, s': State, p: Pid, job: Job) {
    && s'.live == Appended(s.live, job.hash, job.signal, job.time, job.origin)
    && s'.history == s.history + [job] && job.ticket in s'.returned
    && PhaseOf(s', p).Idle? && s'.holder.None?
  }

  lemma AppendFrom(s0: State, p: Pid, first: Action, job: Job)
    requires Queues(s0, p, first, job) && s0.holder.None?
    ensures Landed(s0, Run(s0, WholeAppend(p, first, |AppendText(s0.live, job)|)), p, job)
  {
    var n := |AppendText(s0.live, job)|;
    UpToOpenTemp(s0, p, first, job);
    Completed(s0, Opening(p, first), p, n);
  }

  /** Left alone, the steps compose to the sequential append. */
  lemma {:induction false} UndisturbedAppendLands(s0: State, p: Pid, job: Job) returns (actions: seq<Action>)
    requires PhaseOf(s0, p).Idle? && s0.holder.None?
    ensures NEWLINE !in job.origin ==> StepsOf(actions, p)
    ensures Landed(s0, Run(s0, actions), p, job.(ticket := s0.tickets))
  {
    var n := |AppendText(s0.live, job)|;
    RequestQueues(s0, p, job);
    AppendFrom(s0, p, Request(p, job), job.(ticket := s0.tickets));
    if NEWLINE !in job.origin {
      AppendSteps(p, Request(p, job), n);
    }
    actions := WholeAppend(p, Request(p, job), n);
  }

  lemma Completed(s0: State, opening: seq<Action>, p: Pid, n: nat)
    requires var s := Run(s0, opening);
      PhaseOf(s, p).Writing? && TempOf(s, p) == [] && |PhaseOf(s, p).data| == n && Quiet(s0, s)
    ensures var s, s' := Run(s0, opening), Run(s0, opening + [Write(p, n)] + [Close(p)] + Closing(p));
      && s'.live == PhaseOf(s, p).data && s'.history == s0.history + [PhaseOf(s, p).job]
      && PhaseOf(s, p).job.ticket in s'.returned
      && PhaseOf(s', p).Idle? && s'.holder.None?
  {
    UpToClosed(s0, opening, p, n);
    var longer := opening + [Write(p, n)] + [Close(p)];
    FromClosed(Run(s0, longer), p);
    RunConcat(s0, longer, Closing(p));
  }

  lemma UpToClosed(s0: State, opening: seq<Action>, p: Pid, n: nat)
    requires var s := Run(s0, opening);
      PhaseOf(s, p).Writing? && TempOf(s, p) == [] && |PhaseOf(s, p).data| == n && Quiet(s0, s)
    ensures var s, s' := Run(s0, opening), Run(s0, opening + [Write(p, n)] + [Close(p)]);
      && PhaseOf(s', p) == Closed(PhaseOf(s, p).job, PhaseOf(s, p).data)
      && TempOf(s', p) == PhaseOf(s, p).data && Quiet(s0, s')
  {
    var s := Run(s0, opening);
    WriteStep(s, p);
    RunPush(s0, opening, Write(p, n));
    RunPush(s0, opening + [Write(p, n)], Close(p));
    CloseStep(Do(s, Write(p, n)), p, Close(p));
  }

  /** The state of the stream is never looked at, so any part of the appended log may
      replace it, and the process returns as if all had gone well. */
  lemma ShortWriteCutsLog(log: Bytes, p: Pid, job: Job, n: nat) returns (actions: seq<Action>)
    requires n <= |AppendText(log, job)|
    ensures Run(Init(log), actions).live == AppendText(log, job)[..n] && 0 in Run(Init(log), actions).returned
  {
    var opening := Opening(p, Request(p, job));
    RequestQueues(Init(log), p, job);
    UpToOpenTemp(Init(log), p, Request(p, job), job.(ticket := 0));
    var s := Run(Init(log), opening);
    RunPush(Init(log), opening, Write(p, n));
    PartStep(s, p, n);
    RunPush(Init(log), opening + [Write(p, n)], CloseShort(p));
    CloseStep(Do(s, Write(p, n)), p, CloseShort(p));
    FromClosed(Run(Init(log), opening + [Write(p, n)] + [CloseShort(p)]), p);
    RunConcat(Init(log), opening + [Write(p, n)] + [CloseShort(p)], Closing(p));
    actions := opening + [Write(p, n)] + [CloseShort(p)] + Closing(p);
  }

  lemma PartStep(s: State, p: Pid, n: nat)
    requires PhaseOf(s, p).Writing? && TempOf(s, p) == [] && n <= |PhaseOf(s, p).data|
    ensures var s', phase := Do(s, Write(p, n)), PhaseOf(s, p);
      PhaseOf(s', p) == phase && TempOf(s', p) == phase.data[..n]
  {
  }

  lemma ShortWriteErasesLog(log: Bytes, p: Pid, job: Job) returns (actions: seq<Action>)
    ensures Run(Init(log), actions).live == [] && 0 in Run(Init(log), actions).returned
  {
    actions := ShortWriteCutsLog(log, p, job, 0);
  }

  lemma RunPush(s: State, actions: seq<Action>, a: Action)
    ensures Run(s, actions + [a]) == Do(Run(s, actions), a)
  {
    assert (actions + [a])[..|actions|] == actions;
  }

  lemma RunOne(s: State, a: Action)
    ensures Run(s, [a]) == Do(s, a)
  {
    assert [a][..0] == [];
  }

  lemma {:induction false} RunConcat(s: State, a: seq<Action>, b: seq<Action>)
    ensures Run(s, a + b) == Run(Run(s, a), b)
    decreases |b|
  {
    if b == [] {
      assert a + b == a;
    } else {
      var front, last := b[..|b| - 1], b[|b| - 1];
      RunConcat(s, a, front);
      assert (a + b)[..|a + b| - 1] == a + front;
      assert (a + b)[|a + b| - 1] == last;
    }
  }

  // ---------------------------------------------------------------- tickets

  ghost predicate InHistory(history: seq<Job>, ticket: nat) {
    exists k :: 0 <= k < |history| && history[k].ticket == ticket
  }

  predicate HasJob(phase: Phase) {
    phase.Queued? || InCritical(phase)
  }

  predicate Published(phase: Phase) {
    phase.Unlocking? && phase.renamed
  }

  ghost predicate TicketOk(s: State, p: Pid) {
    var phase := PhaseOf(s, p);
    HasJob(phase) ==>
      && phase.job.ticket < s.tickets
      && phase.job.ticket !in s.returned
      && (InHistory(s.history, phase.job.ticket) <==> Published(phase))
  }

  ghost predicate HistoryOk(s: State) {
    && (forall i, j :: 0 <= i < j < |s.history| ==> s.history[i].ticket != s.history[j].ticket)
    && (forall k :: 0 <= k < |s.history| ==> s.history[k].ticket < s.tickets)
    && (forall t :: t in s.returned ==> InHistory(s.history, t))
  }

  ghost predicate Tickets(s: State) {
    && HistoryOk(s)
    && (forall p :: TicketOk(s, p))
    && (forall p, q :: Apart(s, p, q))
  }

  ghost predicate Apart(s: State, p: Pid, q: Pid) {
    p != q && HasJob(PhaseOf(s, p)) && HasJob(PhaseOf(s, q)) ==>
      PhaseOf(s, p).job.ticket != PhaseOf(s, q).job.ticket
  }

  ghost predicate SameBooks(s: State, s': State) {
    s'.history == s.history && s'.tickets == s.tickets && s'.returned == s.returned
  }

  /** The moving process keeps its job or drops it. */
  ghost predicate JobKept(phase: Phase, phase': Phase) {
    HasJob(phase') ==> HasJob(phase) && phase'.job == phase.job && Published(phase') == Published(phase)
  }

  lemma KeepTickets(s: State, s': State, p: Pid)
    requires Tickets(s) && SameBooks(s, s')
    requires forall q :: q != p ==> PhaseOf(s', q) == PhaseOf(s, q)
    requires JobKept(PhaseOf(s, p), PhaseOf(s', p))
    ensures Tickets(s')
  {
    forall q
      ensures TicketOk(s', q)
    {
      assert TicketOk(s, q);
    }
    forall q, r
      ensures Apart(s', q, r)
    {
      assert Apart(s, q, r);
    }
  }

  lemma NewTicket(s: State, s': State, p: Pid)
    requires Tickets(s) && !HasJob(PhaseOf(s, p))
    requires s'.history == s.history && s'.tickets == s.tickets + 1 && s'.returned == s.returned
    requires forall q :: q != p ==> PhaseOf(s', q) == PhaseOf(s, q)
    requires PhaseOf(s', p).Queued? && PhaseOf(s', p).job.ticket == s.tickets
    ensures Tickets(s')
  {
    assert !InHistory(s.history, s.tickets);
    assert s.tickets !in s.returned;
    forall q
      ensures TicketOk(s', q)
    {
      assert TicketOk(s, q);
    }
    forall q, r
      ensures Apart(s', q, r)
    {
      assert Apart(s, q, r);
      assert TicketOk(s, q) && TicketOk(s, r);
    }
  }

  lemma ReturnTicket(s: State, p: Pid)
    requires Tickets(s) && Published(PhaseOf(s, p))
    ensures Tickets(DoPublish(s, Unlock(p)))
  {
    var s' := DoPublish(s, Unlock(p));
    assert TicketOk(s, p);
    forall q
      ensures TicketOk(s', q)
    {
      assert TicketOk(s, q) && Apart(s, p, q);
    }
    forall q, r
      ensures Apart(s', q, r)
    {
      assert Apart(s, q, r);
    }
  }

  lemma InHistoryPush(history: seq<Job>, job: Job, ticket: nat)
    ensures InHistory(history + [job], ticket) <==> InHistory(history, ticket) || job.ticket == ticket
  {
    var longer := history + [job];
    assert longer[|history|] == job;
    assert forall k :: 0 <= k < |history| ==> longer[k] == history[k];
  }

  lemma RenameHistory(s: State, p: Pid)
    requires Tickets(s) && PhaseOf(s, p).Synced?
    ensures HistoryOk(DoPublish(s, Rename(p)))
  {
    var s', job := DoPublish(s, Rename(p)), PhaseOf(s, p).job;
    assert TicketOk(s, p);
    forall k | 0 <= k < |s.history|
      ensures s.history[k].ticket != job.ticket
    {
      assert !InHistory(s.history, job.ticket);
    }
    forall t | t in s'.returned
      ensures InHistory(s'.history, t)
    {
      InHistoryPush(s.history, job, t);
    }
  }

  lemma RenameTickets(s: State, p: Pid)
    requires Tickets(s) && PhaseOf(s, p).Synced?
    ensures Tickets(DoPublish(s, Rename(p)))
  {
    var s', job := DoPublish(s, Rename(p)), PhaseOf(s, p).job;
    RenameHistory(s, p);
    forall q
      ensures TicketOk(s', q)
    {
      assert TicketOk(s, q) && Apart(s, p, q);
      if HasJob(PhaseOf(s', q)) {
        InHistoryPush(s.history, job, PhaseOf(s', q).job.ticket);
      }
    }
    forall q, r
      ensures Apart(s', q, r)
    {
      assert Apart(s, q, r);
    }
  }

  lemma CallBooks(s: State, a: Action)
    ensures var s' := DoCall(s, a);
      || (SameBooks(s, s') && JobKept(PhaseOf(s, a.pid), PhaseOf(s', a.pid)))
      || (!HasJob(PhaseOf(s, a.pid)) && s'.history == s.history && s'.tickets == s.tickets + 1
          && s'.returned == s.returned && PhaseOf(s', a.pid).Queued? && PhaseOf(s', a.pid).job.ticket == s.tickets)
    ensures forall q :: q != a.pid ==> PhaseOf(DoCall(s, a), q) == PhaseOf(s, q)
  {
  }

  lemma WriteBooks(s: State, a: Action)
    ensures SameBooks(s, DoWrite(s, a)) && JobKept(PhaseOf(s, a.pid), PhaseOf(DoWrite(s, a), a.pid))
    ensures forall q :: q != a.pid ==> PhaseOf(DoWrite(s, a), q) == PhaseOf(s, q)
  {
  }

  lemma PublishBooks(s: State, a: Action)
    ensures var s' := DoPublish(s, a);
      || (SameBooks(s, s') && JobKept(PhaseOf(s, a.pid), PhaseOf(s', a.pid)))
      || (a.Rename? && PhaseOf(s, a.pid).Synced?)
      || (a.Unlock? && Published(PhaseOf(s, a.pid)))
    ensures forall q :: q != a.pid ==> PhaseOf(DoPublish(s, a), q) == PhaseOf(s, q)
  {
  }

  lemma StepKeepsTickets(s: State, a: Action)
    requires Tickets(s)
    ensures Tickets(Do(s, a))
  {
    CallBooks(s, a);
    WriteBooks(s, a);
    PublishBooks(s, a);
    var s' := Do(s, a);
    if a.Rename? && PhaseOf(s, a.pid).Synced? {
      RenameTickets(s, a.pid);
    } else if a.Unlock? && Published(PhaseOf(s, a.pid)) {
      ReturnTicket(s, a.pid);
    } else if s'.tickets == s.tickets {
      KeepTickets(s, s', a.pid);
    } else {
      NewTicket(s, s', a.pid);
    }
  }

  lemma {:induction false} TicketsReachable(log: Bytes, actions: seq<Action>)
    ensures Tickets(Run(Init(log), actions))
    decreases |actions|
  {
    if actions == [] {
    } else {
      TicketsReachable(log, actions[..|actions| - 1]);
      StepKeepsTickets(Run(Init(log), actions[..|actions| - 1]), actions[|actions| - 1]);
    }
  }

  /** No append is lost or made twice: each rename belongs to a call of its own,
      every call that returned after renaming is among them, and a call still on
      its way is among them exactly when it is past its rename. */
  lemma {:induction false} AppendsExactlyOnce(log: Bytes, actions: seq<Action>, p: Pid)
    ensures var s := Run(Init(log), actions);
      && (forall i, j :: 0 <= i < j < |s.history| ==> s.history[i].ticket != s.history[j].ticket)
      && (forall t :: t in s.returned ==> InHistory(s.history, t))
      && (HasJob(PhaseOf(s, p)) ==>
            && PhaseOf(s, p).job.ticket !in s.returned
            && (InHistory(s.history, PhaseOf(s, p).job.ticket) <==> Published(PhaseOf(s, p))))
  {
    TicketsReachable(log, actions);
    assert TicketOk(Run(Init(log), actions), p);
  }

  // ---------------------------------------------------------------- no re-run

  predicate PlainAction(a: Action) {
    (a.ChildCrashes? || a.Quarantine?) ==> NEWLINE !in a.origin
  }

  ghost predicate PlainRun(actions: seq<Action>) {
    forall i :: 0 <= i < |actions| ==> PlainAction(actions[i])
  }

  ghost predicate PlainState(s: State) {
    && PlainJobs(s.history)
    && forall p :: HasJob(PhaseOf(s, p)) ==> NEWLINE !in PhaseOf(s, p).job.origin
  }

  /** A call past its pre-flight read: the read came before the first rename that
      recorded the content's hash. */
  ghost predicate CallOk(s: State, p: Pid, log: Bytes) {
    var phase := PhaseOf(s, p);
    phase.Cleared? || phase.Forked? ==>
      && phase.at <= |s.history|
      && !Quarantined(log, phase.hash)
      && !Recorded(s.history, phase.at, phase.hash)
  }

  lemma CallPlain(s: State, a: Action)
    requires PlainState(s) && PlainAction(a)
    ensures PlainState(DoCall(s, a))
  {
    CallBooks(s, a);
    CallOrigin(s, a);
  }

  lemma CallOrigin(s: State, a: Action)
    requires PlainAction(a)
    ensures var phase' := PhaseOf(DoCall(s, a), a.pid);
      HasJob(phase') ==> NEWLINE !in phase'.job.origin || phase' == PhaseOf(s, a.pid)
  {
  }

  lemma WritePlain(s: State, a: Action)
    requires PlainState(s)
    ensures PlainState(DoWrite(s, a))
  {
    WriteBooks(s, a);
  }

  lemma PublishPlain(s: State, a: Action)
    requires PlainState(s)
    ensures PlainState(DoPublish(s, a))
  {
    PublishBooks(s, a);
  }

  /** What each step may do to a call in flight. */
  lemma CallEffect(s: State, a: Action, p: Pid)
    ensures var s' := Do(s, a);
      var phase' := PhaseOf(s', p);
      phase'.Cleared? || phase'.Forked? ==>
        || (phase'.at == |s.history| && !Quarantined(s.live, phase'.hash) && s'.history == s.history)
        || ((PhaseOf(s, p).Cleared? || PhaseOf(s, p).Forked?)
            && PhaseOf(s, p).hash == phase'.hash && PhaseOf(s, p).at == phase'.at)
  {
    WriteEffect(s, a, p);
    PublishEffect(s, a, p);
  }

  lemma WriteEffect(s: State, a: Action, p: Pid)
    ensures var phase' := PhaseOf(DoWrite(s, a), p);
      phase'.Cleared? || phase'.Forked? ==> phase' == PhaseOf(s, p)
  {
  }

  lemma PublishEffect(s: State, a: Action, p: Pid)
    ensures var phase' := PhaseOf(DoPublish(s, a), p);
      phase'.Cleared? || phase'.Forked? ==> phase' == PhaseOf(s, p)
  {
  }

  lemma HistoryGrows(s: State, a: Action)
    ensures s.history <= Do(s, a).history
  {
  }

  lemma RecordedStable(history: seq<Job>, longer: seq<Job>, n: nat, hash: nat)
    requires history <= longer && n <= |history|
    ensures Recorded(longer, n, hash) <==> Recorded(history, n, hash)
  {
    assert forall k :: 0 <= k < n ==> longer[k] == history[k];
  }

  lemma {:induction false} StepKeepsCall(s: State, a: Action, p: Pid, log: Bytes)
    requires LineEnded(log) && Whole(s, log) && PlainState(s) && CallOk(s, p, log)
    ensures CallOk(Do(s, a), p, log)
  {
    var s' := Do(s, a);
    var phase' := PhaseOf(s', p);
    CallEffect(s, a, p);
    HistoryGrows(s, a);
    if phase'.Cleared? || phase'.Forked? {
      FoldQuarantines(log, s.history, phase'.hash);
      RecordedStable(s.history, s'.history, phase'.at, phase'.hash);
    }
  }

  lemma {:induction false} CallsReachable(log: Bytes, actions: seq<Action>, p: Pid)
    requires LineEnded(log) && Complete(log, actions) && PlainRun(actions)
    ensures PlainState(Run(Init(log), actions))
    ensures CallOk(Run(Init(log), actions), p, log)
    decreases |actions|
  {
    if actions == [] {
    } else {
      var front, a := actions[..|actions| - 1], actions[|actions| - 1];
      CompleteFront(log, actions);
      CallsReachable(log, front, p);
      WholeAtEnd(log, front);
      var s := Run(Init(log), front);
      CallPlain(s, a);
      WritePlain(s, a);
      PublishPlain(s, a);
      StepKeepsCall(s, a, p, log);
    }
  }

  /** A call forks a content only if its pre-flight read preceded the first rename
      that recorded the content's hash, and the hash was not in the initial log. */
  lemma {:induction false} ForkedOnlyIfReadFirst(log: Bytes, actions: seq<Action>, p: Pid)
    requires LineEnded(log) && Complete(log, actions) && PlainRun(actions)
    ensures var s := Run(Init(log), actions);
      var phase := PhaseOf(s, p);
      phase.Forked? ==>
        && !Quarantined(log, phase.hash)
        && phase.at <= |s.history|
        && forall k :: 0 <= k < phase.at ==> s.history[k].hash != phase.hash
  {
    CallsReachable(log, actions, p);
  }

  lemma {:induction false} OthersPhaseKept(s: State, actions: seq<Action>, p: Pid)
    requires forall i :: 0 <= i < |actions| ==> actions[i].pid != p
    ensures PhaseOf(Run(s, actions), p) == PhaseOf(s, p)
    decreases |actions|
  {
    if actions == [] {
    } else {
      var front, a := actions[..|actions| - 1], actions[|actions| - 1];
      OthersPhaseKept(s, front, p);
      CallBooks(Run(s, front), a);
      WriteBooks(Run(s, front), a);
      PublishBooks(Run(s, front), a);
    }
  }

  lemma CheckSteps(s: State, p: Pid, hash: nat)
    requires PhaseOf(s, p).Idle?
    ensures var s' := Run(s, [Call(p, hash)] + [PreFlight(p)]);
      && Quiet(s, s') && s'.holder == s.holder && s'.tickets == s.tickets
      && PhaseOf(s', p) == (if Quarantined(s.live, hash) then Refused(hash) else Cleared(hash, |s.history|))
      && PhaseOf(Do(s', Leave(p)), p).Idle?
  {
    RunOne(s, Call(p, hash));
    RunPush(s, [Call(p, hash)], PreFlight(p));
  }

  lemma ForkStep(s: State, p: Pid)
    requires PhaseOf(s, p).Cleared?
    ensures PhaseOf(Do(s, Fork(p)), p) == Forked(PhaseOf(s, p).hash, PhaseOf(s, p).at) && Do(s, Fork(p)).live == s.live
  {
  }

  /** A guarded run of a content that is not quarantined forks it, and if the child
      exits by itself nothing is recorded. */
  lemma CleanRunRecordsNothing(s: State, p: Pid, hash: nat)
    requires PhaseOf(s, p).Idle? && !Quarantined(s.live, hash)
    ensures var forked := Do(Run(s, [Call(p, hash)] + [PreFlight(p)]), Fork(p));
      var s' := Do(forked, ChildExits(p));
      && PhaseOf(forked, p) == Forked(hash, |s.history|)
      && PhaseOf(s', p).Idle? && Quiet(s, s') && s'.tickets == s.tickets && s'.holder == s.holder
  {
    CheckSteps(s, p, hash);
  }

  /** From the crash of a forked child on: with the lock free, the process alone brings
      the hash into the log, with the signal of the crash ... */
  lemma CrashIsRecorded(s: State, p: Pid, signal: int, time: int, origin: Bytes) returns (actions: seq<Action>)
    requires PhaseOf(s, p).Forked? && s.holder.None?
    ensures actions != [] && actions[0] == ChildCrashes(p, signal, time, origin)
    ensures forall i :: 0 <= i < |actions| ==> actions[i].pid == p
    ensures var s', hash := Run(s, actions), PhaseOf(s, p).hash;
      && s'.live == Appended(s.live, hash, signal, time, origin)
      && s'.history == s.history + [Job(s.tickets, hash, signal, time, origin)]
      && PhaseOf(s', p).Idle? && s'.holder.None?
  {
    var job := Job(s.tickets, PhaseOf(s, p).hash, signal, time, origin);
    var n, first := |AppendText(s.live, job)|, ChildCrashes(p, signal, time, origin);
    CrashQueues(s, p, signal, time, origin);
    AppendFrom(s, p, first, job);
    AppendActions(p, first, n);
    actions := WholeAppend(p, first, n);
  }

  /** ... and from then on the hash is quarantined, and every call for it is refused. */
  lemma CrashThenRefused(s: State, p: Pid, signal: int, time: int, origin: Bytes, q: Pid) returns (actions: seq<Action>)
    requires PhaseOf(s, p).Forked? && s.holder.None? && LineEnded(s.live)
    requires q == p || PhaseOf(s, q).Idle?
    ensures actions != [] && actions[0] == ChildCrashes(p, signal, time, origin)
    ensures forall i :: 0 <= i < |actions| ==> actions[i].pid == p
    ensures var s', hash := Run(s, actions), PhaseOf(s, p).hash;
      && Quarantined(s'.live, hash)
      && PhaseOf(Run(s', [Call(q, hash)] + [PreFlight(q)]), q) == Refused(hash)
  {
    actions := CrashIsRecorded(s, p, signal, time, origin);
    var hash := PhaseOf(s, p).hash;
    LabelExactly(s.live, hash, signal, time, origin, hash);
    if q != p {
      OthersPhaseKept(s, actions, q);
    }
    CheckSteps(Run(s, actions), q, hash);
  }

  // The fate of a job once it is queued.

  /** The append of this job has neither renamed nor failed yet. */
  ghost predicate UnderWay(s: State, p: Pid, job: Job) {
    var phase := PhaseOf(s, p);
    HasJob(phase) && !phase.Unlocking? && phase.job == job
  }

  /** This step ends it without a rename. */
  ghost predicate Loses(a: Action, p: Pid) {
    a == Kill(p) || a == LockFails(p) || a == OpenTempFails(p) || a == RenameFails(p)
  }

  lemma CallKeepsJob(s: State, a: Action, p: Pid, job: Job)
    requires UnderWay(s, p, job)
    ensures UnderWay(DoCall(s, a), p, job)
  {
  }

  lemma WriteKeepsJob(s: State, a: Action, p: Pid, job: Job)
    requires UnderWay(s, p, job) && !Loses(a, p)
    ensures UnderWay(DoWrite(s, a), p, job)
  {
  }

  lemma PublishKeepsJob(s: State, a: Action, p: Pid, job: Job)
    requires UnderWay(s, p, job) && !Loses(a, p)
    ensures UnderWay(DoPublish(s, a), p, job) || job in DoPublish(s, a).history
  {
  }

  lemma StepKeepsJob(s: State, a: Action, p: Pid, job: Job)
    requires UnderWay(s, p, job) && !Loses(a, p)
    ensures UnderWay(Do(s, a), p, job) || job in Do(s, a).history
  {
    CallKeepsJob(s, a, p, job);
    WriteKeepsJob(s, a, p, job);
    PublishKeepsJob(s, a, p, job);
  }

  ghost predicate LostBefore(log: Bytes, actions: seq<Action>, k: nat, n: nat, p: Pid, job: Job)
    requires n <= |actions|
  {
    exists j :: k <= j < n && Loses(actions[j], p) && UnderWay(StateAt(log, actions, j), p, job)
  }

  lemma {:induction false} JobFate(log: Bytes, actions: seq<Action>, k: nat, n: nat, p: Pid, job: Job)
    requires k <= n <= |actions| && UnderWay(StateAt(log, actions, k), p, job)
    ensures UnderWay(StateAt(log, actions, n), p, job) || job in StateAt(log, actions, n).history
         || LostBefore(log, actions, k, n, p, job)
    decreases n
  {
    if k < n {
      JobFate(log, actions, k, n - 1, p, job);
      NextState(log, actions, n - 1);
      var s := StateAt(log, actions, n - 1);
      HistoryGrows(s, actions[n - 1]);
      if UnderWay(s, p, job) && !Loses(actions[n - 1], p) {
        StepKeepsJob(s, actions[n - 1], p, job);
      }
    }
  }

  /** No crash goes unrecorded for any other reason than a kill or a failed append: in
      every run, the job of a crashed child is still under way, or in the history of
      renames, or was lost in one of these steps. */
  lemma {:induction false} CrashAccounted(log: Bytes, actions: seq<Action>, k: nat)
    requires k < |actions| && actions[k].ChildCrashes? && PhaseOf(StateAt(log, actions, k), actions[k].pid).Forked?
    ensures var a, s := actions[k], StateAt(log, actions, k);
      var job := Job(s.tickets, PhaseOf(s, a.pid).hash, a.signal, a.time, a.origin);
      || UnderWay(Run(Init(log), actions), a.pid, job)
      || job in Run(Init(log), actions).history
      || LostBefore(log, actions, k + 1, |actions|, a.pid, job)
  {
    var a, s := actions[k], StateAt(log, actions, k);
    var job := Job(s.tickets, PhaseOf(s, a.pid).hash, a.signal, a.time, a.origin);
    CrashQueues(s, a.pid, a.signal, a.time, a.origin);
    NextState(log, actions, k);
    JobFate(log, actions, k + 1, |actions|, a.pid, job);
    WholeSlice(actions);
  }

  lemma TwoProcesses(check: seq<Action>, append: seq<Action>, last: Action, p: Pid, q: Pid)
    requires StepsOf(check, p) && StepsOf(append, q) && FaultlessAction(last)
    ensures Faultless(check + append + [last]) && PlainRun(check + append + [last])
  {
    forall i | 0 <= i < |check + append + [last]|
      ensures FaultlessAction((check + append + [last])[i])
    {
    }
  }

  /** Between its check and its fork, a content is quarantined exactly when a rename
      since the check recorded it. */
  lemma {:induction false} QuarantinedSinceExactly(log: Bytes, actions: seq<Action>, p: Pid)
    requires LineEnded(log) && Complete(log, actions) && PlainRun(actions)
    ensures var s := Run(Init(log), actions);
      var phase := PhaseOf(s, p);
      phase.Cleared? || phase.Forked? ==>
        phase.at <= |s.history| && (RecordedSince(s.history, phase.at, phase.hash) ==> Quarantined(s.live, phase.hash))
    ensures var s := Run(Init(log), actions);
      var phase := PhaseOf(s, p);
      phase.Cleared? || phase.Forked? ==>
        (Quarantined(s.live, phase.hash) ==> RecordedSince(s.history, phase.at, phase.hash))
  {
    var s := Run(Init(log), actions);
    CallsReachable(log, actions, p);
    WholeAtEnd(log, actions);
    var phase := PhaseOf(s, p);
    if phase.Cleared? || phase.Forked? {
      FoldQuarantines(log, s.history, phase.hash);
      BeforeOrSince(s.history, phase.at, phase.hash);
    }
  }

  ghost predicate RecordedSince(history: seq<Job>, n: nat, hash: nat) {
    exists k :: n <= k < |history| && history[k].hash == hash
  }

  lemma BeforeOrSince(history: seq<Job>, n: nat, hash: nat)
    requires n <= |history|
    ensures Recorded(history, |history|, hash) <==> Recorded(history, n, hash) || RecordedSince(history, n, hash)
  {
  }

  /** The window between check and fork stays open, whatever core.hpp's header says:
      the shared lock is dropped with the read, and a call forks a content that
      another process has quarantined in between. */
  lemma {:induction false} WindowStaysOpen(log: Bytes, job: Job) returns (actions: seq<Action>)
    requires LineEnded(log) && !Quarantined(log, job.hash) && NEWLINE !in job.origin
    ensures Complete(log, actions) && PlainRun(actions)
    ensures var s := Run(Init(log), actions);
      PhaseOf(s, 1) == Forked(job.hash, 0) && Quarantined(s.live, job.hash)
  {
    var check := [Call(1, job.hash)] + [PreFlight(1)];
    CheckSteps(Init(log), 1, job.hash);
    OthersPhaseKept(Init(log), check, 2);
    var s1 := Run(Init(log), check);
    var append := UndisturbedAppendLands(s1, 2, job);
    TwoProcesses(check, append, Fork(1), 1, 2);
    AppendedQuarantines(log, job.hash, job.signal, job.time, job.origin, job.hash);
    CheckThenFork(Init(log), check, append, 1);
    actions := check + append + [Fork(1)];
    FaultlessIsComplete(log, actions);
  }

  lemma {:induction false} CheckThenFork(s0: State, check: seq<Action>, append: seq<Action>, p: Pid)
    requires PhaseOf(Run(s0, check), p).Cleared?
    requires forall i :: 0 <= i < |append| ==> append[i].pid != p
    ensures var s, s' := Run(s0, check), Run(s0, check + append + [Fork(p)]);
      && PhaseOf(s', p) == Forked(PhaseOf(s, p).hash, PhaseOf(s, p).at)
      && s'.live == Run(s, append).live
  {
    OthersPhaseKept(Run(s0, check), append, p);
    RunConcat(s0, check, append);
    RunPush(s0, check + append, Fork(p));
    ForkStep(Run(s0, check + append), p);
  }

  ghost predicate Since(s: State, p: Pid, n: nat) {
    && n <= |s.history|
    && ((PhaseOf(s, p).Cleared? || PhaseOf(s, p).Forked?) ==> PhaseOf(s, p).at >= n)
  }

  lemma {:induction false} LaterReadsSeeMore(s: State, actions: seq<Action>, p: Pid, n: nat)
    requires Since(s, p, n)
    ensures Since(Run(s, actions), p, n) && s.history <= Run(s, actions).history
    decreases |actions|
  {
    if actions == [] {
    } else {
      var front, a := actions[..|actions| - 1], actions[|actions| - 1];
      LaterReadsSeeMore(s, front, p, n);
      CallEffect(Run(s, front), a, p);
      HistoryGrows(Run(s, front), a);
    }
  }

  /** Once a hash is recorded, or was there from the start, every call that begins
      afterwards is refused before it forks, however many crashes happened. */
  lemma {:induction false} LaterCallsRefused(log: Bytes, earlier: seq<Action>, later: seq<Action>, p: Pid, hash: nat)
    requires LineEnded(log) && Complete(log, earlier + later) && PlainRun(earlier + later)
    requires PhaseOf(Run(Init(log), earlier), p).Idle?
    requires var history := Run(Init(log), earlier).history;
      Quarantined(log, hash) || exists k :: 0 <= k < |history| && history[k].hash == hash
    ensures var phase := PhaseOf(Run(Init(log), earlier + later), p);
      phase.Cleared? || phase.Forked? ==> phase.hash != hash
  {
    var s, s' := Run(Init(log), earlier), Run(Init(log), earlier + later);
    RunConcat(Init(log), earlier, later);
    LaterReadsSeeMore(s, later, p, |s.history|);
    CallsReachable(log, earlier + later, p);
    assert forall k :: 0 <= k < |s.history| ==> s'.history[k] == s.history[k];
  }
}
