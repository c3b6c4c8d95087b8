/** The mutation lease of include/core.hpp: an in-process flag behind a flock on a
    shared file, over every interleaving of construction, destruction, fork, exec,
    _exit and kill in any number of processes with any number of threads.

    flock belongs to the open file description: fork shares it, exec drops it
    (O_CLOEXEC) and it is released by LOCK_UN or with the last reference. Each
    process uses one AtomicGuard; pids and descriptions are not reused. */
module Lease {
  import opened Basics

  type Pid = nat
  type Tid = nat
  type Ofd = nat

  datatype Proc =
    | Supervisor(flag: bool)
    | Child        // between fork and exec or _exit: its copy of the lease is never destroyed
    | Foreign      // after exec

  /** Where a thread is in MutationLease's constructor and destructor. */
  datatype Phase =
    | Idle
    | Opened(d: Ofd)    // open done, waiting in flock
    | Locked(d: Ofd)    // xp_guard_ built
    | Held(d: Ofd)      // the lease exists
    | Throwing(d: Ofd)  // lock_mutation_state threw, xp_guard_ is unwound
    | FlagDown(d: Ofd)  // destructor body done, xp_guard_ not yet destroyed
    | Closing(d: Ofd)   // after LOCK_UN

  datatype Thread = Thread(pid: Pid, phase: Phase)

  datatype State = State(procs: map<Pid, Proc>, used: set<Pid>, threads: map<Tid, Thread>,
                         refs: set<(Pid, Ofd)>, lock: Option<Ofd>, next: Ofd)

  datatype Action =
    | StartProcess(p: Pid)
    | StartThread(t: Tid, p: Pid)
    | Open(t: Tid)
    | Flock(t: Tid)
    | FlockFails(t: Tid)
    | SetFlag(t: Tid)
    | ClearFlag(t: Tid)
    | Unflock(t: Tid)
    | Close(t: Tid)
    | Fork(t: Tid, child: Pid)
    | Exec(p: Pid)
    | Exit(p: Pid)
    | Kill(p: Pid)

  predicate Referenced(refs: set<(Pid, Ofd)>, d: Ofd) {
    exists r :: r in refs && r.1 == d
  }

  /** The kernel drops the lock with the last reference to its description. */
  function Settled(lock: Option<Ofd>, refs: set<(Pid, Ofd)>): Option<Ofd> {
    if lock.Some? && !Referenced(refs, lock.value) then None else lock
  }

  function Without(refs: set<(Pid, Ofd)>, p: Pid): set<(Pid, Ofd)> {
    set r | r in refs && r.0 != p
  }

  function Inherited(refs: set<(Pid, Ofd)>, p: Pid, child: Pid): set<(Pid, Ofd)> {
    set r | r in refs && r.0 == p :: (child, r.1)
  }

  function PhaseOf(s: State, t: Tid): Phase {
    if t in s.threads then s.threads[t].phase else Idle
  }

  function Moved(s: State, t: Tid, phase: Phase): State
    requires t in s.threads
  {
    s.(threads := s.threads[t := s.threads[t].(phase := phase)])
  }

  predicate Runs(s: State, t: Tid) {
    t in s.threads && s.threads[t].pid in s.procs && s.procs[s.threads[t].pid].Supervisor?
  }

  /** Constructor and destructor steps of thread t; one that is not enabled
      changes nothing. */
  function LeaseStep(s: State, a: Action, t: Tid): State
    requires Runs(s, t)
  {
    var p, phase := s.threads[t].pid, s.threads[t].phase;
    match a
    case Open(_) =>
      if phase.Idle? then Moved(s, t, Opened(s.next)).(refs := s.refs + {(p, s.next)}, next := s.next + 1) else s
    case Flock(_) =>
      if phase.Opened? && s.lock.None? then Moved(s, t, Locked(phase.d)).(lock := Some(phase.d)) else s
    case FlockFails(_) =>
      if phase.Opened?
      then Moved(s, t, Idle).(refs := s.refs - {(p, phase.d)}, lock := Settled(s.lock, s.refs - {(p, phase.d)}))
      else s
    case SetFlag(_) =>
      if !phase.Locked? then s
      else if s.procs[p].flag then Moved(s, t, Throwing(phase.d))
      else Moved(s, t, Held(phase.d)).(procs := s.procs[p := Supervisor(true)])
    case ClearFlag(_) =>
      if phase.Held? then Moved(s, t, FlagDown(phase.d)).(procs := s.procs[p := Supervisor(false)]) else s
    case Unflock(_) =>
      if phase.FlagDown? || phase.Throwing?
      then Moved(s, t, Closing(phase.d)).(lock := if s.lock == Some(phase.d) then None else s.lock)
      else s
    case Close(_) =>
      if phase.Closing?
      then Moved(s, t, Idle).(refs := s.refs - {(p, phase.d)}, lock := Settled(s.lock, s.refs - {(p, phase.d)}))
      else s
    case _ => s
  }

  function Dropped(s: State, p: Pid): State {
    s.(refs := Without(s.refs, p), lock := Settled(s.lock, Without(s.refs, p)))
  }

  /** Process steps. */
  function ProcessStep(s: State, a: Action): State {
    match a
    case StartProcess(p) =>
      if p in s.used then s else s.(procs := s.procs[p := Supervisor(false)], used := s.used + {p})
    case StartThread(t, p) =>
      if t !in s.threads && p in s.procs && s.procs[p].Supervisor?
      then s.(threads := s.threads[t := Thread(p, Idle)]) else s
    case Fork(t, child) =>
      if Runs(s, t) && (s.threads[t].phase.Idle? || s.threads[t].phase.Held?) && child !in s.used
      then s.(procs := s.procs[child := Child], used := s.used + {child},
              refs := s.refs + Inherited(s.refs, s.threads[t].pid, child))
      else s
    case Exec(p) =>
      if p in s.procs && s.procs[p].Child? then Dropped(s.(procs := s.procs[p := Foreign]), p) else s
    case Exit(p) =>
      if p in s.procs && !s.procs[p].Supervisor? then Dropped(s.(procs := s.procs - {p}), p) else s
    case Kill(p) =>
      Dropped(s.(procs := s.procs - {p}, threads := map t | t in s.threads && s.threads[t].pid != p :: s.threads[t]), p)
    case _ => s
  }

  function Do(s: State, a: Action): State {
    match a
    case StartProcess(_) => ProcessStep(s, a)
    case StartThread(_, _) => ProcessStep(s, a)
    case Fork(_, _) => ProcessStep(s, a)
    case Exec(_) => ProcessStep(s, a)
    case Exit(_) => ProcessStep(s, a)
    case Kill(_) => ProcessStep(s, a)
    case _ => if Runs(s, a.t) then LeaseStep(s, a, a.t) else s
  }

  const INIT := State(map[], {}, map[], {}, None, 0)

  function Play(s: State, actions: seq<Action>): State {
    if actions == [] then s else Do(Play(s, actions[..|actions| - 1]), actions[|actions| - 1])
  }

  function Run(actions: seq<Action>): State {
    Play(INIT, actions)
  }

  // ---------------------------------------------------------------- the invariant

  predicate HoldsLock(phase: Phase) {
    phase.Locked? || phase.Held? || phase.FlagDown?
  }

  ghost predicate ThreadOk(s: State, t: Tid) {
    t in s.threads ==>
      var p, phase := s.threads[t].pid, s.threads[t].phase;
      && Runs(s, t)
      && !phase.Throwing?
      && (!phase.Idle? ==> (p, phase.d) in s.refs && phase.d < s.next)
      && (HoldsLock(phase) ==> s.lock == Some(phase.d))
      && (phase.Held? ==> s.procs[p].flag)
  }

  ghost predicate Apart(s: State, t: Tid, u: Tid) {
    t != u && !PhaseOf(s, t).Idle? && !PhaseOf(s, u).Idle? ==> PhaseOf(s, t).d != PhaseOf(s, u).d
  }

  ghost predicate SomeHeld(s: State, p: Pid) {
    exists t :: t in s.threads && s.threads[t].pid == p && s.threads[t].phase.Held?
  }

  ghost predicate ProcOk(s: State, p: Pid) {
    p in s.procs ==> p in s.used && (s.procs[p].Supervisor? && s.procs[p].flag ==> SomeHeld(s, p))
  }

  ghost predicate RefsOk(s: State) {
    && (forall r :: r in s.refs ==> r.0 in s.procs && r.1 < s.next)
    && (s.lock.Some? ==> Referenced(s.refs, s.lock.value))
  }

  ghost predicate Inv(s: State) {
    && (forall t :: ThreadOk(s, t))
    && (forall t, u :: Apart(s, t, u))
    && (forall p :: ProcOk(s, p))
    && RefsOk(s)
  }

  /** The set flag names the lock holder: two threads never hold at once. */
  lemma HoldersCoincide(s: State, t: Tid, u: Tid)
    requires Inv(s) && t in s.threads && u in s.threads
    requires HoldsLock(s.threads[t].phase) && HoldsLock(s.threads[u].phase)
    ensures t == u
  {
    assert ThreadOk(s, t) && ThreadOk(s, u) && Apart(s, t, u);
  }

  // ---------------------------------------------------------------- steps of one thread

  ghost predicate Frame(s: State, s': State, t: Tid) {
    && s'.threads.Keys == s.threads.Keys
    && (forall u :: u in s.threads && u != t ==> s'.threads[u] == s.threads[u])
    && (t in s.threads ==> s'.threads[t].pid == s.threads[t].pid)
    && s'.used == s.used
  }

  lemma OpenKeeps(s: State, t: Tid)
    requires Inv(s) && Runs(s, t)
    ensures Inv(LeaseStep(s, Open(t), t))
  {
    var s' := LeaseStep(s, Open(t), t);
    forall u
      ensures ThreadOk(s', u)
    {
      assert ThreadOk(s, u);
    }
    forall u, v
      ensures Apart(s', u, v)
    {
      assert Apart(s, u, v) && ThreadOk(s, u) && ThreadOk(s, v);
    }
    ProcsKept(s, s', t);
    assert forall r :: r in s.refs ==> r in s'.refs;
  }

  /** A step that leaves the processes alone and does not end a lease. */
  lemma ProcsKept(s: State, s': State, t: Tid)
    requires Inv(s) && Frame(s, s', t) && s'.procs == s.procs
    requires t in s.threads && (s.threads[t].phase.Held? ==> s'.threads[t].phase.Held?)
    ensures forall p :: ProcOk(s', p)
  {
    forall p
      ensures ProcOk(s', p)
    {
      assert ProcOk(s, p);
      if SomeHeld(s, p) {
        var u :| u in s.threads && s.threads[u].pid == p && s.threads[u].phase.Held?;
        assert s'.threads[u].pid == p && s'.threads[u].phase.Held?;
      }
    }
  }

  /** A step of t that only changes its phase, its descriptor staying its own. */
  lemma ApartKept(s: State, s': State, t: Tid)
    requires Inv(s) && Frame(s, s', t) && t in s.threads
    requires !s'.threads[t].phase.Idle? ==> !s.threads[t].phase.Idle? && s'.threads[t].phase.d == s.threads[t].phase.d
    ensures forall u, v :: Apart(s', u, v)
  {
    forall u, v
      ensures Apart(s', u, v)
    {
      assert Apart(s, u, v);
    }
  }

  lemma FlockKeeps(s: State, t: Tid)
    requires Inv(s) && Runs(s, t)
    ensures Inv(LeaseStep(s, Flock(t), t))
  {
    var s' := LeaseStep(s, Flock(t), t);
    assert ThreadOk(s, t);
    forall u
      ensures ThreadOk(s', u)
    {
      assert ThreadOk(s, u);
    }
    ProcsKept(s, s', t);
    ApartKept(s, s', t);
    if s != s' {
      assert (s.threads[t].pid, s'.lock.value) in s'.refs;
    }
  }

  /** Losing one reference leaves a lock alone that another thread holds. */
  lemma SettledKeeps(lock: Option<Ofd>, refs: set<(Pid, Ofd)>, r: (Pid, Ofd))
    requires lock == Some(r.1) && r in refs
    ensures Settled(lock, refs) == lock
  {
  }

  lemma SettledReferenced(lock: Option<Ofd>, refs: set<(Pid, Ofd)>)
    ensures Settled(lock, refs).Some? ==> Referenced(refs, Settled(lock, refs).value)
  {
  }

  lemma DropKeeps(s: State, a: Action, t: Tid)
    requires Inv(s) && Runs(s, t)
    requires (a.FlockFails? && s.threads[t].phase.Opened?) || (a.Close? && s.threads[t].phase.Closing?)
    ensures Inv(LeaseStep(s, a, t))
  {
    var s' := LeaseStep(s, a, t);
    assert ThreadOk(s, t);
    forall u
      ensures ThreadOk(s', u)
    {
      assert ThreadOk(s, u) && Apart(s, t, u);
      if u in s.threads && u != t && HoldsLock(s.threads[u].phase) {
        SettledKeeps(s.lock, s'.refs, (s.threads[u].pid, s.threads[u].phase.d));
      }
    }
    ProcsKept(s, s', t);
    ApartKept(s, s', t);
    SettledReferenced(s.lock, s'.refs);
  }

  lemma SetFlagKeeps(s: State, t: Tid)
    requires Inv(s) && Runs(s, t) && s.threads[t].phase.Locked?
    ensures !s.procs[s.threads[t].pid].flag
    ensures Inv(LeaseStep(s, SetFlag(t), t))
  {
    var s', p := LeaseStep(s, SetFlag(t), t), s.threads[t].pid;
    assert ProcOk(s, p);
    if SomeHeld(s, p) {
      var u :| u in s.threads && s.threads[u].pid == p && s.threads[u].phase.Held?;
      HoldersCoincide(s, t, u);
    }
    assert ThreadOk(s, t);
    forall u
      ensures ThreadOk(s', u)
    {
      assert ThreadOk(s, u);
    }
    forall q
      ensures ProcOk(s', q)
    {
      FlagRaised(s, t, q);
    }
    ApartKept(s, s', t);
  }

  lemma FlagRaised(s: State, t: Tid, q: Pid)
    requires Inv(s) && Runs(s, t) && s.threads[t].phase.Locked? && !s.procs[s.threads[t].pid].flag
    ensures ProcOk(LeaseStep(s, SetFlag(t), t), q)
  {
    var s', p := LeaseStep(s, SetFlag(t), t), s.threads[t].pid;
    assert ProcOk(s, q);
    assert s'.threads[t].pid == p && s'.threads[t].phase.Held?;
    if q != p && SomeHeld(s, q) {
      var u :| u in s.threads && s.threads[u].pid == q && s.threads[u].phase.Held?;
      assert s'.threads[u] == s.threads[u];
    }
  }

  lemma ClearFlagKeeps(s: State, t: Tid)
    requires Inv(s) && Runs(s, t) && s.threads[t].phase.Held?
    ensures Inv(LeaseStep(s, ClearFlag(t), t))
  {
    var s', p := LeaseStep(s, ClearFlag(t), t), s.threads[t].pid;
    assert ThreadOk(s, t);
    forall u
      ensures ThreadOk(s', u)
    {
      assert ThreadOk(s, u);
      if u in s.threads && s.threads[u].phase.Held? {
        HoldersCoincide(s, t, u);
      }
    }
    forall q
      ensures ProcOk(s', q)
    {
      assert ProcOk(s, q);
      if q != p && SomeHeld(s, q) {
        var u :| u in s.threads && s.threads[u].pid == q && s.threads[u].phase.Held?;
        assert s'.threads[u] == s.threads[u];
      }
    }
    ApartKept(s, s', t);
  }

  lemma UnflockKeeps(s: State, t: Tid)
    requires Inv(s) && Runs(s, t)
    ensures Inv(LeaseStep(s, Unflock(t), t))
  {
    var s' := LeaseStep(s, Unflock(t), t);
    assert ThreadOk(s, t);
    forall u
      ensures ThreadOk(s', u)
    {
      assert ThreadOk(s, u) && Apart(s, t, u);
    }
    ProcsKept(s, s', t);
    ApartKept(s, s', t);
  }

  lemma LeaseStepKeeps(s: State, a: Action, t: Tid)
    requires Inv(s) && Runs(s, t)
    ensures Inv(LeaseStep(s, a, t))
  {
    match a {
      case Open(_) => OpenKeeps(s, t);
      case Flock(_) => FlockKeeps(s, t);
      case FlockFails(_) => if s.threads[t].phase.Opened? { DropKeeps(s, a, t); }
      case SetFlag(_) => if s.threads[t].phase.Locked? { SetFlagKeeps(s, t); }
      case ClearFlag(_) => if s.threads[t].phase.Held? { ClearFlagKeeps(s, t); }
      case Unflock(_) => UnflockKeeps(s, t);
      case Close(_) => if s.threads[t].phase.Closing? { DropKeeps(s, a, t); }
      case _ =>
    }
  }

  // ---------------------------------------------------------------- steps of a process

  lemma StartKeeps(s: State, a: Action)
    requires Inv(s) && (a.StartProcess? || a.StartThread?)
    ensures Inv(ProcessStep(s, a))
  {
    var s' := ProcessStep(s, a);
    forall u
      ensures ThreadOk(s', u)
    {
      assert ThreadOk(s, u);
      if u in s.threads {
        assert ProcOk(s, s.threads[u].pid);
      }
    }
    forall u, v
      ensures Apart(s', u, v)
    {
      assert Apart(s, u, v);
    }
    forall p
      ensures ProcOk(s', p)
    {
      StartProc(s, a, p);
    }
    forall r | r in s'.refs
      ensures r.0 in s'.procs
    {
      assert r in s.refs && ProcOk(s, r.0);
    }
  }

  lemma StartProc(s: State, a: Action, p: Pid)
    requires Inv(s) && (a.StartProcess? || a.StartThread?)
    ensures ProcOk(ProcessStep(s, a), p)
  {
    var s' := ProcessStep(s, a);
    assert ProcOk(s, p);
    if SomeHeld(s, p) {
      var u :| u in s.threads && s.threads[u].pid == p && s.threads[u].phase.Held?;
      assert s'.threads[u] == s.threads[u];
    }
  }

  lemma InheritedRefs(s: State, p: Pid, child: Pid)
    requires RefsOk(s)
    ensures forall r :: r in Inherited(s.refs, p, child) ==> r.0 == child && r.1 < s.next
  {
  }

  lemma ForkKeeps(s: State, t: Tid, child: Pid)
    requires Inv(s)
    ensures Inv(ProcessStep(s, Fork(t, child)))
  {
    var s' := ProcessStep(s, Fork(t, child));
    forall u
      ensures ThreadOk(s', u)
    {
      assert ThreadOk(s, u);
      if u in s.threads {
        assert ProcOk(s, s.threads[u].pid);
      }
    }
    forall u, v
      ensures Apart(s', u, v)
    {
      assert Apart(s, u, v);
    }
    forall p
      ensures ProcOk(s', p)
    {
      assert ProcOk(s, p);
      assert SomeHeld(s', p) <==> SomeHeld(s, p);
    }
    if s != s' {
      InheritedRefs(s, s.threads[t].pid, child);
      assert forall r :: r in s.refs ==> r in s'.refs;
    }
  }

  lemma WithoutRefs(refs: set<(Pid, Ofd)>, p: Pid, r: (Pid, Ofd))
    ensures r in Without(refs, p) <==> r in refs && r.0 != p
  {
  }

  /** A process loses its descriptors and is no supervisor afterwards. */
  lemma DroppedThreads(s: State, s': State, p: Pid)
    requires Inv(s) && s'.refs == Without(s.refs, p) && s'.lock == Settled(s.lock, s'.refs) && s'.next == s.next
    requires forall u :: u in s'.threads ==> u in s.threads && s'.threads[u] == s.threads[u] && s.threads[u].pid != p
    requires forall q :: q != p ==> (q in s'.procs <==> q in s.procs) && (q in s.procs ==> s'.procs[q] == s.procs[q])
    ensures forall u :: ThreadOk(s', u)
    ensures forall u, v :: Apart(s', u, v)
    ensures RefsOk(s')
  {
    forall u
      ensures ThreadOk(s', u)
    {
      assert ThreadOk(s, u);
      if u in s'.threads && HoldsLock(s.threads[u].phase) {
        SettledKeeps(s.lock, s'.refs, (s.threads[u].pid, s.threads[u].phase.d));
      }
    }
    forall u, v
      ensures Apart(s', u, v)
    {
      assert Apart(s, u, v);
    }
    SettledReferenced(s.lock, s'.refs);
  }

  lemma NoThreadsOf(s: State, p: Pid)
    requires Inv(s) && p in s.procs && !s.procs[p].Supervisor?
    ensures forall u :: u in s.threads ==> s.threads[u].pid != p
  {
    forall u | u in s.threads
      ensures s.threads[u].pid != p
    {
      assert ThreadOk(s, u);
    }
  }

  lemma ExecExitKeeps(s: State, a: Action)
    requires Inv(s) && (a.Exec? || a.Exit?)
    ensures Inv(ProcessStep(s, a))
  {
    var s', p := ProcessStep(s, a), a.p;
    if p in s.procs && (if a.Exec? then s.procs[p].Child? else !s.procs[p].Supervisor?) {
      NoThreadsOf(s, p);
      DroppedThreads(s, s', p);
      forall q
        ensures ProcOk(s', q)
      {
        assert ProcOk(s, q);
        assert SomeHeld(s', q) <==> SomeHeld(s, q);
      }
    }
  }

  lemma KillKeeps(s: State, p: Pid)
    requires Inv(s)
    ensures Inv(ProcessStep(s, Kill(p)))
  {
    var s' := ProcessStep(s, Kill(p));
    DroppedThreads(s, s', p);
    forall q
      ensures ProcOk(s', q)
    {
      assert ProcOk(s, q);
      if q != p && SomeHeld(s, q) {
        var u :| u in s.threads && s.threads[u].pid == q && s.threads[u].phase.Held?;
        assert s'.threads[u] == s.threads[u];
      }
    }
  }

  lemma StepKeepsInv(s: State, a: Action)
    requires Inv(s)
    ensures Inv(Do(s, a))
  {
    match a {
      case StartProcess(_) => StartKeeps(s, a);
      case StartThread(_, _) => StartKeeps(s, a);
      case Fork(t, child) => ForkKeeps(s, t, child);
      case Exec(_) => ExecExitKeeps(s, a);
      case Exit(_) => ExecExitKeeps(s, a);
      case Kill(p) => KillKeeps(s, p);
      case _ => if Runs(s, a.t) { LeaseStepKeeps(s, a, a.t); }
    }
  }

  lemma {:induction false} PlayKeepsInv(s: State, actions: seq<Action>)
    requires Inv(s)
    ensures Inv(Play(s, actions))
    decreases |actions|
  {
    if actions == [] {
    } else {
      PlayKeepsInv(s, actions[..|actions| - 1]);
      StepKeepsInv(Play(s, actions[..|actions| - 1]), actions[|actions| - 1]);
    }
  }

  lemma Reachable(actions: seq<Action>)
    ensures Inv(Run(actions))
  {
    PlayKeepsInv(INIT, actions);
  }

  // ---------------------------------------------------------------- what follows

  /** At most one MutationLease exists in the whole system. */
  lemma AtMostOneLease(actions: seq<Action>, t: Tid, u: Tid)
    requires PhaseOf(Run(actions), t).Held? && PhaseOf(Run(actions), u).Held?
    ensures t == u
  {
    Reachable(actions);
    HoldersCoincide(Run(actions), t, u);
  }

  /** A supervisor's flag is set exactly while one of its threads has the lease,
      and that thread's own description owns the flock. */
  lemma FlagMeansLease(actions: seq<Action>, p: Pid)
    requires p in Run(actions).procs && Run(actions).procs[p].Supervisor?
    ensures var s := Run(actions);
      s.procs[p].flag <==>
        exists t :: t in s.threads && s.threads[t].pid == p && s.threads[t].phase.Held?
                    && s.lock == Some(s.threads[t].phase.d) && (p, s.threads[t].phase.d) in s.refs
  {
    var s := Run(actions);
    Reachable(actions);
    assert ProcOk(s, p);
    assert forall t :: ThreadOk(s, t);
    if SomeHeld(s, p) {
      var t :| t in s.threads && s.threads[t].pid == p && s.threads[t].phase.Held?;
      assert ThreadOk(s, t);
    }
  }

  /** lock_mutation_state never throws inside MutationLease. */
  lemma ThrowUnreachable(actions: seq<Action>, t: Tid)
    ensures !PhaseOf(Run(actions), t).Throwing?
  {
    Reachable(actions);
    assert ThreadOk(Run(actions), t);
  }

  /** Clearing the flag leaves every other process's flag, and nobody else held a
      lease whose flag could have been lost. */
  lemma ReleaseClearsOwnFlag(actions: seq<Action>, t: Tid, u: Tid)
    requires PhaseOf(Run(actions), t).Held? && u != t
    ensures var s, s' := Run(actions), Run(actions + [ClearFlag(t)]);
      && !PhaseOf(s, u).Held? && !PhaseOf(s', u).Held?
      && (forall q :: q in s.procs && q != s.threads[t].pid ==> q in s'.procs && s'.procs[q] == s.procs[q])
      && s.threads[t].pid in s'.procs && s'.procs[s.threads[t].pid] == Supervisor(false)
  {
    var s := Run(actions);
    Reachable(actions);
    assert ThreadOk(s, t);
    assert (actions + [ClearFlag(t)])[..|actions|] == actions;
    if PhaseOf(s, u).Held? {
      HoldersCoincide(s, t, u);
    }
  }

  /** The lock is never orphaned: while it is taken some live process refers to
      its description. Killing a holder frees it unless a child that has neither
      exec'd nor exited still shares the description. */
  lemma KillFreesLock(actions: seq<Action>, p: Pid)
    ensures var s, s' := Run(actions), Run(actions + [Kill(p)]);
      && (s.lock.Some? ==> exists q :: q in s.procs && (q, s.lock.value) in s.refs)
      && (s.lock.Some? ==> (s'.lock == s.lock <==> exists q :: q != p && (q, s.lock.value) in s.refs))
      && (s'.lock == s.lock || s'.lock.None?)
  {
    var s, s' := Run(actions), Run(actions + [Kill(p)]);
    Reachable(actions);
    assert (actions + [Kill(p)])[..|actions|] == actions;
    if s.lock.Some? {
      var r :| r in s.refs && r.1 == s.lock.value;
      assert r.0 in s.procs && (r.0, s.lock.value) == r;
      if q :| q != p && (q, s.lock.value) in s.refs {
        WithoutRefs(s.refs, p, (q, s.lock.value));
      } else {
        assert !Referenced(Without(s.refs, p), s.lock.value);
      }
    }
  }

  // ---------------------------------------------------------------- who has descriptors

  ghost predicate Owned(s: State, r: (Pid, Ofd)) {
    exists t :: t in s.threads && s.threads[t].pid == r.0 && !s.threads[t].phase.Idle? && s.threads[t].phase.d == r.1
  }

  /** O_CLOEXEC leaves nothing open in a foreign program, and a supervisor has open what
      its threads are constructing, holding or destroying. */
  ghost predicate RefOk(s: State, r: (Pid, Ofd)) {
    r in s.refs ==> r.0 in s.procs && !s.procs[r.0].Foreign? && (s.procs[r.0].Supervisor? ==> Owned(s, r))
  }

  ghost predicate Tidy(s: State) {
    forall r :: RefOk(s, r)
  }

  lemma OwnedKept(s: State, s': State, t: Tid, r: (Pid, Ofd))
    requires Owned(s, r) && Frame(s, s', t) && t in s.threads
    requires !s.threads[t].phase.Idle? && s.threads[t].phase.d == r.1 && s.threads[t].pid == r.0 ==>
      !s'.threads[t].phase.Idle? && s'.threads[t].phase.d == r.1
    ensures Owned(s', r)
  {
    var u :| u in s.threads && s.threads[u].pid == r.0 && !s.threads[u].phase.Idle? && s.threads[u].phase.d == r.1;
    assert u in s'.threads && s'.threads[u].pid == r.0;
  }

  lemma LeaseStepTidy(s: State, a: Action, t: Tid, r: (Pid, Ofd))
    requires Inv(s) && Tidy(s) && Runs(s, t)
    ensures RefOk(LeaseStep(s, a, t), r)
  {
    var s', p := LeaseStep(s, a, t), s.threads[t].pid;
    assert RefOk(s, r) && ThreadOk(s, t);
    LeaseFrame(s, a, t);
    if r in s.refs && r in s'.refs && Owned(s, r) {
      OwnedKept(s, s', t, r);
    }
    if r in s'.refs && r !in s.refs {
      assert s'.threads[t].pid == p && s'.threads[t].phase == Opened(r.1);
    }
  }

  lemma LeaseFrame(s: State, a: Action, t: Tid)
    requires Runs(s, t)
    ensures var s', p := LeaseStep(s, a, t), s.threads[t].pid;
      && Frame(s, s', t) && s'.procs.Keys == s.procs.Keys && s'.procs[p].Supervisor?
      && (forall q :: q in s.procs && q != p ==> s'.procs[q] == s.procs[q])
  {
  }

  lemma OwnedElsewhere(s: State, s': State, r: (Pid, Ofd))
    requires Owned(s, r)
    requires forall t :: t in s.threads && s.threads[t].pid == r.0 ==> t in s'.threads && s'.threads[t] == s.threads[t]
    ensures Owned(s', r)
  {
    var t :| t in s.threads && s.threads[t].pid == r.0 && !s.threads[t].phase.Idle? && s.threads[t].phase.d == r.1;
    assert s'.threads[t] == s.threads[t];
  }

  lemma ProcessStepTidy(s: State, a: Action, r: (Pid, Ofd))
    requires Inv(s) && Tidy(s)
    ensures RefOk(ProcessStep(s, a), r)
  {
    var s' := ProcessStep(s, a);
    assert RefOk(s, r) && ProcOk(s, r.0);
    if r in s'.refs && r in s.refs && Owned(s, r) {
      OwnedElsewhere(s, s', r);
    }
    if a.Fork? && r in s'.refs && r !in s.refs {
      InheritedRefs(s, s.threads[a.t].pid, a.child);
    }
  }

  lemma StepKeepsTidy(s: State, a: Action)
    requires Inv(s) && Tidy(s)
    ensures Tidy(Do(s, a))
  {
    forall r
      ensures RefOk(Do(s, a), r)
    {
      assert RefOk(s, r);
      ProcessStepTidy(s, a, r);
      if !a.StartProcess? && !a.StartThread? && !a.Fork? && !a.Exec? && !a.Exit? && !a.Kill? && Runs(s, a.t) {
        LeaseStepTidy(s, a, a.t, r);
      }
    }
  }

  lemma {:induction false} TidyReachable(actions: seq<Action>)
    ensures Tidy(Run(actions))
    decreases |actions|
  {
    if actions == [] {
    } else {
      TidyReachable(actions[..|actions| - 1]);
      Reachable(actions[..|actions| - 1]);
      StepKeepsTidy(Run(actions[..|actions| - 1]), actions[|actions| - 1]);
    }
  }

  /** A supervisor has a description open exactly while one of its threads is between
      open and close with it; a program after exec has none. */
  lemma DescriptorsExactly(actions: seq<Action>, p: Pid, d: Ofd)
    requires p in Run(actions).procs
    ensures Run(actions).procs[p].Foreign? ==> (p, d) !in Run(actions).refs
    ensures Run(actions).procs[p].Supervisor? ==> ((p, d) in Run(actions).refs <==> Owned(Run(actions), (p, d)))
  {
    var s := Run(actions);
    TidyReachable(actions);
    Reachable(actions);
    assert RefOk(s, (p, d));
    if Owned(s, (p, d)) {
      var t :| t in s.threads && s.threads[t].pid == p && !s.threads[t].phase.Idle? && s.threads[t].phase.d == d;
      assert ThreadOk(s, t);
    }
  }

  /** So a taken lock is held through a supervisor or through a child that has neither
      exec'd nor exited. */
  lemma LockHeldByWhom(actions: seq<Action>)
    requires Run(actions).lock.Some?
    ensures var s := Run(actions);
      exists q :: q in s.procs && (q, s.lock.value) in s.refs && (s.procs[q].Supervisor? || s.procs[q].Child?)
  {
    var s := Run(actions);
    TidyReachable(actions);
    Reachable(actions);
    var r :| r in s.refs && r.1 == s.lock.value;
    assert RefOk(s, r) && (r.0, s.lock.value) == r;
  }

  /** fork shares every description with the child ... */
  lemma ForkShares(s: State, t: Tid, child: Pid, d: Ofd)
    requires Inv(s) && Runs(s, t) && (PhaseOf(s, t).Idle? || PhaseOf(s, t).Held?) && child !in s.used
    ensures var s' := Do(s, Fork(t, child));
      && child in s'.procs && s'.procs[child].Child?
      && ((child, d) in s'.refs <==> (s.threads[t].pid, d) in s.refs)
      && s'.lock == s.lock
  {
    assert ProcOk(s, child);
    if (s.threads[t].pid, d) in s.refs {
      assert (child, (s.threads[t].pid, d).1) in Inherited(s.refs, s.threads[t].pid, child);
    }
  }

  /** ... and exec, exit and kill take all of a process's away. */
  lemma EndsHoldNothing(s: State, p: Pid, d: Ofd)
    requires p in s.procs
    ensures s.procs[p].Child? ==>
      p in Do(s, Exec(p)).procs && Do(s, Exec(p)).procs[p].Foreign? && (p, d) !in Do(s, Exec(p)).refs
    ensures !s.procs[p].Supervisor? ==> p !in Do(s, Exit(p)).procs && (p, d) !in Do(s, Exit(p)).refs
    ensures p !in Do(s, Kill(p)).procs && (p, d) !in Do(s, Kill(p)).refs
    ensures forall t :: t in Do(s, Kill(p)).threads ==> Do(s, Kill(p)).threads[t].pid != p
  {
  }

  /** The lock of a supervisor with one forked child: a kill of the supervisor leaves
      it to a child that is still between fork and exec, and frees it once the child
      has exec'd or exited. */
  lemma ChildKeepsUntilExec(s: State, p: Pid, c: Pid, d: Ofd)
    requires Inv(s) && s.lock == Some(d) && p != c && c in s.procs && s.procs[c].Child?
    requires (p, d) in s.refs && (c, d) in s.refs && forall q :: (q, d) in s.refs ==> q == p || q == c
    ensures Do(s, Kill(p)).lock == Some(d)
    ensures Do(s, Exec(c)).lock == Some(d) && Do(Do(s, Exec(c)), Kill(p)).lock.None?
    ensures Do(s, Exit(c)).lock == Some(d) && Do(Do(s, Exit(c)), Kill(p)).lock.None?
  {
    WithoutRefs(s.refs, p, (c, d));
    WithoutRefs(s.refs, c, (p, d));
    SettledKeeps(s.lock, Without(s.refs, p), (c, d));
    SettledKeeps(s.lock, Without(s.refs, c), (p, d));
    var left := Without(Without(s.refs, c), p);
    forall r | r in left
      ensures r.1 != d
    {
      assert (r.0, r.1) == r;
    }
    assert !Referenced(left, d);
  }

  const GUARDED_RUN := [StartProcess(0), StartThread(0, 0), Open(0), Flock(0), SetFlag(0), Fork(0, 1)]

  /** Such a state is that of any guarded run at its fork. */
  lemma GuardedRunForks()
    ensures var s := Run(GUARDED_RUN);
      && PhaseOf(s, 0) == Held(0) && s.lock == Some(0)
      && 1 in s.procs && s.procs[1].Child? && s.refs == {(0, 0), (1, 0)}
    ensures Run(GUARDED_RUN + [Kill(0)]).lock == Some(0)
    ensures Run(GUARDED_RUN + [Exec(1)] + [Kill(0)]).lock.None?
  {
    var s := Run(GUARDED_RUN);
    GuardedRunState();
    Reachable(GUARDED_RUN);
    ChildKeepsUntilExec(s, 0, 1, 0);
    PlayPush(INIT, GUARDED_RUN, Kill(0));
    PlayPush(INIT, GUARDED_RUN, Exec(1));
    PlayPush(INIT, GUARDED_RUN + [Exec(1)], Kill(0));
  }

  lemma GuardedRunState()
    ensures Run(GUARDED_RUN) == State(map[0 := Supervisor(true), 1 := Child], {0, 1}, map[0 := Thread(0, Held(0))],
                                      {(0, 0), (1, 0)}, Some(0), 1)
  {
    var s1 := Do(INIT, StartProcess(0));
    assert s1 == State(map[0 := Supervisor(false)], {0}, map[], {}, None, 0);
    var s2 := Do(s1, StartThread(0, 0));
    var s3 := Do(s2, Open(0));
    assert s3 == State(map[0 := Supervisor(false)], {0}, map[0 := Thread(0, Opened(0))], {(0, 0)}, None, 1);
    var s4 := Do(s3, Flock(0));
    var s5 := Do(s4, SetFlag(0));
    assert s5 == State(map[0 := Supervisor(true)], {0}, map[0 := Thread(0, Held(0))], {(0, 0)}, Some(0), 1);
    var s6 := Do(s5, Fork(0, 1));
    assert Inherited({(0, 0)}, 0, 1) == {(1, 0)};
    assert s6 == State(map[0 := Supervisor(true), 1 := Child], {0, 1}, map[0 := Thread(0, Held(0))],
                       {(0, 0), (1, 0)}, Some(0), 1);
    PlaySix(StartProcess(0), StartThread(0, 0), Open(0), Flock(0), SetFlag(0), Fork(0, 1));
  }

  lemma PlaySix(a: Action, b: Action, c: Action, d: Action, e: Action, f: Action)
    ensures Play(INIT, [a, b, c, d, e, f]) == Do(Do(Do(Do(Do(Do(INIT, a), b), c), d), e), f)
  {
    PlayPush(INIT, [], a);
    PlayPush(INIT, [a], b);
    PlayPush(INIT, [a, b], c);
    PlayPush(INIT, [a, b, c], d);
    PlayPush(INIT, [a, b, c, d], e);
    PlayPush(INIT, [a, b, c, d, e], f);
    assert [] + [a] == [a] && [a] + [b] == [a, b] && [a, b] + [c] == [a, b, c];
    assert [a, b, c] + [d] == [a, b, c, d] && [a, b, c, d] + [e] == [a, b, c, d, e];
    assert [a, b, c, d, e] + [f] == [a, b, c, d, e, f];
  }

  /** LOCK_UN frees the lock at once, children that share the description or not. */
  lemma UnlockFreesDespiteChildren(actions: seq<Action>, t: Tid)
    requires PhaseOf(Run(actions), t).FlagDown?
    ensures Run(actions).lock == Some(PhaseOf(Run(actions), t).d)
    ensures Run(actions + [Unflock(t)]).lock.None? && Run(actions + [Unflock(t)]).refs == Run(actions).refs
  {
    Reachable(actions);
    assert ThreadOk(Run(actions), t);
    PlayPush(INIT, actions, Unflock(t));
  }

  // ---------------------------------------------------------------- one thread among others

  lemma PlayPush(s: State, actions: seq<Action>, a: Action)
    ensures Play(s, actions + [a]) == Do(Play(s, actions), a)
  {
    assert (actions + [a])[..|actions|] == actions;
  }

  ghost predicate ReachedBy(start: State, trace: seq<Action>, s: State) {
    s == Play(start, trace)
  }

  lemma Played(start: State, trace: seq<Action>, s: State, a: Action)
    requires ReachedBy(start, trace, s)
    ensures ReachedBy(start, trace + [a], Do(s, a))
  {
    PlayPush(start, trace, a);
  }

  /** A step of thread t itself. */
  predicate IsOwn(a: Action, t: Tid) {
    match a
    case StartProcess(_) => false
    case StartThread(_, _) => false
    case Exec(_) => false
    case Exit(_) => false
    case Kill(_) => false
    case _ => a.t == t
  }

  /** The steps of t in a run, in order. */
  function Own(actions: seq<Action>, t: Tid): seq<Action> {
    if actions == [] then []
    else Own(actions[..|actions| - 1], t) + if IsOwn(actions[|actions| - 1], t) then [actions[|actions| - 1]] else []
  }

  lemma OwnPush(actions: seq<Action>, a: Action, t: Tid)
    ensures Own(actions + [a], t) == if IsOwn(a, t) then Own(actions, t) + [a] else Own(actions, t)
  {
    assert (actions + [a])[..|actions|] == actions;
  }

  /** Steps of anything but thread t, which leave its process alive. */
  ghost predicate ByOthers(actions: seq<Action>, t: Tid, p: Pid) {
    forall i :: 0 <= i < |actions| ==> !IsOwn(actions[i], t) && actions[i] != Kill(p)
  }

  /** Thread t of process p is alive. */
  ghost predicate Ready(s: State, t: Tid, p: Pid) {
    Runs(s, t) && s.threads[t].pid == p && p in s.used
  }

  lemma OthersStep(s: State, a: Action, t: Tid, p: Pid)
    requires Ready(s, t, p) && !IsOwn(a, t) && a != Kill(p)
    ensures Ready(Do(s, a), t, p) && PhaseOf(Do(s, a), t) == PhaseOf(s, t)
  {
  }

  lemma OwnStep(s: State, a: Action, t: Tid, p: Pid)
    requires Ready(s, t, p) && IsOwn(a, t) && !a.Fork?
    ensures Ready(Do(s, a), t, p) && Do(s, a) == LeaseStep(s, a, t)
  {
  }

  // ---------------------------------------------------------------- the classes

  /** What all objects act on: the state of the system and how it came about. */
  class Machine {
    const start: State
    var s: State
    ghost var trace: seq<Action>

    constructor (start: State)
      ensures this.start == start && s == start && trace == [] && Valid()
    {
      this.start, s, trace := start, start, [];
    }

    ghost predicate Valid()
      reads this
    {
      ReachedBy(start, trace, s)
    }

    method Act(a: Action)
      requires Valid()
      modifies this
      ensures s == Do(old(s), a)
      ensures trace == old(trace) + [a]
      ensures Valid()
    {
      Played(start, trace, s, a);
      s := Do(s, a);
      trace := trace + [a];
    }

    /** Everybody but thread t of process p. */
    method Others(actions: seq<Action>, t: Tid, p: Pid)
      requires Valid() && Ready(s, t, p) && ByOthers(actions, t, p)
      modifies this
      ensures Valid() && Ready(s, t, p) && PhaseOf(s, t) == old(PhaseOf(s, t))
      ensures Own(trace, t) == Own(old(trace), t)
    {
      for i := 0 to |actions|
        invariant Valid() && Ready(s, t, p) && PhaseOf(s, t) == old(PhaseOf(s, t))
        invariant Own(trace, t) == Own(old(trace), t)
      {
        OthersStep(s, actions[i], t, p);
        OwnPush(trace, actions[i], t);
        Act(actions[i]);
      }
    }

    /** The next step of thread t. */
    method Step(a: Action, t: Tid, p: Pid)
      requires Valid() && Ready(s, t, p) && IsOwn(a, t) && !a.Fork?
      modifies this
      ensures Valid() && Ready(s, t, p) && s == LeaseStep(old(s), a, t)
      ensures Own(trace, t) == Own(old(trace), t) + [a]
    {
      OwnStep(s, a, t, p);
      OwnPush(trace, a, t);
      Act(a);
    }
  }

  /** What the system calls of one construction answer, and what others do around
      them: flock waits through as many rounds as the lock stays taken. */
  datatype Around = Around(opens: bool, waits: seq<seq<Action>>, locks: bool, beforeFlag: seq<Action>,
                           beforeUnwind: seq<Action>, beforeClose: seq<Action>)

  ghost predicate FromOthers(e: Around, t: Tid, p: Pid) {
    && (forall i :: 0 <= i < |e.waits| ==> ByOthers(e.waits[i], t, p))
    && ByOthers(e.beforeFlag, t, p) && ByOthers(e.beforeUnwind, t, p) && ByOthers(e.beforeClose, t, p)
  }

  datatype Acquired = Granted | Refused | Blocked

  class CrossProcessGuard {
    const m: Machine
    const t: Tid
    const p: Pid
    var fd: Option<Ofd>
    var locked: bool

    constructor (m: Machine, t: Tid, p: Pid)
      ensures this.m == m && this.t == t && this.p == p && fd == None && !locked
    {
      this.m, this.t, this.p, fd, locked := m, t, p, None, false;
    }

    ghost function Phase(): Phase
      reads this, m
    {
      PhaseOf(m.s, t)
    }

    /** The constructor body: Open, then Flock once the lock is free, FlockFails on
        an error, or neither while it stays taken. */
    method Acquire(e: Around) returns (r: Acquired)
      requires m.Valid() && Ready(m.s, t, p) && Phase().Idle? && fd.None? && !locked && FromOthers(e, t, p)
      modifies this, m
      ensures m.Valid() && Ready(m.s, t, p)
      ensures r.Refused? <==> !e.opens || !e.locks
      ensures r.Granted? ==> locked && fd.Some? && Phase() == Locked(fd.value)
      ensures r.Refused? ==> !locked && fd.None? && Phase().Idle?
      ensures r.Blocked? ==> !locked && fd.Some? && Phase() == Opened(fd.value) && m.s.lock.Some?
      ensures Own(m.trace, t) == Own(old(m.trace), t) + AcquireSteps(e, r)
    {
      if !e.opens {
        assert Own(m.trace, t) + [] == Own(m.trace, t);
        return Refused;
      }
      ghost var own := Own(m.trace, t);
      fd := Some(m.s.next);
      m.Step(Open(t), t, p);
      Wait(e.waits);
      if !e.locks {
        m.Step(FlockFails(t), t, p);
        Associate(own, [Open(t)], [FlockFails(t)]);
        fd := None;
        return Refused;
      }
      if m.s.lock.Some? {
        return Blocked;
      }
      m.Step(Flock(t), t, p);
      Associate(own, [Open(t)], [Flock(t)]);
      locked := true;
      r := Granted;
    }

    /** flock sleeps while the lock is taken and others run. */
    method Wait(waits: seq<seq<Action>>)
      requires m.Valid() && Ready(m.s, t, p) && forall i :: 0 <= i < |waits| ==> ByOthers(waits[i], t, p)
      modifies m
      ensures m.Valid() && Ready(m.s, t, p) && Phase() == old(Phase())
      ensures Own(m.trace, t) == Own(old(m.trace), t)
    {
      var i := 0;
      while i < |waits| && m.s.lock.Some?
        invariant m.Valid() && Ready(m.s, t, p) && Phase() == old(Phase())
        invariant Own(m.trace, t) == Own(old(m.trace), t)
      {
        m.Others(waits[i], t, p);
        i := i + 1;
      }
    }

    ghost function AcquireSteps(e: Around, r: Acquired): seq<Action> {
      match r
      case Granted => [Open(t)] + [Flock(t)]
      case Blocked => [Open(t)]
      case Refused => if e.opens then [Open(t)] + [FlockFails(t)] else []
    }

    /** Unflock and Close; nothing the second time, nor on a guard never locked. */
    method Release(beforeClose: seq<Action>)
      requires m.Valid() && Ready(m.s, t, p) && ByOthers(beforeClose, t, p)
      requires locked && fd.Some? ==> Phase() == FlagDown(fd.value) || Phase() == Throwing(fd.value)
      modifies this, m
      ensures m.Valid() && Ready(m.s, t, p)
      ensures old(locked && fd.Some?) ==> fd.None? && !locked && Phase().Idle?
      ensures old(locked && fd.Some?) ==> Own(m.trace, t) == Own(old(m.trace), t) + ([Unflock(t)] + [Close(t)])
      ensures !old(locked && fd.Some?) ==>
        fd == old(fd) && locked == old(locked) && m.s == old(m.s) && m.trace == old(m.trace)
    {
      if locked && fd.Some? {
        ghost var own := Own(m.trace, t);
        m.Step(Unflock(t), t, p);
        m.Others(beforeClose, t, p);
        m.Step(Close(t), t, p);
        Associate(own, [Unflock(t)], [Close(t)]);
        fd, locked := None, false;
      }
    }
  }

  /** The flag of process p. */
  class AtomicGuard {
    const m: Machine
    const p: Pid

    constructor (m: Machine, p: Pid)
      ensures this.m == m && this.p == p
    {
      this.m, this.p := m, p;
    }

    /** In any reachable system it does not throw: a thread that got past flock finds
        the flag of its process down. */
    method LockMutationState(t: Tid) returns (threw: bool)
      requires m.Valid() && Ready(m.s, t, p) && PhaseOf(m.s, t).Locked?
      modifies m
      ensures m.Valid() && Ready(m.s, t, p) && m.s.procs[p].flag
      ensures threw <==> old(m.s.procs[p].flag)
      ensures Inv(m.start) ==> !threw
      ensures var d := old(PhaseOf(m.s, t).d); PhaseOf(m.s, t) == if threw then Throwing(d) else Held(d)
      ensures Own(m.trace, t) == Own(old(m.trace), t) + [SetFlag(t)]
    {
      if Inv(m.start) {
        PlayKeepsInv(m.start, m.trace);
        SetFlagKeeps(m.s, t);
      }
      threw := m.s.procs[p].flag;
      m.Step(SetFlag(t), t, p);
    }

    /** In any reachable system the flag that falls is the lease holder's own, and no
        other lease exists. */
    method UnlockMutationState(t: Tid)
      requires m.Valid() && Ready(m.s, t, p) && PhaseOf(m.s, t).Held?
      modifies m
      ensures m.Valid() && Ready(m.s, t, p) && !m.s.procs[p].flag
      ensures PhaseOf(m.s, t) == FlagDown(old(PhaseOf(m.s, t).d))
      ensures Inv(m.start) ==> forall u :: !PhaseOf(m.s, u).Held?
      ensures Own(m.trace, t) == Own(old(m.trace), t) + [ClearFlag(t)]
    {
      ghost var s0 := m.s;
      if Inv(m.start) {
        PlayKeepsInv(m.start, m.trace);
        OnlyHolder(m.s, t);
      }
      m.Step(ClearFlag(t), t, p);
      assert forall u :: PhaseOf(m.s, u).Held? ==> u != t && PhaseOf(s0, u).Held?;
    }
  }

  lemma OnlyHolder(s: State, t: Tid)
    requires Inv(s) && PhaseOf(s, t).Held?
    ensures forall u :: PhaseOf(s, u).Held? ==> u == t
  {
    forall u | PhaseOf(s, u).Held?
      ensures u == t
    {
      HoldersCoincide(s, t, u);
    }
  }

  datatype Construction = Built | Failed | Waiting

  class MutationLease {
    const guard: AtomicGuard
    const xpGuard: CrossProcessGuard

    constructor (guard: AtomicGuard, xpGuard: CrossProcessGuard)
      ensures this.guard == guard && this.xpGuard == xpGuard
    {
      this.guard, this.xpGuard := guard, xpGuard;
    }

    /** Both guards speak of one thread of one process. */
    ghost predicate Matched() {
      guard.m == xpGuard.m && guard.p == xpGuard.p
    }

    ghost function ConstructSteps(e: Around, r: Construction, threw: bool): seq<Action> {
      var t := xpGuard.t;
      match r
      case Built => ([Open(t)] + [Flock(t)]) + [SetFlag(t)]
      case Waiting => [Open(t)]
      case Failed =>
        if threw then (([Open(t)] + [Flock(t)]) + [SetFlag(t)]) + ([Unflock(t)] + [Close(t)])
        else if e.opens then [Open(t)] + [FlockFails(t)] else []
    }

    /** The constructor is the run Open, Flock, SetFlag of its thread, with all others
        acting in between. In a reachable system it fails only with its system calls,
        and once built it is the only lease there is. */
    method Construct(e: Around) returns (r: Construction, ghost threw: bool)
      requires Matched() && xpGuard.m.Valid() && Ready(xpGuard.m.s, xpGuard.t, xpGuard.p)
      requires xpGuard.Phase().Idle? && xpGuard.fd.None? && !xpGuard.locked && FromOthers(e, xpGuard.t, xpGuard.p)
      modifies xpGuard, xpGuard.m
      ensures xpGuard.m.Valid() && Ready(xpGuard.m.s, xpGuard.t, xpGuard.p)
      ensures Own(xpGuard.m.trace, xpGuard.t) == Own(old(xpGuard.m.trace), xpGuard.t) + ConstructSteps(e, r, threw)
      ensures r.Built? ==> xpGuard.locked && xpGuard.fd.Some? && xpGuard.Phase() == Held(xpGuard.fd.value)
      ensures r.Failed? ==> !xpGuard.locked && xpGuard.fd.None? && xpGuard.Phase().Idle?
      ensures r.Waiting? ==> xpGuard.fd.Some? && xpGuard.Phase() == Opened(xpGuard.fd.value) && xpGuard.m.s.lock.Some?
      ensures Inv(xpGuard.m.start) ==> !threw && (r.Failed? <==> !e.opens || !e.locks)
      ensures Inv(xpGuard.m.start) && r.Built? ==>
        xpGuard.m.s.lock == xpGuard.fd && forall u :: PhaseOf(xpGuard.m.s, u).Held? ==> u == xpGuard.t
    {
      threw := false;
      ghost var own := Own(xpGuard.m.trace, xpGuard.t);
      var acquired := xpGuard.Acquire(e);
      if acquired.Refused? {
        return Failed, threw;
      }
      if acquired.Blocked? {
        return Waiting, threw;
      }
      xpGuard.m.Others(e.beforeFlag, xpGuard.t, xpGuard.p);
      var thrown := guard.LockMutationState(xpGuard.t);
      threw := thrown;
      Associate(own, [Open(xpGuard.t)] + [Flock(xpGuard.t)], [SetFlag(xpGuard.t)]);
      if thrown {
        xpGuard.m.Others(e.beforeUnwind, xpGuard.t, xpGuard.p);
        xpGuard.Release(e.beforeClose);
        Associate(own, ([Open(xpGuard.t)] + [Flock(xpGuard.t)]) + [SetFlag(xpGuard.t)],
                  [Unflock(xpGuard.t)] + [Close(xpGuard.t)]);
        r := Failed;
      } else {
        r := Built;
        BuiltAlone(xpGuard.m, xpGuard.t);
      }
    }

    /** The destructor body, then the destructor of xp_guard_: ClearFlag, Unflock,
        Close. */
    method Destroy(beforeUnlock: seq<Action>, beforeClose: seq<Action>)
      requires Matched() && xpGuard.m.Valid() && Ready(xpGuard.m.s, xpGuard.t, xpGuard.p)
      requires xpGuard.locked && xpGuard.fd.Some? && xpGuard.Phase() == Held(xpGuard.fd.value)
      requires ByOthers(beforeUnlock, xpGuard.t, xpGuard.p) && ByOthers(beforeClose, xpGuard.t, xpGuard.p)
      modifies xpGuard, xpGuard.m
      ensures xpGuard.m.Valid() && Ready(xpGuard.m.s, xpGuard.t, xpGuard.p)
      ensures !xpGuard.locked && xpGuard.fd.None? && xpGuard.Phase().Idle?
      ensures Own(xpGuard.m.trace, xpGuard.t)
           == Own(old(xpGuard.m.trace), xpGuard.t)
              + ([ClearFlag(xpGuard.t)] + ([Unflock(xpGuard.t)] + [Close(xpGuard.t)]))
    {
      ghost var own := Own(xpGuard.m.trace, xpGuard.t);
      guard.UnlockMutationState(xpGuard.t);
      xpGuard.m.Others(beforeUnlock, xpGuard.t, xpGuard.p);
      xpGuard.Release(beforeClose);
      Associate(own, [ClearFlag(xpGuard.t)], [Unflock(xpGuard.t)] + [Close(xpGuard.t)]);
    }
  }

  lemma BuiltAlone(m: Machine, t: Tid)
    requires m.Valid() && t in m.s.threads && PhaseOf(m.s, t).Held?
    ensures Inv(m.start) ==>
      m.s.lock == Some(PhaseOf(m.s, t).d) && forall u :: PhaseOf(m.s, u).Held? ==> u == t
  {
    if Inv(m.start) {
      PlayKeepsInv(m.start, m.trace);
      assert ThreadOk(m.s, t);
      OnlyHolder(m.s, t);
    }
  }
}
