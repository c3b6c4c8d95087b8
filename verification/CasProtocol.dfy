/** scripts/cas_commit.sh as a protocol: any number of runs read a remote file, apply
    a transform of their own and write back on condition that the file's sha is the
    one they read, retrying a bounded number of times.

    What is assumed of the server: it answers 200 or 201 exactly when it applied the
    write; it applies a write exactly when the sent sha is that of the current
    content, or no sha was sent and the file is absent; the file is never deleted. */
module CasProtocol {
  import opened Basics

  /** A blob sha identifies the content and nothing else: writing an old content
      again brings back its old sha. */
  datatype Sha<C> = Sha(content: C)

  type Id = nat

  /** `now` is the clock reading the transform used. */
  datatype Commit<C> = Commit(run: Id, now: int, value: C)

  /** `at` is the number of commits before the read. */
  datatype Phase<C> =
    | Ready
    | Fetched(base: Option<C>, at: nat)
    | Staged(base: Option<C>, at: nat, now: int, next: C)
    | Succeeded
    | Rejected
    | Exhausted

  /** One invocation of the script. `conflicts` lists, for each attempt lost to a
      mismatch, the number of commits at its read and at its write; `spurious`
      counts writes refused for another reason. Neither is read by any step. */
  datatype Run<C> = Run(attempt: nat, phase: Phase<C>, conflicts: seq<(nat, nat)>, spurious: nat)

  datatype State<C> = State(file: Option<C>, history: seq<Commit<C>>, runs: map<Id, Run<C>>, clock: int)

  datatype Action =
    | Start(id: Id)
    | Get(id: Id)
    | GetFails(id: Id)
    | Transform(id: Id, now: int)
    | Put(id: Id)
    | PutFails(id: Id)
    | Tick(to: int)

  /** Each run may bring its own transform; None is a rejection. */
  datatype Config<!C> = Config(transform: (Id, Option<C>, int) -> Option<C>, attempts: nat)

  const MAX_ATTEMPTS: nat := 6

  function ShaOf<C>(file: Option<C>): Option<Sha<C>> {
    match file
    case None => None
    case Some(c) => Some(Sha(c))
  }

  predicate Applies<C(==)>(file: Option<C>, sent: Option<Sha<C>>) {
    ShaOf(file) == sent
  }

  function WithPhase<C>(s: State<C>, id: Id, phase: Phase<C>): State<C>
    requires id in s.runs
  {
    s.(runs := s.runs[id := s.runs[id].(phase := phase)])
  }

  /** The end of a failed attempt: another one, or giving up after the last. */
  function Retried<C>(r: Run<C>, attempts: nat): Run<C> {
    if r.attempt < attempts then r.(attempt := r.attempt + 1, phase := Ready) else r.(phase := Exhausted)
  }

  /** A step of run id; one that is not enabled changes nothing. */
  function RunStep<C(==)>(cfg: Config<C>, s: State<C>, a: Action, id: Id): State<C>
    requires id in s.runs
  {
    var r := s.runs[id];
    match a
    case Get(_) => if r.phase.Ready? then WithPhase(s, id, Fetched(s.file, |s.history|)) else s
    case GetFails(_) => if r.phase.Ready? then WithPhase(s, id, Rejected) else s
    case Transform(_, now) =>
      if !r.phase.Fetched? then s
      else (match cfg.transform(id, r.phase.base, now)
            case None => WithPhase(s, id, Rejected)
            case Some(v) => WithPhase(s, id, Staged(r.phase.base, r.phase.at, now, v)))
    case Put(_) =>
      if !r.phase.Staged? then s
      else if Applies(s.file, ShaOf(r.phase.base))
      then WithPhase(s, id, Succeeded).(file := Some(r.phase.next),
                                        history := s.history + [Commit(id, r.phase.now, r.phase.next)])
      else s.(runs := s.runs[id := Retried(r.(conflicts := r.conflicts + [(r.phase.at, |s.history|)]), cfg.attempts)])
    case PutFails(_) =>
      if !r.phase.Staged? then s
      else s.(runs := s.runs[id := Retried(r.(spurious := r.spurious + 1), cfg.attempts)])
    case _ => s
  }

  function Do<C(==)>(cfg: Config<C>, s: State<C>, a: Action): State<C> {
    match a
    case Tick(to) => if to > s.clock then s.(clock := to) else s
    case Start(id) => if id in s.runs then s else s.(runs := s.runs[id := Run(1, Ready, [], 0)])
    case _ => if a.id in s.runs then RunStep(cfg, s, a, a.id) else s
  }

  function Exec<C(==)>(cfg: Config<C>, s: State<C>, actions: seq<Action>): State<C> {
    if actions == [] then s else Do(cfg, Exec(cfg, s, actions[..|actions| - 1]), actions[|actions| - 1])
  }

  function Init<C>(file: Option<C>, clock: int): State<C> {
    State(file, [], map[], clock)
  }

  lemma ExecPush<C>(cfg: Config<C>, s: State<C>, actions: seq<Action>, a: Action)
    ensures Exec(cfg, s, actions + [a]) == Do(cfg, Exec(cfg, s, actions), a)
  {
    assert (actions + [a])[..|actions|] == actions;
  }

  // ---------------------------------------------------------------- the chain

  /** The file as it was after the first i commits. */
  function Version<C>(file: Option<C>, history: seq<Commit<C>>, i: nat): Option<C>
    requires i <= |history|
  {
    if i == 0 then file else Some(history[i - 1].value)
  }

  lemma VersionPush<C>(file: Option<C>, history: seq<Commit<C>>, c: Commit<C>, i: nat)
    requires i <= |history|
    ensures Version(file, history + [c], i) == Version(file, history, i)
  {
  }

  /** Each version is the transform of its predecessor. */
  ghost predicate Chain<C>(cfg: Config<C>, file: Option<C>, history: seq<Commit<C>>) {
    forall i :: 0 <= i < |history| ==> Linked(cfg, file, history, i)
  }

  ghost predicate Linked<C>(cfg: Config<C>, file: Option<C>, history: seq<Commit<C>>, i: nat)
    requires i < |history|
  {
    var c := history[i];
    cfg.transform(c.run, Version(file, history, i), c.now) == Some(c.value)
  }

  ghost predicate CommittedBy<C>(history: seq<Commit<C>>, id: Id) {
    exists i :: 0 <= i < |history| && history[i].run == id
  }

  ghost predicate DistinctRuns<C>(history: seq<Commit<C>>) {
    forall i, j :: 0 <= i < j < |history| ==> history[i].run != history[j].run
  }

  ghost predicate PhaseOk<C>(cfg: Config<C>, file: Option<C>, history: seq<Commit<C>>, id: Id, phase: Phase<C>) {
    && (phase.Fetched? || phase.Staged? ==> phase.at <= |history| && phase.base == Version(file, history, phase.at))
    && (phase.Staged? ==> cfg.transform(id, phase.base, phase.now) == Some(phase.next))
    && (phase.Succeeded? <==> CommittedBy(history, id))
  }

  ghost predicate RunOk<C>(cfg: Config<C>, file: Option<C>, s: State<C>, id: Id) {
    id in s.runs ==> PhaseOk(cfg, file, s.history, id, s.runs[id].phase)
  }

  ghost predicate Inv<C>(cfg: Config<C>, file: Option<C>, s: State<C>) {
    && s.file == Version(file, s.history, |s.history|)
    && Chain(cfg, file, s.history)
    && DistinctRuns(s.history)
    && (forall i :: 0 <= i < |s.history| ==> s.history[i].run in s.runs)
    && (forall id :: RunOk(cfg, file, s, id))
  }

  lemma CommittedPush<C>(history: seq<Commit<C>>, c: Commit<C>, id: Id)
    ensures CommittedBy(history + [c], id) <==> CommittedBy(history, id) || c.run == id
  {
    var longer := history + [c];
    assert longer[|history|] == c;
    assert forall i :: 0 <= i < |history| ==> longer[i] == history[i];
  }

  lemma PhaseKept<C>(cfg: Config<C>, file: Option<C>, history: seq<Commit<C>>, c: Commit<C>, id: Id, phase: Phase<C>)
    requires PhaseOk(cfg, file, history, id, phase) && c.run != id
    ensures PhaseOk(cfg, file, history + [c], id, phase)
  {
    CommittedPush(history, c, id);
    if phase.Fetched? || phase.Staged? {
      VersionPush(file, history, c, phase.at);
    }
  }

  lemma ChainPush<C>(cfg: Config<C>, file: Option<C>, history: seq<Commit<C>>, c: Commit<C>)
    requires Chain(cfg, file, history)
    requires cfg.transform(c.run, Version(file, history, |history|), c.now) == Some(c.value)
    ensures Chain(cfg, file, history + [c])
  {
    forall i | 0 <= i < |history + [c]|
      ensures Linked(cfg, file, history + [c], i)
    {
      VersionPush(file, history, c, i);
      if i < |history| {
        assert Linked(cfg, file, history, i);
      }
    }
  }

  lemma AppliedKeepsInv<C>(cfg: Config<C>, file: Option<C>, s: State<C>, id: Id)
    requires Inv(cfg, file, s) && id in s.runs && s.runs[id].phase.Staged?
    requires Applies(s.file, ShaOf(s.runs[id].phase.base))
    ensures Inv(cfg, file, RunStep(cfg, s, Put(id), id))
  {
    var s', phase := RunStep(cfg, s, Put(id), id), s.runs[id].phase;
    var c := Commit(id, phase.now, phase.next);
    assert RunOk(cfg, file, s, id);
    ChainPush(cfg, file, s.history, c);
    forall i | 0 <= i < |s.history|
      ensures s.history[i].run != id
    {
      assert !CommittedBy(s.history, id);
    }
    forall j
      ensures RunOk(cfg, file, s', j)
    {
      assert RunOk(cfg, file, s, j);
      if j in s.runs && j != id {
        PhaseKept(cfg, file, s.history, c, j, s.runs[j].phase);
      }
      CommittedPush(s.history, c, id);
    }
  }

  /** A step that commits nothing. */
  lemma QuietKeepsInv<C>(cfg: Config<C>, file: Option<C>, s: State<C>, s': State<C>, id: Id)
    requires Inv(cfg, file, s) && s'.file == s.file && s'.history == s.history
    requires s'.runs.Keys == s.runs.Keys + {id} && forall j :: j in s.runs && j != id ==> s'.runs[j] == s.runs[j]
    requires PhaseOk(cfg, file, s.history, id, s'.runs[id].phase)
    ensures Inv(cfg, file, s')
  {
    forall j
      ensures RunOk(cfg, file, s', j)
    {
      assert RunOk(cfg, file, s, j);
    }
  }

  lemma QuietPhase<C>(cfg: Config<C>, file: Option<C>, s: State<C>, a: Action, id: Id)
    requires Inv(cfg, file, s) && id in s.runs
    requires !(a.Put? && s.runs[id].phase.Staged? && Applies(s.file, ShaOf(s.runs[id].phase.base)))
    ensures var s' := RunStep(cfg, s, a, id);
      && s'.file == s.file && s'.history == s.history && s'.clock == s.clock && s'.runs.Keys == s.runs.Keys
      && (forall j :: j in s.runs && j != id ==> s'.runs[j] == s.runs[j])
      && PhaseOk(cfg, file, s.history, id, s'.runs[id].phase)
  {
    assert RunOk(cfg, file, s, id);
  }

  lemma StepKeepsInv<C>(cfg: Config<C>, file: Option<C>, s: State<C>, a: Action)
    requires Inv(cfg, file, s)
    ensures Inv(cfg, file, Do(cfg, s, a))
  {
    var s' := Do(cfg, s, a);
    if a.Tick? {
      assert forall j :: RunOk(cfg, file, s, j) ==> RunOk(cfg, file, s', j);
    } else if a.Start? {
      if a.id !in s.runs {
        QuietKeepsInv(cfg, file, s, s', a.id);
      }
    } else if a.id in s.runs {
      var phase := s.runs[a.id].phase;
      if a.Put? && phase.Staged? && Applies(s.file, ShaOf(phase.base)) {
        AppliedKeepsInv(cfg, file, s, a.id);
      } else {
        QuietPhase(cfg, file, s, a, a.id);
        QuietKeepsInv(cfg, file, s, s', a.id);
      }
    }
  }

  lemma {:induction false} Reachable<C>(cfg: Config<C>, file: Option<C>, clock: int, actions: seq<Action>)
    ensures Inv(cfg, file, Exec(cfg, Init(file, clock), actions))
    decreases |actions|
  {
    if actions == [] {
    } else {
      Reachable(cfg, file, clock, actions[..|actions| - 1]);
      StepKeepsInv(cfg, file, Exec(cfg, Init(file, clock), actions[..|actions| - 1]), actions[|actions| - 1]);
    }
  }

  /** Linearizability: whatever the transforms and the interleaving, the file is
      the end of a chain in which each version is the transform of the one before
      it by one run, no run makes two links, and the runs that succeed are exactly
      those that made one. */
  lemma Linearizable<C>(cfg: Config<C>, file: Option<C>, clock: int, actions: seq<Action>)
    ensures var s := Exec(cfg, Init(file, clock), actions);
      && s.file == Version(file, s.history, |s.history|)
      && Chain(cfg, file, s.history)
      && DistinctRuns(s.history)
      && (forall id :: id in s.runs ==> (s.runs[id].phase.Succeeded? <==> CommittedBy(s.history, id)))
  {
    Reachable(cfg, file, clock, actions);
    var s := Exec(cfg, Init(file, clock), actions);
    forall id | id in s.runs
      ensures s.runs[id].phase.Succeeded? <==> CommittedBy(s.history, id)
    {
      assert RunOk(cfg, file, s, id);
    }
  }

  // ---------------------------------------------------------------- who succeeded

  function Committers<C>(history: seq<Commit<C>>): set<Id> {
    set i | 0 <= i < |history| :: history[i].run
  }

  lemma {:induction false} CommitterCount<C>(history: seq<Commit<C>>)
    requires DistinctRuns(history)
    ensures |Committers(history)| == |history|
    decreases |history|
  {
    if history == [] {
    } else {
      var front, c := history[..|history| - 1], history[|history| - 1];
      CommitterCount(front);
      assert Committers(history) == Committers(front) + {c.run} by {
        assert forall i :: 0 <= i < |front| ==> history[i] == front[i];
      }
    }
  }

  function Winners<C>(s: State<C>): set<Id> {
    set id | id in s.runs && s.runs[id].phase.Succeeded?
  }

  /** There are as many commits as runs that exit with 0. */
  lemma WinnersCounted<C>(cfg: Config<C>, file: Option<C>, clock: int, actions: seq<Action>)
    ensures var s := Exec(cfg, Init(file, clock), actions);
      |Winners(s)| == |s.history|
  {
    var s := Exec(cfg, Init(file, clock), actions);
    Reachable(cfg, file, clock, actions);
    CommitterCount(s.history);
    forall id
      ensures id in Winners(s) <==> id in Committers(s.history)
    {
      assert RunOk(cfg, file, s, id);
      assert CommittedBy(s.history, id) <==> id in Committers(s.history);
    }
    assert Winners(s) == Committers(s.history);
  }

  // ---------------------------------------------------------------- progress

  ghost predicate ConflictsOk(conflicts: seq<(nat, nat)>, upTo: nat) {
    && (forall k :: 0 <= k < |conflicts| ==> conflicts[k].0 < conflicts[k].1 <= upTo)
    && (forall k :: 0 < k < |conflicts| ==> conflicts[k - 1].1 <= conflicts[k].0)
  }

  /** The attempts of a run whose write was refused. */
  function LostAttempts<C>(r: Run<C>): int {
    if r.phase.Exhausted? then r.attempt else r.attempt - 1
  }

  ghost predicate TriesOk<C>(cfg: Config<C>, s: State<C>, id: Id) {
    id in s.runs ==>
      var r := s.runs[id];
      && (r.phase.Fetched? || r.phase.Staged? ==> ConflictsOk(r.conflicts, r.phase.at))
      && ConflictsOk(r.conflicts, |s.history|)
      && LostAttempts(r) == |r.conflicts| + r.spurious
      && r.attempt <= cfg.attempts
      && (r.phase.Exhausted? ==> r.attempt == cfg.attempts)
  }

  lemma ConflictsPush(conflicts: seq<(nat, nat)>, g: nat, p: nat)
    requires ConflictsOk(conflicts, g) && g < p
    ensures ConflictsOk(conflicts + [(g, p)], p)
  {
  }

  /** A refused write met a file that had moved on since the read. */
  lemma ConflictMeansCommit<C>(cfg: Config<C>, file: Option<C>, s: State<C>, id: Id)
    requires Inv(cfg, file, s) && id in s.runs && s.runs[id].phase.Staged?
    requires !Applies(s.file, ShaOf(s.runs[id].phase.base))
    ensures s.runs[id].phase.at < |s.history|
  {
    assert RunOk(cfg, file, s, id);
  }

  lemma StepKeepsTries<C>(cfg: Config<C>, file: Option<C>, s: State<C>, a: Action, id: Id)
    requires cfg.attempts > 0 && Inv(cfg, file, s) && TriesOk(cfg, s, id)
    ensures TriesOk(cfg, Do(cfg, s, a), id)
  {
    if id in s.runs && !a.Tick? && a.id == id {
      assert RunOk(cfg, file, s, id);
      var r := s.runs[id];
      if a.Put? && r.phase.Staged? && !Applies(s.file, ShaOf(r.phase.base)) {
        ConflictMeansCommit(cfg, file, s, id);
        ConflictsPush(r.conflicts, r.phase.at, |s.history|);
      }
    } else {
      OthersTries(cfg, s, a, id);
    }
  }

  lemma OthersTries<C>(cfg: Config<C>, s: State<C>, a: Action, id: Id)
    requires cfg.attempts > 0 && TriesOk(cfg, s, id) && !(id in s.runs && !a.Tick? && a.id == id)
    ensures TriesOk(cfg, Do(cfg, s, a), id)
  {
    HistoryGrows(cfg, s, a);
  }

  lemma {:induction false} TriesReachable<C>(cfg: Config<C>, file: Option<C>, clock: int, actions: seq<Action>, id: Id)
    requires cfg.attempts > 0
    ensures TriesOk(cfg, Exec(cfg, Init(file, clock), actions), id)
    decreases |actions|
  {
    if actions == [] {
    } else {
      TriesReachable(cfg, file, clock, actions[..|actions| - 1], id);
      Reachable(cfg, file, clock, actions[..|actions| - 1]);
      StepKeepsTries(cfg, file, Exec(cfg, Init(file, clock), actions[..|actions| - 1]), actions[|actions| - 1], id);
    }
  }

  /** Everything committed between the read and the write of a lost attempt is the
      work of other runs. */
  ghost predicate RivalsOk<C>(s: State<C>, id: Id) {
    id in s.runs ==> forall k :: 0 <= k < |s.runs[id].conflicts| ==> RivalsIn(s.history, id, s.runs[id].conflicts[k])
  }

  ghost predicate RivalsIn<C>(history: seq<Commit<C>>, id: Id, conflict: (nat, nat)) {
    && conflict.0 < conflict.1 <= |history|
    && forall i :: conflict.0 <= i < conflict.1 ==> history[i].run != id
  }

  lemma StepKeepsRivals<C>(cfg: Config<C>, file: Option<C>, s: State<C>, a: Action, id: Id)
    requires Inv(cfg, file, s) && RivalsOk(s, id)
    ensures RivalsOk(Do(cfg, s, a), id)
  {
    var s' := Do(cfg, s, a);
    HistoryGrows(cfg, s, a);
    if id in s.runs && a == Put(id) && s.runs[id].phase.Staged? && !Applies(s.file, ShaOf(s.runs[id].phase.base)) {
      ConflictMeansCommit(cfg, file, s, id);
      assert RunOk(cfg, file, s, id);
      assert !CommittedBy(s.history, id);
      assert RivalsIn(s'.history, id, (s.runs[id].phase.at, |s.history|));
    } else if id in s.runs {
      SameConflicts(cfg, s, a, id);
      forall k | 0 <= k < |s.runs[id].conflicts|
        ensures RivalsIn(s'.history, id, s.runs[id].conflicts[k])
      {
        assert RivalsIn(s.history, id, s.runs[id].conflicts[k]);
      }
    }
  }

  lemma HistoryGrows<C>(cfg: Config<C>, s: State<C>, a: Action)
    ensures s.history <= Do(cfg, s, a).history
  {
  }

  lemma SameConflicts<C>(cfg: Config<C>, s: State<C>, a: Action, id: Id)
    requires id in s.runs
    requires !(a == Put(id) && s.runs[id].phase.Staged? && !Applies(s.file, ShaOf(s.runs[id].phase.base)))
    ensures id in Do(cfg, s, a).runs && Do(cfg, s, a).runs[id].conflicts == s.runs[id].conflicts
  {
  }

  lemma {:induction false} RivalsReachable<C>(cfg: Config<C>, file: Option<C>, clock: int, actions: seq<Action>, id: Id)
    ensures RivalsOk(Exec(cfg, Init(file, clock), actions), id)
    decreases |actions|
  {
    if actions == [] {
    } else {
      RivalsReachable(cfg, file, clock, actions[..|actions| - 1], id);
      Reachable(cfg, file, clock, actions[..|actions| - 1]);
      StepKeepsRivals(cfg, file, Exec(cfg, Init(file, clock), actions[..|actions| - 1]), actions[|actions| - 1], id);
    }
  }

  /** Every attempt lost to a mismatch has commits between its read and its write,
      all by other runs, and different ones for each attempt. */
  lemma ConflictsHaveWitnesses<C>(cfg: Config<C>, file: Option<C>, clock: int, actions: seq<Action>, id: Id,
                                  j: nat, k: nat)
    requires cfg.attempts > 0
    requires var s := Exec(cfg, Init(file, clock), actions);
      id in s.runs && j <= k < |s.runs[id].conflicts|
    ensures var s := Exec(cfg, Init(file, clock), actions);
      var conflicts := s.runs[id].conflicts;
      && conflicts[k].0 < conflicts[k].1 <= |s.history|
      && (forall i :: conflicts[k].0 <= i < conflicts[k].1 ==> s.history[i].run != id)
      && (j < k ==> conflicts[j].1 <= conflicts[k].0)
  {
    TriesReachable(cfg, file, clock, actions, id);
    RivalsReachable(cfg, file, clock, actions, id);
    var s := Exec(cfg, Init(file, clock), actions);
    assert RivalsIn(s.history, id, s.runs[id].conflicts[k]);
    if j < k {
      ConflictOrder(s.runs[id].conflicts, |s.history|, j, k);
    }
  }

  lemma {:induction false} ConflictOrder(conflicts: seq<(nat, nat)>, upTo: nat, j: nat, k: nat)
    requires ConflictsOk(conflicts, upTo) && j < k < |conflicts|
    ensures conflicts[j].1 <= conflicts[k].0
    decreases k - j
  {
    if j + 1 < k {
      ConflictOrder(conflicts, upTo, j, k - 1);
      assert conflicts[k - 1].0 < conflicts[k - 1].1;
    }
  }

  lemma {:induction false} ConflictCount(conflicts: seq<(nat, nat)>, upTo: nat)
    requires ConflictsOk(conflicts, upTo)
    ensures |conflicts| <= upTo
    decreases |conflicts|
  {
    if conflicts != [] {
      var last := |conflicts| - 1;
      forall k | 0 <= k < last
        ensures conflicts[k].1 <= conflicts[last].0
      {
        ConflictOrder(conflicts, upTo, k, last);
      }
      ConflictCount(conflicts[..last], conflicts[last].0);
    }
  }

  /** Giving up takes as many commits of other runs as there are attempts, less
      those refused for no conflict, and each other run commits at most once. */
  lemma ExhaustionNeedsRivals<C>(cfg: Config<C>, file: Option<C>, clock: int, actions: seq<Action>, id: Id)
    requires cfg.attempts > 0
    requires var s := Exec(cfg, Init(file, clock), actions); id in s.runs && s.runs[id].phase.Exhausted?
    ensures var s := Exec(cfg, Init(file, clock), actions);
      cfg.attempts <= s.runs[id].spurious + |s.history| && |s.history| <= |s.runs| - 1 && !CommittedBy(s.history, id)
  {
    var s := Exec(cfg, Init(file, clock), actions);
    Reachable(cfg, file, clock, actions);
    TriesReachable(cfg, file, clock, actions, id);
    assert RunOk(cfg, file, s, id);
    ConflictCount(s.runs[id].conflicts, |s.history|);
    CommitterCount(s.history);
    assert Committers(s.history) <= s.runs.Keys - {id};
    SmallerSet(Committers(s.history), s.runs.Keys - {id});
  }

  ghost predicate NoSpurious(actions: seq<Action>) {
    forall i :: 0 <= i < |actions| ==> !actions[i].PutFails?
  }

  lemma {:induction false} NoSpuriousCount<C>(cfg: Config<C>, s: State<C>, actions: seq<Action>, id: Id)
    requires NoSpurious(actions) && (id in s.runs ==> s.runs[id].spurious == 0)
    ensures var s' := Exec(cfg, s, actions); id in s'.runs ==> s'.runs[id].spurious == 0
    decreases |actions|
  {
    if actions == [] {
    } else {
      NoSpuriousCount(cfg, s, actions[..|actions| - 1], id);
    }
  }

  /** When writes fail on a mismatch only, no run of cas_commit.sh among at most six
      ends by exhausting its six attempts. */
  lemma SixRunsNeverExhaust<C>(cfg: Config<C>, file: Option<C>, clock: int, actions: seq<Action>, id: Id)
    requires cfg.attempts == 6 && NoSpurious(actions)
    requires |Exec(cfg, Init(file, clock), actions).runs| <= 6
    requires id in Exec(cfg, Init(file, clock), actions).runs
    ensures !Exec(cfg, Init(file, clock), actions).runs[id].phase.Exhausted?
  {
    NoSpuriousCount(cfg, Init(file, clock), actions, id);
    if Exec(cfg, Init(file, clock), actions).runs[id].phase.Exhausted? {
      ExhaustionNeedsRivals(cfg, file, clock, actions, id);
    }
  }

  // ---------------------------------------------------------------- genuine retries

  /** Step k refuses a write of run id for no conflict. */
  ghost predicate RefusedAt<C>(cfg: Config<C>, s: State<C>, actions: seq<Action>, id: Id, k: nat)
    requires k < |actions|
  {
    var s' := Exec(cfg, s, actions[..k]);
    actions[k] == PutFails(id) && id in s'.runs && s'.runs[id].phase.Staged?
  }

  ghost predicate EverRefused<C>(cfg: Config<C>, s: State<C>, actions: seq<Action>, id: Id) {
    exists k :: 0 <= k < |actions| && RefusedAt(cfg, s, actions, id, k)
  }

  lemma RefusedPush<C>(cfg: Config<C>, s: State<C>, actions: seq<Action>, a: Action, id: Id)
    ensures EverRefused(cfg, s, actions + [a], id) <==>
      || EverRefused(cfg, s, actions, id)
      || RefusedAt(cfg, s, actions + [a], id, |actions|)
  {
    var longer := actions + [a];
    forall k | 0 <= k < |actions|
      ensures RefusedAt(cfg, s, longer, id, k) <==> RefusedAt(cfg, s, actions, id, k)
    {
      assert longer[..k] == actions[..k];
    }
  }

  lemma {:induction false} SpuriousCounts<C>(cfg: Config<C>, s: State<C>, actions: seq<Action>, id: Id)
    requires id in s.runs ==> s.runs[id].spurious == 0
    ensures var s' := Exec(cfg, s, actions);
      EverRefused(cfg, s, actions, id) <==> id in s'.runs && s'.runs[id].spurious > 0
    decreases |actions|
  {
    if actions == [] {
    } else {
      var front, a := actions[..|actions| - 1], actions[|actions| - 1];
      SpuriousCounts(cfg, s, front, id);
      SplitLast(actions);
      RefusedPush(cfg, s, front, a, id);
      assert (front + [a])[..|front|] == front;
      SpuriousStep(cfg, Exec(cfg, s, front), a, id);
    }
  }

  lemma SpuriousStep<C>(cfg: Config<C>, s: State<C>, a: Action, id: Id)
    ensures var s' := Do(cfg, s, a);
      (id in s'.runs && s'.runs[id].spurious > 0) <==>
        || (id in s.runs && s.runs[id].spurious > 0)
        || (a == PutFails(id) && id in s.runs && s.runs[id].phase.Staged?)
  {
  }

  /** All attempts a run lost were lost to genuine conflicts exactly when none of its
      writes was refused for another reason. */
  lemma RetriesGenuineExactly<C>(cfg: Config<C>, file: Option<C>, clock: int, actions: seq<Action>, id: Id)
    requires cfg.attempts > 0 && id in Exec(cfg, Init(file, clock), actions).runs
    ensures var r := Exec(cfg, Init(file, clock), actions).runs[id];
      && LostAttempts(r) == |r.conflicts| + r.spurious
      && (LostAttempts(r) == |r.conflicts| <==> !EverRefused(cfg, Init(file, clock), actions, id))
  {
    TriesReachable(cfg, file, clock, actions, id);
    SpuriousCounts(cfg, Init(file, clock), actions, id);
  }

  /** The script retries without any conflict: one refused write, no commit at all. */
  lemma RetryWithoutConflict<C>(cfg: Config<C>, file: Option<C>, clock: int, id: Id, now: int, v: C)
    requires cfg.attempts > 1 && cfg.transform(id, file, now) == Some(v)
    ensures var s := Exec(cfg, Init(file, clock), Opening(id, now) + [PutFails(id)]);
      && s.history == [] && id in s.runs
      && s.runs[id].phase.Ready? && s.runs[id].attempt == 2 && s.runs[id].conflicts == []
  {
    RunAlone(cfg, Init(file, clock), id, now, v);
    ExecPush(cfg, Init(file, clock), Opening(id, now), PutFails(id));
  }

  // ---------------------------------------------------------------- ABA

  /** A strict order that every transform moves up in. */
  ghost predicate Increases<C(!new)>(cfg: Config<C>, less: (C, C) -> bool) {
    && (forall x :: !less(x, x))
    && (forall x, y, z :: less(x, y) && less(y, z) ==> less(x, z))
    && (forall id, x, now :: (var v := cfg.transform(id, Some(x), now); v.Some? ==> less(x, v.value)))
  }

  lemma {:induction false} VersionsIncrease<C(!new)>(cfg: Config<C>, less: (C, C) -> bool, file: Option<C>,
                                                     history: seq<Commit<C>>, i: nat, j: nat)
    requires Increases(cfg, less) && Chain(cfg, file, history) && i < j <= |history|
    ensures Version(file, history, j).Some?
    ensures Version(file, history, i).Some? ==> less(Version(file, history, i).value, Version(file, history, j).value)
    decreases j - i
  {
    assert Linked(cfg, file, history, j - 1);
    if i + 1 < j {
      VersionsIncrease(cfg, less, file, history, i, j - 1);
    }
  }

  /** With such an order no content ever comes back, so an accepted write is
      accepted in the very version its run read: nothing landed in between. */
  lemma AcceptedInPlace<C(!new)>(cfg: Config<C>, less: (C, C) -> bool, file: Option<C>, s: State<C>, id: Id)
    requires Increases(cfg, less) && Inv(cfg, file, s)
    requires id in s.runs && s.runs[id].phase.Staged? && Applies(s.file, ShaOf(s.runs[id].phase.base))
    ensures s.runs[id].phase.at == |s.history|
  {
    assert RunOk(cfg, file, s, id);
    if s.runs[id].phase.at < |s.history| {
      VersionsIncrease(cfg, less, file, s.history, s.runs[id].phase.at, |s.history|);
    }
  }

  /** The same over runs. */
  lemma NoForeignCommitBetween<C(!new)>(cfg: Config<C>, less: (C, C) -> bool, file: Option<C>, clock: int,
                                        actions: seq<Action>, id: Id)
    requires Increases(cfg, less)
    requires var s := Exec(cfg, Init(file, clock), actions);
      id in s.runs && s.runs[id].phase.Staged? && Applies(s.file, ShaOf(s.runs[id].phase.base))
    ensures var s := Exec(cfg, Init(file, clock), actions);
      s.runs[id].phase.at == |s.history|
  {
    Reachable(cfg, file, clock, actions);
    AcceptedInPlace(cfg, less, file, Exec(cfg, Init(file, clock), actions), id);
  }

  /** So a write meets a mismatch exactly when another commit came in between. */
  lemma ConflictExactly<C(!new)>(cfg: Config<C>, less: (C, C) -> bool, file: Option<C>, clock: int,
                                 actions: seq<Action>, id: Id)
    requires Increases(cfg, less)
    requires var s := Exec(cfg, Init(file, clock), actions); id in s.runs && s.runs[id].phase.Staged?
    ensures var s := Exec(cfg, Init(file, clock), actions);
      !Applies(s.file, ShaOf(s.runs[id].phase.base)) <==> s.runs[id].phase.at < |s.history|
  {
    Reachable(cfg, file, clock, actions);
    var s := Exec(cfg, Init(file, clock), actions);
    assert RunOk(cfg, file, s, id);
    if Applies(s.file, ShaOf(s.runs[id].phase.base)) {
      AcceptedInPlace(cfg, less, file, s, id);
    } else {
      ConflictMeansCommit(cfg, file, s, id);
    }
  }

  lemma {:induction false} ExecConcat<C>(cfg: Config<C>, s: State<C>, a: seq<Action>, b: seq<Action>)
    ensures Exec(cfg, s, a + b) == Exec(cfg, Exec(cfg, s, a), b)
    decreases |b|
  {
    if b == [] {
      assert a + b == a;
    } else {
      var front, last := b[..|b| - 1], b[|b| - 1];
      ExecConcat(cfg, s, a, front);
      assert (a + b)[..|a + b| - 1] == a + front;
      assert (a + b)[|a + b| - 1] == last;
    }
  }

  lemma ExecThree<C>(cfg: Config<C>, s: State<C>, a: Action, b: Action, c: Action)
    ensures Exec(cfg, s, [a, b, c]) == Do(cfg, Do(cfg, Do(cfg, s, a), b), c)
  {
    ExecPush(cfg, s, [], a);
    ExecPush(cfg, s, [a], b);
    ExecPush(cfg, s, [a, b], c);
    assert [] + [a] == [a] && [a] + [b] == [a, b] && [a, b] + [c] == [a, b, c];
  }

  function Opening(id: Id, now: int): seq<Action> {
    [Start(id), Get(id), Transform(id, now)]
  }

  /** A run nobody disturbs: staged after three steps, successful after four. */
  lemma RunAlone<C>(cfg: Config<C>, s: State<C>, id: Id, now: int, v: C)
    requires id !in s.runs && cfg.transform(id, s.file, now) == Some(v)
    ensures Exec(cfg, s, Opening(id, now))
         == s.(runs := s.runs[id := Run(1, Staged(s.file, |s.history|, now, v), [], 0)])
    ensures Exec(cfg, s, Opening(id, now) + [Put(id)])
         == s.(file := Some(v), history := s.history + [Commit(id, now, v)],
               runs := s.runs[id := Run(1, Succeeded, [], 0)])
  {
    ExecThree(cfg, s, Start(id), Get(id), Transform(id, now));
    ExecPush(cfg, s, Opening(id, now), Put(id));
  }

  /** The sha alone does not do it: with a transform that goes back and forth a
      write lands although two others came in between. */
  lemma ShaAloneAllowsABA() returns (actions: seq<Action>)
    ensures var cfg := Config((id: Id, base: Option<bool>, now: int) => Some(base != Some(true)), MAX_ATTEMPTS);
      var s := Exec(cfg, Init(Some(false), 0), actions);
      && 1 in s.runs && s.runs[1].phase.Staged? && Applies(s.file, ShaOf(s.runs[1].phase.base))
      && s.runs[1].phase.at == 0 && |s.history| == 2
  {
    var cfg := Config((id: Id, base: Option<bool>, now: int) => Some(base != Some(true)), MAX_ATTEMPTS);
    var s0 := Init(Some(false), 0);
    var first, second := Opening(2, 0) + [Put(2)], Opening(3, 0) + [Put(3)];
    RunAlone(cfg, s0, 1, 0, true);
    var s1 := Exec(cfg, s0, Opening(1, 0));
    RunAlone(cfg, s1, 2, 0, true);
    ExecConcat(cfg, s0, Opening(1, 0), first);
    var s2 := Exec(cfg, s0, Opening(1, 0) + first);
    RunAlone(cfg, s2, 3, 0, false);
    ExecConcat(cfg, s0, Opening(1, 0) + first, second);
    actions := Opening(1, 0) + first + second;
  }

  // ---------------------------------------------------------------- losing to rivals

  /** A transform that counts, with the attempts of the script. */
  function Counting(): Config<nat> {
    Config((id: Id, base: Option<nat>, now: int) => Some(Next(base)), MAX_ATTEMPTS)
  }

  function Next(base: Option<nat>): nat {
    if base.None? then 0 else base.value + 1
  }

  function Fetching(id: Id): seq<Action> {
    [Get(id), Transform(id, 0)]
  }

  /** Run id reads and computes, run rival commits in one go, and id writes too late. */
  function Round(id: Id, rival: Id): seq<Action> {
    Fetching(id) + (Opening(rival, 0) + [Put(rival)]) + [Put(id)]
  }

  ghost predicate Trying(s: State<nat>, id: Id, attempt: nat, conflicts: nat) {
    && id in s.runs && s.runs[id].phase.Ready?
    && s.runs[id].attempt == attempt && |s.runs[id].conflicts| == conflicts && s.runs[id].spurious == 0
  }

  lemma FetchingSteps(s: State<nat>, id: Id)
    requires id in s.runs && s.runs[id].phase.Ready?
    ensures Exec(Counting(), s, Fetching(id))
         == WithPhase(s, id, Staged(s.file, |s.history|, 0, Next(s.file)))
  {
    ExecPush(Counting(), s, [], Get(id));
    ExecPush(Counting(), s, [Get(id)], Transform(id, 0));
    assert [] + [Get(id)] == [Get(id)] && [Get(id)] + [Transform(id, 0)] == Fetching(id);
  }

  lemma RoundLost(s: State<nat>, id: Id, rival: Id, attempt: nat, conflicts: nat)
    requires Trying(s, id, attempt, conflicts) && rival !in s.runs
    ensures var s' := Exec(Counting(), s, Round(id, rival));
      && s'.runs.Keys == s.runs.Keys + {rival} && |s'.history| == |s.history| + 1
      && |s'.runs[id].conflicts| == conflicts + 1 && s'.runs[id].spurious == 0
      && s'.runs[id].attempt == (if attempt < 6 then attempt + 1 else attempt)
      && s'.runs[id].phase == (if attempt < 6 then Ready else Exhausted)
  {
    var cfg := Counting();
    FetchingSteps(s, id);
    var s1 := Exec(cfg, s, Fetching(id));
    RunAlone(cfg, s1, rival, 0, Next(s1.file));
    ExecConcat(cfg, s, Fetching(id), Opening(rival, 0) + [Put(rival)]);
    ExecPush(cfg, s, Fetching(id) + (Opening(rival, 0) + [Put(rival)]), Put(id));
  }

  ghost predicate RunsUpTo(s: State<nat>, n: nat) {
    |s.runs| == n + 1 && forall id :: id in s.runs ==> id <= n
  }

  /** n conflicts in a row, n up to five. */
  lemma {:induction false} ConflictsInARow(n: nat) returns (actions: seq<Action>)
    requires n <= 5
    ensures NoSpurious(actions)
    ensures var s := Exec(Counting(), Init(None, 0), actions);
      Trying(s, 0, n + 1, n) && RunsUpTo(s, n) && |s.history| == n
    decreases n
  {
    var cfg, s0: State<nat> := Counting(), Init(None, 0);
    if n == 0 {
      actions := [] + [Start(0)];
      ExecPush(cfg, s0, [], Start(0));
      assert Exec(cfg, s0, actions).runs.Keys == {0};
    } else {
      var front := ConflictsInARow(n - 1);
      actions := OneMoreConflict(front, n);
    }
  }

  lemma OneMoreConflict(front: seq<Action>, n: nat) returns (actions: seq<Action>)
    requires 0 < n <= 6 && NoSpurious(front)
    requires var s := Exec(Counting(), Init(None, 0), front);
      Trying(s, 0, n, n - 1) && RunsUpTo(s, n - 1) && |s.history| == n - 1
    ensures NoSpurious(actions)
    ensures var s := Exec(Counting(), Init(None, 0), actions);
      && RunsUpTo(s, n) && |s.history| == n && 0 in s.runs && |s.runs[0].conflicts| == n && s.runs[0].spurious == 0
      && s.runs[0].attempt == (if n < 6 then n + 1 else 6)
      && s.runs[0].phase == (if n < 6 then Ready else Exhausted)
  {
    var s := Exec(Counting(), Init(None, 0), front);
    RoundLost(s, 0, n, n, n - 1);
    ExecConcat(Counting(), Init(None, 0), front, Round(0, n));
    actions := front + Round(0, n);
    var s' := Exec(Counting(), s, Round(0, n));
    assert |s'.runs| == |s'.runs.Keys| && |s.runs| == |s.runs.Keys|;
  }

  /** A run may lose five attempts to rivals and commits at its sixth ... */
  lemma SixthAttemptCommits() returns (actions: seq<Action>)
    ensures NoSpurious(actions)
    ensures var s := Exec(Counting(), Init(None, 0), actions);
      && 0 in s.runs && s.runs[0].phase.Succeeded? && s.runs[0].attempt == 6 && |s.runs[0].conflicts| == 5
      && |s.history| == 6
  {
    var cfg, s0: State<nat> := Counting(), Init(None, 0);
    var front := ConflictsInARow(5);
    var s := Exec(cfg, s0, front);
    FetchingSteps(s, 0);
    ExecConcat(cfg, s0, front, Fetching(0));
    ExecPush(cfg, s0, front + Fetching(0), Put(0));
    actions := front + Fetching(0) + [Put(0)];
  }

  /** ... and a sixth conflict is its last: among seven runs one may give up. */
  lemma SixConflictsExhaust() returns (actions: seq<Action>)
    ensures NoSpurious(actions)
    ensures var s := Exec(Counting(), Init(None, 0), actions);
      0 in s.runs && s.runs[0].phase.Exhausted? && |s.runs[0].conflicts| == 6 && |s.runs| == 7
  {
    var front := ConflictsInARow(5);
    actions := OneMoreConflict(front, 6);
  }
}
