/** The two scripts as loops over shell variables, run in a world that other runs
    change between any two of their steps, and proved to be runs of the protocol. */
module CasScripts {
  import opened Basics
  import opened CasProtocol

  /** The server and everybody talking to it. */
  class World<C(==)> {
    const cfg: Config<C>
    var s: State<C>

    constructor (cfg: Config<C>, s: State<C>)
      ensures this.cfg == cfg && this.s == s
    {
      this.cfg, this.s := cfg, s;
    }

    method Act(a: Action)
      modifies this
      ensures s == Do(cfg, old(s), a)
    {
      s := Do(cfg, s, a);
    }

    /** Steps of other runs and of the clock. */
    method Others(actions: seq<Action>)
      modifies this
      ensures s == Exec(cfg, old(s), actions)
    {
      for i := 0 to |actions|
        invariant s == Exec(cfg, old(s), actions[..i])
      {
        assert actions[..i + 1] == actions[..i] + [actions[i]];
        ExecPush(cfg, old(s), actions[..i], actions[i]);
        Act(actions[i]);
      }
      assert actions[..|actions|] == actions;
    }

    /** A GET answered 200 or 404. */
    method Read(id: Id) returns (sha: Option<Sha<C>>, content: Option<C>)
      modifies this
      ensures s == Do(cfg, old(s), Get(id))
      ensures content == s.file == old(s).file && sha == ShaOf(content)
    {
      content := s.file;
      sha := ShaOf(content);
      Act(Get(id));
    }

    /** A PUT of a body with or without a sha, refused without cause if so told. */
    method Write(id: Id, body: C, sha: Option<Sha<C>>, refused: bool) returns (ok: bool)
      requires id in s.runs && s.runs[id].phase.Staged?
      requires s.runs[id].phase.next == body && ShaOf(s.runs[id].phase.base) == sha
      modifies this
      ensures s == Do(cfg, old(s), if refused then PutFails(id) else Put(id))
      ensures ok <==> !refused && Applies(old(s).file, sha)
    {
      ok := !refused && Applies(s.file, sha);
      Act(if refused then PutFails(id) else Put(id));
    }
  }

  /** What happens around one attempt. */
  datatype Around = Around(getFails: bool, afterGet: seq<Action>, now: int, beforePut: seq<Action>, refused: bool)

  datatype Exit<C> = Printed(content: C) | ReadError | Rejection | GaveUp

  ghost predicate NotBy(actions: seq<Action>, id: Id) {
    forall i :: 0 <= i < |actions| ==> actions[i].Tick? || actions[i].id != id
  }

  ghost predicate Foreign(env: seq<Around>, id: Id) {
    forall k :: 0 <= k < |env| ==> NotBy(env[k].afterGet, id) && NotBy(env[k].beforePut, id)
  }

  lemma {:induction false} OthersLeaveRun<C>(cfg: Config<C>, s: State<C>, actions: seq<Action>, id: Id)
    requires NotBy(actions, id) && id in s.runs
    ensures var s' := Exec(cfg, s, actions); id in s'.runs && s'.runs[id] == s.runs[id]
    decreases |actions|
  {
    if actions == [] {
    } else {
      OthersLeaveRun(cfg, s, actions[..|actions| - 1], id);
    }
  }

  lemma Follow<C>(cfg: Config<C>, s: State<C>, trace: seq<Action>, more: seq<Action>, s1: State<C>, s2: State<C>)
    requires s1 == Exec(cfg, s, trace) && s2 == Exec(cfg, s1, more)
    ensures s2 == Exec(cfg, s, trace + more)
  {
    ExecConcat(cfg, s, trace, more);
  }

  lemma FollowOne<C>(cfg: Config<C>, s: State<C>, trace: seq<Action>, a: Action, s1: State<C>, s2: State<C>)
    requires s1 == Exec(cfg, s, trace) && s2 == Do(cfg, s1, a)
    ensures s2 == Exec(cfg, s, trace + [a])
  {
    ExecPush(cfg, s, trace, a);
  }

  ghost predicate Ends<C>(r: Run<C>, exit: Exit<C>) {
    match exit
    case Printed(_) => r.phase.Succeeded?
    case ReadError => r.phase.Rejected?
    case Rejection => r.phase.Rejected?
    case GaveUp => r.phase.Exhausted?
  }

  /** One pass of the loop: nothing to report, or the exit of the script. */
  method Attempt<C(==)>(w: World<C>, id: Id, e: Around) returns (exit: Option<Exit<C>>, ghost trace: seq<Action>)
    requires id in w.s.runs && w.s.runs[id].phase.Ready?
    requires NotBy(e.afterGet, id) && NotBy(e.beforePut, id)
    modifies w
    ensures w.s == Exec(w.cfg, old(w.s), trace)
    ensures id in w.s.runs
    ensures exit.Some? ==> !exit.value.GaveUp? && Ends(w.s.runs[id], exit.value)
    ensures exit.Some? && exit.value.Printed? ==> Landed(w.s, id, e.now, exit.value.content)
    ensures exit.None? ==> TriesAgain(old(w.s.runs[id]), w.s.runs[id], w.cfg.attempts)
  {
    ghost var s0 := w.s;
    if e.getFails {
      w.Act(GetFails(id));
      FollowOne(w.cfg, s0, [], GetFails(id), s0, w.s);
      return Some(ReadError), [] + [GetFails(id)];
    }
    var sha, oldContent := w.Read(id);
    FollowOne(w.cfg, s0, [], Get(id), s0, w.s);
    ghost var s1 := w.s;
    exit, trace := AfterRead(w, id, sha, oldContent, e);
    Follow(w.cfg, s0, [] + [Get(id)], trace, s1, w.s);
    trace := [] + [Get(id)] + trace;
  }

  ghost predicate Landed<C>(s: State<C>, id: Id, now: int, content: C) {
    |s.history| > 0 && s.history[|s.history| - 1] == Commit(id, now, content) && s.file == Some(content)
  }

  ghost predicate TriesAgain<C>(before: Run<C>, after: Run<C>, attempts: nat) {
    if before.attempt < attempts then after.phase.Ready? && after.attempt == before.attempt + 1
    else after.phase.Exhausted?
  }

  /** The transform and the write of one attempt. */
  method AfterRead<C(==)>(w: World<C>, id: Id, sha: Option<Sha<C>>, oldContent: Option<C>, e: Around)
    returns (exit: Option<Exit<C>>, ghost trace: seq<Action>)
    requires id in w.s.runs && w.s.runs[id].phase.Fetched?
    requires w.s.runs[id].phase.base == oldContent && sha == ShaOf(oldContent)
    requires NotBy(e.afterGet, id) && NotBy(e.beforePut, id)
    modifies w
    ensures w.s == Exec(w.cfg, old(w.s), trace)
    ensures id in w.s.runs
    ensures exit.Some? ==> (exit.value.Printed? || exit.value.Rejection?) && Ends(w.s.runs[id], exit.value)
    ensures exit.Some? && exit.value.Printed? ==> Landed(w.s, id, e.now, exit.value.content)
    ensures exit.None? ==> TriesAgain(old(w.s.runs[id]), w.s.runs[id], w.cfg.attempts)
  {
    ghost var s0 := w.s;
    w.Others(e.afterGet);
    OthersLeaveRun(w.cfg, s0, e.afterGet, id);
    ghost var s1 := w.s;
    var newContent := w.cfg.transform(id, oldContent, e.now);
    w.Act(Transform(id, e.now));
    FollowOne(w.cfg, s0, e.afterGet, Transform(id, e.now), s1, w.s);
    trace := e.afterGet + [Transform(id, e.now)];
    if newContent.None? {
      return Some(Rejection), trace;
    }
    ghost var s2 := w.s;
    var more, ok := Store(w, id, newContent.value, sha, e);
    Follow(w.cfg, s0, trace, more, s2, w.s);
    trace := trace + more;
    exit := if ok then Some(Printed(newContent.value)) else None;
  }

  /** The conditional write of one attempt. */
  method Store<C(==)>(w: World<C>, id: Id, body: C, sha: Option<Sha<C>>, e: Around)
    returns (ghost trace: seq<Action>, ok: bool)
    requires id in w.s.runs && w.s.runs[id].phase.Staged? && NotBy(e.beforePut, id)
    requires w.s.runs[id].phase.next == body && ShaOf(w.s.runs[id].phase.base) == sha && w.s.runs[id].phase.now == e.now
    modifies w
    ensures w.s == Exec(w.cfg, old(w.s), trace)
    ensures id in w.s.runs
    ensures ok ==> w.s.runs[id].phase.Succeeded? && Landed(w.s, id, e.now, body)
    ensures !ok ==> TriesAgain(old(w.s.runs[id]), w.s.runs[id], w.cfg.attempts)
  {
    ghost var s0 := w.s;
    w.Others(e.beforePut);
    OthersLeaveRun(w.cfg, s0, e.beforePut, id);
    ghost var s1 := w.s;
    ok := w.Write(id, body, sha, e.refused);
    ghost var a := if e.refused then PutFails(id) else Put(id);
    FollowOne(w.cfg, s0, e.beforePut, a, s1, w.s);
    trace := e.beforePut + [a];
  }

  /** cas_commit.sh. Whatever the others do meanwhile, the script is one run of the
      protocol, and its exit tells how that run ended. */
  method CasCommit<C(==)>(w: World<C>, id: Id, env: seq<Around>) returns (exit: Exit<C>, ghost trace: seq<Action>)
    requires w.cfg.attempts == 6 && |env| == 6 && Foreign(env, id) && id !in w.s.runs
    modifies w
    ensures w.s == Exec(w.cfg, old(w.s), trace)
    ensures id in w.s.runs && Ends(w.s.runs[id], exit)
    ensures exit.Printed? ==>
      |w.s.history| > 0 && w.s.history[|w.s.history| - 1].run == id
      && w.s.history[|w.s.history| - 1].value == exit.content && w.s.file == Some(exit.content)
  {
    ghost var s0 := w.s;
    w.Act(Start(id));
    trace := [] + [Start(id)];
    FollowOne(w.cfg, s0, [], Start(id), s0, w.s);
    var attempt := 1;
    while attempt <= MAX_ATTEMPTS
      invariant 1 <= attempt <= MAX_ATTEMPTS + 1
      invariant w.s == Exec(w.cfg, s0, trace) && id in w.s.runs
      invariant attempt <= MAX_ATTEMPTS ==> w.s.runs[id].phase.Ready? && w.s.runs[id].attempt == attempt
      invariant attempt > MAX_ATTEMPTS ==> w.s.runs[id].phase.Exhausted?
    {
      ghost var s1 := w.s;
      var outcome, more := Attempt(w, id, env[attempt - 1]);
      Follow(w.cfg, s0, trace, more, s1, w.s);
      trace := trace + more;
      if outcome.Some? {
        return outcome.value, trace;
      }
      attempt := attempt + 1;
    }
    exit := GaveUp;
  }

  // ---------------------------------------------------------------- cas_increment.sh

  /** The counter file; `Other` holds no integer count. */
  datatype Counter = Counter(count: int, day: int) | Other

  function Bump(base: Option<Counter>, day: int): Option<Counter> {
    match base
    case None => Some(Counter(0, day))
    case Some(Counter(count, _)) => Some(Counter(count + 1, day))
    case Some(Other) => None
  }

  function Incrementer(): Config<Counter> {
    Config((id: Id, base: Option<Counter>, day: int) => Bump(base, day), 1)
  }

  /** A single attempt, with a genesis branch for the missing file. */
  method CasIncrement(w: World<Counter>, id: Id, e: Around) returns (ok: bool, ghost trace: seq<Action>)
    requires w.cfg == Incrementer() && id !in w.s.runs && NotBy(e.afterGet, id) && NotBy(e.beforePut, id)
    modifies w
    ensures w.s == Exec(w.cfg, old(w.s), trace)
    ensures id in w.s.runs && (ok <==> w.s.runs[id].phase.Succeeded?)
    ensures !ok ==> w.s.runs[id].phase.Rejected? || w.s.runs[id].phase.Exhausted?
  {
    ghost var s0 := w.s;
    w.Act(Start(id));
    FollowOne(w.cfg, s0, [], Start(id), s0, w.s);
    ghost var s1 := w.s;
    if e.getFails {
      // an answer without a content ends in a failing jq or curl
      w.Act(GetFails(id));
      FollowOne(w.cfg, s0, [] + [Start(id)], GetFails(id), s1, w.s);
      return false, [] + [Start(id)] + [GetFails(id)];
    }
    var sha, current := w.Read(id);
    FollowOne(w.cfg, s0, [] + [Start(id)], Get(id), s1, w.s);
    ghost var s2 := w.s;
    ok, trace := Increment(w, id, sha, current, e);
    Follow(w.cfg, s0, [] + [Start(id)] + [Get(id)], trace, s2, w.s);
    trace := [] + [Start(id)] + [Get(id)] + trace;
  }

  /** The two branches of the script. */
  method Increment(w: World<Counter>, id: Id, sha: Option<Sha<Counter>>, current: Option<Counter>, e: Around)
    returns (ok: bool, ghost trace: seq<Action>)
    requires w.cfg == Incrementer() && id in w.s.runs
    requires w.s.runs[id].phase.Fetched? && w.s.runs[id].phase.base == current
    requires w.s.runs[id].attempt == 1 && sha == ShaOf(current) && NotBy(e.afterGet, id) && NotBy(e.beforePut, id)
    modifies w
    ensures w.s == Exec(w.cfg, old(w.s), trace)
    ensures id in w.s.runs && (ok <==> w.s.runs[id].phase.Succeeded?)
    ensures !ok ==> w.s.runs[id].phase.Rejected? || w.s.runs[id].phase.Exhausted?
  {
    ghost var s0 := w.s;
    w.Others(e.afterGet);
    OthersLeaveRun(w.cfg, s0, e.afterGet, id);
    ghost var s1 := w.s;
    w.Act(Transform(id, e.now));
    FollowOne(w.cfg, s0, e.afterGet, Transform(id, e.now), s1, w.s);
    trace := e.afterGet + [Transform(id, e.now)];
    var newState;
    if current.None? {
      newState := Counter(0, e.now);
    } else {
      if current.value.Other? {
        return false, trace;
      }
      newState := Counter(current.value.count + 1, e.now);
    }
    ghost var s2 := w.s;
    ghost var more: seq<Action>;
    more, ok := Store(w, id, newState, sha, e);
    Follow(w.cfg, s0, trace, more, s2, w.s);
    trace := trace + more;
  }

  predicate CountLess(x: Counter, y: Counter) {
    x.Counter? && y.Counter? && x.count < y.count
  }

  lemma IncrementerIncreases()
    ensures Increases(Incrementer(), CountLess)
  {
    forall id, x, now
      ensures var v := Incrementer().transform(id, Some(x), now); v.Some? ==> CountLess(x, v.value)
    {
      assert Incrementer().transform(id, Some(x), now) == Bump(Some(x), now);
    }
  }

  lemma {:induction false} CountAlongChain(file: Option<Counter>, history: seq<Commit<Counter>>, i: nat)
    requires Chain(Incrementer(), file, history) && i <= |history| && (file.None? || file.value.Counter?)
    ensures file.None? && i == 0 ==> Version(file, history, i).None?
    ensures file.None? && i > 0 ==> Version(file, history, i).Some? && Version(file, history, i).value.Counter?
                                    && Version(file, history, i).value.count == i - 1
    ensures file.Some? ==> Version(file, history, i).Some? && Version(file, history, i).value.Counter?
                           && Version(file, history, i).value.count == file.value.count + i
    ensures i > 0 ==> Version(file, history, i).value.day == history[i - 1].now
  {
    if i > 0 {
      CountAlongChain(file, history, i - 1);
      assert Linked(Incrementer(), file, history, i - 1);
    }
  }

  /** However the runs interleave, the counter is the number of runs that exited
      with 0, less one for the run that created the file. */
  lemma CountIsSuccesses(clock: int, actions: seq<Action>)
    ensures var s := Exec(Incrementer(), Init(None, clock), actions);
      && (s.file.None? <==> Winners(s) == {})
      && (s.file.Some? ==> s.file.value.Counter? && s.file.value.count == |Winners(s)| - 1)
  {
    Reachable(Incrementer(), None, clock, actions);
    WinnersCounted(Incrementer(), None, clock, actions);
    var s := Exec(Incrementer(), Init(None, clock), actions);
    CountAlongChain(None, s.history, |s.history|);
  }

  /** From an existing counter every success adds one. */
  lemma CountGrowsBySuccesses(count: int, day: int, clock: int, actions: seq<Action>)
    ensures var s := Exec(Incrementer(), Init(Some(Counter(count, day)), clock), actions);
      s.file.Some? && s.file.value.Counter? && s.file.value.count == count + |Winners(s)|
  {
    var file := Some(Counter(count, day));
    Reachable(Incrementer(), file, clock, actions);
    WinnersCounted(Incrementer(), file, clock, actions);
    var s := Exec(Incrementer(), Init(file, clock), actions);
    CountAlongChain(file, s.history, |s.history|);
  }
}
