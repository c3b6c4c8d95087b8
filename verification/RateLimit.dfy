/** scripts/transforms/rate_limit_transform.sh, the fixed-window transform, and what
    it guarantees when cas_commit.sh applies it from any number of runs. Shell
    integers are modelled unbounded. */
module RateLimit {
  import opened Basics
  import opened CasProtocol

  const WINDOW: int := 3600

  /** The decoded file. `Uncounted` has an integer window_start but no integer count,
      which matters only while the window runs: afterwards the script overwrites it.
      `Endless` has an integer count and for its window_start a JSON value, 1.5 say,
      that shell arithmetic chokes on: the comparison inside `if` is an error and so
      not true, and the window never ends. On `Other` the script fails, which
      cas_commit.sh takes as a rejection: no JSON, or a value missing. */
  datatype Content =
    | Empty
    | Window(count: int, start: int)
    | Uncounted(start: int)
    | Endless(count: int, mark: string)
    | Other

  /** The script's branches; None is a non-zero exit. */
  function Decide(old': Content, now: int, max: nat): Option<Content> {
    match old'
    case Other => None
    case Empty => Opened(now, max)
    case Uncounted(start) => if now - start > WINDOW then Opened(now, max) else None
    case Window(count, start) =>
      if now - start > WINDOW then Opened(now, max)
      else if count >= max then None
      else Some(Window(count + 1, start))
    case Endless(count, mark) => if count >= max then None else Some(Endless(count + 1, mark))
  }

  function Opened(now: int, max: nat): Option<Content> {
    if max == 0 then None else Some(Window(1, now))
  }

  /** What a shell variable holds: a number, or text that is none. */
  datatype Text = Number(n: int) | Raw(text: string)

  /** The script step by step. */
  method Transform(old': Content, now: int, max: nat) returns (out: Option<Content>)
    ensures out == Decide(old', now, max)
  {
    var count, windowStart: Text;
    if old'.Empty? {
      count := Number(0);
      windowStart := Number(now);
    } else {
      if old'.Other? {
        return None;
      }
      count := if old'.Uncounted? then Raw("") else Number(old'.count);
      windowStart := if old'.Endless? then Raw(old'.mark) else Number(old'.start);
      if windowStart.Number? && now - windowStart.n > WINDOW {
        count := Number(0);
        windowStart := Number(now);
      }
    }
    if count.Raw? || count.n >= max {
      return None;
    }
    out := Some(if windowStart.Number? then Window(count.n + 1, windowStart.n)
                else Endless(count.n + 1, windowStart.text));
  }

  /** In seconds: up to 3600 after its start a window only counts up, and rejects at
      the limit; from 3601 on, as with an empty file, the reading opens a new one. */
  lemma DecideInSeconds(old': Content, now: int, max: nat)
    ensures old'.Window? && now - old'.start <= 3600 ==>
      Decide(old', now, max) == if old'.count < max then Some(Window(old'.count + 1, old'.start)) else None
    ensures (old'.Window? || old'.Uncounted?) && now - old'.start >= 3601 ==>
      Decide(old', now, max) == if max >= 1 then Some(Window(1, now)) else None
    ensures old'.Empty? ==> Decide(old', now, max) == if max >= 1 then Some(Window(1, now)) else None
    ensures old'.Uncounted? && now - old'.start <= 3600 ==> Decide(old', now, max).None?
    ensures old'.Endless? ==>
      Decide(old', now, max) == if old'.count < max then Some(Endless(old'.count + 1, old'.mark)) else None
    ensures old'.Other? ==> Decide(old', now, max).None?
  {
  }

  /** An absent file reads as empty. */
  function Limiter(max: nat): Config<Content> {
    Config((id: Id, base: Option<Content>, now: int) => Decide(if base.Some? then base.value else Empty, now, max),
           MAX_ATTEMPTS)
  }

  // ---------------------------------------------------------------- no ABA

  /** Lexicographic in (window_start, count), above everything that is no window. */
  predicate Less(x: Content, y: Content) {
    if x.Endless? then y.Endless? && x.count < y.count
    else
      && y.Window?
      && (x.Window? ==> x.start < y.start || (x.start == y.start && x.count < y.count))
      && (x.Uncounted? ==> x.start < y.start)
  }

  /** Under any clock readings, even ones that run backwards. */
  lemma LimiterIncreases(max: nat)
    ensures Increases(Limiter(max), Less)
  {
    var cfg := Limiter(max);
    forall id, x, now
      ensures var v := cfg.transform(id, Some(x), now); v.Some? ==> Less(x, v.value)
    {
      assert cfg.transform(id, Some(x), now) == Decide(x, now, max);
    }
  }

  lemma LimiterHasNoABA(max: nat, file: Option<Content>, clock: int, actions: seq<Action>, id: Id)
    requires var s := Exec(Limiter(max), Init(file, clock), actions);
      id in s.runs && s.runs[id].phase.Staged? && Applies(s.file, ShaOf(s.runs[id].phase.base))
    ensures var s := Exec(Limiter(max), Init(file, clock), actions);
      s.runs[id].phase.at == |s.history|
  {
    LimiterIncreases(max);
    NoForeignCommitBetween(Limiter(max), Less, file, clock, actions, id);
  }

  // ---------------------------------------------------------------- the chain of windows

  type History = seq<Commit<Content>>

  /** The count a window starts from: that of the initial file for its window. */
  function Base(file: Option<Content>, w: int): int {
    if file.Some? && file.value.Window? && file.value.start == w then file.value.count else 0
  }

  /** The commits a window has room for. */
  function Room(file: Option<Content>, w: int, max: nat): nat {
    if Base(file, w) <= max then max - Base(file, w) else 0
  }

  /** No window starts before that of the initial file. */
  predicate NotBefore(file: Option<Content>, w: int) {
    file.Some? && (file.value.Window? || file.value.Uncounted?) ==> file.value.start <= w
  }

  /** The file does not start with a window nobody has used yet. */
  predicate NoUnusedWindow(file: Option<Content>) {
    file.Some? && (file.value.Window? || file.value.Endless?) ==> file.value.count >= 1
  }

  /** The file does not start with a window that never ends. */
  predicate Timed(file: Option<Content>) {
    !(file.Some? && file.value.Endless?)
  }

  function ContentAt(file: Option<Content>, history: History, i: nat): Content
    requires i <= |history|
  {
    var v := Version(file, history, i);
    if v.Some? then v.value else Empty
  }

  ghost predicate DecidedAt(file: Option<Content>, history: History, max: nat, i: nat)
    requires i < |history|
  {
    Decide(ContentAt(file, history, i), history[i].now, max) == Some(history[i].value)
  }

  ghost predicate Decided(file: Option<Content>, history: History, max: nat) {
    forall i :: 0 <= i < |history| ==> DecidedAt(file, history, max, i)
  }

  lemma ChainDecided(file: Option<Content>, history: History, max: nat)
    requires Chain(Limiter(max), file, history)
    ensures Decided(file, history, max)
  {
    forall i | 0 <= i < |history|
      ensures DecidedAt(file, history, max, i)
    {
      assert Linked(Limiter(max), file, history, i);
    }
  }

  lemma {:induction false} CountsInRange(file: Option<Content>, history: History, max: nat, i: nat)
    requires Decided(file, history, max) && Timed(file) && i < |history|
    ensures history[i].value.Window? && NotBefore(file, history[i].value.start)
    ensures Base(file, history[i].value.start) < history[i].value.count <= max
  {
    assert DecidedAt(file, history, max, i);
    if i > 0 {
      CountsInRange(file, history, max, i - 1);
    }
  }

  /** From one commit to the next: one more in the window, or a new window opened
      by this very reading more than an hour after the last one's start. */
  lemma NextCommit(file: Option<Content>, history: History, max: nat, i: nat)
    requires Decided(file, history, max) && Timed(file) && i + 1 < |history|
    ensures history[i].value.Window? && history[i + 1].value.Window?
    ensures var x, y, now := history[i].value, history[i + 1].value, history[i + 1].now;
      || (y.start == x.start && y.count == x.count + 1)
      || (y.start == now && y.count == 1 && now >= x.start + 3601)
  {
    CountsInRange(file, history, max, i);
    assert ContentAt(file, history, i + 1) == history[i].value;
    assert DecidedAt(file, history, max, i + 1);
  }

  ghost predicate Ordered(x: Content, y: Content) {
    x.Window? && y.Window? && Less(x, y) && (x.start != y.start ==> y.start >= x.start + 3601)
  }

  /** Within a window counts go up strictly; between windows starts do. */
  lemma {:induction false} WindowsOrdered(file: Option<Content>, history: History, max: nat, i: nat, j: nat)
    requires Decided(file, history, max) && Timed(file) && i < j < |history|
    ensures Ordered(history[i].value, history[j].value)
  {
    NextCommit(file, history, max, j - 1);
    if i < j - 1 {
      WindowsOrdered(file, history, max, i, j - 1);
    }
  }

  function InWindow(history: History, w: int): set<nat> {
    set i: nat | i < |history| && history[i].value.Window? && history[i].value.start == w
  }

  function Span(lo: int, hi: int): (s: set<int>)
    ensures forall k :: k in s <==> lo <= k <= hi
    decreases hi - lo
  {
    if lo > hi then {} else {lo} + Span(lo + 1, hi)
  }

  lemma {:induction false} SpanSize(lo: int, hi: int)
    ensures |Span(lo, hi)| == if lo <= hi then hi - lo + 1 else 0
    decreases hi - lo
  {
    if lo <= hi {
      SpanSize(lo + 1, hi);
    }
  }

  /** Indices of one window are told apart by their counts. */
  lemma {:induction false} CountedByCounts(file: Option<Content>, history: History, max: nat, w: int, s: set<nat>,
                                           lo: int)
    requires Decided(file, history, max) && Timed(file) && s <= InWindow(history, w)
    requires forall i :: i in s ==> history[i].value.count >= lo
    ensures |s| <= if lo <= max then max - lo + 1 else 0
    decreases s
  {
    var counts := CountsOf(history, s);
    SameSize(file, history, max, w, s);
    assert counts <= Span(lo, max) by {
      forall i | i in s
        ensures lo <= history[i].value.count <= max
      {
        CountsInRange(file, history, max, i);
      }
    }
    SpanSize(lo, max);
    SmallerSet(counts, Span(lo, max));
  }

  function CountsOf(history: History, s: set<nat>): set<int>
    requires forall i :: i in s ==> i < |history| && history[i].value.Window?
  {
    set i | i in s :: history[i].value.count
  }

  lemma {:induction false} SameSize(file: Option<Content>, history: History, max: nat, w: int, s: set<nat>)
    requires Decided(file, history, max) && Timed(file) && s <= InWindow(history, w)
    ensures |CountsOf(history, s)| == |s|
    decreases s
  {
    if s != {} {
      var i :| i in s;
      SameSize(file, history, max, w, s - {i});
      assert CountsOf(history, s) == CountsOf(history, s - {i}) + {history[i].value.count};
      forall j | j in s - {i}
        ensures history[j].value.count != history[i].value.count
      {
        if i < j {
          WindowsOrdered(file, history, max, i, j);
        } else {
          WindowsOrdered(file, history, max, j, i);
        }
      }
    }
  }

  lemma BoundInWindow(file: Option<Content>, history: History, max: nat, w: int, s: set<nat>)
    requires Decided(file, history, max) && Timed(file) && s <= InWindow(history, w)
    ensures |s| <= Room(file, w, max)
  {
    forall i | i in s
      ensures history[i].value.count >= Base(file, w) + 1
    {
      CountsInRange(file, history, max, i);
    }
    CountedByCounts(file, history, max, w, s, Base(file, w) + 1);
  }

  /** At most max commits per window_start, less what the initial file had counted
      in that window, whatever the clocks and the interleaving. */
  lemma MaxPerWindow(max: nat, file: Option<Content>, clock: int, actions: seq<Action>, w: int)
    ensures |InWindow(Exec(Limiter(max), Init(file, clock), actions).history, w)| <= Room(file, w, max)
  {
    var s := Exec(Limiter(max), Init(file, clock), actions);
    Reachable(Limiter(max), file, clock, actions);
    ChainDecided(file, s.history, max);
    if Timed(file) {
      BoundInWindow(file, s.history, max, w, InWindow(s.history, w));
    } else {
      forall i: nat | i < |s.history|
        ensures !s.history[i].value.Window?
      {
        EndlessCounts(file, s.history, max, i);
      }
      assert InWindow(s.history, w) == {};
    }
  }

  // ---------------------------------------------------------------- a window that never ends

  lemma {:induction false} EndlessCounts(file: Option<Content>, history: History, max: nat, i: nat)
    requires Decided(file, history, max) && !Timed(file) && i < |history|
    ensures history[i].value == Endless(file.value.count + i + 1, file.value.mark)
    ensures file.value.count + i + 1 <= max
  {
    assert DecidedAt(file, history, max, i);
    if i > 0 {
      EndlessCounts(file, history, max, i - 1);
    }
  }

  /** It takes max commits in all, less what it had counted. */
  lemma EndlessTotal(file: Option<Content>, history: History, max: nat)
    requires Decided(file, history, max) && !Timed(file)
    ensures |history| <= if file.value.count <= max then max - file.value.count else 0
  {
    if history != [] {
      EndlessCounts(file, history, max, |history| - 1);
    }
  }

  // ---------------------------------------------------------------- one global clock

  /** Every transform reads the one clock that Tick moves forward. */
  ghost predicate GlobalClock(cfg: Config<Content>, s: State<Content>, actions: seq<Action>) {
    forall k :: 0 <= k < |actions| && actions[k].Transform? ==> actions[k].now == Exec(cfg, s, actions[..k]).clock
  }

  ghost predicate Monotone(history: History) {
    forall i, j :: 0 <= i < j < |history| ==> history[i].now <= history[j].now
  }

  /** A staged reading is no older than the commits its run had read past. */
  ghost predicate ReadingOk(s: State<Content>, id: Id) {
    id in s.runs ==>
      var phase := s.runs[id].phase;
      && (phase.Fetched? || phase.Staged? ==> phase.at <= |s.history|)
      && (phase.Staged? ==> phase.now <= s.clock && forall i :: 0 <= i < phase.at ==> s.history[i].now <= phase.now)
  }

  ghost predicate Clocked(s: State<Content>) {
    && Monotone(s.history)
    && (forall i :: 0 <= i < |s.history| ==> s.history[i].now <= s.clock)
    && (forall id :: ReadingOk(s, id))
  }

  lemma AcceptedKeepsClock(max: nat, s: State<Content>, id: Id)
    requires Clocked(s) && id in s.runs && s.runs[id].phase.Staged? && s.runs[id].phase.at == |s.history|
    requires Applies(s.file, ShaOf(s.runs[id].phase.base))
    ensures Clocked(RunStep(Limiter(max), s, Put(id), id))
  {
    var s' := RunStep(Limiter(max), s, Put(id), id);
    assert ReadingOk(s, id);
    forall j
      ensures ReadingOk(s', j)
    {
      assert ReadingOk(s, j);
    }
  }

  lemma QuietKeepsClock(max: nat, s: State<Content>, a: Action)
    requires Clocked(s) && (a.Transform? ==> a.now == s.clock)
    requires Do(Limiter(max), s, a).history == s.history
    ensures Clocked(Do(Limiter(max), s, a))
  {
    var s' := Do(Limiter(max), s, a);
    forall j
      ensures ReadingOk(s', j)
    {
      assert ReadingOk(s, j);
    }
  }

  lemma StepKeepsClock(max: nat, file: Option<Content>, s: State<Content>, a: Action)
    requires Inv(Limiter(max), file, s) && Clocked(s) && (a.Transform? ==> a.now == s.clock)
    ensures Clocked(Do(Limiter(max), s, a))
  {
    if a.Put? && a.id in s.runs && s.runs[a.id].phase.Staged? && Applies(s.file, ShaOf(s.runs[a.id].phase.base)) {
      LimiterIncreases(max);
      AcceptedInPlace(Limiter(max), Less, file, s, a.id);
      AcceptedKeepsClock(max, s, a.id);
    } else {
      QuietKeepsClock(max, s, a);
    }
  }

  lemma ClockPrefix(cfg: Config<Content>, s: State<Content>, actions: seq<Action>)
    requires actions != [] && GlobalClock(cfg, s, actions)
    ensures GlobalClock(cfg, s, actions[..|actions| - 1])
    ensures var a := actions[|actions| - 1];
      a.Transform? ==> a.now == Exec(cfg, s, actions[..|actions| - 1]).clock
  {
    var front := actions[..|actions| - 1];
    forall k | 0 <= k < |front| && front[k].Transform?
      ensures front[k].now == Exec(cfg, s, front[..k]).clock
    {
      assert front[..k] == actions[..k];
    }
  }

  /** Readings do not decrease along the chain. */
  lemma {:induction false} ReadingsMonotone(max: nat, file: Option<Content>, clock: int, actions: seq<Action>)
    requires GlobalClock(Limiter(max), Init(file, clock), actions)
    ensures Clocked(Exec(Limiter(max), Init(file, clock), actions))
    decreases |actions|
  {
    if actions == [] {
    } else {
      var front := actions[..|actions| - 1];
      ClockPrefix(Limiter(max), Init(file, clock), actions);
      ReadingsMonotone(max, file, clock, front);
      Reachable(Limiter(max), file, clock, front);
      StepKeepsClock(max, file, Exec(Limiter(max), Init(file, clock), front), actions[|actions| - 1]);
    }
  }

  // ---------------------------------------------------------------- any hour

  /** The commits with a clock reading in [t, t + 3600]. */
  function Within(history: History, t: int): set<nat> {
    set i: nat | i < |history| && t <= history[i].now <= t + 3600
  }

  lemma ReadingInWindow(file: Option<Content>, history: History, max: nat, i: nat)
    requires Decided(file, history, max) && Timed(file) && i < |history|
    ensures history[i].value.Window? && history[i].now <= history[i].value.start + 3600
  {
    assert DecidedAt(file, history, max, i);
    CountsInRange(file, history, max, i);
  }

  /** A window other than an earlier commit's was opened by a reading since. */
  lemma {:induction false} OpenedSince(file: Option<Content>, history: History, max: nat, i: nat, j: nat)
    requires Decided(file, history, max) && Timed(file) && Monotone(history) && i < j < |history|
    ensures history[i].value.Window? && history[j].value.Window?
    ensures history[i].value.start != history[j].value.start ==> history[j].value.start <= history[j].now
  {
    NextCommit(file, history, max, j - 1);
    if i < j - 1 {
      OpenedSince(file, history, max, i, j - 1);
    } else {
      CountsInRange(file, history, max, i);
    }
  }

  /** One hour never touches three windows. */
  lemma AtMostTwoWindows(file: Option<Content>, history: History, max: nat, t: int, i: nat, j: nat, k: nat)
    requires Decided(file, history, max) && Timed(file) && Monotone(history) && i < j < k
    requires i in Within(history, t) && j in Within(history, t) && k in Within(history, t)
    ensures history[i].value.Window? && history[j].value.Window? && history[k].value.Window?
    ensures history[j].value.start == history[i].value.start || history[j].value.start == history[k].value.start
  {
    WindowsOrdered(file, history, max, i, j);
    WindowsOrdered(file, history, max, j, k);
    OpenedSince(file, history, max, j, k);
    ReadingInWindow(file, history, max, i);
  }

  /** The first commit of a window reads the clock that names it. */
  lemma FirstReadingNamesWindow(file: Option<Content>, history: History, max: nat, i: nat)
    requires Decided(file, history, max) && Timed(file) && NoUnusedWindow(file) && i < |history|
    requires history[i].value.Window? && history[i].value.count == 1
    ensures history[i].now == history[i].value.start
  {
    assert DecidedAt(file, history, max, i);
    if i > 0 {
      CountsInRange(file, history, max, i - 1);
    }
  }

  lemma {:induction false} LeastIndex(s: set<nat>) returns (a: nat)
    requires s != {}
    ensures a in s && forall x :: x in s ==> a <= x
    decreases s
  {
    var c :| c in s;
    a := c;
    if s != {c} {
      var b := LeastIndex(s - {c});
      a := if b < c then b else c;
      assert forall x :: x in s ==> x == c || x in s - {c};
    }
  }

  lemma {:induction false} GreatestIndex(s: set<nat>) returns (z: nat)
    requires s != {}
    ensures z in s && forall x :: x in s ==> x <= z
    decreases s
  {
    var c :| c in s;
    z := c;
    if s != {c} {
      var b := GreatestIndex(s - {c});
      z := if b > c then b else c;
      assert forall x :: x in s ==> x == c || x in s - {c};
    }
  }

  /** What a negative count in the initial file adds to its window. */
  function Extra(file: Option<Content>): nat {
    if file.Some? && (file.value.Window? || file.value.Endless?) && file.value.count < 0 then -file.value.count
    else 0
  }

  /** The hour holds the commits from a to z, those up to m in one window and those
      behind it, if any, in another. */
  ghost predicate HourShape(history: History, t: int, a: nat, m: nat, z: nat) {
    && a <= m <= z < |history|
    && (forall i: nat :: i in Within(history, t) <==> a <= i <= z)
    && (forall i :: a <= i <= z ==> history[i].value.Window?)
    && history[m].value.start == history[a].value.start
    && (m < z ==> history[m].value.start != history[m + 1].value.start == history[z].value.start)
  }

  /** The size of such an hour in counts. */
  function HourSize(history: History, a: nat, m: nat, z: nat): int
    requires a <= m <= z < |history|
    requires history[a].value.Window? && history[m].value.Window? && history[z].value.Window?
  {
    history[m].value.count - history[a].value.count + 1 + if m < z then history[z].value.count else 0
  }

  /** The last commit up to z in the window of commit a. */
  lemma {:induction false} LastOfWindow(file: Option<Content>, history: History, max: nat, a: nat, z: nat)
    returns (m: nat)
    requires Decided(file, history, max) && Timed(file) && a <= z < |history|
    ensures a <= m <= z && forall i :: a <= i <= z ==> history[i].value.Window?
    ensures history[m].value.start == history[a].value.start
    ensures m < z ==> history[m + 1].value.start != history[a].value.start
    decreases z
  {
    CountsInRange(file, history, max, z);
    if a == z {
      m := z;
    } else {
      m := LastOfWindow(file, history, max, a, z - 1);
      if history[z].value.start == history[a].value.start {
        if m < z - 1 {
          WindowsOrdered(file, history, max, a, m + 1);
          WindowsOrdered(file, history, max, m + 1, z);
          assert false;
        }
        m := z;
      }
    }
  }

  /** Every hour with a commit in it touches one window or two. */
  lemma HourSplits(file: Option<Content>, history: History, max: nat, t: int) returns (a: nat, m: nat, z: nat)
    requires Decided(file, history, max) && Timed(file) && Monotone(history) && Within(history, t) != {}
    ensures HourShape(history, t, a, m, z)
  {
    a := LeastIndex(Within(history, t));
    z := GreatestIndex(Within(history, t));
    m := LastOfWindow(file, history, max, a, z);
    forall i: nat | a <= i <= z
      ensures i in Within(history, t)
    {
      assert history[a].now <= history[i].now <= history[z].now;
    }
    if m + 1 < z {
      AtMostTwoWindows(file, history, max, t, a, m + 1, z);
    }
  }

  /** In one window the counts go up by exactly one. */
  lemma {:induction false} CountsStep(file: Option<Content>, history: History, max: nat, i: nat, j: nat)
    requires Decided(file, history, max) && Timed(file) && i <= j < |history|
    requires history[i].value.Window? && history[j].value.Window? && history[i].value.start == history[j].value.start
    ensures history[j].value.count - history[i].value.count == j - i
    decreases j
  {
    if i < j {
      NextCommit(file, history, max, j - 1);
      if i < j - 1 {
        WindowsOrdered(file, history, max, i, j - 1);
      }
      assert history[j - 1].value.start == history[j].value.start;
      CountsStep(file, history, max, i, j - 1);
    }
  }

  /** The exact number of commits in an hour. */
  lemma HourCount(file: Option<Content>, history: History, max: nat, t: int, a: nat, m: nat, z: nat)
    requires Decided(file, history, max) && Timed(file) && HourShape(history, t, a, m, z)
    ensures |Within(history, t)| == z - a + 1 == HourSize(history, a, m, z)
  {
    assert Within(history, t) == Span(a, z);
    SpanSize(a, z);
    CountsStep(file, history, max, a, m);
    if m < z {
      NextCommit(file, history, max, m);
      CountsStep(file, history, max, m + 1, z);
    }
  }

  /** An hour keeps to the limit exactly when it touches one window only, or what it
      sees of the old window and the count of the new one fit the limit together. */
  lemma HourWithinLimit(file: Option<Content>, history: History, max: nat, t: int, a: nat, m: nat, z: nat)
    requires Decided(file, history, max) && Timed(file) && HourShape(history, t, a, m, z) && Extra(file) == 0
    ensures |Within(history, t)| <= max <==>
      m == z || history[m].value.count - history[a].value.count + 1 + history[z].value.count <= max
  {
    HourCount(file, history, max, t, a, m, z);
    CountsInRange(file, history, max, a);
    CountsInRange(file, history, max, m);
  }

  /** An hour that begins at the reading that opened a window keeps to the limit. */
  lemma HourFromOpening(file: Option<Content>, history: History, max: nat, t: int, i: nat)
    requires Decided(file, history, max) && Timed(file) && Monotone(history) && i < |history|
    requires history[i].value == Window(1, t) && history[i].now == t
    requires Base(file, t) >= 0
    ensures |Within(history, t)| <= max
  {
    assert i in Within(history, t);
    var a, m, z := HourSplits(file, history, max, t);
    assert a in Within(history, t);
    if i > a {
      BeforeOpening(file, history, max, i, a);
    }
    if m < z {
      assert m + 1 in Within(history, t);
      WindowsOrdered(file, history, max, a, m + 1);
      OpenedSince(file, history, max, a, m + 1);
    }
    HourCount(file, history, max, t, a, m, z);
    CountsInRange(file, history, max, m);
  }

  /** Commits before the one that opened a window read the clock earlier. */
  lemma BeforeOpening(file: Option<Content>, history: History, max: nat, i: nat, a: nat)
    requires Decided(file, history, max) && Timed(file) && a < i < |history|
    requires history[i].value == Window(1, history[i].now) && Base(file, history[i].now) >= 0
    ensures history[a].now < history[i].now
  {
    WindowsOrdered(file, history, max, a, i);
    CountsInRange(file, history, max, a);
    ReadingInWindow(file, history, max, a);
  }

  /** The chain alone: at most 2 * max commits read a clock in one hour, and one
      fewer unless the file started with an unused window. */
  lemma HourBound(file: Option<Content>, history: History, max: nat, t: int)
    requires Decided(file, history, max) && Monotone(history)
    ensures |Within(history, t)| <= 2 * max + Extra(file)
    ensures NoUnusedWindow(file) && max > 0 ==> |Within(history, t)| <= 2 * max - 1
  {
    if !Timed(file) {
      EndlessTotal(file, history, max);
      WithinAll(history, t);
    } else if Within(history, t) != {} {
      var a, m, z := HourSplits(file, history, max, t);
      HourCount(file, history, max, t, a, m, z);
      CountsInRange(file, history, max, a);
      CountsInRange(file, history, max, m);
      CountsInRange(file, history, max, z);
      if m < z && NoUnusedWindow(file) {
        FirstIsNotOpening(file, history, max, t, a, z);
      }
    }
  }

  lemma WithinAll(history: History, t: int)
    ensures |Within(history, t)| <= |history|
  {
    assert Within(history, t) <= Span(0, |history| - 1);
    SpanSize(0, |history| - 1);
    SmallerSet(Within(history, t), Span(0, |history| - 1));
  }

  lemma FirstIsNotOpening(file: Option<Content>, history: History, max: nat, t: int, a: nat, z: nat)
    requires Decided(file, history, max) && Timed(file) && Monotone(history) && NoUnusedWindow(file)
    requires a < z && a in Within(history, t) && z in Within(history, t)
    requires history[a].value.Window? && history[z].value.Window? && history[a].value.start != history[z].value.start
    ensures history[a].value.count >= 2
  {
    WindowsOrdered(file, history, max, a, z);
    OpenedSince(file, history, max, a, z);
    CountsInRange(file, history, max, a);
    if history[a].value.count == 1 {
      FirstReadingNamesWindow(file, history, max, a);
    }
  }

  lemma RunFacts(max: nat, file: Option<Content>, clock: int, actions: seq<Action>)
    requires GlobalClock(Limiter(max), Init(file, clock), actions)
    ensures var history := Exec(Limiter(max), Init(file, clock), actions).history;
      Decided(file, history, max) && Monotone(history)
  {
    Reachable(Limiter(max), file, clock, actions);
    ChainDecided(file, Exec(Limiter(max), Init(file, clock), actions).history, max);
    ReadingsMonotone(max, file, clock, actions);
  }

  /** The rate bound of the whole protocol: with one clock and a common limit, in
      every interleaving of any number of runs. */
  lemma {:induction false} RateBound(max: nat, file: Option<Content>, clock: int, actions: seq<Action>, t: int)
    requires GlobalClock(Limiter(max), Init(file, clock), actions)
    ensures var s := Exec(Limiter(max), Init(file, clock), actions);
      && |Within(s.history, t)| <= 2 * max + Extra(file)
      && (NoUnusedWindow(file) && max > 0 ==> |Within(s.history, t)| <= 2 * max - 1)
  {
    RunFacts(max, file, clock, actions);
    HourBound(file, Exec(Limiter(max), Init(file, clock), actions).history, max, t);
  }

  /** And the exact size of every hour of such an interleaving. */
  lemma {:induction false} RateExactly(max: nat, file: Option<Content>, clock: int, actions: seq<Action>, t: int)
    returns (a: nat, m: nat, z: nat)
    requires GlobalClock(Limiter(max), Init(file, clock), actions) && Timed(file)
    requires Within(Exec(Limiter(max), Init(file, clock), actions).history, t) != {}
    ensures var history := Exec(Limiter(max), Init(file, clock), actions).history;
      && HourShape(history, t, a, m, z)
      && |Within(history, t)| == HourSize(history, a, m, z)
      && (Extra(file) == 0 ==> (|Within(history, t)| <= max <==> m == z || HourSize(history, a, m, z) <= max))
  {
    var history := Exec(Limiter(max), Init(file, clock), actions).history;
    RunFacts(max, file, clock, actions);
    a, m, z := HourSplits(file, history, max, t);
    HourCount(file, history, max, t, a, m, z);
    if Extra(file) == 0 {
      HourWithinLimit(file, history, max, t, a, m, z);
    }
  }

  // ---------------------------------------------------------------- hours filled to the bound

  lemma {:induction false} GlobalConcat(cfg: Config<Content>, s: State<Content>, a: seq<Action>, b: seq<Action>)
    requires GlobalClock(cfg, s, a) && GlobalClock(cfg, Exec(cfg, s, a), b)
    ensures GlobalClock(cfg, s, a + b)
  {
    forall k | 0 <= k < |a + b| && (a + b)[k].Transform?
      ensures (a + b)[k].now == Exec(cfg, s, (a + b)[..k]).clock
    {
      if k < |a| {
        assert (a + b)[..k] == a[..k];
      } else {
        assert (a + b)[..k] == a + b[..k - |a|];
        ExecConcat(cfg, s, a, b[..k - |a|]);
      }
    }
  }

  lemma {:induction false} NoTick(cfg: Config<Content>, s: State<Content>, actions: seq<Action>)
    requires forall i :: 0 <= i < |actions| ==> !actions[i].Tick?
    ensures Exec(cfg, s, actions).clock == s.clock
    decreases |actions|
  {
    if actions != [] {
      NoTick(cfg, s, actions[..|actions| - 1]);
    }
  }

  /** The four steps of an undisturbed run that reads the one clock. */
  function Solo(id: Id, now: int): seq<Action> {
    Opening(id, now) + [Put(id)]
  }

  lemma SoloCommits(max: nat, s: State<Content>, id: Id, v: Content)
    requires id !in s.runs && Decide(if s.file.Some? then s.file.value else Empty, s.clock, max) == Some(v)
    ensures GlobalClock(Limiter(max), s, Solo(id, s.clock))
    ensures var s' := Exec(Limiter(max), s, Solo(id, s.clock));
      && s'.file == Some(v) && s'.clock == s.clock && s'.runs.Keys == s.runs.Keys + {id}
      && s'.history == s.history + [Commit(id, s.clock, v)]
  {
    assert Limiter(max).transform(id, s.file, s.clock) == Some(v);
    RunAlone(Limiter(max), s, id, s.clock, v);
    var solo := Solo(id, s.clock);
    forall k | 0 <= k < |solo| && solo[k].Transform?
      ensures solo[k].now == Exec(Limiter(max), s, solo[..k]).clock
    {
      NoTick(Limiter(max), s, solo[..k]);
    }
  }

  lemma TickTo(max: nat, s: State<Content>, to: int)
    requires to >= s.clock
    ensures GlobalClock(Limiter(max), s, [Tick(to)])
    ensures Exec(Limiter(max), s, [Tick(to)]) == s.(clock := to)
  {
    ExecPush(Limiter(max), s, [], Tick(to));
    assert [] + [Tick(to)] == [Tick(to)];
  }

  ghost predicate RunsBelow(s: State<Content>, id: Id) {
    forall j :: j in s.runs ==> j < id
  }

  /** From s to s' by n more commits, all at the reading now. */
  ghost predicate Grows(s: State<Content>, s': State<Content>, n: nat, now: int) {
    && s'.clock == now && |s'.history| == |s.history| + n && s.history <= s'.history
    && forall i :: |s.history| <= i < |s'.history| ==> s'.history[i].now == now
  }

  /** A window that takes commits at this reading. */
  predicate Live(v: Content, now: int) {
    v.Endless? || (v.Window? && now - v.start <= 3600)
  }

  function Counted(v: Content, n: nat): Content
    requires v.Endless? || v.Window?
  {
    v.(count := v.count + n)
  }

  /** n undisturbed runs one after the other within one window. */
  lemma {:induction false} Burst(max: nat, s: State<Content>, first: Id, n: nat, v: Content)
    returns (actions: seq<Action>)
    requires s.file == Some(v) && Live(v, s.clock) && v.count + n <= max && RunsBelow(s, first)
    ensures GlobalClock(Limiter(max), s, actions)
    ensures var s' := Exec(Limiter(max), s, actions);
      && s'.file == Some(Counted(v, n)) && RunsBelow(s', first + n) && Grows(s, s', n, s.clock)
    decreases n
  {
    actions := [];
    if n > 0 {
      var front := Burst(max, s, first, n - 1, v);
      var s1, id := Exec(Limiter(max), s, front), first + n - 1;
      OneMore(max, s1, id, Counted(v, n - 1));
      Chained(Limiter(max), s, front, Solo(id, s1.clock));
      actions := front + Solo(id, s1.clock);
    }
  }

  lemma OneMore(max: nat, s: State<Content>, id: Id, v: Content)
    requires s.file == Some(v) && Live(v, s.clock) && v.count < max && RunsBelow(s, id)
    ensures GlobalClock(Limiter(max), s, Solo(id, s.clock))
    ensures var s' := Exec(Limiter(max), s, Solo(id, s.clock));
      && s'.file == Some(Counted(v, 1)) && RunsBelow(s', id + 1) && Grows(s, s', 1, s.clock)
  {
    SoloCommits(max, s, id, Counted(v, 1));
  }

  lemma {:induction false} Chained(cfg: Config<Content>, s: State<Content>, a: seq<Action>, b: seq<Action>)
    requires GlobalClock(cfg, s, a) && GlobalClock(cfg, Exec(cfg, s, a), b)
    ensures GlobalClock(cfg, s, a + b) && Exec(cfg, s, a + b) == Exec(cfg, Exec(cfg, s, a), b)
  {
    GlobalConcat(cfg, s, a, b);
    ExecConcat(cfg, s, a, b);
  }

  /** What is left of the window that started at w, read at its very end, and a whole
      new window read one second later. */
  lemma FillHour(max: nat, s: State<Content>, first: Id, count: int, w: int) returns (actions: seq<Action>)
    requires max > 0 && s.file == Some(Window(count, w)) && count <= max
    requires s.clock <= w + 3600 && RunsBelow(s, first)
    ensures GlobalClock(Limiter(max), s, actions)
    ensures var s' := Exec(Limiter(max), s, actions);
      && |s'.history| == |s.history| + (2 * max - count) && s.history <= s'.history
      && forall i :: |s.history| <= i < |s'.history| ==> w + 3600 <= s'.history[i].now <= w + 7200
  {
    var cfg, rest, end := Limiter(max), max - count, w + 3600;
    TickTo(max, s, end);
    var s1 := Exec(cfg, s, [Tick(end)]);
    var old' := Burst(max, s1, first, rest, Window(count, w));
    Chained(cfg, s, [Tick(end)], old');
    var s2 := Exec(cfg, s, [Tick(end)] + old');
    var more := FillNew(max, s2, first + rest, w);
    Chained(cfg, s, [Tick(end)] + old', more);
    actions := [Tick(end)] + old' + more;
  }

  lemma FillNew(max: nat, s: State<Content>, first: Id, w: int) returns (actions: seq<Action>)
    requires max > 0 && s.file == Some(Window(max, w)) && s.clock == w + 3600 && RunsBelow(s, first)
    ensures GlobalClock(Limiter(max), s, actions)
    ensures var s' := Exec(Limiter(max), s, actions); Grows(s, s', max, w + 3601)
  {
    var cfg, now := Limiter(max), w + 3601;
    TickTo(max, s, now);
    var s1 := s.(clock := now);
    SoloCommits(max, s1, first, Window(1, now));
    Chained(cfg, s, [Tick(now)], Solo(first, now));
    var s2 := Exec(cfg, s, [Tick(now)] + Solo(first, now));
    var rest := Burst(max, s2, first + 1, max - 1, Window(1, now));
    Chained(cfg, s, [Tick(now)] + Solo(first, now), rest);
    actions := [Tick(now)] + Solo(first, now) + rest;
  }

  lemma CountWithin(history: History, k: nat, t: int)
    requires k <= |history| && forall i :: 0 <= i < k ==> history[i].now < t
    requires forall i :: k <= i < |history| ==> t <= history[i].now <= t + 3600
    ensures |Within(history, t)| == |history| - k
  {
    assert Within(history, t) == Span(k, |history| - 1);
    SpanSize(k, |history| - 1);
  }

  /** The number of commits in the hour from t, of a run from this file and clock. */
  function InHour(max: nat, file: Option<Content>, clock: int, actions: seq<Action>, t: int): nat {
    |Within(Exec(Limiter(max), Init(file, clock), actions).history, t)|
  }

  /** A run on one clock. */
  ghost predicate OneClock(max: nat, file: Option<Content>, clock: int, actions: seq<Action>) {
    GlobalClock(Limiter(max), Init(file, clock), actions)
  }

  /** For every limit, from any window with room, used or not: a run of the protocol
      with 2 * max - count commits in one hour. */
  lemma FullHour(max: nat, count: int, w: int) returns (actions: seq<Action>)
    requires max > 0 && count <= max
    ensures OneClock(max, Some(Window(count, w)), w, actions)
    ensures InHour(max, Some(Window(count, w)), w, actions, w + 3600) == 2 * max - count
  {
    var s := Init(Some(Window(count, w)), w);
    actions := FillHour(max, s, 0, count, w);
    CountWithin(Exec(Limiter(max), s, actions).history, 0, w + 3600);
  }

  /** A file whose next reading at now opens a window. */
  predicate Opens(file: Option<Content>, now: int) {
    match file
    case None => true
    case Some(Empty) => true
    case Some(Window(_, start)) => now - start > 3600
    case Some(Uncounted(start)) => now - start > 3600
    case _ => false
  }

  /** From any file that can open a window: one that does, and then a full hour. */
  lemma FreshHour(max: nat, file: Option<Content>, now: int) returns (actions: seq<Action>)
    requires max > 0 && Opens(file, now)
    ensures OneClock(max, file, now, actions)
    ensures InHour(max, file, now, actions, now + 3600) == 2 * max - 1
  {
    var cfg, s: State<Content> := Limiter(max), Init(file, now);
    SoloCommits(max, s, 0, Window(1, now));
    var rest := FillHour(max, Exec(cfg, s, Solo(0, now)), 1, 1, now);
    Chained(cfg, s, Solo(0, now), rest);
    actions := Solo(0, now) + rest;
    CountWithin(Exec(cfg, s, actions).history, 1, now + 3600);
  }

  /** All the room of a live window, used at once. */
  lemma FullWindow(max: nat, v: Content, now: int) returns (actions: seq<Action>)
    requires Live(v, now) && v.count <= max
    ensures OneClock(max, Some(v), now, actions)
    ensures InHour(max, Some(v), now, actions, now) == max - v.count
  {
    var s := Init(Some(v), now);
    actions := Burst(max, s, 0, max - v.count, v);
    CountWithin(Exec(Limiter(max), s, actions).history, 0, now);
  }

  /** Neither bound can be lowered for any limit: 2 * max - 1 commits in one hour
      from an absent file, 2 * max from an unused window. */
  lemma HourBoundTight(max: nat) returns (absent: seq<Action>, unused: seq<Action>)
    requires max > 0
    ensures OneClock(max, None, 0, absent) && InHour(max, None, 0, absent, 3600) == 2 * max - 1
    ensures OneClock(max, Some(Window(0, 0)), 0, unused)
    ensures InHour(max, Some(Window(0, 0)), 0, unused, 3600) == 2 * max
  {
    absent := FreshHour(max, None, 0);
    unused := FullHour(max, 0, 0);
  }

  // ---------------------------------------------------------------- when an hour keeps to the limit

  /** No run from this file, on one clock that starts anywhere, ever has more than max
      commits in an hour. */
  ghost predicate KeepsHourly(max: nat, file: Option<Content>) {
    forall clock: int, actions: seq<Action>, t: int ::
      OneClock(max, file, clock, actions) ==> InHour(max, file, clock, actions, t) <= max
  }

  predicate HourIsSafe(max: nat, file: Option<Content>) {
    || file == Some(Other)
    || (file.Some? && file.value.Endless? && file.value.count >= 0)
    || (max == 0 && Extra(file) == 0)
    || (max == 1 && NoUnusedWindow(file))
  }

  lemma SafeHour(max: nat, file: Option<Content>, clock: int, actions: seq<Action>, t: int)
    requires HourIsSafe(max, file) && OneClock(max, file, clock, actions)
    ensures InHour(max, file, clock, actions, t) <= max
  {
    var history := Exec(Limiter(max), Init(file, clock), actions).history;
    RunFacts(max, file, clock, actions);
    if file == Some(Other) {
      assert history != [] ==> DecidedAt(file, history, max, 0);
      WithinAll(history, t);
    } else if !Timed(file) && file.value.count >= 0 {
      EndlessTotal(file, history, max);
      WithinAll(history, t);
    } else {
      HourBound(file, history, max, t);
    }
  }

  /** Any other limit is exceeded by some run. */
  lemma UnsafeHour(max: nat, file: Option<Content>) returns (clock: int, actions: seq<Action>, t: int)
    requires !HourIsSafe(max, file)
    ensures OneClock(max, file, clock, actions) && InHour(max, file, clock, actions, t) > max
  {
    if !Timed(file) {
      clock, t := 0, 0;
      actions := FullWindow(max, file.value, 0);
    } else if max == 0 {
      clock, t := file.value.start, file.value.start;
      actions := FullWindow(max, file.value, clock);
    } else if max == 1 {
      clock := file.value.start;
      t := clock + 3600;
      actions := FullHour(max, file.value.count, clock);
    } else {
      var started := file.Some? && (file.value.Window? || file.value.Uncounted?);
      clock := if started then file.value.start + 3601 else 0;
      t := clock + 3600;
      actions := FreshHour(max, file, clock);
    }
  }

  /** The limit holds for every hour of every run exactly for these limits and files:
      one the script rejects for good, one whose window never ends, a limit of zero, and
      a limit of one unless the file starts with an unused window. */
  lemma KeepsHourlyExactly(max: nat, file: Option<Content>)
    ensures KeepsHourly(max, file) <==> HourIsSafe(max, file)
  {
    if HourIsSafe(max, file) {
      forall clock: int, actions: seq<Action>, t: int | OneClock(max, file, clock, actions)
        ensures InHour(max, file, clock, actions, t) <= max
      {
        SafeHour(max, file, clock, actions, t);
      }
    } else {
      var clock, actions, t := UnsafeHour(max, file);
    }
  }
}
