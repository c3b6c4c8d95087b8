/** include/MutationRunner.hpp: the pipeline from a source text to an executed
    binary, over whole sequences of calls in one workspace.

    The analyzer's verdict and the hash are arbitrary functions of the source; what
    the compiler, the lease and the sandboxed child do comes with each call. Child
    processes are assumed to leave the vault's source files and the ledger alone. */
module MutationRunner {
  import opened Basics
  import opened Bytes
  import opened SecureArtifact
  import D = DelimitedLedgers

  // ---------------------------------------------------------------- enforce_timeout

  /** One answer of waitpid(WNOHANG). */
  datatype Poll = Running | Interrupted | Failed | Exited(code: int) | Signaled

  datatype Verdict = Undecided | TimedOut | Succeeded | NotSucceeded

  function Watch(polls: seq<Poll>, ticks: nat): Verdict {
    if polls == [] then Undecided
    else match polls[0]
      case Running => if ticks == 0 then TimedOut else Watch(polls[1..], ticks - 1)
      case Interrupted => Watch(polls[1..], ticks)
      case Failed => NotSucceeded
      case Exited(code) => if code == 0 then Succeeded else NotSucceeded
      case Signaled => NotSucceeded
  }

  function RunningCount(polls: seq<Poll>): nat {
    if polls == [] then 0 else (if polls[0].Running? then 1 else 0) + RunningCount(polls[1..])
  }

  ghost predicate ExitsInTime(polls: seq<Poll>, ticks: nat, k: nat) {
    && k < |polls| && polls[k] == Exited(0)
    && (forall i :: 0 <= i < k ==> polls[i].Running? || polls[i].Interrupted?)
    && RunningCount(polls[..k]) <= ticks
  }

  /** Success means exit code 0, seen before the ticks ran out; an interrupted
      wait costs no tick. */
  lemma {:induction false} SucceedsExactly(polls: seq<Poll>, ticks: nat)
    ensures Watch(polls, ticks).Succeeded? <==> exists k: nat :: ExitsInTime(polls, ticks, k)
    decreases |polls|
  {
    if polls == [] {
    } else {
      var rest := polls[1..];
      match polls[0] {
        case Running =>
          if ticks > 0 {
            SucceedsExactly(rest, ticks - 1);
          }
        case Interrupted => SucceedsExactly(rest, ticks);
        case _ =>
      }
      if k: nat :| ExitsInTime(polls, ticks, k) {
        EarlierExit(polls, ticks, k);
      }
      if Watch(polls, ticks).Succeeded? {
        if polls[0] == Exited(0) {
          assert ExitsInTime(polls, ticks, 0);
        } else {
          var k: nat :| ExitsInTime(rest, if polls[0].Running? then ticks - 1 else ticks, k);
          LaterExit(polls, ticks, k);
        }
      }
    }
  }

  ghost predicate StillRunning(polls: seq<Poll>, ticks: nat, k: nat) {
    && k < |polls| && polls[k].Running?
    && (forall i :: 0 <= i < k ==> polls[i].Running? || polls[i].Interrupted?)
    && RunningCount(polls[..k]) == ticks
  }

  /** A timeout means that the child was found running once more after as many ticks as
      it had. */
  lemma {:induction false} TimesOutExactly(polls: seq<Poll>, ticks: nat)
    ensures Watch(polls, ticks).TimedOut? <==> exists k: nat :: StillRunning(polls, ticks, k)
    decreases |polls|
  {
    if polls == [] {
    } else {
      var rest := polls[1..];
      match polls[0] {
        case Running =>
          if ticks > 0 {
            TimesOutExactly(rest, ticks - 1);
          }
        case Interrupted => TimesOutExactly(rest, ticks);
        case _ =>
      }
      if k: nat :| StillRunning(polls, ticks, k) {
        EarlierTick(polls, ticks, k);
      }
      if Watch(polls, ticks).TimedOut? {
        if polls[0].Running? && ticks == 0 {
          assert StillRunning(polls, ticks, 0);
        } else {
          var k: nat :| StillRunning(rest, if polls[0].Running? then ticks - 1 else ticks, k);
          LaterTick(polls, ticks, k);
        }
      }
    }
  }

  lemma EarlierTick(polls: seq<Poll>, ticks: nat, k: nat)
    requires StillRunning(polls, ticks, k)
    ensures (polls[0].Running? && ticks == 0)
         || (polls[0].Running? && ticks > 0 && StillRunning(polls[1..], ticks - 1, k - 1))
         || (polls[0].Interrupted? && StillRunning(polls[1..], ticks, k - 1))
  {
    if k > 0 {
      assert polls[..k][1..] == polls[1..][..k - 1];
      assert forall i :: 0 <= i < k - 1 ==> polls[1..][i] == polls[i + 1];
    }
  }

  lemma LaterTick(polls: seq<Poll>, ticks: nat, k: nat)
    requires polls != [] && (polls[0].Running? || polls[0].Interrupted?) && (polls[0].Running? ==> ticks > 0)
    requires StillRunning(polls[1..], if polls[0].Running? then ticks - 1 else ticks, k)
    ensures StillRunning(polls, ticks, k + 1)
  {
    assert polls[..k + 1][1..] == polls[1..][..k];
    forall i | 0 <= i < k + 1
      ensures polls[i].Running? || polls[i].Interrupted?
    {
      if i > 0 {
        assert polls[i] == polls[1..][i - 1];
      }
    }
  }

  lemma EarlierExit(polls: seq<Poll>, ticks: nat, k: nat)
    requires ExitsInTime(polls, ticks, k)
    ensures polls[0] == Exited(0)
         || (polls[0].Running? && ticks > 0 && ExitsInTime(polls[1..], ticks - 1, k - 1))
         || (polls[0].Interrupted? && ExitsInTime(polls[1..], ticks, k - 1))
  {
    if k > 0 {
      assert polls[..k][1..] == polls[1..][..k - 1];
      assert forall i :: 0 <= i < k - 1 ==> polls[1..][i] == polls[i + 1];
    }
  }

  lemma LaterExit(polls: seq<Poll>, ticks: nat, k: nat)
    requires polls != [] && (polls[0].Running? || polls[0].Interrupted?) && (polls[0].Running? ==> ticks > 0)
    requires ExitsInTime(polls[1..], if polls[0].Running? then ticks - 1 else ticks, k)
    ensures ExitsInTime(polls, ticks, k + 1)
  {
    assert polls[..k + 1][1..] == polls[1..][..k];
    forall i | 0 <= i < k + 1
      ensures polls[i].Running? || polls[i].Interrupted?
    {
      if i > 0 {
        assert polls[i] == polls[1..][i - 1];
      }
    }
  }

  const SLEEP_INTERVAL_MS: nat := 100

  /** The polling loop; the process group is killed exactly on a timeout. */
  method EnforceTimeout(polls: seq<Poll>, maxTimeoutMs: nat) returns (ok: bool, killed: bool)
    requires !Watch(polls, maxTimeoutMs / SLEEP_INTERVAL_MS).Undecided?
    ensures ok <==> Watch(polls, maxTimeoutMs / SLEEP_INTERVAL_MS).Succeeded?
    ensures killed <==> Watch(polls, maxTimeoutMs / SLEEP_INTERVAL_MS).TimedOut?
  {
    var maxTicks := maxTimeoutMs / SLEEP_INTERVAL_MS;
    var timeoutCounter := 0;
    var i := 0;
    killed := false;
    assert polls[0..] == polls;
    var again := true;
    while again
      invariant again ==> i <= |polls| && timeoutCounter <= maxTicks
      invariant again ==> Watch(polls[i..], maxTicks - timeoutCounter) == Watch(polls, maxTicks)
      invariant !again ==> 0 < i <= |polls| && !polls[i - 1].Running? && !polls[i - 1].Interrupted?
      invariant !again ==> (Watch(polls, maxTicks).Succeeded? <==> polls[i - 1] == Exited(0))
      invariant !again ==> !Watch(polls, maxTicks).TimedOut?
      decreases again, |polls| - i
    {
      var answer := polls[i];
      assert polls[i..][1..] == polls[i + 1..];
      i := i + 1;
      if answer.Running? {
        timeoutCounter := timeoutCounter + 1;
        if timeoutCounter > maxTicks {
          return false, true;
        }
      }
      again := answer.Running? || answer.Interrupted?;
    }
    ok := polls[i - 1] == Exited(0);
  }

  // ---------------------------------------------------------------- one call

  const COMPILE_TIMEOUT_MS: nat := 60000
  const RUN_TIMEOUT_MS: nat := 3000

  /** What the world does during one call; the polls are the answers of waitpid
      for the compiler and for the binary, `output` what the compiler leaves behind
      as the binary, whole or not, if it gets that far. */
  datatype Env = Env(publish: Faults, check: D.Access, ban: D.Access,
                     compileForks: bool, compile: seq<Poll>, output: Option<Bytes>, runForks: bool, run: seq<Poll>)

  predicate Compiles(env: Env) {
    Watch(env.compile, COMPILE_TIMEOUT_MS / SLEEP_INTERVAL_MS).Succeeded?
  }

  predicate Runs(env: Env) {
    Watch(env.run, RUN_TIMEOUT_MS / SLEEP_INTERVAL_MS).Succeeded?
  }

  /** Both children end or run out of time. */
  predicate Decided(env: Env) {
    && !Watch(env.compile, COMPILE_TIMEOUT_MS / SLEEP_INTERVAL_MS).Undecided?
    && !Watch(env.run, RUN_TIMEOUT_MS / SLEEP_INTERVAL_MS).Undecided?
  }

  datatype Call = Call(source: Bytes, id: Bytes, env: Env)

  datatype World = World(vault: map<Bytes, Bytes>, ledger: Option<Bytes>)

  /** `compiled`: a compiler was forked; `banned`: the exit code a ban was recorded with. */
  datatype Result = Result(world: World, ok: bool, compiled: bool, banned: Option<int>)

  datatype Setting = Setting(hash: Bytes -> nat, safe: Bytes -> bool)

  function SourceName(id: Bytes): Bytes {
    "mut_" + id + ".cpp"
  }

  function BinaryName(id: Bytes): Bytes {
    "bin_" + id
  }

  function Ban(w: World, st: Setting, c: Call, code: int): World {
    w.(ledger := D.AfterBan(w.ledger, D.Ban(st.hash(c.source), code), c.env.ban))
  }

  function Removed(w: World, name: Bytes): World {
    w.(vault := w.vault - {name})
  }

  /** evaluate_and_execute. */
  ghost function Step(st: Setting, w: World, c: Call): Result {
    if !st.safe(c.source) then Result(Ban(w, st, c, 254), false, false, Some(254))
    else
      var o := Published(w.vault, SourceName(c.id), c.source, c.env.publish);
      var w1 := w.(vault := o.files);
      if !o.ok then Result(w1, false, false, None)
      else if D.BannedAnswer(w.ledger, st.hash(c.source), c.env.check)
      then Result(Removed(w1, SourceName(c.id)), false, false, None)
      else if !c.env.compileForks then Result(w1, false, false, None)
      else
        var w2 := Compiled(w1, c);
        if !Compiles(c.env) then Result(Removed(Ban(w2, st, c, 255), SourceName(c.id)), false, true, Some(255))
        else Executed(st, Removed(w2, BinaryName(c.id)), c)
  }

  /** The binary has run, or could not; either way it is gone. */
  function Executed(st: Setting, w: World, c: Call): Result {
    if !c.env.runForks then Result(Removed(w, SourceName(c.id)), false, true, None)
    else if !Runs(c.env) then Result(Removed(Ban(w, st, c, 1), SourceName(c.id)), false, true, Some(1))
    else Result(w, true, true, None)
  }

  function Compiled(w: World, c: Call): World {
    if c.env.output.None? then w else w.(vault := w.vault[BinaryName(c.id) := c.env.output.value])
  }

  /** A call returns true exactly when the source is safe, could be published, is
      not answered as banned, and compiler and binary were both seen to exit with
      0 before their ticks ran out. */
  lemma SuccessExactly(st: Setting, w: World, c: Call)
    ensures Step(st, w, c).ok <==>
      && st.safe(c.source)
      && Published(w.vault, SourceName(c.id), c.source, c.env.publish).ok
      && !D.BannedAnswer(w.ledger, st.hash(c.source), c.env.check)
      && c.env.compileForks && (exists k: nat :: ExitsInTime(c.env.compile, 600, k))
      && c.env.runForks && (exists k: nat :: ExitsInTime(c.env.run, 30, k))
  {
    SucceedsExactly(c.env.compile, 600);
    SucceedsExactly(c.env.run, 30);
  }

  /** The call gets as far as forking the compiler. */
  ghost predicate Reaches(st: Setting, w: World, c: Call) {
    && st.safe(c.source)
    && Published(w.vault, "mut_" + c.id + ".cpp", c.source, c.env.publish).ok
    && !D.BannedAnswer(w.ledger, st.hash(c.source), c.env.check)
    && c.env.compileForks
  }

  ghost predicate CompilesInTime(c: Call) {
    exists k: nat :: ExitsInTime(c.env.compile, 600, k)
  }

  ghost predicate RunsInTime(c: Call) {
    exists k: nat :: ExitsInTime(c.env.run, 30, k)
  }

  /** Which calls ban, and with which code: an unsafe source with 254, a compiler that
      is not seen to exit with 0 in time with 255, a binary that is not with 1. No
      other call touches the ledger. */
  lemma BansExactly(st: Setting, w: World, c: Call)
    ensures var r := Step(st, w, c);
      && (r.banned == Some(254) <==> !st.safe(c.source))
      && (r.banned == Some(255) <==> Reaches(st, w, c) && !CompilesInTime(c))
      && (r.banned == Some(1) <==> Reaches(st, w, c) && CompilesInTime(c) && c.env.runForks && !RunsInTime(c))
      && (r.banned.Some? ==> r.banned.value == 254 || r.banned.value == 255 || r.banned.value == 1)
      && (r.compiled <==> Reaches(st, w, c))
    ensures var r := Step(st, w, c);
      r.world.ledger == match r.banned
        case None => w.ledger
        case Some(code) => D.AfterBan(w.ledger, D.Ban(st.hash(c.source), code), c.env.ban)
  {
    SucceedsExactly(c.env.compile, 600);
    SucceedsExactly(c.env.run, 30);
  }

  /** What each call leaves in the vault: its source after a success and when the
      compiler could not be forked, its binary only when a compiler that failed left
      one. */
  lemma VaultExactly(st: Setting, w: World, c: Call)
    ensures var src, bin, v, v' := "mut_" + c.id + ".cpp", "bin_" + c.id, w.vault, Step(st, w, c).world.vault;
      && (!st.safe(c.source) ==> v' == v)
      && (st.safe(c.source) && !Published(v, src, c.source, c.env.publish).ok ==>
            v' == Published(v, src, c.source, c.env.publish).files)
      && (st.safe(c.source) && Published(v, src, c.source, c.env.publish).ok && !Reaches(st, w, c) ==>
            v' == if D.BannedAnswer(w.ledger, st.hash(c.source), c.env.check) then v else v[src := c.source])
      && (Reaches(st, w, c) && !CompilesInTime(c) ==>
            v' == if c.env.output.Some? then v[bin := c.env.output.value] else v)
      && (Reaches(st, w, c) && CompilesInTime(c) ==>
            v' == if c.env.runForks && RunsInTime(c) then v[src := c.source] - {bin} else v - {bin})
  {
    SucceedsExactly(c.env.compile, 600);
    SucceedsExactly(c.env.run, 30);
    NeverOverwrites(w.vault, SourceName(c.id), c.source, c.env.publish);
    NamesDiffer(c.id, c.id);
    if Step(st, w, c).ok || Reaches(st, w, c) {
      PublishThenRemove(w.vault, SourceName(c.id), BinaryName(c.id), c.source, c.env.output);
    }
  }

  lemma PublishThenRemove(v: map<Bytes, Bytes>, src: Bytes, bin: Bytes, content: Bytes, output: Option<Bytes>)
    requires src !in v && src != bin
    ensures v[src := content] - {src} == v
    ensures var v2 := if output.Some? then v[src := content][bin := output.value] else v[src := content];
      && v2 - {src} == (if output.Some? then v[bin := output.value] else v)
      && v2 - {bin} == v[src := content] - {bin}
      && v2 - {bin} - {src} == v - {bin}
  {
  }

  ghost function After(st: Setting, w: World, calls: seq<Call>): World {
    if calls == [] then w else Step(st, After(st, w, calls[..|calls| - 1]), calls[|calls| - 1]).world
  }

  lemma NamesDiffer(id: Bytes, id': Bytes)
    ensures SourceName(id) != BinaryName(id')
  {
    assert SourceName(id)[0] == 'm' && BinaryName(id')[0] == 'b';
  }

  // ---------------------------------------------------------------- sources in the vault

  /** A source file in the vault before a call is there after it, unchanged: only
      the file published by the call itself is ever removed. */
  lemma SourcesKept(st: Setting, w: World, c: Call, id: Bytes)
    requires SourceName(id) in w.vault
    ensures var w' := Step(st, w, c).world;
      SourceName(id) in w'.vault && w'.vault[SourceName(id)] == w.vault[SourceName(id)]
  {
    NeverOverwrites(w.vault, SourceName(c.id), c.source, c.env.publish);
    NamesDiffer(id, c.id);
  }

  lemma SuccessPublishes(st: Setting, w: World, c: Call)
    requires Step(st, w, c).ok
    ensures SourceName(c.id) !in w.vault
    ensures var w' := Step(st, w, c).world;
      SourceName(c.id) in w'.vault && w'.vault[SourceName(c.id)] == c.source
  {
    NeverOverwrites(w.vault, SourceName(c.id), c.source, c.env.publish);
    NamesDiffer(c.id, c.id);
  }

  lemma AfterPush(st: Setting, w: World, calls: seq<Call>, c: Call)
    ensures After(st, w, calls + [c]) == Step(st, After(st, w, calls), c).world
  {
    assert (calls + [c])[..|calls|] == calls;
  }

  lemma {:induction false} SourceStays(st: Setting, w: World, calls: seq<Call>, id: Bytes)
    requires SourceName(id) in w.vault
    ensures var w' := After(st, w, calls);
      SourceName(id) in w'.vault && w'.vault[SourceName(id)] == w.vault[SourceName(id)]
    decreases |calls|
  {
    if calls == [] {
    } else {
      SourceStays(st, w, calls[..|calls| - 1], id);
      SourcesKept(st, After(st, w, calls[..|calls| - 1]), calls[|calls| - 1], id);
    }
  }

  lemma {:induction false} AfterConcat(st: Setting, w: World, a: seq<Call>, b: seq<Call>)
    ensures After(st, w, a + b) == After(st, After(st, w, a), b)
    decreases |b|
  {
    if b == [] {
      assert a + b == a;
    } else {
      var front, c := b[..|b| - 1], b[|b| - 1];
      AfterConcat(st, w, a, front);
      SplitLast(b);
      Associate(a, front, [c]);
      AfterPush(st, w, a + front, c);
    }
  }

  /** After a call returned true, its source stays in the vault under its id, and
      no later call with that id returns true or reaches a compiler. */
  lemma EachIdSucceedsOnce(st: Setting, w: World, earlier: seq<Call>, c: Call, between: seq<Call>, d: Call)
    requires Step(st, After(st, w, earlier), c).ok
    ensures var w' := After(st, w, earlier + [c] + between);
      && SourceName(c.id) in w'.vault && w'.vault[SourceName(c.id)] == c.source
      && (d.id == c.id ==> !Step(st, w', d).ok && !Step(st, w', d).compiled)
  {
    var w0 := After(st, w, earlier);
    SuccessPublishes(st, w0, c);
    AfterPush(st, w, earlier, c);
    AfterConcat(st, w, earlier + [c], between);
    SourceStays(st, After(st, w, earlier + [c]), between, c.id);
    var w' := After(st, w, earlier + [c] + between);
    NeverOverwrites(w'.vault, SourceName(d.id), d.source, d.env.publish);
  }

  // ---------------------------------------------------------------- bans

  ghost predicate BannedIn(w: World, hash: nat) {
    w.ledger.Some? && D.Banned(w.ledger.value, hash)
  }

  /** The ledger can be opened, locked and written past the separator ... */
  ghost predicate Writable(st: Setting, c: Call) {
    && c.env.ban.canOpen && c.env.ban.canLock
    && c.env.ban.count >= |Dec(st.hash(c.source))| + |D.BAN_SEPARATOR|
  }

  /** ... and read to its end. */
  ghost predicate Readable(w: World, c: Call) {
    c.env.check.canOpen && c.env.check.canLock && (w.ledger.Some? ==> c.env.check.count >= |w.ledger.value|)
  }

  lemma BanGrows(ledger: Option<Bytes>, b: D.Ban, a: D.Access, hash: nat)
    requires ledger.Some? && D.Banned(ledger.value, hash)
    ensures D.AfterBan(ledger, b, a).Some? && D.Banned(D.AfterBan(ledger, b, a).value, hash)
  {
    if a.canOpen {
      var tail := if a.canLock then Written(D.Entry(D.BanItem(b), D.BAN_SEPARATOR), a.count) else [];
      OccursInConcat([], ledger.value, tail, Dec(hash) + D.BAN_SEPARATOR);
      assert [] + ledger.value + tail == ledger.value + tail;
    }
  }

  /** No call unbans anything. */
  lemma BansKept(st: Setting, w: World, c: Call, hash: nat)
    requires BannedIn(w, hash)
    ensures BannedIn(Step(st, w, c).world, hash)
  {
    BanGrows(w.ledger, D.Ban(st.hash(c.source), 254), c.env.ban, hash);
    BanGrows(w.ledger, D.Ban(st.hash(c.source), 255), c.env.ban, hash);
    BanGrows(w.ledger, D.Ban(st.hash(c.source), 1), c.env.ban, hash);
  }

  lemma BanRecorded(ledger: Option<Bytes>, b: D.Ban, a: D.Access)
    requires a.canOpen && a.canLock && a.count >= |Dec(b.hash)| + |D.BAN_SEPARATOR|
    ensures D.AfterBan(ledger, b, a).Some? && D.Banned(D.AfterBan(ledger, b, a).value, b.hash)
  {
    D.BanPersists(D.Content(ledger), b, a.count, []);
    var all := D.Content(ledger) + Written(D.Entry(D.BanItem(b), D.BAN_SEPARATOR), a.count);
    assert all + [] == all;
  }

  lemma CallBans(st: Setting, w: World, c: Call)
    requires Step(st, w, c).banned.Some? && Writable(st, c)
    ensures BannedIn(Step(st, w, c).world, st.hash(c.source))
  {
    BanRecorded(w.ledger, D.Ban(st.hash(c.source), Step(st, w, c).banned.value), c.env.ban);
  }

  lemma {:induction false} BanStays(st: Setting, w: World, calls: seq<Call>, hash: nat)
    requires BannedIn(w, hash)
    ensures BannedIn(After(st, w, calls), hash)
    decreases |calls|
  {
    if calls == [] {
    } else {
      BanStays(st, w, calls[..|calls| - 1], hash);
      BansKept(st, After(st, w, calls[..|calls| - 1]), calls[|calls| - 1], hash);
    }
  }

  /** No compiler is forked for a source, under whatever id, once a ban of it was
      recorded: the later call finds the ban behind any bans that followed. */
  lemma NoCompileAfterBan(st: Setting, w: World, earlier: seq<Call>, c: Call, between: seq<Call>, d: Call)
    requires Step(st, After(st, w, earlier), c).banned.Some? && Writable(st, c)
    requires d.source == c.source
    requires Readable(After(st, w, earlier + [c] + between), d)
    ensures var r := Step(st, After(st, w, earlier + [c] + between), d);
      !r.compiled && !r.ok
  {
    CallBans(st, After(st, w, earlier), c);
    AfterPush(st, w, earlier, c);
    AfterConcat(st, w, earlier + [c], between);
    BanStays(st, After(st, w, earlier + [c]), between, st.hash(c.source));
    var w' := After(st, w, earlier + [c] + between);
    WholeSlice(w'.ledger.value);
  }

  /** The ways a source fails for good. */
  ghost predicate Fails(st: Setting, w: World, c: Call) {
    || !st.safe(c.source)
    || (Reaches(st, w, c) && !CompilesInTime(c))
    || (Reaches(st, w, c) && CompilesInTime(c) && c.env.runForks && !RunsInTime(c))
  }

  /** So no source that was rejected, did not compile or did not run to its end is ever
      compiled again, under whatever id. */
  lemma FailedNeverRetried(st: Setting, w: World, earlier: seq<Call>, c: Call, between: seq<Call>, d: Call)
    requires Fails(st, After(st, w, earlier), c) && Writable(st, c)
    requires d.source == c.source
    requires Readable(After(st, w, earlier + [c] + between), d)
    ensures var r := Step(st, After(st, w, earlier + [c] + between), d);
      !r.compiled && !r.ok
  {
    BansExactly(st, After(st, w, earlier), c);
    NoCompileAfterBan(st, w, earlier, c, between, d);
  }

  // ---------------------------------------------------------------- the class

  class Runner {
    const safe: Bytes -> bool
    const registry: D.QuarantineRegistry
    const vault: Directory

    constructor (safe: Bytes -> bool, registry: D.QuarantineRegistry, vault: Directory)
      ensures this.safe == safe && this.registry == registry && this.vault == vault
    {
      this.safe, this.registry, this.vault := safe, registry, vault;
    }

    ghost function View(): World
      reads registry, vault
    {
      World(vault.files, registry.ledger)
    }

    ghost function Rules(): Setting {
      Setting(registry.hashCode, safe)
    }

    method Remove(name: Bytes)
      modifies vault
      ensures vault.files == old(vault.files) - {name}
    {
      vault.files := vault.files - {name};
    }

    method EvaluateAndExecute(source: Bytes, id: Bytes, env: Env) returns (ok: bool)
      requires Decided(env)
      modifies registry, vault
      ensures View() == Step(Rules(), old(View()), Call(source, id, env)).world
      ensures ok == Step(Rules(), old(View()), Call(source, id, env)).ok
    {
      if !safe(source) {
        registry.BanMutation(source, 254, env.ban);
        return false;
      }
      ok := vault.WriteSecurely(SourceName(id), source, env.publish);
      if !ok {
        return;
      }
      var banned := registry.IsBanned(source, env.check);
      if banned {
        Remove(SourceName(id));
        return false;
      }
      if !env.compileForks {
        return false;
      }
      if env.output.Some? {
        vault.files := vault.files[BinaryName(id) := env.output.value];
      }
      var killed;
      ok, killed := EnforceTimeout(env.compile, COMPILE_TIMEOUT_MS);
      if !ok {
        registry.BanMutation(source, 255, env.ban);
        Remove(SourceName(id));
        return;
      }
      ok := RunBinary(source, env);
      Remove(BinaryName(id));
      if !ok {
        Remove(SourceName(id));
      }
    }

    /** The part under the lease; a failed lease or fork is swallowed. */
    method RunBinary(source: Bytes, env: Env) returns (executed: bool)
      requires Decided(env)
      modifies registry
      ensures executed <==> env.runForks && Runs(env)
      ensures registry.ledger == if env.runForks && !Runs(env)
                                 then D.AfterBan(old(registry.ledger), D.Ban(registry.hashCode(source), 1), env.ban)
                                 else old(registry.ledger)
    {
      executed := false;
      if env.runForks {
        var killed;
        executed, killed := EnforceTimeout(env.run, RUN_TIMEOUT_MS);
        if !executed {
          registry.BanMutation(source, 1, env.ban);
        }
      }
    }
  }
}
