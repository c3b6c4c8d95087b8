/** Whole runs of the quarantine log: the text refines a set of hash strings under
    any appends and sync cycles, and repeated cycles over fixed peer files reach
    the full union in a bounded number of cycles. */
module SyncConvergence {
  import opened Basics
  import opened Bytes
  import opened QuarantineLog
  import opened NodeRegistry

  // ---------------------------------------------------------------- the log as a set

  datatype Op =
    | Append(hash: nat, signal: int, time: int, origin: Bytes, tempOpens: bool, renames: bool)
    | Sync(files: seq<PeerFile>, policy: Policy)

  ghost predicate Plain(op: Op) {
    match op
    case Append(_, _, _, origin, _, _) => NEWLINE !in origin
    case Sync(files, _) => PlainNames(files) && AllThrough(files)
  }

  function Apply(log: Bytes, op: Op): Bytes {
    match op
    case Append(hash, signal, time, origin, tempOpens, renames) =>
      if tempOpens && renames then Appended(log, hash, signal, time, origin) else log
    case Sync(files, policy) => CycleRun(files, log, policy).text
  }

  function RunLog(log: Bytes, ops: seq<Op>): Bytes {
    if ops == [] then log else Apply(RunLog(log, ops[..|ops| - 1]), ops[|ops| - 1])
  }

  /** The same operation on a set of strings; a cycle adds what the greedy reader
      takes, which depends on the set only. */
  function ApplySet(known: set<Bytes>, op: Op): set<Bytes> {
    match op
    case Append(hash, _, _, _, tempOpens, renames) =>
      if tempOpens && renames then known + {Dec(hash)} else known
    case Sync(files, policy) => known + Elems(CycleImports(files, known, policy))
  }

  function RunSet(known: set<Bytes>, ops: seq<Op>): set<Bytes> {
    if ops == [] then known else ApplySet(RunSet(known, ops[..|ops| - 1]), ops[|ops| - 1])
  }

  lemma ApplyRefines(log: Bytes, op: Op)
    requires LineEnded(log) && Plain(op)
    ensures LineEnded(Apply(log, op))
    ensures Elems(LogColumns(Apply(log, op))) == ApplySet(Elems(LogColumns(log)), op)
  {
    match op {
      case Append(hash, signal, time, origin, _, _) =>
        AppendedColumns(log, hash, signal, time, origin);
        SpillFree(origin);
        assert [Dec(hash)] + LogColumns([]) == [Dec(hash)];
        ElemsPush(LogColumns(log), Dec(hash));
      case Sync(files, policy) =>
        CycleRunExactly(files, log, policy);
        CycleColumns(files, log, policy);
        ElemsConcat(LogColumns(log), CycleImports(files, Elems(LogColumns(log)), policy));
    }
  }

  /** The line scan of is_quarantined is membership in that set, after any run
      from an absent, empty or closed log. */
  lemma {:induction false} LogRefinesSet(log: Bytes, ops: seq<Op>)
    requires LineEnded(log)
    requires forall i :: 0 <= i < |ops| ==> Plain(ops[i])
    ensures LineEnded(RunLog(log, ops))
    ensures Elems(LogColumns(RunLog(log, ops))) == RunSet(Elems(LogColumns(log)), ops)
    ensures forall q: nat :: Quarantined(RunLog(log, ops), q) <==> Dec(q) in RunSet(Elems(LogColumns(log)), ops)
    decreases |ops|
  {
    if ops == [] {
    } else {
      LogRefinesSet(log, ops[..|ops| - 1]);
      ApplyRefines(RunLog(log, ops[..|ops| - 1]), ops[|ops| - 1]);
    }
    forall q: nat
      ensures Quarantined(RunLog(log, ops), q) <==> Dec(q) in RunSet(Elems(LogColumns(log)), ops)
    {
      assert Dec(q) in LogColumns(RunLog(log, ops)) <==> Dec(q) in Elems(LogColumns(RunLog(log, ops)));
    }
  }

  /** This operation, from this log, quarantines q. */
  ghost predicate Brings(op: Op, log: Bytes, q: nat) {
    match op
    case Append(hash, _, _, _, tempOpens, renames) => hash == q && tempOpens && renames
    case Sync(files, policy) => Dec(q) in CycleImports(files, Known(log), policy)
  }

  ghost predicate SomeBrings(log: Bytes, ops: seq<Op>, q: nat) {
    exists i :: 0 <= i < |ops| && Brings(ops[i], RunLog(log, ops[..i]), q)
  }

  lemma SomeBringsPush(log: Bytes, ops: seq<Op>, op: Op, q: nat)
    ensures SomeBrings(log, ops + [op], q) <==> SomeBrings(log, ops, q) || Brings(op, RunLog(log, ops), q)
  {
    var longer := ops + [op];
    assert longer[|ops|] == op && longer[..|ops|] == ops;
    forall i | 0 <= i < |ops|
      ensures longer[i] == ops[i] && longer[..i] == ops[..i]
    {
    }
    if i :| 0 <= i < |ops| && Brings(ops[i], RunLog(log, ops[..i]), q) {
      assert Brings(longer[i], RunLog(log, longer[..i]), q);
    }
    if Brings(op, RunLog(log, ops), q) {
      assert Brings(longer[|ops|], RunLog(log, longer[..|ops|]), q);
    }
  }

  lemma ApplyBrings(log: Bytes, op: Op, q: nat)
    requires LineEnded(log) && Plain(op)
    ensures Quarantined(Apply(log, op), q) <==> Quarantined(log, q) || Brings(op, log, q)
  {
    match op {
      case Append(hash, signal, time, origin, tempOpens, renames) =>
        AppendedQuarantines(log, hash, signal, time, origin, q);
      case Sync(files, policy) =>
        CycleRunExactly(files, log, policy);
        CycleColumns(files, log, policy);
    }
  }

  /** In events: after any run a hash is quarantined exactly when it was at the start, or
      an append of it got through, or a cycle imported its decimal. */
  lemma {:induction false} QuarantinedByEvents(log: Bytes, ops: seq<Op>, q: nat)
    requires LineEnded(log)
    requires forall i :: 0 <= i < |ops| ==> Plain(ops[i])
    ensures Quarantined(RunLog(log, ops), q) <==> Quarantined(log, q) || SomeBrings(log, ops, q)
    decreases |ops|
  {
    if ops == [] {
    } else {
      var front, op := ops[..|ops| - 1], ops[|ops| - 1];
      QuarantinedByEvents(log, front, q);
      LogRefinesSet(log, front);
      ApplyBrings(RunLog(log, front), op, q);
      SplitLast(ops);
      SomeBringsPush(log, front, op, q);
    }
  }

  lemma {:induction false} CycleExtends(files: seq<PeerFile>, log: Bytes, policy: Policy)
    ensures log <= CycleRun(files, log, policy).text
    decreases |files|
  {
    if files == [] {
    } else {
      CycleExtends(files[..|files| - 1], log, policy);
    }
  }

  /** One operation, from any log, with any label and with writes cut anywhere. */
  lemma ApplyKeeps(log: Bytes, op: Op, q: nat)
    requires Quarantined(log, q)
    ensures Quarantined(Apply(log, op), q)
  {
    match op {
      case Append(hash, signal, time, origin, _, _) => AppendedKeeps(log, hash, signal, time, origin, q);
      case Sync(files, policy) =>
        CycleExtends(files, log, policy);
        ExtensionKeeps(log, CycleRun(files, log, policy).text, q);
    }
  }

  lemma AppendedKeeps(log: Bytes, hash: nat, signal: int, time: int, origin: Bytes, q: nat)
    requires Quarantined(log, q)
    ensures Quarantined(Appended(log, hash, signal, time, origin), q)
  {
    HeadedColumns(log);
    ColumnsGrow(Headed(log), Row(Dec(hash), signal, time, origin), Dec(q));
  }

  lemma ExtensionKeeps(log: Bytes, text: Bytes, q: nat)
    requires Quarantined(log, q) && log <= text
    ensures Quarantined(text, q)
  {
    ColumnsGrow(log, text[|log|..], Dec(q));
    assert text == log + text[|log|..];
  }

  lemma RunLogPush(log: Bytes, ops: seq<Op>, op: Op)
    ensures RunLog(log, ops + [op]) == Apply(RunLog(log, ops), op)
  {
    assert (ops + [op])[..|ops|] == ops;
  }

  /** Nothing recorded is ever forgotten, whatever the log, the labels and the fate of
      the rows. */
  lemma {:induction false} NeverForgotten(log: Bytes, ops: seq<Op>, more: seq<Op>, q: nat)
    requires Quarantined(RunLog(log, ops), q)
    ensures Quarantined(RunLog(log, ops + more), q)
    decreases |more|
  {
    if more == [] {
      assert ops + more == ops;
    } else {
      var front, op := more[..|more| - 1], more[|more| - 1];
      NeverForgotten(log, ops, front, q);
      ApplyKeeps(RunLog(log, ops + front), op, q);
      SplitLast(more);
      Associate(ops, front, [op]);
      RunLogPush(log, ops + front, op);
    }
  }

  // ---------------------------------------------------------------- one cycle

  ghost predicate InPool(files: seq<PeerFile>, h: Bytes) {
    exists i :: 0 <= i < |files| && Offered(PeerLines(files[i]), h)
  }

  /** What the files of a directory offer, by their names and texts: the decimals of 1
      to 20 digits that stand before a comma in a line of a readable file peer_*.csv
      for which the log opens. */
  lemma PoolExactly(files: seq<PeerFile>, h: Bytes)
    ensures InPool(files, h) <==>
      exists i, stem: Bytes, rest: Bytes :: OffersByName(files, h, i, stem, rest)
  {
    if i :| 0 <= i < |files| && Offered(PeerLines(files[i]), h) {
      var j :| 0 <= j < |PeerLines(files[i])| && Offers(PeerLines(files[i])[j], h);
      OffersExactly(PeerLines(files[i])[j], h);
      PeerNameExactly(files[i].name);
      var stem: Bytes :| stem != [] && files[i].name == "peer_" + stem + ".csv";
      var rest: Bytes :| PeerLines(files[i])[j] == h + "," + rest;
      assert OffersByName(files, h, i, stem, rest);
    }
    if i, stem: Bytes, rest: Bytes :| OffersByName(files, h, i, stem, rest) {
      PeerNameExactly(files[i].name);
      OfferedLine(PeerLines(files[i]), h, rest);
    }
  }

  ghost predicate OffersByName(files: seq<PeerFile>, h: Bytes, i: int, stem: Bytes, rest: Bytes) {
    && 0 <= i < |files| && stem != [] && files[i].name == "peer_" + stem + ".csv"
    && files[i].content.Some? && files[i].out.Opens?
    && h + "," + rest in Lines(files[i].content.value)
    && 1 <= |h| <= 20 && forall k :: 0 <= k < |h| ==> '0' <= h[k] <= '9'
  }

  ghost predicate NoneOversized(files: seq<PeerFile>, policy: Policy) {
    forall i :: 0 <= i < |files| ==> |PeerLines(files[i])| <= policy.perFile
  }

  ghost predicate Absorbed(files: seq<PeerFile>, known: set<Bytes>) {
    forall h :: InPool(files, h) ==> h in known
  }

  lemma InPoolPush(files: seq<PeerFile>, f: PeerFile, h: Bytes)
    ensures InPool(files + [f], h) <==> InPool(files, h) || Offered(PeerLines(f), h)
  {
    if i :| 0 <= i < |files| && Offered(PeerLines(files[i]), h) {
      assert (files + [f])[i] == files[i];
    }
    assert (files + [f])[|files|] == f;
  }

  lemma DistinctConcat(s: seq<Bytes>, t: seq<Bytes>)
    requires Distinct(s) && Distinct(t) && forall x :: x in t ==> x !in s
    ensures Distinct(s + t)
  {
    forall i, j | 0 <= i < |s| && 0 <= j < |t|
      ensures s[i] != t[j]
    {
      assert t[j] in t;
    }
  }

  /** All of a cycle's imports are new, distinct and offered by some file, and
      the session limit is kept. */
  lemma {:induction false} CycleSound(files: seq<PeerFile>, existing: set<Bytes>, policy: Policy)
    ensures var got := CycleImports(files, existing, policy);
      && Distinct(got)
      && (forall h :: h in got ==> InPool(files, h) && h !in existing)
      && |got| <= policy.perSession
    decreases |files|
  {
    if files == [] {
    } else {
      var front, f := files[..|files| - 1], files[|files| - 1];
      CycleSound(front, existing, policy);
      var got := CycleImports(front, existing, policy);
      var more := Imports(PeerLines(f), existing + Elems(got), |got|, policy);
      ImportsExactly(PeerLines(f), existing + Elems(got), |got|, policy);
      forall x | x in more
        ensures x !in got
      {
        assert x !in existing + Elems(got);
      }
      DistinctConcat(got, more);
      SplitLast(files);
      forall h | h in got + more
        ensures InPool(files, h) && h !in existing
      {
        InPoolPush(front, f, h);
      }
    }
  }

  /** A file that is not imported to the end has used up a budget. */
  lemma ImportsAbsorbOrSpend(lines: seq<Bytes>, existing: set<Bytes>, session: nat, policy: Policy, h: Bytes)
    requires |lines| <= policy.perFile && session <= policy.perSession
    ensures var got := Imports(lines, existing, session, policy);
      || (Offered(lines, h) ==> h in existing + Elems(got))
      || |got| == policy.perPeer
      || session + |got| == policy.perSession
  {
    var novel, got := Fresh(lines, existing), Imports(lines, existing, session, policy);
    FreshExactly(lines, existing, h);
    if session < policy.perSession && |got| == |novel| {
      assert got == novel;
    }
  }

  /** After a cycle either every offered hash is known, or at least the smaller
      of the two limits was imported. */
  lemma {:induction false} CycleAbsorbsOrSpends(files: seq<PeerFile>, existing: set<Bytes>, policy: Policy)
    requires NoneOversized(files, policy)
    ensures var got := CycleImports(files, existing, policy);
      Absorbed(files, existing + Elems(got)) || |got| >= Min(policy.perPeer, policy.perSession)
    decreases |files|
  {
    if files == [] {
    } else {
      var front, f := files[..|files| - 1], files[|files| - 1];
      CycleAbsorbsOrSpends(front, existing, policy);
      CycleSound(front, existing, policy);
      var got := CycleImports(front, existing, policy);
      var more := Imports(PeerLines(f), existing + Elems(got), |got|, policy);
      SplitLast(files);
      ElemsConcat(got, more);
      if |got + more| < Min(policy.perPeer, policy.perSession) {
        forall h | InPool(files, h)
          ensures h in existing + Elems(got + more)
        {
          InPoolPush(front, f, h);
          ImportsAbsorbOrSpend(PeerLines(f), existing + Elems(got), |got|, policy, h);
        }
      }
    }
  }

  // ---------------------------------------------------------------- counting

  lemma {:induction false} DistinctCount(s: seq<Bytes>)
    requires Distinct(s)
    ensures |Elems(s)| == |s|
    decreases |s|
  {
    if s == [] {
    } else {
      var front, last := s[..|s| - 1], s[|s| - 1];
      DistinctCount(front);
      SplitLast(s);
      ElemsPush(front, last);
      assert last !in Elems(front);
    }
  }

  /** Files whose offers are exactly the given set. */
  ghost predicate HasPool(files: seq<PeerFile>, pool: set<Bytes>) {
    forall h :: InPool(files, h) <==> h in pool
  }

  /** One cycle imports at least min(missing, limits) of the missing hashes and
      takes exactly those off the missing ones. */
  lemma CycleProgress(files: seq<PeerFile>, existing: set<Bytes>, policy: Policy, pool: set<Bytes>)
    requires NoneOversized(files, policy) && HasPool(files, pool)
    ensures var got := CycleImports(files, existing, policy);
      && |got| >= Min(|pool - existing|, Min(policy.perPeer, policy.perSession))
      && Elems(got) <= pool
      && |pool - (existing + Elems(got))| == |pool - existing| - |got|
  {
    var got := CycleImports(files, existing, policy);
    CycleSound(files, existing, policy);
    CycleAbsorbsOrSpends(files, existing, policy);
    DistinctCount(got);
    GotFromPool(files, existing, got, pool);
    TakeOff(pool, existing, Elems(got));
  }

  lemma GotFromPool(files: seq<PeerFile>, existing: set<Bytes>, got: seq<Bytes>, pool: set<Bytes>)
    requires HasPool(files, pool) && forall h :: h in got ==> InPool(files, h) && h !in existing
    ensures Elems(got) <= pool - existing
    ensures Absorbed(files, existing + Elems(got)) ==> pool <= existing + Elems(got)
  {
  }

  lemma TakeOff(pool: set<Bytes>, existing: set<Bytes>, got: set<Bytes>)
    requires got <= pool - existing
    ensures |pool - (existing + got)| == |pool - existing| - |got|
    ensures pool <= existing + got ==> |pool - existing| == |got|
  {
    assert pool - (existing + got) == (pool - existing) - got;
    assert pool - existing == got + ((pool - existing) - got);
    if pool <= existing + got {
      assert (pool - existing) - got == {};
    }
  }

  // ---------------------------------------------------------------- repeated cycles

  /** Each cycle sees the directory in an order of its own. */
  function Cycles(orders: seq<seq<PeerFile>>, log: Bytes, policy: Policy): Bytes {
    if orders == [] then log
    else CycleRun(orders[|orders| - 1], Cycles(orders[..|orders| - 1], log, policy), policy).text
  }

  ghost predicate FixedPeers(orders: seq<seq<PeerFile>>, policy: Policy, pool: set<Bytes>) {
    forall k :: 0 <= k < |orders| ==>
      Undisturbed(orders[k], policy) && HasPool(orders[k], pool)
  }

  /** No file is oversized and no row is cut. */
  ghost predicate Undisturbed(files: seq<PeerFile>, policy: Policy) {
    PlainNames(files) && NoneOversized(files, policy) && AllThrough(files)
  }

  function Known(log: Bytes): set<Bytes> {
    Elems(LogColumns(log))
  }

  lemma CycleKnown(files: seq<PeerFile>, log: Bytes, policy: Policy, pool: set<Bytes>)
    requires LineEnded(log) && Undisturbed(files, policy) && HasPool(files, pool)
    ensures var log' := CycleRun(files, log, policy).text;
      && LineEnded(log')
      && Known(log) <= Known(log') <= Known(log) + pool
      && Missing(log', pool) <= Missing(log, pool) - Min(Missing(log, pool), Min(policy.perPeer, policy.perSession))
  {
    CycleRunExactly(files, log, policy);
    CycleColumns(files, log, policy);
    ElemsConcat(LogColumns(log), CycleImports(files, Known(log), policy));
    CycleProgress(files, Known(log), policy, pool);
  }

  function Missing(log: Bytes, pool: set<Bytes>): nat {
    |pool - Known(log)|
  }

  lemma {:induction false} CyclesStayInUnion(orders: seq<seq<PeerFile>>, log: Bytes, policy: Policy, pool: set<Bytes>)
    requires LineEnded(log) && FixedPeers(orders, policy, pool)
    ensures LineEnded(Cycles(orders, log, policy))
    ensures Known(log) <= Known(Cycles(orders, log, policy)) <= Known(log) + pool
    decreases |orders|
  {
    if orders == [] {
    } else {
      var front, last := orders[..|orders| - 1], orders[|orders| - 1];
      CyclesStayInUnion(front, log, policy, pool);
      CycleKnown(last, Cycles(front, log, policy), policy, pool);
    }
  }

  lemma LastCycleLess(orders: seq<seq<PeerFile>>, log: Bytes, policy: Policy, pool: set<Bytes>, step: nat)
    requires LineEnded(log) && FixedPeers(orders, policy, pool) && step == Min(policy.perPeer, policy.perSession)
    requires orders != []
    ensures FixedPeers(orders[..|orders| - 1], policy, pool)
    ensures var before := Missing(Cycles(orders[..|orders| - 1], log, policy), pool);
      Missing(Cycles(orders, log, policy), pool) <= before - Min(before, step)
  {
    FixedFront(orders, policy, pool);
    CyclesStayInUnion(orders[..|orders| - 1], log, policy, pool);
    CycleKnown(orders[|orders| - 1], Cycles(orders[..|orders| - 1], log, policy), policy, pool);
  }

  lemma FixedFront(orders: seq<seq<PeerFile>>, policy: Policy, pool: set<Bytes>)
    requires FixedPeers(orders, policy, pool) && orders != []
    ensures FixedPeers(orders[..|orders| - 1], policy, pool)
    ensures var last := orders[|orders| - 1];
      Undisturbed(last, policy) && HasPool(last, pool)
  {
  }

  /** n cycles take n times the smaller limit off the missing hashes, or all. */
  lemma {:induction false} MissingShrinks(orders: seq<seq<PeerFile>>, log: Bytes, policy: Policy,
                                          pool: set<Bytes>, step: nat)
    requires LineEnded(log) && FixedPeers(orders, policy, pool) && step == Min(policy.perPeer, policy.perSession)
    ensures Shrunk(Missing(log, pool), |orders|, step, Missing(Cycles(orders, log, policy), pool))
    decreases |orders|
  {
    if orders == [] {
    } else {
      LastCycleLess(orders, log, policy, pool, step);
      var front := orders[..|orders| - 1];
      MissingShrinks(front, log, policy, pool, step);
      Countdown(Missing(log, pool), |front|, step, Missing(Cycles(front, log, policy), pool),
                Missing(Cycles(orders, log, policy), pool));
    }
  }

  ghost predicate Shrunk(start: nat, n: nat, step: nat, left: nat) {
    left == 0 || left + n * step <= start
  }

  lemma Countdown(start: nat, n: nat, step: nat, before: nat, left: nat)
    requires Shrunk(start, n, step, before)
    requires left <= before - Min(before, step)
    ensures Shrunk(start, n + 1, step, left)
  {
    assert (n + 1) * step == n * step + step;
  }

  /** With m hashes missing, any n cycles with n * min(limits) >= m reach exactly
      the union, whatever the directory orders ... */
  lemma SyncConverges(orders: seq<seq<PeerFile>>, log: Bytes, policy: Policy, pool: set<Bytes>)
    requires LineEnded(log) && FixedPeers(orders, policy, pool)
    requires |orders| * Min(policy.perPeer, policy.perSession) >= |pool - Known(log)|
    ensures Known(Cycles(orders, log, policy)) == Known(log) + pool
  {
    MissingShrinks(orders, log, policy, pool, Min(policy.perPeer, policy.perSession));
    CyclesStayInUnion(orders, log, policy, pool);
    NothingLeft(Known(log), Known(Cycles(orders, log, policy)), pool);
  }

  lemma NothingLeft(known: set<Bytes>, known': set<Bytes>, pool: set<Bytes>)
    requires known <= known' <= known + pool && |pool - known'| == 0
    ensures known' == known + pool
  {
    assert pool - known' == {};
    forall h | h in pool
      ensures h in known'
    {
      assert h !in pool - known';
    }
  }

  /** ... and from the union on, a cycle over any log imports nothing and leaves it
      untouched. */
  lemma {:induction false} SyncStable(files: seq<PeerFile>, log: Bytes, policy: Policy)
    requires Absorbed(files, Known(log))
    ensures CycleRun(files, log, policy) == Cycle(log, 0)
    decreases |files|
  {
    if files == [] {
    } else {
      var front, f := files[..|files| - 1], files[|files| - 1];
      forall h | InPool(front, h)
        ensures h in Known(log)
      {
        InPoolPush(front, f, h);
        SplitLast(files);
      }
      SyncStable(front, log, policy);
      forall h | Offered(PeerLines(f), h)
        ensures h in Known(log)
      {
        InPoolPush(front, f, h);
        SplitLast(files);
      }
      NothingToImport(PeerLines(f), Known(log), policy);
      NoRows(f, log);
    }
  }

  lemma NothingToImport(lines: seq<Bytes>, existing: set<Bytes>, policy: Policy)
    requires forall h :: Offered(lines, h) ==> h in existing
    ensures Imports(lines, existing, 0, policy) == []
  {
    ImportsExactly(lines, existing, 0, policy);
    var got := Imports(lines, existing, 0, policy);
    SomeElement(got);
  }

  lemma SomeElement(s: seq<Bytes>)
    ensures s != [] ==> exists x :: x in s
  {
    if s != [] {
      assert s[0] in s;
    }
  }

  lemma NoRows(f: PeerFile, log: Bytes)
    ensures log + Through(Rows([], f.time, Origin(f)), f.out) == log
  {
  }

  /** A merge never introduces a string the log already has, nor one twice. */
  lemma CycleKeepsDistinct(files: seq<PeerFile>, log: Bytes, policy: Policy)
    requires LineEnded(log) && PlainNames(files) && AllThrough(files) && Distinct(LogColumns(log))
    ensures Distinct(LogColumns(CycleRun(files, log, policy).text))
  {
    CycleRunExactly(files, log, policy);
    CycleColumns(files, log, policy);
    CycleSound(files, Known(log), policy);
    DistinctConcat(LogColumns(log), CycleImports(files, Known(log), policy));
  }
}
