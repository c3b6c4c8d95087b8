/** include/NodeRegistry.hpp: merging peer signature files into the quarantine log
    under a per-file, a per-peer and a per-session limit. */
module NodeRegistry {
  import opened Basics
  import opened Bytes
  import opened QuarantineLog

  datatype Policy = Policy(perFile: nat, perSession: nat, perPeer: nat)

  const DEFAULT_POLICY := Policy(500, 2000, 300)

  function Elems(s: seq<Bytes>): set<Bytes> {
    set x | x in s
  }

  ghost predicate Distinct(s: seq<Bytes>) {
    forall i, j :: 0 <= i < j < |s| ==> s[i] != s[j]
  }

  // ---------------------------------------------------------------- one peer file

  predicate ValidHash(h: Bytes) {
    1 <= |h| <= 20 && AllDigits(h)
  }

  /** A line offers its column when that is a decimal of 1 to 20 digits. */
  predicate Offers(line: Bytes, h: Bytes) {
    HasColumn(line) && Column(line) == h && ValidHash(h)
  }

  /** In characters: h, a comma and anything, h being 1 to 20 digits. */
  lemma OffersExactly(line: Bytes, h: Bytes)
    ensures Offers(line, h) <==>
      && (exists rest: Bytes :: line == h + "," + rest)
      && 1 <= |h| <= 20 && forall i :: 0 <= i < |h| ==> '0' <= h[i] <= '9'
  {
    if Offers(line, h) {
      var k := IndexOf(line, COMMA);
      assert line == h + "," + line[k + 1..];
    }
    if ValidHash(h) && exists rest: Bytes :: line == h + "," + rest {
      var rest: Bytes :| line == h + "," + rest;
      DigitsFree(h, COMMA);
      IndexOfSplit(h, COMMA, rest);
      assert line[0] == h[0];
    }
  }

  predicate OffersNew(line: Bytes, known: set<Bytes>) {
    HasColumn(line) && ValidHash(Column(line)) && Column(line) !in known
  }

  /** The hashes a greedy reader takes: each new valid one, in file order. */
  function Fresh(lines: seq<Bytes>, existing: set<Bytes>): seq<Bytes> {
    if lines == [] then []
    else
      var taken, line := Fresh(lines[..|lines| - 1], existing), lines[|lines| - 1];
      if OffersNew(line, existing + Elems(taken)) then taken + [Column(line)] else taken
  }

  ghost predicate Offered(lines: seq<Bytes>, h: Bytes) {
    exists i :: 0 <= i < |lines| && Offers(lines[i], h)
  }

  lemma FreshPush(lines: seq<Bytes>, line: Bytes, existing: set<Bytes>)
    ensures var taken := Fresh(lines, existing);
      Fresh(lines + [line], existing) ==
      if OffersNew(line, existing + Elems(taken)) then taken + [Column(line)] else taken
  {
    assert (lines + [line])[..|lines|] == lines;
  }

  lemma OfferedPush(lines: seq<Bytes>, line: Bytes, h: Bytes)
    ensures Offered(lines + [line], h) <==> Offered(lines, h) || Offers(line, h)
  {
    if i :| 0 <= i < |lines| && Offers(lines[i], h) {
      assert (lines + [line])[i] == lines[i];
    }
    assert (lines + [line])[|lines|] == line;
  }

  lemma ElemsPush(s: seq<Bytes>, x: Bytes)
    ensures Elems(s + [x]) == Elems(s) + {x}
  {
    assert x in s + [x];
  }

  lemma ElemsConcat(s: seq<Bytes>, t: seq<Bytes>)
    ensures Elems(s + t) == Elems(s) + Elems(t)
  {
  }

  lemma DistinctPush(s: seq<Bytes>, x: Bytes)
    requires Distinct(s) && x !in s
    ensures Distinct(s + [x])
  {
  }

  /** Every offered absent hash once, and nothing else. */
  lemma {:induction false} FreshExactly(lines: seq<Bytes>, existing: set<Bytes>, h: Bytes)
    ensures h in Fresh(lines, existing) <==> Offered(lines, h) && h !in existing
    ensures Distinct(Fresh(lines, existing))
    decreases |lines|
  {
    if lines == [] {
    } else {
      var front, line := lines[..|lines| - 1], lines[|lines| - 1];
      FreshExactly(front, existing, h);
      OfferedPush(front, line, h);
      SplitLast(lines);
      var taken := Fresh(front, existing);
      if OffersNew(line, existing + Elems(taken)) {
        DistinctPush(taken, Column(line));
      }
    }
  }

  /** g is offered on a line with no offer of h up to it. */
  ghost predicate OfferedBefore(lines: seq<Bytes>, g: Bytes, h: Bytes) {
    exists a :: 0 <= a < |lines| && Offers(lines[a], g) && !Offered(lines[..a + 1], h)
  }

  /** In the order of the first offers: with FreshExactly this leaves one sequence. */
  lemma {:induction false} FreshInOrder(lines: seq<Bytes>, existing: set<Bytes>, i: nat, j: nat)
    requires i < j < |Fresh(lines, existing)|
    ensures OfferedBefore(lines, Fresh(lines, existing)[i], Fresh(lines, existing)[j])
    decreases |lines|
  {
    var front, line := lines[..|lines| - 1], lines[|lines| - 1];
    var taken := Fresh(front, existing);
    if j < |taken| {
      FreshInOrder(front, existing, i, j);
      OfferedBeforeLonger(lines, taken[i], taken[j]);
    } else {
      FreshExactly(front, existing, taken[i]);
      FreshExactly(front, existing, Column(line));
      var a :| 0 <= a < |front| && Offers(front[a], taken[i]);
      assert front[..a + 1] == lines[..a + 1];
      OfferedInPrefix(front, a + 1, Column(line));
      assert Offers(lines[a], taken[i]);
    }
  }

  lemma OfferedInPrefix(lines: seq<Bytes>, n: nat, h: Bytes)
    requires n <= |lines|
    ensures Offered(lines[..n], h) ==> Offered(lines, h)
  {
    if b :| 0 <= b < |lines[..n]| && Offers(lines[..n][b], h) {
      assert lines[b] == lines[..n][b];
    }
  }

  lemma OfferedBeforeLonger(lines: seq<Bytes>, g: Bytes, h: Bytes)
    requires lines != [] && OfferedBefore(lines[..|lines| - 1], g, h)
    ensures OfferedBefore(lines, g, h)
  {
    var front := lines[..|lines| - 1];
    var a :| 0 <= a < |front| && Offers(front[a], g) && !Offered(front[..a + 1], h);
    assert front[..a + 1] == lines[..a + 1];
    assert Offers(lines[a], g);
  }

  lemma {:induction false} FreshPrefix(done: seq<Bytes>, rest: seq<Bytes>, existing: set<Bytes>)
    ensures Fresh(done, existing) <= Fresh(done + rest, existing)
    decreases |rest|
  {
    if rest == [] {
      assert done + rest == done;
    } else {
      var front, line := rest[..|rest| - 1], rest[|rest| - 1];
      FreshPrefix(done, front, existing);
      SplitLast(rest);
      Associate(done, front, [line]);
      FreshPush(done + front, line, existing);
    }
  }

  lemma {:induction false} FreshAreColumns(lines: seq<Bytes>, existing: set<Bytes>)
    ensures forall i :: 0 <= i < |Fresh(lines, existing)| ==> IsColumn(Fresh(lines, existing)[i])
    decreases |lines|
  {
    if lines == [] {
    } else {
      FreshAreColumns(lines[..|lines| - 1], existing);
    }
  }

  /** What one merge imports: nothing from an oversized file or with the session
      budget spent, otherwise the first fresh hashes up to both budgets. */
  function Imports(lines: seq<Bytes>, existing: set<Bytes>, session: nat, policy: Policy): seq<Bytes> {
    if session >= policy.perSession || |lines| > policy.perFile then []
    else
      var novel := Fresh(lines, existing);
      novel[..Min(|novel|, Min(policy.perPeer, policy.perSession - session))]
  }

  lemma ImportsExactly(lines: seq<Bytes>, existing: set<Bytes>, session: nat, policy: Policy)
    ensures var got := Imports(lines, existing, session, policy);
      && Distinct(got)
      && (forall h :: h in got ==> Offered(lines, h) && h !in existing)
      && (forall i :: 0 <= i < |got| ==> IsColumn(got[i]))
      && |got| <= policy.perPeer
      && (session <= policy.perSession ==> session + |got| <= policy.perSession)
    ensures var got, novel := Imports(lines, existing, session, policy), Fresh(lines, existing);
      if |lines| > policy.perFile || session >= policy.perSession then got == []
      else got <= novel && |got| == Min(|novel|, Min(policy.perPeer, policy.perSession - session))
  {
    var novel, got := Fresh(lines, existing), Imports(lines, existing, session, policy);
    assert got <= novel;
    FreshExactly(lines, existing, []);
    FreshAreColumns(lines, existing);
    forall h | h in got
      ensures Offered(lines, h) && h !in existing
    {
      FreshExactly(lines, existing, h);
    }
  }

  /** The limits a node runs with unless told otherwise. */
  lemma DefaultLimits(lines: seq<Bytes>, existing: set<Bytes>, session: nat)
    ensures var got := Imports(lines, existing, session, DEFAULT_POLICY);
      && |got| <= 300 && (session <= 2000 ==> session + |got| <= 2000)
      && (|lines| > 500 ==> got == [])
      && (|lines| <= 500 && session + |Fresh(lines, existing)| <= 2000 && |Fresh(lines, existing)| <= 300 ==>
            got == Fresh(lines, existing))
  {
    ImportsExactly(lines, existing, session, DEFAULT_POLICY);
  }

  /** Rows appended for a list of imports. */
  function Rows(columns: seq<Bytes>, time: int, origin: Bytes): Bytes {
    if columns == [] then []
    else Rows(columns[..|columns| - 1], time, origin) + Row(columns[|columns| - 1], 0, time, origin)
  }

  lemma RowsPush(columns: seq<Bytes>, column: Bytes, time: int, origin: Bytes)
    ensures Rows(columns + [column], time, origin) == Rows(columns, time, origin) + Row(column, 0, time, origin)
  {
    assert (columns + [column])[..|columns|] == columns;
  }

  lemma RowColumn(log: Bytes, column: Bytes, time: int, origin: Bytes)
    requires LineEnded(log) && IsColumn(column) && NEWLINE !in origin
    ensures LogColumns(log + Row(column, 0, time, origin)) == LogColumns(log) + [column]
    ensures LineEnded(log + Row(column, 0, time, origin))
  {
    RowColumns(log, column, 0, time, origin);
    SpillFree(origin);
    assert [column] + LogColumns([]) == [column];
  }

  lemma {:induction false} RowsColumns(log: Bytes, columns: seq<Bytes>, time: int, origin: Bytes)
    requires LineEnded(log) && NEWLINE !in origin
    requires forall i :: 0 <= i < |columns| ==> IsColumn(columns[i])
    ensures LogColumns(log + Rows(columns, time, origin)) == LogColumns(log) + columns
    ensures LineEnded(log + Rows(columns, time, origin))
    decreases |columns|
  {
    if columns == [] {
      assert log + [] == log;
      assert LogColumns(log) + [] == LogColumns(log);
    } else {
      var front, last := columns[..|columns| - 1], columns[|columns| - 1];
      RowsColumns(log, front, time, origin);
      RowColumn(log + Rows(front, time, origin), last, time, origin);
      Associate(log, Rows(front, time, origin), Row(last, 0, time, origin));
      Associate(LogColumns(log), front, [last]);
      SplitLast(columns);
    }
  }

  // ---------------------------------------------------------------- the merge loop

  method CountLines(text: Bytes) returns (n: nat)
    ensures n == |Lines(text)|
  {
    var file := new InStream(text);
    n := 0;
    var more := true;
    while more
      invariant file.Valid()
      invariant n + |Lines(file.Rest())| == |Lines(text)|
      invariant !file.good || !more ==> file.Rest() == []
      decreases more, |file.Rest()|
    {
      ghost var rest := file.Rest();
      var line;
      more, line := file.GetLine(NEWLINE);
      if more {
        LinesTaken(rest, line, file.Rest());
        n := n + 1;
      }
    }
  }

  method LoadExisting(text: Bytes) returns (existing: seq<Bytes>)
    ensures existing == LogColumns(text)
  {
    var file := new InStream(text);
    existing := [];
    ghost var done: seq<Bytes> := [];
    var more := true;
    while more
      invariant file.Valid()
      invariant Lines(text) == done + Lines(file.Rest())
      invariant !file.good || !more ==> file.Rest() == []
      invariant existing == Columns(done)
      decreases more, |file.Rest()|
    {
      ghost var rest := file.Rest();
      var line;
      more, line := file.GetLine(NEWLINE);
      if more {
        LinesTaken(rest, line, file.Rest());
        Associate(done, [line], Lines(file.Rest()));
        ColumnsPush(done, line);
        done := done + [line];
        if line != [] && line[0] != '#' {
          var comma := IndexOf(line, COMMA);
          if comma < |line| {
            existing := existing + [line[..comma]];
          }
        }
      }
    }
    assert done + [] == done;
  }

  method Contains(existing: seq<Bytes>, hash: Bytes) returns (dup: bool)
    ensures dup <==> hash in existing
  {
    dup := false;
    for i := 0 to |existing|
      invariant hash !in existing[..i]
    {
      if existing[i] == hash {
        return true;
      }
    }
  }

  lemma CutShort(done: seq<Bytes>, rest: seq<Bytes>, existing: set<Bytes>, session: nat, policy: Policy)
    requires session < policy.perSession && |done + rest| <= policy.perFile
    requires var n := |Fresh(done, existing)|;
      && n <= policy.perPeer && session + n <= policy.perSession
      && (rest == [] || n == policy.perPeer || session + n == policy.perSession)
    ensures Imports(done + rest, existing, session, policy) == Fresh(done, existing)
  {
    FreshPrefix(done, rest, existing);
    if rest == [] {
      assert done + rest == done;
    }
  }

  /** The stream the rows go to: it may not open, and when a write is cut short it takes
      nothing more; the code looks at it once, before the first row. */
  datatype Stream = Fails | Opens(cut: Option<nat>)

  /** What reaches the log of the rows sent there. */
  function Through(rows: Bytes, out: Stream): Bytes {
    match out
    case Fails => []
    case Opens(None) => rows
    case Opens(Some(n)) => Written(rows, n)
  }

  lemma CutRows(rows: Bytes, out: Stream)
    ensures out == Fails ==> Through(rows, out) == []
    ensures out == Opens(None) ==> Through(rows, out) == rows
    ensures out.Opens? && out.cut.Some? ==>
      Through(rows, out) <= rows && |Through(rows, out)| == Min(out.cut.value, |rows|)
  {
  }

  /** merge_peer_signatures_guarded. The peer file may be unreadable. Rows that do not
      get through are counted all the same. */
  method MergePeerSignatures(peer: Option<Bytes>, local: Log, session: nat, policy: Policy,
                             time: int, path: Bytes, out: Stream)
    returns (imported: nat, session': nat)
    modifies local
    ensures var got := if peer.None? || out.Fails? then []
                       else Imports(Lines(peer.value), Elems(LogColumns(old(local.text))), session, policy);
      && local.text == old(local.text) + Through(Rows(got, time, "peer:" + path), out)
      && imported == |got|
      && session' == session + |got|
  {
    imported, session' := 0, session;
    assert local.text + [] == local.text;
    if session >= policy.perSession || peer.None? {
      return;
    }
    var totalLines := CountLines(peer.value);
    if totalLines > policy.perFile {
      return;
    }
    var existing := LoadExisting(local.text);
    if out.Fails? {
      return;
    }
    var rows;
    rows, imported, session' := ImportLoop(peer.value, session, policy, time, "peer:" + path, existing);
    local.text := local.text + Through(rows, out);
  }

  /** The line loop; `rows` is what it sends to the stream. */
  method ImportLoop(peer: Bytes, session: nat, policy: Policy, time: int, origin: Bytes, columns: seq<Bytes>)
    returns (rows: Bytes, imported: nat, session': nat)
    requires session < policy.perSession && |Lines(peer)| <= policy.perFile
    ensures var got := Imports(Lines(peer), Elems(columns), session, policy);
      && rows == Rows(got, time, origin)
      && imported == |got|
      && session' == session + |got|
  {
    var existing := columns;
    rows, imported, session' := [], 0, session;
    var file := new InStream(peer);
    ghost var done, unread, got: seq<Bytes> := [], Lines(peer), [];
    assert columns + [] == columns;
    var more, spent := true, false;
    while more && !spent
      invariant file.Valid()
      invariant Lines(peer) == done + unread
      invariant !spent ==> unread == Lines(file.Rest())
      invariant !file.good || !more ==> file.Rest() == []
      invariant got == Fresh(done, Elems(columns))
      invariant existing == columns + got
      invariant rows == Rows(got, time, origin)
      invariant imported == |got| <= policy.perPeer && session' == session + imported <= policy.perSession
      invariant spent ==> imported == policy.perPeer || session' == policy.perSession
      decreases !spent, more, |file.Rest()|
    {
      ghost var rest := file.Rest();
      var line;
      more, line := file.GetLine(NEWLINE);
      if more {
        LinesTaken(rest, line, file.Rest());
        ElemsConcat(columns, got);
        var novel := Consider(line, existing);
        if novel && (imported >= policy.perPeer || session' >= policy.perSession) {
          spent := true;
        } else {
          FreshPush(done, line, Elems(columns));
          Associate(done, [line], Lines(file.Rest()));
          done, unread := done + [line], Lines(file.Rest());
          if novel {
            var hash := line[..IndexOf(line, COMMA)];
            RowsPush(got, hash, time, origin);
            Associate(columns, got, [hash]);
            rows := rows + Row(hash, 0, time, origin);
            existing := existing + [hash];
            got := got + [hash];
            imported, session' := imported + 1, session' + 1;
          }
        }
      }
    }
    CutShort(done, unread, Elems(columns), session, policy);
  }

  /** The checks one line goes through before the budgets. */
  method Consider(line: Bytes, existing: seq<Bytes>) returns (novel: bool)
    ensures novel <==> OffersNew(line, Elems(existing))
  {
    if line == [] || line[0] == '#' {
      return false;
    }
    var comma := IndexOf(line, COMMA);
    if comma == |line| {
      return false;
    }
    var hash := line[..comma];
    if hash == [] || |hash| > 20 || !AllDigits(hash) {
      return false;
    }
    var dup := Contains(existing, hash);
    novel := !dup;
  }

  // ---------------------------------------------------------------- one sync cycle

  /** One directory entry, with the stream to the log when its turn comes. A scan that
      fails midway ends like a shorter directory. */
  datatype PeerFile = PeerFile(name: Bytes, content: Option<Bytes>, time: int, out: Stream)

  predicate IsPeerName(name: Bytes) {
    "peer_" <= name && |name| >= 10 && name[|name| - 4..] == ".csv"
  }

  lemma PeerNameExactly(name: Bytes)
    ensures IsPeerName(name) <==> exists stem: Bytes :: stem != [] && name == "peer_" + stem + ".csv"
  {
    if IsPeerName(name) {
      var stem := name[5..|name| - 4];
      assert name == "peer_" + stem + ".csv";
    }
    if stem: Bytes :| stem != [] && name == "peer_" + stem + ".csv" {
      assert name == "peer_" + (stem + ".csv");
      assert name[|name| - 4..] == ".csv";
    }
  }

  /** The lines a merge of this entry may import from. */
  function PeerLines(f: PeerFile): seq<Bytes> {
    if IsPeerName(f.name) && f.content.Some? && f.out.Opens? then Lines(f.content.value) else []
  }

  function Origin(f: PeerFile): Bytes {
    "peer:" + ("/tmp/" + f.name)
  }

  /** Everything one cycle imports; the session counter is its length. */
  function CycleImports(files: seq<PeerFile>, existing: set<Bytes>, policy: Policy): seq<Bytes> {
    if files == [] then []
    else
      var got := CycleImports(files[..|files| - 1], existing, policy);
      got + Imports(PeerLines(files[|files| - 1]), existing + Elems(got), |got|, policy)
  }

  /** The log after one cycle over the directory in this order. */
  function CycleLog(files: seq<PeerFile>, log: Bytes, policy: Policy): Bytes {
    if files == [] then log
    else
      var front, f := files[..|files| - 1], files[|files| - 1];
      var existing := Elems(LogColumns(log));
      var got := CycleImports(front, existing, policy);
      CycleLog(front, log, policy)
        + Rows(Imports(PeerLines(f), existing + Elems(got), |got|, policy), f.time, Origin(f))
  }

  /** The row of an imported hash: signal 0, and the file it came from. */
  lemma MergedRow(h: Bytes, f: PeerFile)
    ensures Rows([h], f.time, Origin(f)) == h + (",0," + (DecInt(f.time) + (",peer:/tmp/" + f.name))) + "\n"
  {
    RowsPush([], h, f.time, Origin(f));
    assert [] + [h] == [h];
    assert DecInt(0) == "0";
    assert Origin(f) == "peer:/tmp/" + f.name;
    RowText(h, 0, f.time, Origin(f));
    assert "," + ("0" + ("," + (DecInt(f.time) + ("," + Origin(f)))))
        == ",0," + (DecInt(f.time) + (",peer:/tmp/" + f.name));
  }

  ghost predicate PlainNames(files: seq<PeerFile>) {
    forall i :: 0 <= i < |files| ==> NEWLINE !in files[i].name
  }

  lemma CycleImportsPush(files: seq<PeerFile>, f: PeerFile, existing: set<Bytes>, policy: Policy)
    ensures var got := CycleImports(files, existing, policy);
      CycleImports(files + [f], existing, policy) == got + Imports(PeerLines(f), existing + Elems(got), |got|, policy)
  {
    assert (files + [f])[..|files|] == files;
  }

  lemma CycleLogPush(files: seq<PeerFile>, f: PeerFile, log: Bytes, policy: Policy)
    ensures var existing := Elems(LogColumns(log));
      var got := CycleImports(files, existing, policy);
      CycleLog(files + [f], log, policy) == CycleLog(files, log, policy)
        + Rows(Imports(PeerLines(f), existing + Elems(got), |got|, policy), f.time, Origin(f))
  {
    assert (files + [f])[..|files|] == files;
  }

  /** The log gains exactly the imports of the cycle, in order. */
  lemma {:induction false} CycleColumns(files: seq<PeerFile>, log: Bytes, policy: Policy)
    requires LineEnded(log) && PlainNames(files)
    ensures LineEnded(CycleLog(files, log, policy))
    ensures LogColumns(CycleLog(files, log, policy))
         == LogColumns(log) + CycleImports(files, Elems(LogColumns(log)), policy)
    decreases |files|
  {
    if files == [] {
      assert LogColumns(log) + [] == LogColumns(log);
    } else {
      var front, f := files[..|files| - 1], files[|files| - 1];
      CycleColumns(front, log, policy);
      CycleColumnsStep(front, f, log, policy);
      SplitLast(files);
    }
  }

  lemma CycleColumnsStep(front: seq<PeerFile>, f: PeerFile, log: Bytes, policy: Policy)
    requires LineEnded(CycleLog(front, log, policy)) && NEWLINE !in f.name
    requires LogColumns(CycleLog(front, log, policy))
          == LogColumns(log) + CycleImports(front, Elems(LogColumns(log)), policy)
    ensures LineEnded(CycleLog(front + [f], log, policy))
    ensures LogColumns(CycleLog(front + [f], log, policy))
         == LogColumns(log) + CycleImports(front + [f], Elems(LogColumns(log)), policy)
  {
    var existing := Elems(LogColumns(log));
    var got := CycleImports(front, existing, policy);
    var more := Imports(PeerLines(f), existing + Elems(got), |got|, policy);
    ImportsExactly(PeerLines(f), existing + Elems(got), |got|, policy);
    CycleImportsPush(front, f, existing, policy);
    CycleLogPush(front, f, log, policy);
    OriginPlain(f);
    RowsColumns(CycleLog(front, log, policy), more, f.time, Origin(f));
    Associate(LogColumns(log), got, more);
  }

  lemma OriginPlain(f: PeerFile)
    requires NEWLINE !in f.name
    ensures NEWLINE !in Origin(f)
  {
    assert forall i :: 0 <= i < 5 ==> "peer:"[i] != NEWLINE;
    assert forall i :: 0 <= i < 5 ==> "/tmp/"[i] != NEWLINE;
  }

  datatype Cycle = Cycle(text: Bytes, session: nat)

  /** merge_all_peer_files on any log: every file is merged into the text the
      files before it left, which is read anew each time. */
  function CycleRun(files: seq<PeerFile>, log: Bytes, policy: Policy): Cycle {
    if files == [] then Cycle(log, 0)
    else
      var before, f := CycleRun(files[..|files| - 1], log, policy), files[|files| - 1];
      var more := Imports(PeerLines(f), Elems(LogColumns(before.text)), before.session, policy);
      Cycle(before.text + Through(Rows(more, f.time, Origin(f)), f.out), before.session + |more|)
  }

  method MergeAllPeerFiles(files: seq<PeerFile>, local: Log, policy: Policy) returns (session: nat)
    modifies local
    ensures Cycle(local.text, session) == CycleRun(files, old(local.text), policy)
  {
    session := 0;
    for i := 0 to |files|
      invariant Cycle(local.text, session) == CycleRun(files[..i], old(local.text), policy)
    {
      assert files[..i + 1][..i] == files[..i];
      session := MergeEntry(files[i], local, session, policy);
    }
    WholeSlice(files);
  }

  /** One directory entry: skipped unless it is named like a peer file. */
  method MergeEntry(f: PeerFile, local: Log, session: nat, policy: Policy) returns (session': nat)
    modifies local
    ensures var more := Imports(PeerLines(f), Elems(LogColumns(old(local.text))), session, policy);
      && local.text == old(local.text) + Through(Rows(more, f.time, Origin(f)), f.out)
      && session' == session + |more|
  {
    session' := session;
    if IsPeerName(f.name) {
      var imported;
      imported, session' := MergePeerSignatures(f.content, local, session, policy, f.time,
                                                "/tmp/" + f.name, f.out);
    }
    assert old(local.text) + [] == old(local.text);
  }

  /** No stream of the cycle takes less than it is sent. */
  predicate AllThrough(files: seq<PeerFile>) {
    forall i :: 0 <= i < |files| ==> files[i].out.Fails? || files[i].out.cut.None?
  }

  /** Reading the set of known hashes once, before the first file, is enough:
      on a closed log the run over the text imports what CycleImports says. */
  lemma {:induction false} CycleRunExactly(files: seq<PeerFile>, log: Bytes, policy: Policy)
    requires LineEnded(log) && PlainNames(files) && AllThrough(files)
    ensures CycleRun(files, log, policy)
         == Cycle(CycleLog(files, log, policy), |CycleImports(files, Elems(LogColumns(log)), policy)|)
    decreases |files|
  {
    if files == [] {
    } else {
      var front, f := files[..|files| - 1], files[|files| - 1];
      CycleRunExactly(front, log, policy);
      CycleColumns(front, log, policy);
      ElemsConcat(LogColumns(log), CycleImports(front, Elems(LogColumns(log)), policy));
      var existing := Elems(LogColumns(log));
      var got := CycleImports(front, existing, policy);
      RowsGetThrough(f, existing + Elems(got), |got|, policy);
    }
  }

  lemma RowsGetThrough(f: PeerFile, existing: set<Bytes>, session: nat, policy: Policy)
    requires f.out.Fails? || f.out.cut.None?
    ensures var rows := Rows(Imports(PeerLines(f), existing, session, policy), f.time, Origin(f));
      Through(rows, f.out) == rows
  {
    if f.out.Fails? {
      assert PeerLines(f) == [];
      assert Imports([], existing, session, policy) == [];
    }
  }

  /** A peer file by its name: everything it offers that is not known gets into the log
      when it is not oversized and the limits have room. */
  lemma PeerFileMerged(log: Bytes, stem: Bytes, content: Bytes, time: int, policy: Policy, h: Bytes, rest: Bytes)
    requires LineEnded(log) && stem != [] && NEWLINE !in stem
    requires |Lines(content)| <= policy.perFile
    requires |Fresh(Lines(content), Elems(LogColumns(log)))| <= Min(policy.perPeer, policy.perSession)
    requires h + "," + rest in Lines(content)
    requires 1 <= |h| <= 20 && forall i :: 0 <= i < |h| ==> '0' <= h[i] <= '9'
    ensures var f := PeerFile("peer_" + stem + ".csv", Some(content), time, Opens(None));
      h in LogColumns(CycleRun([f], log, policy).text)
  {
    var f := PeerFile("peer_" + stem + ".csv", Some(content), time, Opens(None));
    PeerNameExactly(f.name);
    FileNameFree(stem);
    OfferedLine(Lines(content), h, rest);
    OneFileMerged(log, f, policy, h);
  }

  lemma OneFileMerged(log: Bytes, f: PeerFile, policy: Policy, h: Bytes)
    requires LineEnded(log) && NEWLINE !in f.name && f.out == Opens(None)
    requires |PeerLines(f)| <= policy.perFile
    requires |Fresh(PeerLines(f), Elems(LogColumns(log)))| <= Min(policy.perPeer, policy.perSession)
    requires Offered(PeerLines(f), h)
    ensures h in LogColumns(CycleRun([f], log, policy).text)
  {
    var existing := Elems(LogColumns(log));
    CycleRunExactly([f], log, policy);
    CycleColumns([f], log, policy);
    OneFile(f, existing, policy);
    AllFreshImported(PeerLines(f), existing, policy, h);
  }

  lemma AllFreshImported(lines: seq<Bytes>, existing: set<Bytes>, policy: Policy, h: Bytes)
    requires |lines| <= policy.perFile && |Fresh(lines, existing)| <= Min(policy.perPeer, policy.perSession)
    requires Offered(lines, h)
    ensures h in existing || h in Imports(lines, existing, 0, policy)
  {
    FreshExactly(lines, existing, h);
    ImportsExactly(lines, existing, 0, policy);
  }

  lemma FileNameFree(stem: Bytes)
    requires NEWLINE !in stem
    ensures NEWLINE !in "peer_" + stem + ".csv"
  {
  }

  lemma OfferedLine(lines: seq<Bytes>, h: Bytes, rest: Bytes)
    requires h + "," + rest in lines
    requires 1 <= |h| <= 20 && forall i :: 0 <= i < |h| ==> '0' <= h[i] <= '9'
    ensures Offered(lines, h)
  {
    var i :| 0 <= i < |lines| && lines[i] == h + "," + rest;
    OffersExactly(lines[i], h);
  }

  lemma OneFile(f: PeerFile, existing: set<Bytes>, policy: Policy)
    ensures CycleImports([f], existing, policy) == Imports(PeerLines(f), existing, 0, policy)
  {
    CycleImportsPush([], f, existing, policy);
    assert [] + [f] == [f] && existing + Elems([]) == existing;
  }
}
