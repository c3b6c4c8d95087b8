/** The V2 quarantine log of include/core.hpp as text: what the line scan of
    is_quarantined reads out of it and what an append does to that. */
module QuarantineLog {
  import opened Basics
  import opened Bytes
  import opened Fnv

  const HEADER: Bytes := "#SWAYAM-QUARANTINE-V2"
  const COMMA: Byte := ','

  // ---------------------------------------------------------------- reading

  predicate HasColumn(line: Bytes) {
    line != [] && line[0] != '#' && IndexOf(line, COMMA) < |line|
  }

  function Column(line: Bytes): Bytes {
    line[..IndexOf(line, COMMA)]
  }

  function ColumnsOf(line: Bytes): seq<Bytes> {
    if HasColumn(line) then [Column(line)] else []
  }

  function Columns(lines: seq<Bytes>): seq<Bytes> {
    if lines == [] then [] else Columns(lines[..|lines| - 1]) + ColumnsOf(lines[|lines| - 1])
  }

  /** Comments and lines without a comma hold nothing, any other line what stands before
      its first comma. */
  lemma ColumnsOfExactly(line: Bytes, c: Bytes)
    ensures ColumnsOf(line) == [c] <==>
      line != [] && line[0] != '#' && COMMA !in c && exists rest: Bytes :: line == c + "," + rest
    ensures ColumnsOf(line) == [] <==> line == [] || line[0] == '#' || COMMA !in line
  {
    var k := IndexOf(line, COMMA);
    IndexOfAbsent(line, COMMA);
    if k < |line| {
      assert line == line[..k] + "," + line[k + 1..];
    }
    if COMMA !in c && exists rest: Bytes :: line == c + "," + rest {
      var rest: Bytes :| line == c + "," + rest;
      assert line == c + [COMMA] + rest;
      IndexOfSplit(c, COMMA, rest);
    }
  }

  /** The hash strings a log holds, in file order. */
  function LogColumns(log: Bytes): seq<Bytes> {
    Columns(Lines(log))
  }

  lemma ColumnsPush(lines: seq<Bytes>, line: Bytes)
    ensures Columns(lines + [line]) == Columns(lines) + ColumnsOf(line)
  {
    assert (lines + [line])[..|lines|] == lines;
  }

  lemma {:induction false} ColumnsConcat(a: seq<Bytes>, b: seq<Bytes>)
    ensures Columns(a + b) == Columns(a) + Columns(b)
    decreases |b|
  {
    if b == [] {
      assert a + b == a;
      assert Columns(a) + [] == Columns(a);
    } else {
      var b', line := b[..|b| - 1], b[|b| - 1];
      SplitLast(b);
      Associate(a, b', [line]);
      ColumnsConcat(a, b');
      ColumnsPush(a + b', line);
      ColumnsPush(b', line);
      Associate(Columns(a), Columns(b'), ColumnsOf(line));
    }
  }

  lemma LogColumnsConcat(a: Bytes, b: Bytes)
    requires LineEnded(a)
    ensures LogColumns(a + b) == LogColumns(a) + LogColumns(b)
  {
    LinesConcat(a, b);
    ColumnsConcat(Lines(a), Lines(b));
  }

  lemma LogColumnsLine(line: Bytes)
    requires NEWLINE !in line
    ensures LogColumns(line + [NEWLINE]) == ColumnsOf(line)
  {
    LinesCons(line, []);
    assert line + [NEWLINE] + [] == line + [NEWLINE];
    assert Lines(line + [NEWLINE]) == [line];
    ColumnsPush([], line);
    assert [] + [line] == [line];
    assert [] + ColumnsOf(line) == ColumnsOf(line);
  }

  predicate Quarantined(log: Bytes, hash: nat) {
    Dec(hash) in LogColumns(log)
  }

  // ---------------------------------------------------------------- writing

  /** One row: `column,signal,time,origin` and a newline. */
  function RowLine(column: Bytes, signal: int, time: int, origin: Bytes): Bytes {
    column + [COMMA] + (DecInt(signal) + [COMMA] + DecInt(time) + [COMMA] + origin)
  }

  function Row(column: Bytes, signal: int, time: int, origin: Bytes): Bytes {
    RowLine(column, signal, time, origin) + [NEWLINE]
  }

  /** hash, signal, time and origin in this order, separated by commas. */
  lemma RowText(column: Bytes, signal: int, time: int, origin: Bytes)
    ensures Row(column, signal, time, origin)
         == column + ("," + (DecInt(signal) + ("," + (DecInt(time) + ("," + origin))))) + "\n"
  {
  }

  /** The header is put in front of an empty log and of one that does not start
      with it. */
  function Headed(log: Bytes): Bytes {
    if HEADER <= log then log else HEADER + [NEWLINE] + log
  }

  function Appended(log: Bytes, hash: nat, signal: int, time: int, origin: Bytes): Bytes {
    Headed(log) + Row(Dec(hash), signal, time, origin)
  }

  lemma HeadedColumns(log: Bytes)
    ensures LogColumns(Headed(log)) == LogColumns(log)
    ensures LineEnded(Headed(log)) <==> LineEnded(log)
  {
    if HEADER <= log {
    } else {
      var h := HEADER + [NEWLINE];
      assert HEADER[0] == '#';
      LogColumnsLine(HEADER);
      LogColumnsConcat(h, log);
      assert [] + LogColumns(log) == LogColumns(log);
      EndedConcat(h, log);
    }
  }

  /** What a label with a newline leaves behind its first line. */
  function Spill(origin: Bytes): Bytes {
    var k := IndexOf(origin, NEWLINE);
    if k == |origin| then [] else origin[k + 1..] + [NEWLINE]
  }

  lemma RowSplits(column: Bytes, signal: int, time: int, origin: Bytes) returns (first: Bytes)
    ensures NEWLINE !in first
    ensures Row(column, signal, time, origin) == (RowLine(column, signal, time, first) + [NEWLINE]) + Spill(origin)
  {
    var k := IndexOf(origin, NEWLINE);
    first := origin[..k];
    if k == |origin| {
      assert first == origin;
    } else {
      assert origin == first + [NEWLINE] + origin[k + 1..];
      var head := column + [COMMA] + (DecInt(signal) + [COMMA] + DecInt(time) + [COMMA]);
      RowLineHead(column, signal, time, origin);
      RowLineHead(column, signal, time, first);
      SpillShape(head, first, origin[k + 1..]);
    }
  }

  lemma RowLineHead(column: Bytes, signal: int, time: int, origin: Bytes)
    ensures RowLine(column, signal, time, origin)
         == column + [COMMA] + (DecInt(signal) + [COMMA] + DecInt(time) + [COMMA]) + origin
  {
  }

  lemma SpillShape(head: Bytes, first: Bytes, rest: Bytes)
    ensures (head + (first + [NEWLINE] + rest)) + [NEWLINE] == ((head + first) + [NEWLINE]) + (rest + [NEWLINE])
  {
  }

  predicate IsColumn(column: Bytes) {
    column != [] && AllDigits(column)
  }

  lemma RowLineFree(column: Bytes, signal: int, time: int, origin: Bytes)
    requires IsColumn(column) && NEWLINE !in origin
    ensures NEWLINE !in RowLine(column, signal, time, origin)
  {
    SignedFree(signal);
    SignedFree(time);
  }

  lemma SignedFree(z: int)
    ensures NEWLINE !in DecInt(z) && COMMA !in DecInt(z)
  {
  }

  lemma RowLineColumn(column: Bytes, signal: int, time: int, origin: Bytes)
    requires IsColumn(column)
    ensures ColumnsOf(RowLine(column, signal, time, origin)) == [column]
  {
    var rest := DecInt(signal) + [COMMA] + DecInt(time) + [COMMA] + origin;
    assert COMMA !in column;
    IndexOfSplit(column, COMMA, rest);
  }

  /** A row adds its column, and whatever rows the label smuggles in behind a
      newline of its own. */
  lemma RowColumns(log: Bytes, column: Bytes, signal: int, time: int, origin: Bytes)
    requires LineEnded(log) && IsColumn(column)
    ensures LogColumns(log + Row(column, signal, time, origin))
         == LogColumns(log) + ([column] + LogColumns(Spill(origin)))
    ensures LineEnded(log + Row(column, signal, time, origin))
  {
    var first := RowSplits(column, signal, time, origin);
    var line := RowLine(column, signal, time, first);
    RowLineFree(column, signal, time, first);
    RowLineColumn(column, signal, time, first);
    LogColumnsLine(line);
    LogColumnsConcat(line + [NEWLINE], Spill(origin));
    LogColumnsConcat(log, Row(column, signal, time, origin));
    EndsWithNewline(log, RowLine(column, signal, time, origin));
  }

  lemma EndsWithNewline(a: Bytes, b: Bytes)
    ensures LineEnded(a + (b + [NEWLINE]))
  {
  }

  lemma SpillFree(origin: Bytes)
    requires NEWLINE !in origin
    ensures Spill(origin) == []
  {
    IndexOfAbsent(origin, NEWLINE);
  }

  /** atomic_quarantine_append on a log whose last line is closed. */
  lemma AppendedColumns(log: Bytes, hash: nat, signal: int, time: int, origin: Bytes)
    requires LineEnded(log)
    ensures LogColumns(Appended(log, hash, signal, time, origin))
         == LogColumns(log) + ([Dec(hash)] + LogColumns(Spill(origin)))
    ensures LineEnded(Appended(log, hash, signal, time, origin))
  {
    HeadedColumns(log);
    RowColumns(Headed(log), Dec(hash), signal, time, origin);
  }

  /** With a newline-free label the answer for every hash is fixed: exactly the
      appended hash is new. */
  lemma AppendedQuarantines(log: Bytes, hash: nat, signal: int, time: int, origin: Bytes, q: nat)
    requires LineEnded(log) && NEWLINE !in origin
    ensures Quarantined(Appended(log, hash, signal, time, origin), q) <==> Quarantined(log, q) || q == hash
  {
    AppendedColumns(log, hash, signal, time, origin);
    SpillFree(origin);
    assert [Dec(hash)] + LogColumns([]) == [Dec(hash)];
    if Dec(q) == Dec(hash) {
      DecInjective(q, hash);
    }
  }

  /** Exactly when a label quarantines nothing but the appended hash: when the rows it
      holds behind a newline name no hash that is not quarantined anyway. */
  lemma LabelExactly(log: Bytes, hash: nat, signal: int, time: int, origin: Bytes, q: nat)
    requires LineEnded(log)
    ensures Quarantined(Appended(log, hash, signal, time, origin), q)
       <==> Quarantined(log, q) || q == hash || Quarantined(Spill(origin), q)
  {
    AppendedColumns(log, hash, signal, time, origin);
    if Dec(q) == Dec(hash) {
      DecInjective(q, hash);
    }
  }

  /** A source path with a newline in it can quarantine any hash n. */
  lemma LabelInjectsHash(log: Bytes, hash: nat, signal: int, time: int, n: nat)
    requires LineEnded(log)
    ensures Quarantined(Appended(log, hash, signal, time, "x\n" + (Dec(n) + ",")), n)
  {
    LabelExactly(log, hash, signal, time, "x\n" + (Dec(n) + ","), n);
    SpillNames(n);
  }

  lemma SpillNames(n: nat)
    ensures Quarantined(Spill("x\n" + (Dec(n) + ",")), n)
  {
    var row := Dec(n) + ",";
    IndexOfSplit("x", NEWLINE, row);
    assert "x" + [NEWLINE] + row == "x\n" + row;
    DigitsFree(Dec(n), COMMA);
    DigitsFree(Dec(n), NEWLINE);
    LogColumnsLine(row);
    IndexOfSplit(Dec(n), COMMA, "");
    assert Dec(n) + [COMMA] + "" == row;
  }

  /** The first append to a fresh log, in characters. */
  lemma FirstAppend(hash: nat, signal: int, time: int, origin: Bytes)
    ensures Appended([], hash, signal, time, origin)
         == "#SWAYAM-QUARANTINE-V2\n"
            + (Dec(hash) + ("," + (DecInt(signal) + ("," + (DecInt(time) + ("," + origin))))) + "\n")
  {
    RowText(Dec(hash), signal, time, origin);
  }

  /** Independently of how the scan works: a hash is quarantined exactly when some line
      of the log starts with its decimal and a comma. */
  lemma QuarantinedExactly(log: Bytes, q: nat)
    ensures Quarantined(log, q) <==> exists i :: 0 <= i < |Lines(log)| && Dec(q) + "," <= Lines(log)[i]
  {
    ColumnsMembers(Lines(log), Dec(q));
    if i :| 0 <= i < |Lines(log)| && Dec(q) in ColumnsOf(Lines(log)[i]) {
      DigitsFree(Dec(q), COMMA);
      ColumnStarts(Lines(log)[i], Dec(q));
    }
    if i :| 0 <= i < |Lines(log)| && Dec(q) + "," <= Lines(log)[i] {
      DigitsFree(Dec(q), COMMA);
      ColumnStarts(Lines(log)[i], Dec(q));
    }
  }

  lemma {:induction false} ColumnsMembers(lines: seq<Bytes>, c: Bytes)
    ensures c in Columns(lines) <==> exists i :: 0 <= i < |lines| && c in ColumnsOf(lines[i])
    decreases |lines|
  {
    if lines == [] {
    } else {
      var front := lines[..|lines| - 1];
      ColumnsMembers(front, c);
      if i :| 0 <= i < |front| && c in ColumnsOf(front[i]) {
        assert lines[i] == front[i];
      }
      if i :| 0 <= i < |lines| && c in ColumnsOf(lines[i]) {
        assert i < |front| ==> front[i] == lines[i];
      }
    }
  }

  lemma ColumnStarts(line: Bytes, c: Bytes)
    requires c != [] && AllDigits(c) && COMMA !in c
    ensures c in ColumnsOf(line) <==> c + "," <= line
  {
    if HasColumn(line) {
      var k := IndexOf(line, COMMA);
      assert line == line[..k] + "," + line[k + 1..];
    }
    if c + "," <= line {
      var rest := line[|c| + 1..];
      assert line == c + [COMMA] + rest;
      IndexOfSplit(c, COMMA, rest);
      assert line[0] == c[0] && IsDigit(c[0]);
    }
  }

  // ---------------------------------------------------------------- a log cut short

  lemma TornHeaded(log: Bytes) returns (whole: Bytes, tail: Bytes)
    ensures Headed(log) == whole + tail && LineEnded(whole) && NEWLINE !in tail
    ensures LineEnded(log) <==> tail == []
    ensures tail != [] ==> LogColumns(log) == LogColumns(whole) + ColumnsOf(tail)
  {
    HeadedColumns(log);
    whole, tail := TornSplit(Headed(log));
    if tail != [] {
      ColumnsPush(Lines(whole), tail);
    }
  }

  lemma GluedColumn(tail: Bytes, column: Bytes, rest: Bytes)
    requires tail != [] && COMMA !in column
    requires column !in ColumnsOf(tail)
    ensures column !in ColumnsOf(tail + (column + [COMMA] + rest))
  {
    var line := tail + (column + [COMMA] + rest);
    assert line[0] == tail[0];
    if COMMA in tail {
      var k := IndexOf(tail, COMMA);
      IndexOfAbsent(tail, COMMA);
      FirstIndexStays(tail, COMMA, column + [COMMA] + rest);
      assert line[..k] == tail[..k];
    } else {
      assert line == (tail + column) + [COMMA] + rest;
      IndexOfSplit(tail + column, COMMA, rest);
      assert |tail + column| > |column|;
    }
  }

  lemma FirstIndexStays(a: Bytes, c: Byte, b: Bytes)
    requires IndexOf(a, c) < |a|
    ensures IndexOf(a + b, c) == IndexOf(a, c)
  {
    var k := IndexOf(a, c);
    assert a == a[..k] + [c] + a[k + 1..];
    assert a + b == a[..k] + [c] + (a[k + 1..] + b);
    IndexOfSplit(a[..k], c, a[k + 1..] + b);
  }

  /** A column that can be read stays readable behind any continuation of its line. */
  lemma ColumnStays(tail: Bytes, more: Bytes)
    requires HasColumn(tail)
    ensures ColumnsOf(tail + more) == ColumnsOf(tail)
  {
    FirstIndexStays(tail, COMMA, more);
    var k := IndexOf(tail, COMMA);
    assert (tail + more)[0] == tail[0] && (tail + more)[..k] == tail[..k];
  }

  lemma FirstLineColumns(f: Bytes) returns (line: Bytes, rest: seq<Bytes>)
    requires f != []
    ensures line == f[..IndexOf(f, NEWLINE)] && LogColumns(f) == ColumnsOf(line) + Columns(rest)
  {
    rest := FirstLineSplits(f);
    line := f[..IndexOf(f, NEWLINE)];
    ColumnsConcat([line], rest);
    ColumnsPush([], line);
    assert [] + [line] == [line] && [] + ColumnsOf(line) == ColumnsOf(line);
  }

  lemma FirstLineSplits(f: Bytes) returns (rest: seq<Bytes>)
    requires f != []
    ensures Lines(f) == [f[..IndexOf(f, NEWLINE)]] + rest
  {
    var i := IndexOf(f, NEWLINE);
    rest := if i == |f| then [] else Lines(f[i + 1..]);
    WholeSlice(f);
  }

  lemma OpenColumnStays(tail: Bytes, b: Bytes, x: Bytes)
    requires NEWLINE !in tail && x in ColumnsOf(tail)
    ensures x in LogColumns(tail + b)
  {
    var line, rest := FirstLineColumns(tail + b);
    assert |line| >= |tail| by {
      assert forall i :: 0 <= i < |tail| ==> (tail + b)[i] == tail[i];
    }
    assert line == tail + line[|tail|..];
    ColumnStays(tail, line[|tail|..]);
  }

  /** Whatever is appended to a log, whole rows or not and behind an unfinished line or
      not, no column is lost. */
  lemma ColumnsGrow(a: Bytes, b: Bytes, x: Bytes)
    requires x in LogColumns(a)
    ensures x in LogColumns(a + b)
  {
    var whole, tail := TornSplit(a);
    LogColumnsConcat(whole, tail + b);
    Associate(whole, tail, b);
    if tail != [] {
      ColumnsPush(Lines(whole), tail);
      if x in ColumnsOf(tail) {
        OpenColumnStays(tail, b, x);
      }
    } else {
      assert whole + [] == whole && Lines(whole) + [] == Lines(whole);
    }
  }

  /** Appending to any log at all: a hash not in it becomes visible exactly when
      the last line of the log was closed. */
  lemma AppendVisibleExactly(log: Bytes, hash: nat, signal: int, time: int, origin: Bytes)
    requires NEWLINE !in origin && !Quarantined(log, hash)
    ensures Quarantined(Appended(log, hash, signal, time, origin), hash) <==> LineEnded(log)
  {
    if LineEnded(log) {
      AppendedQuarantines(log, hash, signal, time, origin, hash);
    } else {
      TornRowLost(log, Dec(hash), signal, time, origin);
    }
  }

  lemma TornRowLost(log: Bytes, column: Bytes, signal: int, time: int, origin: Bytes)
    requires NEWLINE !in origin && IsColumn(column) && column !in LogColumns(log) && !LineEnded(log)
    ensures column !in LogColumns(Headed(log) + Row(column, signal, time, origin))
  {
    var whole, tail := TornHeaded(log);
    RowLineFree(column, signal, time, origin);
    GluedColumn(tail, column, DecInt(signal) + [COMMA] + DecInt(time) + [COMMA] + origin);
    GluedLine(whole, tail, RowLine(column, signal, time, origin));
  }

  lemma GluedLine(whole: Bytes, tail: Bytes, line: Bytes)
    requires LineEnded(whole) && NEWLINE !in tail && NEWLINE !in line
    ensures LogColumns((whole + tail) + (line + [NEWLINE])) == LogColumns(whole) + ColumnsOf(tail + line)
  {
    assert (whole + tail) + (line + [NEWLINE]) == whole + ((tail + line) + [NEWLINE]);
    LogColumnsConcat(whole, (tail + line) + [NEWLINE]);
    LogColumnsLine(tail + line);
  }

  // ---------------------------------------------------------------- the code

  /** The scan loop of is_quarantined; an unreadable log has no lines. */
  method Scan(log: Bytes, hash: nat) returns (found: bool)
    ensures found <==> Quarantined(log, hash)
  {
    var file := new InStream(log);
    var wanted := Dec(hash);
    ghost var done: seq<Bytes> := [];
    found := false;
    var more := true;
    while more && !found
      invariant file.Valid()
      invariant Lines(log) == done + Lines(file.Rest())
      invariant !file.good || !more ==> file.Rest() == []
      invariant found <==> wanted in Columns(done)
      decreases !found, more, |file.Rest()|
    {
      ghost var rest := file.Rest();
      var line;
      more, line := file.GetLine(NEWLINE);
      if more {
        LinesTaken(rest, line, file.Rest());
        Associate(done, [line], Lines(file.Rest()));
        ColumnsPush(done, line);
        done := done + [line];
        if line != [] && line[0] != '#' {
          var comma := IndexOf(line, COMMA);
          if comma < |line| && line[..comma] == wanted {
            found := true;
          }
        }
      }
    }
    ColumnsConcat(done, Lines(file.Rest()));
  }

  class Log {
    var text: Bytes

    constructor (text: Bytes)
      ensures this.text == text
    {
      this.text := text;
    }

    method IsQuarantined(source: Bytes) returns (found: bool)
      ensures found <==> Quarantined(text, Fnv1a(source, Unsigned))
    {
      var hash := HashLoop(source, Unsigned);
      found := Scan(text, hash);
    }

    /** atomic_quarantine_append by one process on its own; the temporary file may
        fail to open and the rename may fail. */
    method Append(hash: nat, signal: int, time: int, origin: Bytes, tempOpens: bool, renames: bool)
      modifies this
      ensures text == if tempOpens && renames then Appended(old(text), hash, signal, time, origin) else old(text)
    {
      var existing := text;
      if existing == [] || !(HEADER <= existing) {
        existing := HEADER + [NEWLINE] + existing;
      }
      var entry := Row(Dec(hash), signal, time, origin);
      if !tempOpens {
        return;
      }
      var temp := existing + entry;
      if renames {
        text := temp;
      }
    }
  }
}
