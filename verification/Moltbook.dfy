/** include/Moltbook.hpp: a ledger of checksummed records `hash|status|checksum`
    and the in-memory set of known hashes kept beside it. */
module MoltbookLedger {
  import opened Basics
  import opened Bytes
  import opened Fnv

  const BAR: Byte := '|'

  // ---------------------------------------------------------------- one record

  function RawRecord(hash: Bytes, status: Bytes): Bytes {
    hash + [BAR] + status
  }

  function Checksum(hash: Bytes, status: Bytes): Bytes {
    Dec(Fnv1a(RawRecord(hash, status), SignExtended))
  }

  function RecordLine(hash: Bytes, status: Bytes): Bytes {
    RawRecord(hash, status) + [BAR] + Checksum(hash, status)
  }

  datatype Parsed = NoFields | Fields(hash: Bytes, status: Bytes, sum: Bytes)

  /** The three chained std::getline calls of load_ledger on one line: each fails
      when nothing is left for it, and reaching the end without a bar leaves
      nothing for the next. */
  function ParseLine(line: Bytes): (p: Parsed)
    ensures p.Fields? ==> BAR !in p.hash && BAR !in p.status
  {
    var i := IndexOf(line, BAR);
    if i == |line| then NoFields else ParseRest(line[..i], line[i + 1..])
  }

  /** The second and the third call, behind the first bar. */
  function ParseRest(hash: Bytes, afterHash: Bytes): (p: Parsed)
    ensures p.Fields? ==> p.hash == hash && BAR !in p.status
  {
    var j := IndexOf(afterHash, BAR);
    if j == |afterHash| then NoFields
    else if j + 1 == |afterHash| then NoFields
    else Fields(hash, afterHash[..j], afterHash[j + 1..])
  }

  predicate Accepts(line: Bytes) {
    var p := ParseLine(line);
    p.Fields? && Checksum(p.hash, p.status) == p.sum
  }

  /** ParseLine from its first split point. */
  lemma ParseSplit(a: Bytes, afterHash: Bytes)
    requires BAR !in a
    ensures ParseLine(a + [BAR] + afterHash) == ParseRest(a, afterHash)
  {
    IndexOfSplit(a, BAR, afterHash);
  }

  lemma ParseThree(a: Bytes, b: Bytes, d: Bytes)
    requires BAR !in a && BAR !in b && d != []
    ensures ParseLine(a + [BAR] + b + [BAR] + d) == Fields(a, b, d)
  {
    FiveParts(a, b, d);
    ParseSplit(a, b + [BAR] + d);
    IndexOfSplit(b, BAR, d);
  }

  lemma FiveParts(a: Bytes, b: Bytes, d: Bytes)
    ensures a + [BAR] + b + [BAR] + d == a + [BAR] + (b + [BAR] + d)
  {
  }

  lemma ParseTwo(a: Bytes, b: Bytes)
    requires BAR !in a && BAR !in b
    ensures ParseLine(a + [BAR] + b) == NoFields
  {
    ParseSplit(a, b);
    IndexOfAbsent(b, BAR);
  }

  /** A third field with a bar in it is never a printed checksum. */
  lemma BarInSumRejected(a: Bytes, b: Bytes, d: Bytes)
    requires BAR !in a && BAR !in b && BAR in d
    ensures !Accepts(a + [BAR] + b + [BAR] + d)
  {
    ParseThree(a, b, d);
  }

  // ---------------------------------------------------------------- corruption

  lemma HashByteCorrupted(pre: Bytes, old': Byte, post: Bytes, status: Bytes, c: Byte)
    requires c != old' && BAR !in pre && BAR !in post && BAR !in status
    ensures !Accepts(pre + [c] + post + [BAR] + status + [BAR] + Checksum(pre + [old'] + post, status))
  {
    var sum := Checksum(pre + [old'] + post, status);
    if c == BAR {
      var d := status + [BAR] + sum;
      assert pre + [c] + post + [BAR] + status + [BAR] + sum == pre + [BAR] + post + [BAR] + d;
      BarInSumRejected(pre, post, d);
    } else {
      var hash' := pre + [c] + post;
      ParseThree(hash', status, sum);
      RawByte(pre, c, post, status);
      RawByte(pre, old', post, status);
      OneByteChangesHash(pre, c, old', post + [BAR] + status, SignExtended);
      if Checksum(hash', status) == sum {
        DecInjective(Fnv1a(RawRecord(hash', status), SignExtended),
                     Fnv1a(RawRecord(pre + [old'] + post, status), SignExtended));
      }
    }
  }

  lemma RawByte(pre: Bytes, c: Byte, post: Bytes, status: Bytes)
    ensures RawRecord(pre + [c] + post, status) == pre + [c] + (post + [BAR] + status)
  {
  }

  lemma StatusByteCorrupted(hash: Bytes, pre: Bytes, old': Byte, post: Bytes, c: Byte)
    requires c != old' && BAR !in hash && BAR !in pre && BAR !in post
    ensures !Accepts(hash + [BAR] + (pre + [c] + post) + [BAR] + Checksum(hash, pre + [old'] + post))
  {
    var sum := Checksum(hash, pre + [old'] + post);
    if c == BAR {
      var d := post + [BAR] + sum;
      assert hash + [BAR] + (pre + [c] + post) + [BAR] + sum == hash + [BAR] + pre + [BAR] + d;
      BarInSumRejected(hash, pre, d);
    } else {
      var status' := pre + [c] + post;
      ParseThree(hash, status', sum);
      StatusRawByte(hash, pre, c, post);
      StatusRawByte(hash, pre, old', post);
      OneByteChangesHash(hash + [BAR] + pre, c, old', post, SignExtended);
      if Checksum(hash, status') == sum {
        DecInjective(Fnv1a(RawRecord(hash, status'), SignExtended),
                     Fnv1a(RawRecord(hash, pre + [old'] + post), SignExtended));
      }
    }
  }

  lemma StatusRawByte(hash: Bytes, pre: Bytes, c: Byte, post: Bytes)
    ensures RawRecord(hash, pre + [c] + post) == (hash + [BAR] + pre) + [c] + post
  {
  }

  lemma DelimiterCorrupted(hash: Bytes, status: Bytes, c: Byte)
    requires c != BAR && BAR !in hash && BAR !in status
    ensures !Accepts(hash + [c] + status + [BAR] + Checksum(hash, status))
    ensures !Accepts(hash + [BAR] + status + [c] + Checksum(hash, status))
  {
    var sum := Checksum(hash, status);
    DigitsFree(sum, BAR);
    ParseTwo(hash + [c] + status, sum);
    assert hash + [BAR] + status + [c] + sum == hash + [BAR] + (status + [c] + sum);
    ParseTwo(hash, status + [c] + sum);
  }

  lemma SumCorrupted(hash: Bytes, status: Bytes, sum': Bytes)
    requires BAR !in hash && BAR !in status && sum' != Checksum(hash, status) && sum' != []
    ensures !Accepts(hash + [BAR] + status + [BAR] + sum')
  {
    ParseThree(hash, status, sum');
  }

  lemma CorruptInHash(hash: Bytes, status: Bytes, p: nat, c: Byte)
    requires BAR !in hash && BAR !in status && p < |hash| && c != hash[p]
    ensures !Accepts(hash[p := c] + [BAR] + status + [BAR] + Checksum(hash, status))
  {
    var pre, post := hash[..p], hash[p + 1..];
    HashByteCorrupted(pre, hash[p], post, status, c);
    assert hash == pre + [hash[p]] + post;
    assert hash[p := c] == pre + [c] + post;
  }

  lemma CorruptInStatus(hash: Bytes, status: Bytes, p: nat, c: Byte)
    requires BAR !in hash && BAR !in status && p < |status| && c != status[p]
    ensures !Accepts(hash + [BAR] + status[p := c] + [BAR] + Checksum(hash, status))
  {
    var pre, post := status[..p], status[p + 1..];
    StatusByteCorrupted(hash, pre, status[p], post, c);
    assert status == pre + [status[p]] + post;
    assert status[p := c] == pre + [c] + post;
  }

  /** The five places a byte of `a|b|d` can be in. */
  lemma UpdatePieces(a: Bytes, b: Bytes, d: Bytes, p: nat, c: Byte)
    requires p < |a + [BAR] + b + [BAR] + d|
    ensures (a + [BAR] + b + [BAR] + d)[p := c] ==
            if p < |a| then a[p := c] + [BAR] + b + [BAR] + d
            else if p == |a| then a + [c] + b + [BAR] + d
            else if p < |a| + 1 + |b| then a + [BAR] + b[p - |a| - 1 := c] + [BAR] + d
            else if p == |a| + 1 + |b| then a + [BAR] + b + [c] + d
            else a + [BAR] + b + [BAR] + d[p - |a| - |b| - 2 := c]
    ensures (a + [BAR] + b + [BAR] + d)[p] ==
            if p < |a| then a[p]
            else if p == |a| then BAR
            else if p < |a| + 1 + |b| then b[p - |a| - 1]
            else if p == |a| + 1 + |b| then BAR
            else d[p - |a| - |b| - 2]
  {
  }

  /** Any one byte of a record line, delimiters and checksum digits included,
      replaced by any other byte makes load_ledger drop the line. */
  lemma CorruptLineRejected(hash: Bytes, status: Bytes, p: nat, c: Byte)
    requires BAR !in hash && BAR !in status
    requires p < |RecordLine(hash, status)| && c != RecordLine(hash, status)[p]
    ensures !Accepts(RecordLine(hash, status)[p := c])
  {
    var sum := Checksum(hash, status);
    UpdatePieces(hash, status, sum, p, c);
    var n, m := |hash|, |status|;
    if p < n {
      CorruptInHash(hash, status, p, c);
    } else if p == n || p == n + 1 + m {
      DelimiterCorrupted(hash, status, c);
    } else if p < n + 1 + m {
      CorruptInStatus(hash, status, p - n - 1, c);
    } else {
      var q := p - n - m - 2;
      assert sum[q := c][q] == c;
      SumCorrupted(hash, status, sum[q := c]);
    }
  }

  // ---------------------------------------------------------------- a whole ledger

  function LoadedLines(lines: seq<Bytes>): set<Bytes> {
    set l | l in lines && Accepts(l) :: ParseLine(l).hash
  }

  /** The hashes a fresh Moltbook knows after loading this file. An absent file
      and an empty one load alike. */
  function Load(ledger: Bytes): set<Bytes> {
    LoadedLines(Lines(ledger))
  }

  datatype Record = Record(hash: Bytes, status: Bytes)

  predicate Clean(r: Record) {
    && BAR !in r.hash && NEWLINE !in r.hash
    && BAR !in r.status && NEWLINE !in r.status
  }

  ghost predicate AllClean(rs: seq<Record>) {
    forall i :: 0 <= i < |rs| ==> Clean(rs[i])
  }

  function LineOf(r: Record): Bytes {
    RecordLine(r.hash, r.status)
  }

  function EntryOf(r: Record): Bytes {
    LineOf(r) + [NEWLINE]
  }

  /** One record in characters: both fields and the FNV-1a hash of `hash|status` with
      bytes from 128 on sign-extended, separated by bars. */
  lemma RecordText(r: Record)
    ensures EntryOf(r)
         == ((r.hash + "|" + r.status) + "|" + Dec(Fnv1a(r.hash + "|" + r.status, SignExtended))) + "\n"
  {
  }

  function Print(rs: seq<Record>): Bytes {
    if rs == [] then [] else Print(rs[..|rs| - 1]) + EntryOf(rs[|rs| - 1])
  }

  function Hashes(rs: seq<Record>): set<Bytes> {
    set r | r in rs :: r.hash
  }

  ghost predicate DistinctHashes(rs: seq<Record>) {
    forall i, j :: 0 <= i < j < |rs| ==> rs[i].hash != rs[j].hash
  }

  lemma LoadAppend(a: Bytes, b: Bytes)
    requires LineEnded(a)
    ensures Load(a + b) == Load(a) + Load(b)
  {
    LinesConcat(a, b);
  }

  lemma LoadLine(line: Bytes)
    requires NEWLINE !in line
    ensures Load(line + [NEWLINE]) == if Accepts(line) then {ParseLine(line).hash} else {}
  {
    LinesCons(line, []);
    assert line + [NEWLINE] + [] == line + [NEWLINE];
    assert Lines(line + [NEWLINE]) == [line];
  }

  lemma LineOfFree(r: Record)
    requires Clean(r)
    ensures NEWLINE !in LineOf(r)
  {
    DigitsFree(Checksum(r.hash, r.status), NEWLINE);
  }

  lemma LoadEntry(r: Record)
    requires Clean(r)
    ensures Load(EntryOf(r)) == {r.hash}
    ensures LineEnded(EntryOf(r))
  {
    LineOfFree(r);
    LoadLine(LineOf(r));
    ParseThree(r.hash, r.status, Checksum(r.hash, r.status));
  }

  lemma LoadPush(rs: seq<Record>, r: Record)
    requires Clean(r) && Load(Print(rs)) == Hashes(rs) && LineEnded(Print(rs))
    ensures Load(Print(rs + [r])) == Hashes(rs + [r]) && LineEnded(Print(rs + [r]))
  {
    PrintPush(rs, r);
    LoadEntry(r);
    LoadAppend(Print(rs), EntryOf(r));
    EndedConcat(Print(rs), EntryOf(r));
    HashesPush(rs, r);
  }

  ghost predicate SomeEntryLoads(rs: seq<Record>, h: Bytes) {
    exists i :: 0 <= i < |rs| && h in Load(EntryOf(rs[i]))
  }

  /** Whatever the fields hold, the entries load independently of each other. */
  lemma {:induction false} LoadPrint(rs: seq<Record>, h: Bytes)
    ensures LineEnded(Print(rs))
    ensures h in Load(Print(rs)) <==> SomeEntryLoads(rs, h)
    decreases |rs|
  {
    if rs == [] {
    } else {
      var front, last := rs[..|rs| - 1], rs[|rs| - 1];
      LoadPrint(front, h);
      LoadAppend(Print(front), EntryOf(last));
      EndedConcat(Print(front), EntryOf(last));
      SplitLast(rs);
      EntryLoadsPush(front, last, h);
    }
  }

  lemma EntryLoadsPush(rs: seq<Record>, r: Record, h: Bytes)
    ensures SomeEntryLoads(rs + [r], h) <==> SomeEntryLoads(rs, h) || h in Load(EntryOf(r))
  {
    var longer := rs + [r];
    assert longer[|rs|] == r;
    if i :| 0 <= i < |rs| && h in Load(EntryOf(rs[i])) {
      assert longer[i] == rs[i];
    }
  }

  /** Of records with clean fields every hash comes back. */
  lemma {:induction false} LoadClean(rs: seq<Record>)
    requires AllClean(rs)
    ensures Load(Print(rs)) == Hashes(rs) && LineEnded(Print(rs))
    decreases |rs|
  {
    if rs == [] {
    } else {
      var front, last := rs[..|rs| - 1], rs[|rs| - 1];
      LoadClean(front);
      LoadPush(front, last);
      SplitLast(rs);
    }
  }

  lemma HashesPush(rs: seq<Record>, r: Record)
    ensures Hashes(rs + [r]) == Hashes(rs) + {r.hash}
  {
    assert forall x :: x in rs + [r] <==> x in rs || x == r;
    assert r in rs + [r];
  }

  lemma PrintPush(rs: seq<Record>, r: Record)
    ensures Print(rs + [r]) == Print(rs) + EntryOf(r)
  {
    assert (rs + [r])[..|rs|] == rs;
  }

  lemma {:induction false} PrintConcat(a: seq<Record>, b: seq<Record>)
    ensures Print(a + b) == Print(a) + Print(b)
    decreases |b|
  {
    if b == [] {
      assert a + b == a;
      assert Print(a) + [] == Print(a);
    } else {
      var b', r := b[..|b| - 1], b[|b| - 1];
      assert b == b' + [r];
      Associate(a, b', [r]);
      PrintConcat(a, b');
      PrintPush(a + b', r);
      PrintPush(b', r);
      Associate(Print(a), Print(b'), EntryOf(r));
    }
  }

  lemma PrintAround(rs: seq<Record>, k: nat)
    requires k < |rs|
    ensures Print(rs) == Print(rs[..k]) + (LineOf(rs[k]) + ([NEWLINE] + Print(rs[k + 1..])))
  {
    var before, r, after := rs[..k], rs[k], rs[k + 1..];
    SplitAround(rs, k);
    PrintConcat(before + [r], after);
    PrintPush(before, r);
    Regroup(Print(before), LineOf(r), [NEWLINE], Print(after));
  }

  lemma UpdateInside(a: Bytes, b: Bytes, d: Bytes, p: nat, c: Byte)
    requires p < |b|
    ensures (a + (b + d))[|a| + p := c] == a + (b[p := c] + d)
  {
  }

  lemma LoadAround(before: Bytes, line: Bytes, after: Bytes)
    requires LineEnded(before) && NEWLINE !in line
    ensures Load(before + (line + ([NEWLINE] + after)))
         == Load(before) + (if Accepts(line) then {ParseLine(line).hash} else {}) + Load(after)
  {
    Associate(line, [NEWLINE], after);
    LoadAppend(before, line + ([NEWLINE] + after));
    LoadAppend(line + [NEWLINE], after);
    LoadLine(line);
  }

  /** Corrupting one byte of record k loses exactly that hash. */
  lemma CorruptionDetected(rs: seq<Record>, k: nat, p: nat, c: Byte)
    requires AllClean(rs)
    requires DistinctHashes(rs)
    requires k < |rs| && p < |LineOf(rs[k])|
    requires c != NEWLINE && c != LineOf(rs[k])[p]
    ensures |Print(rs[..k])| + p < |Print(rs)|
    ensures Load(Print(rs)[|Print(rs[..k])| + p := c]) == Hashes(rs) - {rs[k].hash}
  {
    var r := rs[k];
    var before, after := rs[..k], rs[k + 1..];
    PrintAround(rs, k);
    UpdateInside(Print(before), LineOf(r), [NEWLINE] + Print(after), p, c);
    CorruptedLine(r, p, c);
    LoadClean(before);
    LoadClean(after);
    LoadAround(Print(before), LineOf(r)[p := c], Print(after));
    HashesWithout(rs, k);
  }

  lemma CorruptedLine(r: Record, p: nat, c: Byte)
    requires Clean(r) && p < |LineOf(r)| && c != NEWLINE && c != LineOf(r)[p]
    ensures NEWLINE !in LineOf(r)[p := c] && !Accepts(LineOf(r)[p := c])
  {
    LineOfFree(r);
    CorruptLineRejected(r.hash, r.status, p, c);
  }

  lemma HashesWithout(rs: seq<Record>, k: nat)
    requires k < |rs| && DistinctHashes(rs)
    ensures Hashes(rs[..k]) + Hashes(rs[k + 1..]) == Hashes(rs) - {rs[k].hash}
  {
    forall h | h in Hashes(rs) - {rs[k].hash}
      ensures h in Hashes(rs[..k]) + Hashes(rs[k + 1..])
    {
      var i :| 0 <= i < |rs| && rs[i].hash == h;
      if i < k {
        assert rs[i] == rs[..k][i];
      } else {
        assert rs[i] == rs[k + 1..][i - k - 1];
      }
    }
    forall h | h in Hashes(rs[..k]) + Hashes(rs[k + 1..])
      ensures h in Hashes(rs) - {rs[k].hash}
    {
      if i :| 0 <= i < k && rs[i].hash == h {
        assert rs[i] in rs;
      } else {
        var r :| r in rs[k + 1..] && r.hash == h;
        var i :| 0 <= i < |rs[k + 1..]| && rs[k + 1..][i] == r;
        assert rs[i + k + 1] == r;
      }
    }
  }

  // ---------------------------------------------------------------- when a record survives

  lemma AcceptedShape(line: Bytes)
    requires Accepts(line)
    ensures multiset(line)[BAR] == 2
  {
    var p := ParseLine(line);
    DigitsFree(p.sum, BAR);
    var i := IndexOf(line, BAR);
    var j := IndexOf(line[i + 1..], BAR);
    Reassemble(line, i, j, p.hash, p.status, p.sum);
  }

  lemma Reassemble(line: Bytes, i: nat, j: nat, a: Bytes, b: Bytes, d: Bytes)
    requires i < |line| && line[i] == BAR && a == line[..i]
    requires i + 1 + j < |line| && line[i + 1 + j] == BAR && b == line[i + 1..][..j] && d == line[i + 1..][j + 1..]
    ensures line == a + [BAR] + b + [BAR] + d
  {
  }

  lemma BarCount(a: Bytes, b: Bytes, d: Bytes)
    ensures multiset(a + [BAR] + b + [BAR] + d)[BAR]
         == multiset(a)[BAR] + multiset(b)[BAR] + multiset(d)[BAR] + 2
  {
  }

  lemma ThreePieces(t: Bytes, a: Bytes, b: Bytes, d: Bytes)
    ensures t + (a + [BAR] + b + [BAR] + d) == (t + a) + [BAR] + b + [BAR] + d
  {
  }

  lemma NotCounted(s: Bytes, c: Byte)
    ensures multiset(s)[c] == 0 <==> c !in s
  {
    assert c in multiset(s) <==> c in s;
  }

  /** A printed record read back from behind an open tail. */
  lemma ReadBack(tail: Bytes, r: Record)
    requires Accepts(tail + LineOf(r)) && ParseLine(tail + LineOf(r)).hash == r.hash
    ensures tail == [] && BAR !in r.hash && BAR !in r.status
  {
    var sum := Checksum(r.hash, r.status);
    AcceptedShape(tail + LineOf(r));
    ThreePieces(tail, r.hash, r.status, sum);
    BarCount(tail + r.hash, r.status, sum);
    NotCounted(tail + r.hash, BAR);
    NotCounted(r.status, BAR);
    ParseThree(tail + r.hash, r.status, sum);
    PrefixFree(tail, r.hash);
  }

  lemma PrefixFree(a: Bytes, b: Bytes)
    requires BAR !in a + b
    ensures BAR !in b
    ensures a + b == b ==> a == []
  {
    assert forall i :: 0 <= i < |b| ==> b[i] == (a + b)[|a| + i];
    if a + b == b {
      assert |a| + |b| == |b|;
    }
  }

  /** Appending to any file whatsoever: the next load knows the hash exactly when
      the file was ended by a newline and neither field holds a bar. */
  lemma SurvivesExactly(f: Bytes, r: Record)
    requires NEWLINE !in r.hash && NEWLINE !in r.status
    requires r.hash !in Load(f)
    ensures r.hash in Load(f + EntryOf(r)) <==> LineEnded(f) && BAR !in r.hash && BAR !in r.status
  {
    var whole, tail := TornSplit(f);
    var line := tail + LineOf(r);
    DigitsFree(Checksum(r.hash, r.status), NEWLINE);
    assert NEWLINE !in line;
    TailJoins(whole, tail, LineOf(r));
    LoadAppend(whole, line + [NEWLINE]);
    LoadLine(line);
    if r.hash in Load(f + EntryOf(r)) {
      assert Load(whole) <= Load(f);
      ReadBack(tail, r);
    }
    if LineEnded(f) && Clean(r) {
      LoadEntry(r);
      LoadAppend(f, EntryOf(r));
    }
  }

  lemma TailJoins(whole: Bytes, tail: Bytes, line: Bytes)
    ensures (whole + tail) + (line + [NEWLINE]) == whole + ((tail + line) + [NEWLINE])
  {
  }

  // ---------------------------------------------------------------- runs of one object

  /** `count` bounds how much of the entry the stream gets through; its state is never
      looked at. */
  datatype Call = Call(record: Record, writable: bool, count: nat)
  datatype Book = Book(ledger: Bytes, known: set<Bytes>)

  predicate TakesEffect(b: Book, c: Call) {
    c.writable && c.record.hash !in b.known
  }

  function Stored(c: Call): Bytes {
    Written(EntryOf(c.record), c.count)
  }

  /** record_mutation: nothing happens to a known hash, nor when the file cannot
      be opened for append. */
  function Recorded(b: Book, c: Call): Book {
    if TakesEffect(b, c) then Book(b.ledger + Stored(c), b.known + {c.record.hash}) else b
  }

  function RunCalls(b: Book, calls: seq<Call>): Book {
    if calls == [] then b else Recorded(RunCalls(b, calls[..|calls| - 1]), calls[|calls| - 1])
  }

  lemma RunCallsPush(b: Book, calls: seq<Call>, c: Call)
    ensures RunCalls(b, calls + [c]) == Recorded(RunCalls(b, calls), c)
  {
    assert (calls + [c])[..|calls|] == calls;
  }

  /** The set in memory is what a fresh object would load, and the file is ready for
      the next record. */
  ghost predicate Agrees(b: Book) {
    LineEnded(b.ledger) && b.known == Load(b.ledger)
  }

  /** What is stored of a record closes its line, loads as its hash and as nothing
      else that is new. */
  ghost predicate ReadsBack(known: set<Bytes>, c: Call) {
    LineEnded(Stored(c)) && c.record.hash in Load(Stored(c)) && Load(Stored(c)) <= known + {c.record.hash}
  }

  lemma AgreesStep(b: Book, c: Call)
    requires Agrees(b) && TakesEffect(b, c)
    ensures Agrees(Recorded(b, c)) <==> ReadsBack(b.known, c)
  {
    LoadAppend(b.ledger, Stored(c));
    EndedConcat(b.ledger, Stored(c));
    SameUnion(b.known, c.record.hash, Load(Stored(c)));
  }

  lemma SameUnion(known: set<Bytes>, h: Bytes, loaded: set<Bytes>)
    requires h !in known
    ensures known + {h} == known + loaded <==> h in loaded && loaded <= known + {h}
  {
    if known + {h} == known + loaded {
      assert h in known + loaded;
      assert forall x :: x in loaded ==> x in known + loaded;
    }
  }

  function BookAt(b: Book, calls: seq<Call>, k: nat): Book
    requires k <= |calls|
  {
    RunCalls(b, calls[..k])
  }

  ghost predicate ReadsBackAt(b: Book, calls: seq<Call>, k: nat)
    requires k < |calls|
  {
    TakesEffect(BookAt(b, calls, k), calls[k]) ==> ReadsBack(BookAt(b, calls, k).known, calls[k])
  }

  lemma AgreesNext(b: Book, calls: seq<Call>, k: nat)
    requires k < |calls| && Agrees(BookAt(b, calls, k))
    ensures Agrees(BookAt(b, calls, k + 1)) <==> ReadsBackAt(b, calls, k)
  {
    assert calls[..k + 1] == calls[..k] + [calls[k]];
    RunCallsPush(b, calls[..k], calls[k]);
    if TakesEffect(BookAt(b, calls, k), calls[k]) {
      AgreesStep(BookAt(b, calls, k), calls[k]);
    }
  }

  lemma {:induction false} AgreesUpTo(b: Book, calls: seq<Call>, k: nat)
    requires Agrees(b) && k <= |calls| && forall j :: 0 <= j < k ==> ReadsBackAt(b, calls, j)
    ensures Agrees(BookAt(b, calls, k))
    decreases k
  {
    if k > 0 {
      AgreesUpTo(b, calls, k - 1);
      AgreesNext(b, calls, k - 1);
    }
  }

  /** For any strings and any writes: cache and disk agree at every moment exactly when
      every record that takes effect reads back. */
  lemma CacheAgreesExactly(b: Book, calls: seq<Call>)
    requires Agrees(b)
    ensures (forall k :: 0 <= k <= |calls| ==> Agrees(BookAt(b, calls, k)))
       <==> (forall k :: 0 <= k < |calls| ==> ReadsBackAt(b, calls, k))
  {
    if forall k :: 0 <= k < |calls| ==> ReadsBackAt(b, calls, k) {
      forall k | 0 <= k <= |calls|
        ensures Agrees(BookAt(b, calls, k))
      {
        AgreesUpTo(b, calls, k);
      }
    }
    if forall k :: 0 <= k <= |calls| ==> Agrees(BookAt(b, calls, k)) {
      forall k | 0 <= k < |calls|
        ensures ReadsBackAt(b, calls, k)
      {
        assert Agrees(BookAt(b, calls, k)) && Agrees(BookAt(b, calls, k + 1));
        AgreesNext(b, calls, k);
      }
    }
  }

  predicate OneLine(r: Record) {
    NEWLINE !in r.hash && NEWLINE !in r.status
  }

  predicate NoBars(r: Record) {
    BAR !in r.hash && BAR !in r.status
  }

  /** A printed record with a bar in a field has too many of them. */
  lemma LoadEntryExactly(r: Record)
    requires OneLine(r)
    ensures Load(EntryOf(r)) == if NoBars(r) then {r.hash} else {}
  {
    if NoBars(r) {
      LoadEntry(r);
    } else {
      DigitsFree(Checksum(r.hash, r.status), NEWLINE);
      LoadLine(LineOf(r));
      if Accepts(LineOf(r)) {
        AcceptedShape(LineOf(r));
        BarCount(r.hash, r.status, Checksum(r.hash, r.status));
        NotCounted(r.hash, BAR);
        NotCounted(r.status, BAR);
      }
    }
  }

  /** Among records without newlines: those stored whole and without bars. */
  lemma ReadsBackExactly(known: set<Bytes>, c: Call)
    requires OneLine(c.record)
    ensures ReadsBack(known, c) <==> c.count >= |EntryOf(c.record)| && NoBars(c.record)
  {
    var e := EntryOf(c.record);
    LoadEntryExactly(c.record);
    if c.count >= |e| {
      WholeSlice(e);
    } else {
      DigitsFree(Checksum(c.record.hash, c.record.status), NEWLINE);
      CutOpen(LineOf(c.record), c.count);
    }
  }

  lemma CutOpen(line: Bytes, count: nat)
    requires NEWLINE !in line && count <= |line|
    ensures NEWLINE !in Written(line + [NEWLINE], count)
    ensures LineEnded(Written(line + [NEWLINE], count)) <==> Written(line + [NEWLINE], count) == []
  {
    assert (line + [NEWLINE])[..count] == line[..count];
    EndedTail(line[..count]);
  }

  ghost predicate NoBarsTakeEffect(b: Book, calls: seq<Call>) {
    forall k :: 0 <= k < |calls| && TakesEffect(BookAt(b, calls, k), calls[k]) ==> NoBars(calls[k].record)
  }

  lemma NoBarsPush(b: Book, calls: seq<Call>, c: Call)
    ensures NoBarsTakeEffect(b, calls + [c]) <==>
      NoBarsTakeEffect(b, calls) && (TakesEffect(RunCalls(b, calls), c) ==> NoBars(c.record))
  {
    var longer := calls + [c];
    assert longer[|calls|] == c && longer[..|calls|] == calls;
    forall k | 0 <= k < |calls|
      ensures longer[k] == calls[k] && BookAt(b, longer, k) == BookAt(b, calls, k)
    {
      assert longer[..k] == calls[..k];
    }
    if NoBarsTakeEffect(b, longer) {
      forall k | 0 <= k < |calls| && TakesEffect(BookAt(b, calls, k), calls[k])
        ensures NoBars(calls[k].record)
      {
        assert TakesEffect(BookAt(b, longer, k), longer[k]);
      }
      assert TakesEffect(RunCalls(b, calls), c) ==> TakesEffect(BookAt(b, longer, |calls|), longer[|calls|]);
    }
  }

  ghost predicate WholeLines(calls: seq<Call>) {
    forall i :: 0 <= i < |calls| ==> OneLine(calls[i].record) && calls[i].count >= |EntryOf(calls[i].record)|
  }

  /** With fields free of newlines and whole writes, a fresh object never knows more
      than the one that wrote, and it knows the same after any calls exactly when no
      call that took effect had a bar in a field. */
  lemma {:induction false} CacheAgreesWithDisk(b: Book, calls: seq<Call>)
    requires Agrees(b) && WholeLines(calls)
    ensures var b' := RunCalls(b, calls);
      && LineEnded(b'.ledger) && Load(b'.ledger) <= b'.known
      && (b'.known == Load(b'.ledger) <==> NoBarsTakeEffect(b, calls))
    decreases |calls|
  {
    if calls == [] {
    } else {
      var front, c := calls[..|calls| - 1], calls[|calls| - 1];
      CacheAgreesWithDisk(b, front);
      SplitLast(calls);
      NoBarsPush(b, front, c);
      RecordedLoads(RunCalls(b, front), c);
    }
  }

  lemma RecordedLoads(b: Book, c: Call)
    requires LineEnded(b.ledger) && Load(b.ledger) <= b.known
    requires OneLine(c.record) && c.count >= |EntryOf(c.record)|
    ensures var b' := Recorded(b, c);
      && LineEnded(b'.ledger) && Load(b'.ledger) <= b'.known
      && (b'.known == Load(b'.ledger) <==>
            b.known == Load(b.ledger) && (TakesEffect(b, c) ==> NoBars(c.record)))
  {
    if TakesEffect(b, c) {
      WholeSlice(EntryOf(c.record));
      LoadEntryExactly(c.record);
      LoadAppend(b.ledger, EntryOf(c.record));
      EndedConcat(b.ledger, EntryOf(c.record));
      SameWithOneMore(Load(b.ledger), b.known, c.record.hash);
    }
  }

  lemma SameWithOneMore(loaded: set<Bytes>, known: set<Bytes>, h: Bytes)
    requires loaded <= known && h !in known
    ensures known + {h} == loaded + {h} <==> known == loaded
    ensures known + {h} != loaded
  {
    if known + {h} == loaded + {h} {
      assert forall x :: x in known ==> x in loaded + {h};
    }
    assert h in known + {h};
  }

  /** record_mutation takes a hash with a bar, but no load ever gives it back. */
  lemma BarForgotten(b: Book, c: Call)
    requires Agrees(b) && TakesEffect(b, c) && OneLine(c.record) && !NoBars(c.record)
    requires c.count >= |EntryOf(c.record)|
    ensures c.record.hash in Recorded(b, c).known && c.record.hash !in Load(Recorded(b, c).ledger)
  {
    WholeSlice(EntryOf(c.record));
    LoadEntryExactly(c.record);
    LoadAppend(b.ledger, EntryOf(c.record));
  }

  /** The calls a fresh object keeps: the first per hash that could open the file. */
  function Kept(calls: seq<Call>): seq<Call> {
    if calls == [] then []
    else
      var kept, c := Kept(calls[..|calls| - 1]), calls[|calls| - 1];
      if c.writable && c.record.hash !in Hashes(Records(kept)) then kept + [c] else kept
  }

  function Records(calls: seq<Call>): seq<Record> {
    seq(|calls|, i requires 0 <= i < |calls| => calls[i].record)
  }

  function StoredAll(calls: seq<Call>): Bytes {
    if calls == [] then [] else StoredAll(calls[..|calls| - 1]) + Stored(calls[|calls| - 1])
  }

  /** The file is what was stored of those, one record per known hash. */
  lemma {:induction false} OneRecordPerHash(calls: seq<Call>)
    ensures RunCalls(Book([], {}), calls) == Book(StoredAll(Kept(calls)), Hashes(Records(Kept(calls))))
    ensures DistinctHashes(Records(Kept(calls)))
    decreases |calls|
  {
    if calls == [] {
    } else {
      var front, c := calls[..|calls| - 1], calls[|calls| - 1];
      OneRecordPerHash(front);
      RecordedKeeps(Kept(front), c);
    }
  }

  lemma RecordedKeeps(kept: seq<Call>, c: Call)
    requires DistinctHashes(Records(kept))
    ensures var known := Hashes(Records(kept));
      var kept' := if c.writable && c.record.hash !in known then kept + [c] else kept;
      && Recorded(Book(StoredAll(kept), known), c) == Book(StoredAll(kept'), Hashes(Records(kept')))
      && DistinctHashes(Records(kept'))
  {
    assert (kept + [c])[..|kept|] == kept;
    assert Records(kept + [c]) == Records(kept) + [c.record];
    HashesPush(Records(kept), c.record);
    if c.record.hash !in Hashes(Records(kept)) {
      DistinctPush(Records(kept), c.record);
    }
  }

  /** With whole writes that is the printed ledger of the kept records. */
  lemma {:induction false} StoredIsPrinted(kept: seq<Call>)
    requires forall i :: 0 <= i < |kept| ==> kept[i].count >= |EntryOf(kept[i].record)|
    ensures StoredAll(kept) == Print(Records(kept))
    decreases |kept|
  {
    if kept == [] {
    } else {
      var front, c := kept[..|kept| - 1], kept[|kept| - 1];
      StoredIsPrinted(front);
      WholeSlice(EntryOf(c.record));
      assert Records(kept) == Records(front) + [c.record];
      PrintPush(Records(front), c.record);
    }
  }

  lemma DistinctPush(rs: seq<Record>, r: Record)
    requires DistinctHashes(rs) && r.hash !in Hashes(rs)
    ensures DistinctHashes(rs + [r])
  {
    forall i | 0 <= i < |rs|
      ensures rs[i].hash != r.hash
    {
      assert rs[i] in rs;
    }
  }

  // ---------------------------------------------------------------- the class

  class Moltbook {
    var ledger: Bytes
    var known: set<Bytes>

    ghost function View(): Book
      reads this
    {
      Book(ledger, known)
    }

    constructor (ledger: Bytes)
      ensures View() == Book(ledger, Load(ledger))
    {
      this.ledger := ledger;
      this.known := {};
      new;
      LoadLedger();
    }

    method LoadLedger()
      modifies `known
      ensures View() == Book(old(ledger), old(known) + Load(ledger))
    {
      var file := new InStream(ledger);
      ghost var done: seq<Bytes> := [];
      var more := true;
      while more
        invariant file.Valid()
        invariant Lines(ledger) == done + Lines(file.Rest())
        invariant !file.good || !more ==> file.Rest() == []
        invariant known == old(known) + LoadedLines(done)
        decreases more, |file.Rest()|
        modifies file, `known
      {
        ghost var rest := file.Rest();
        var line;
        more, line := file.GetLine(NEWLINE);
        if more {
          TakeLine(done, rest, line, file.Rest());
          done := done + [line];
          Admit(line);
        }
      }
    }

    /** The body of that loop. */
    method Admit(line: Bytes)
      requires NEWLINE !in line
      modifies `known
      ensures known == old(known) + if Accepts(line) then {ParseLine(line).hash} else {}
    {
      var accepted, hash := CheckLine(line);
      if accepted {
        known := known + {hash};
      }
    }

    method IsKnown(hash: Bytes) returns (b: bool)
      ensures b <==> hash in known
    {
      b := hash in known;
    }

    method RecordMutation(hash: Bytes, status: Bytes, writable: bool, count: nat)
      modifies this
      ensures View() == Recorded(old(View()), Call(Record(hash, status), writable, count))
    {
      var seen := IsKnown(hash);
      if seen {
        return;
      }
      if writable {
        var raw := hash + [BAR] + status;
        var checksum := HashLoop(raw, SignExtended);
        ledger := ledger + Written(raw + [BAR] + Dec(checksum) + [NEWLINE], count);
        known := known + {hash};
      }
    }
  }

  /** One line moves from the unread text to the lines done. */
  lemma TakeLine(done: seq<Bytes>, rest: Bytes, line: Bytes, rest': Bytes)
    requires rest != [] && Taken(rest, NEWLINE, line, rest')
    ensures NEWLINE !in line
    ensures done + Lines(rest) == (done + [line]) + Lines(rest')
    ensures LoadedLines(done + [line]) == LoadedLines(done) + (if Accepts(line) then {ParseLine(line).hash} else {})
  {
    LinesTaken(rest, line, rest');
    Associate(done, [line], Lines(rest'));
    LoadedPush(done, line);
  }

  lemma LoadedPush(lines: seq<Bytes>, line: Bytes)
    ensures LoadedLines(lines + [line]) ==
            LoadedLines(lines) + (if Accepts(line) then {ParseLine(line).hash} else {})
  {
    assert forall l :: l in lines + [line] <==> l in lines || l == line;
    assert line in lines + [line];
  }

  /** The test of one line in load_ledger. */
  method CheckLine(line: Bytes) returns (accepted: bool, hash: Bytes)
    requires NEWLINE !in line
    ensures accepted <==> Accepts(line)
    ensures accepted ==> hash == ParseLine(line).hash
  {
    hash := [];
    var p := ParseRecord(line);
    if p.NoFields? {
      return false, hash;
    }
    var checksum := HashLoop(p.hash + [BAR] + p.status, SignExtended);
    accepted, hash := Dec(checksum) == p.sum, p.hash;
  }

  method ParseRecord(line: Bytes) returns (p: Parsed)
    requires NEWLINE !in line
    ensures p == ParseLine(line)
  {
    var iss := new InStream(line);
    var ok, hash := iss.GetLine(BAR);
    if !ok {
      return NoFields;
    }
    ghost var i := IndexOf(line, BAR);
    ghost var afterHash := iss.Rest();
    var status, sum;
    ok, status := iss.GetLine(BAR);
    if !ok {
      return NoFields;
    }
    assert i < |line| && afterHash == line[i + 1..];
    SliceFree(line, NEWLINE, i + 1);
    ghost var third := iss.Rest();
    ok, sum := iss.GetLine(NEWLINE);
    if !ok {
      return NoFields;
    }
    SliceFree(afterHash, NEWLINE, IndexOf(afterHash, BAR) + 1);
    IndexOfAbsent(third, NEWLINE);
    WholeSlice(third);
    p := Fields(hash, status, sum);
  }
}
