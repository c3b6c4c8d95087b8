/** include/QuarantineRegistry.hpp and include/HiveMind.hpp: append-only ledgers
    that are queried by a substring search for `key + separator`. */
module DelimitedLedgers {
  import opened Basics
  import opened Bytes

  // ---------------------------------------------------------------- the search

  /** One appended entry is key + separator + rest; `count` bounds how much of it the
      write gets through. */
  datatype Item = Item(key: Bytes, rest: Bytes)
  datatype Piece = Piece(item: Item, count: nat)

  function Entry(it: Item, sep: Bytes): Bytes {
    it.key + (sep + it.rest)
  }

  /** The ledger after these writes, whole or cut short. */
  function Text(pre: Bytes, ps: seq<Piece>, sep: Bytes): Bytes {
    if ps == [] then pre
    else
      var last := ps[|ps| - 1];
      Text(pre, ps[..|ps| - 1], sep) + Written(Entry(last.item, sep), last.count)
  }

  lemma TextPush(pre: Bytes, ps: seq<Piece>, p: Piece, sep: Bytes)
    ensures Text(pre, ps + [p], sep) == Text(pre, ps, sep) + Written(Entry(p.item, sep), p.count)
  {
    assert (ps + [p])[..|ps|] == ps;
  }

  /** The last byte of the separator occurs in the entry only at the end of the
      separator. */
  ghost predicate WellSeparated(it: Item, sep: Bytes) {
    && sep != []
    && forall i :: 0 <= i < |Entry(it, sep)| && Entry(it, sep)[i] == sep[|sep| - 1] ==> i == |it.key| + |sep| - 1
  }

  /** The write got past the separator. */
  predicate Landed(p: Piece, sep: Bytes) {
    p.count >= |p.item.key| + |sep|
  }

  lemma LandedWrite(p: Piece, sep: Bytes)
    requires Landed(p, sep)
    ensures var w := Written(Entry(p.item, sep), p.count);
      |w| >= |p.item.key| + |sep| && w[..|p.item.key| + |sep|] == p.item.key + sep
  {
  }

  /** Where the separator ends in what was written, if it does. */
  lemma SeparatorEnd(p: Piece, sep: Bytes, j: nat)
    requires WellSeparated(p.item, sep)
    requires var w := Written(Entry(p.item, sep), p.count); j < |w| && w[j] == sep[|sep| - 1]
    ensures Landed(p, sep) && j == |p.item.key| + |sep| - 1
  {
    assert Entry(p.item, sep)[j] == sep[|sep| - 1];
  }

  lemma SuffixOfPrefix(x: Bytes, y: Bytes, s: Bytes, i: nat)
    requires i + |x| == |y| && OccursAt(y + s, x + s, i)
    ensures IsSuffix(x, y)
  {
    assert (y + s)[i..i + |x + s|][..|x|] == y[i..];
    assert (x + s)[..|x|] == x;
  }

  lemma OccursInPrefix(a: Bytes, b: Bytes, needle: Bytes, i: nat)
    requires i + |needle| <= |a| && OccursAt(a + b, needle, i)
    ensures OccursAt(a, needle, i)
  {
    assert (a + b)[i..i + |needle|] == a[i..i + |needle|];
  }

  lemma LastOfMatch(hay: Bytes, q: Bytes, sep: Bytes, i: nat)
    requires sep != [] && OccursAt(hay, q + sep, i)
    ensures hay[i + |q| + |sep| - 1] == sep[|sep| - 1]
  {
    assert hay[i..i + |q + sep|][|q| + |sep| - 1] == sep[|sep| - 1];
  }

  /** A match that is not in the old text ends where the new key and separator end. */
  lemma NewMatch(pre: Bytes, p: Piece, sep: Bytes, q: Bytes, i: nat)
    requires WellSeparated(p.item, sep)
    requires OccursAt(pre + Written(Entry(p.item, sep), p.count), q + sep, i) && i + |q + sep| > |pre|
    ensures Landed(p, sep) && IsSuffix(q, pre + p.item.key)
  {
    var w, key := Written(Entry(p.item, sep), p.count), p.item.key;
    var j := i + |q| + |sep| - 1 - |pre|;
    LastOfMatch(pre + w, q, sep, i);
    assert w[j] == (pre + w)[|pre| + j];
    SeparatorEnd(p, sep, j);
    LandedWrite(p, sep);
    assert pre + w == ((pre + key) + sep) + w[|key| + |sep|..];
    OccursInPrefix((pre + key) + sep, w[|key| + |sep|..], q + sep, i);
    SuffixOfPrefix(q, pre + key, sep, i);
  }

  lemma SuffixMatches(pre: Bytes, p: Piece, sep: Bytes, q: Bytes)
    requires Landed(p, sep) && IsSuffix(q, pre + p.item.key)
    ensures Occurs(pre + Written(Entry(p.item, sep), p.count), q + sep)
  {
    var w, key := Written(Entry(p.item, sep), p.count), p.item.key;
    LandedWrite(p, sep);
    var all, i := pre + w, |pre + key| - |q|;
    assert all == (pre + key) + (sep + w[|key| + |sep|..]);
    assert all[i..i + |q + sep|] == (pre + key)[i..] + sep;
    assert OccursAt(all, q + sep, i);
  }

  /** What one write, whole or cut short, adds to the answers: the keys that end the
      old text and the new key together, once the separator is written. */
  lemma CutAppend(pre: Bytes, p: Piece, sep: Bytes, q: Bytes)
    requires WellSeparated(p.item, sep)
    ensures Occurs(pre + Written(Entry(p.item, sep), p.count), q + sep)
       <==> Occurs(pre, q + sep) || (Landed(p, sep) && IsSuffix(q, pre + p.item.key))
  {
    var w := Written(Entry(p.item, sep), p.count);
    if Occurs(pre, q + sep) {
      OccursInConcat([], pre, w, q + sep);
      assert [] + pre + w == pre + w;
    }
    if Landed(p, sep) && IsSuffix(q, pre + p.item.key) {
      SuffixMatches(pre, p, sep, q);
    }
    if i: nat :| OccursAt(pre + w, q + sep, i) {
      if i + |q + sep| <= |pre| {
        OccursInPrefix(pre, w, q + sep, i);
      } else {
        NewMatch(pre, p, sep, q, i);
      }
    }
  }

  /** The i-th write makes q an answer. */
  ghost predicate Hit(pre: Bytes, ps: seq<Piece>, sep: Bytes, q: Bytes, i: nat)
    requires i < |ps|
  {
    Landed(ps[i], sep) && IsSuffix(q, Text(pre, ps[..i], sep) + ps[i].item.key)
  }

  ghost predicate SomeHit(pre: Bytes, ps: seq<Piece>, sep: Bytes, q: Bytes) {
    exists i :: 0 <= i < |ps| && Hit(pre, ps, sep, q, i)
  }

  lemma SomeHitPush(pre: Bytes, ps: seq<Piece>, p: Piece, sep: Bytes, q: Bytes)
    ensures SomeHit(pre, ps + [p], sep, q) <==>
      SomeHit(pre, ps, sep, q) || (Landed(p, sep) && IsSuffix(q, Text(pre, ps, sep) + p.item.key))
  {
    var longer := ps + [p];
    assert longer[..|ps|] == ps && longer[|ps|] == p;
    forall i | 0 <= i < |ps|
      ensures Hit(pre, longer, sep, q, i) <==> Hit(pre, ps, sep, q, i)
    {
      assert longer[..i] == ps[..i];
    }
    if SomeHit(pre, ps, sep, q) {
      var i :| 0 <= i < |ps| && Hit(pre, ps, sep, q, i);
      assert Hit(pre, longer, sep, q, i);
    }
    if Landed(p, sep) && IsSuffix(q, Text(pre, ps, sep) + p.item.key) {
      assert Hit(pre, longer, sep, q, |ps|);
    }
  }

  /** After any writes to any text, whole or cut short, the search finds q exactly
      when it did before or when q ends the text and key of some write that got past
      its separator. */
  lemma {:induction false} FoundExactly(pre: Bytes, ps: seq<Piece>, sep: Bytes, q: Bytes)
    requires forall i :: 0 <= i < |ps| ==> WellSeparated(ps[i].item, sep)
    ensures Occurs(Text(pre, ps, sep), q + sep) <==> Occurs(pre, q + sep) || SomeHit(pre, ps, sep, q)
    decreases |ps|
  {
    if ps == [] {
    } else {
      var front, last := ps[..|ps| - 1], ps[|ps| - 1];
      FoundExactly(pre, front, sep, q);
      CutAppend(Text(pre, front, sep), last, sep, q);
      SplitLast(ps);
      SomeHitPush(pre, front, last, sep, q);
    }
  }

  /** Digits, or anything but a newline. */
  datatype Class = Digits | OneLine

  predicate In(c: Byte, cls: Class) {
    if cls.Digits? then IsDigit(c) else c != NEWLINE
  }

  /** The longest end of s that consists of bytes of this class. */
  function Trailing(s: Bytes, cls: Class): Bytes {
    if s == [] || !In(s[|s| - 1], cls) then [] else Trailing(s[..|s| - 1], cls) + [s[|s| - 1]]
  }

  ghost predicate All(s: Bytes, cls: Class) {
    forall i :: 0 <= i < |s| ==> In(s[i], cls)
  }

  lemma {:induction false} TrailingShape(s: Bytes, cls: Class)
    ensures All(Trailing(s, cls), cls) && IsSuffix(Trailing(s, cls), s)
    decreases |s|
  {
    if s != [] && In(s[|s| - 1], cls) {
      TrailingShape(s[..|s| - 1], cls);
      SuffixExtends(Trailing(s[..|s| - 1], cls), s[..|s| - 1], [s[|s| - 1]]);
      SplitLast(s);
    } else {
      assert s[|s|..] == [];
    }
  }

  lemma {:induction false} TrailingLongest(s: Bytes, x: Bytes, cls: Class)
    requires IsSuffix(x, s) && All(x, cls)
    ensures IsSuffix(x, Trailing(s, cls))
    decreases |s|
  {
    if x != [] {
      assert x[|x| - 1] == s[|s| - 1];
      var x', s' := x[..|x| - 1], s[..|s| - 1];
      assert s'[|s'| - |x'|..] == x';
      TrailingLongest(s', x', cls);
      SuffixExtends(x', Trailing(s', cls), [s[|s| - 1]]);
      SplitLast(x);
    }
  }

  /** Only the bytes of q's kind in front of the key matter for q. */
  lemma {:induction false} SuffixOfGlued(pre: Bytes, key: Bytes, q: Bytes, cls: Class)
    requires All(q, cls)
    ensures IsSuffix(q, pre + key) <==> IsSuffix(q, Trailing(pre, cls) + key)
  {
    if IsSuffix(q, pre + key) {
      if |q| <= |key| {
        SuffixWithin(q, pre, key);
        SuffixBehind(q, Trailing(pre, cls), key);
      } else {
        SuffixAcross(pre, key, q, cls);
      }
    }
    TrailingShape(pre, cls);
    SuffixExtends(Trailing(pre, cls), pre, key);
    if IsSuffix(q, Trailing(pre, cls) + key) {
      SuffixTransitive(q, Trailing(pre, cls) + key, pre + key);
    }
  }

  lemma {:induction false} SuffixAcross(pre: Bytes, key: Bytes, q: Bytes, cls: Class)
    requires IsSuffix(q, pre + key) && |q| > |key| && All(q, cls)
    ensures IsSuffix(q, Trailing(pre, cls) + key)
  {
    var x := q[..|q| - |key|];
    SuffixSplit(pre, key, q, x);
    TrailingLongest(pre, x, cls);
    SuffixExtends(x, Trailing(pre, cls), key);
  }

  lemma SuffixSplit(pre: Bytes, key: Bytes, q: Bytes, x: Bytes)
    requires IsSuffix(q, pre + key) && |q| > |key| && x == q[..|q| - |key|]
    ensures q == x + key && IsSuffix(x, pre)
  {
    assert q == (pre + key)[|pre + key| - |q|..];
    assert x == pre[|pre| - |x|..];
  }

  // ---------------------------------------------------------------- reading and appending

  const BUFFER: nat := 4096

  /** The read(2) loop of both classes: any positive count up to the buffer size
      may come back; `readable` bytes arrive before end of file or an error. */
  method ReadAll(file: Bytes, readable: nat) returns (content: Bytes)
    ensures content == file[..Min(readable, |file|)]
  {
    content := [];
    var limit := Min(readable, |file|);
    while |content| < limit
      invariant |content| <= limit && content == file[..|content|]
    {
      var n: nat :| 0 < n <= BUFFER && n <= limit - |content|;
      content := content + file[|content|..|content| + n];
    }
  }

  /** The outcomes of the system calls around one access. */
  datatype Access = Access(canOpen: bool, canLock: bool, count: nat)

  // ---------------------------------------------------------------- QuarantineRegistry

  const BAN_SEPARATOR: Bytes := " |"

  datatype Ban = Ban(hash: nat, exitCode: int)

  function BanItem(b: Ban): Item {
    Item(Dec(b.hash), " EXIT_CODE: " + DecInt(b.exitCode) + [NEWLINE])
  }

  ghost predicate Banned(ledger: Bytes, hash: nat) {
    Occurs(ledger, Dec(hash) + BAN_SEPARATOR)
  }

  lemma BanItemWellSeparated(b: Ban)
    ensures WellSeparated(BanItem(b), BAN_SEPARATOR)
  {
    var key, code := Dec(b.hash), DecInt(b.exitCode);
    var rest := " EXIT_CODE: " + code + [NEWLINE];
    assert forall i :: 0 <= i < |code| ==> code[i] != '|';
    assert forall i :: 0 <= i < |rest| ==> rest[i] != '|';
    BarOnce(key, rest);
  }

  lemma BarOnce(key: Bytes, rest: Bytes)
    requires AllDigits(key) && forall i :: 0 <= i < |rest| ==> rest[i] != '|'
    ensures var e := key + (BAN_SEPARATOR + rest);
      forall i :: 0 <= i < |e| && e[i] == '|' ==> i == |key| + 1
  {
  }

  /** No false negatives, ever: once the write reached past the separator, no
      later append, complete or truncated, hides the ban. */
  lemma BanPersists(before: Bytes, b: Ban, count: nat, later: Bytes)
    requires count >= |Dec(b.hash)| + |BAN_SEPARATOR|
    ensures Banned(before + Written(Entry(BanItem(b), BAN_SEPARATOR), count) + later, b.hash)
  {
    var e := Entry(BanItem(b), BAN_SEPARATOR);
    var needle := Dec(b.hash) + BAN_SEPARATOR;
    var w := Written(e, count);
    assert w[0..0 + |needle|] == needle;
    assert OccursAt(w, needle, 0);
    OccursInConcat(before, w, later, needle);
  }

  function Content(ledger: Option<Bytes>): Bytes {
    if ledger.Some? then ledger.value else []
  }

  /** is_banned fails open when the ledger cannot be opened, closed when it cannot
      be locked. */
  ghost predicate BannedAnswer(ledger: Option<Bytes>, hash: nat, a: Access) {
    && ledger.Some? && a.canOpen
    && (!a.canLock || Banned(ledger.value[..Min(a.count, |ledger.value|)], hash))
  }

  /** Nothing is banned by a ledger that is not there or does not open, everything by one
      that opens and cannot be locked. */
  lemma AnswerWithoutReading(ledger: Option<Bytes>, hash: nat, a: Access)
    ensures ledger.None? || !a.canOpen ==> !BannedAnswer(ledger, hash, a)
    ensures ledger.Some? && a.canOpen && !a.canLock ==> BannedAnswer(ledger, hash, a)
  {
  }

  /** A ledger that is read to its end answers what the search finds. */
  lemma AnswerFromReading(ledger: Bytes, hash: nat, a: Access)
    requires a.canOpen && a.canLock && a.count >= |ledger|
    ensures BannedAnswer(Some(ledger), hash, a) <==> Occurs(ledger, Dec(hash) + " |")
  {
    WholeSlice(ledger);
  }

  /** A ban that opens the ledger creates it if need be, locked or not; one that does
      not open it leaves no trace. */
  lemma AfterBanExactly(ledger: Option<Bytes>, b: Ban, a: Access)
    ensures !a.canOpen ==> AfterBan(ledger, b, a) == ledger
    ensures a.canOpen && !a.canLock ==> AfterBan(ledger, b, a) == Some(if ledger.Some? then ledger.value else [])
    ensures a.canOpen && a.canLock && a.count >= |BanEntry(b.hash, b.exitCode)| ==>
      AfterBan(ledger, b, a) == Some((if ledger.Some? then ledger.value else []) + BanEntry(b.hash, b.exitCode))
  {
    WholeSlice(BanEntry(b.hash, b.exitCode));
    assert Content(ledger) + [] == Content(ledger);
  }

  /** The line of a ban, in characters. */
  lemma BanLine(hash: nat, exitCode: int)
    ensures BanEntry(hash, exitCode) == Dec(hash) + (" |" + (" EXIT_CODE: " + DecInt(exitCode) + "\n"))
  {
  }

  function AfterBan(ledger: Option<Bytes>, b: Ban, a: Access): Option<Bytes> {
    if !a.canOpen then ledger
    else Some(Content(ledger) + if a.canLock then Written(Entry(BanItem(b), BAN_SEPARATOR), a.count) else [])
  }

  // Runs of bans, in any ledger and with any outcome of the system calls.

  datatype Write = Write(ban: Ban, access: Access)

  function RunBans(ledger: Option<Bytes>, ws: seq<Write>): Option<Bytes> {
    if ws == [] then ledger
    else
      var last := ws[|ws| - 1];
      AfterBan(RunBans(ledger, ws[..|ws| - 1]), last.ban, last.access)
  }

  function BanPiece(w: Write): Piece {
    Piece(BanItem(w.ban), if w.access.canOpen && w.access.canLock then w.access.count else 0)
  }

  function BanPieces(ws: seq<Write>): seq<Piece> {
    seq(|ws|, i requires 0 <= i < |ws| => BanPiece(ws[i]))
  }

  /** The ban's decimal and separator reached the ledger. */
  predicate Lands(w: Write) {
    Landed(BanPiece(w), BAN_SEPARATOR)
  }

  lemma {:induction false} BansText(ledger: Option<Bytes>, ws: seq<Write>)
    ensures Content(RunBans(ledger, ws)) == Text(Content(ledger), BanPieces(ws), BAN_SEPARATOR)
    decreases |ws|
  {
    if ws == [] {
    } else {
      var front, last := ws[..|ws| - 1], ws[|ws| - 1];
      BansText(ledger, front);
      BanPiecesPush(ws);
      TextPush(Content(ledger), BanPieces(front), BanPiece(last), BAN_SEPARATOR);
      BanAppends(RunBans(ledger, front), last);
    }
  }

  lemma BanPiecesPush(ws: seq<Write>)
    requires ws != []
    ensures BanPieces(ws) == BanPieces(ws[..|ws| - 1]) + [BanPiece(ws[|ws| - 1])]
  {
  }

  lemma BanAppends(ledger: Option<Bytes>, w: Write)
    ensures Content(AfterBan(ledger, w.ban, w.access))
         == Content(ledger) + Written(Entry(BanItem(w.ban), BAN_SEPARATOR), BanPiece(w).count)
  {
    assert Content(ledger) + [] == Content(ledger);
  }

  /** The digits a reader takes for the key of the i-th ban: its decimal, and in front
      of it the digits the ledger ended in. */
  function Glued(ledger: Option<Bytes>, ws: seq<Write>, i: nat): (s: Bytes)
    requires i < |ws|
    ensures s != [] && AllDigits(s)
  {
    TrailingShape(Content(RunBans(ledger, ws[..i])), Digits);
    Trailing(Content(RunBans(ledger, ws[..i])), Digits) + Dec(ws[i].ban.hash)
  }

  ghost predicate BanHit(ledger: Option<Bytes>, ws: seq<Write>, hash: nat, i: nat)
    requires i < |ws|
  {
    Lands(ws[i]) && IsSuffix(Dec(hash), Glued(ledger, ws, i))
  }

  ghost predicate SomeBanHit(ledger: Option<Bytes>, ws: seq<Write>, hash: nat) {
    exists i :: 0 <= i < |ws| && BanHit(ledger, ws, hash, i)
  }

  lemma {:induction false} BanHits(ledger: Option<Bytes>, ws: seq<Write>, hash: nat, i: nat)
    requires i < |ws|
    ensures Hit(Content(ledger), BanPieces(ws), BAN_SEPARATOR, Dec(hash), i) <==> BanHit(ledger, ws, hash, i)
  {
    var pre := Content(RunBans(ledger, ws[..i]));
    BansText(ledger, ws[..i]);
    assert BanPieces(ws)[..i] == BanPieces(ws[..i]);
    SuffixOfGlued(pre, Dec(ws[i].ban.hash), Dec(hash), Digits);
  }

  /** is_banned after any sequence of bans, whole, cut short or failed: exactly the
      hashes banned before and those whose decimal ends what a landed ban shows. */
  lemma {:induction false} BannedExactly(ledger: Option<Bytes>, ws: seq<Write>, hash: nat)
    ensures Banned(Content(RunBans(ledger, ws)), hash) <==>
      Banned(Content(ledger), hash) || SomeBanHit(ledger, ws, hash)
  {
    var pre, ps := Content(ledger), BanPieces(ws);
    forall i | 0 <= i < |ps|
      ensures WellSeparated(ps[i].item, BAN_SEPARATOR)
    {
      BanItemWellSeparated(ws[i].ban);
    }
    BansText(ledger, ws);
    FoundExactly(pre, ps, BAN_SEPARATOR, Dec(hash));
    if i :| 0 <= i < |ps| && Hit(pre, ps, BAN_SEPARATOR, Dec(hash), i) {
      BanHits(ledger, ws, hash, i);
    }
    if i :| 0 <= i < |ws| && BanHit(ledger, ws, hash, i) {
      BanHits(ledger, ws, hash, i);
    }
  }

  lemma NothingBanned(hash: nat)
    ensures !Banned([], hash)
  {
  }

  /** Some landed ban's own decimal ends with that of hash. */
  ghost predicate Recorded(ws: seq<Write>, hash: nat) {
    exists i :: 0 <= i < |ws| && Lands(ws[i]) && IsSuffix(Dec(hash), Dec(ws[i].ban.hash))
  }

  lemma RecordedHits(ws: seq<Write>, hash: nat)
    requires Recorded(ws, hash)
    ensures SomeBanHit(None, ws, hash)
  {
    var i :| 0 <= i < |ws| && Lands(ws[i]) && IsSuffix(Dec(hash), Dec(ws[i].ban.hash));
    SuffixBehind(Dec(hash), Trailing(Content(RunBans(None, ws[..i])), Digits), Dec(ws[i].ban.hash));
    assert BanHit(None, ws, hash, i);
  }

  /** The number those digits spell. */
  ghost function Shown(ws: seq<Write>, i: nat): nat
    requires i < |ws|
  {
    ValueNat(Glued(None, ws, i));
    Value(Glued(None, ws, i))
  }

  ghost predicate ShownAreRecorded(ws: seq<Write>) {
    forall i :: 0 <= i < |ws| && Lands(ws[i]) ==> Recorded(ws, Shown(ws, i))
  }

  ghost predicate OnlyRecorded(ws: seq<Write>) {
    forall hash: nat :: Banned(Content(RunBans(None, ws)), hash) <==> Recorded(ws, hash)
  }

  /** From an absent ledger the answers are those of the recorded decimals exactly when
      every landed ban shows a number that some recorded decimal ends with. */
  lemma {:induction false} OnlyRecordedExactly(ws: seq<Write>)
    ensures ShownAreRecorded(ws) ==> OnlyRecorded(ws)
    ensures OnlyRecorded(ws) ==> ShownAreRecorded(ws)
  {
    if ShownAreRecorded(ws) {
      forall hash: nat
        ensures Banned(Content(RunBans(None, ws)), hash) <==> Recorded(ws, hash)
      {
        BannedExactly(None, ws, hash);
        if Recorded(ws, hash) {
          RecordedHits(ws, hash);
        }
        if Banned(Content(RunBans(None, ws)), hash) {
          BannedIsShown(ws, hash);
        }
      }
    }
    if OnlyRecorded(ws) {
      forall i | 0 <= i < |ws| && Lands(ws[i])
        ensures Recorded(ws, Shown(ws, i))
      {
        ShownIsBanned(ws, i);
      }
    }
  }

  lemma {:induction false} ShownIsBanned(ws: seq<Write>, i: nat)
    requires i < |ws| && Lands(ws[i])
    ensures Banned(Content(RunBans(None, ws)), Shown(ws, i))
  {
    CanonicalSuffix(Glued(None, ws, i));
    assert BanHit(None, ws, Shown(ws, i), i);
    BannedExactly(None, ws, Shown(ws, i));
  }

  lemma {:induction false} BannedIsShown(ws: seq<Write>, hash: nat)
    requires Banned(Content(RunBans(None, ws)), hash) && ShownAreRecorded(ws)
    ensures Recorded(ws, hash)
  {
    BannedExactly(None, ws, hash);
    NothingBanned(hash);
    var i :| 0 <= i < |ws| && BanHit(None, ws, hash, i);
    SuffixOfCanonical(hash, Glued(None, ws, i));
    EndOfRecorded(ws, Shown(ws, i), hash);
  }

  lemma EndOfRecorded(ws: seq<Write>, n: nat, hash: nat)
    requires Recorded(ws, n) && IsSuffix(Dec(hash), Dec(n))
    ensures Recorded(ws, hash)
  {
    var j :| 0 <= j < |ws| && Lands(ws[j]) && IsSuffix(Dec(n), Dec(ws[j].ban.hash));
    SuffixTransitive(Dec(hash), Dec(n), Dec(ws[j].ban.hash));
  }

  /** In particular when no landed ban met a ledger that ended in a digit. */
  lemma {:induction false} CleanTailsSuffice(ws: seq<Write>, hash: nat)
    requires forall i :: 0 <= i < |ws| && Lands(ws[i]) ==> Trailing(Content(RunBans(None, ws[..i])), Digits) == []
    ensures Banned(Content(RunBans(None, ws)), hash) <==> Recorded(ws, hash)
  {
    forall i | 0 <= i < |ws| && Lands(ws[i])
      ensures Recorded(ws, Shown(ws, i))
    {
      CleanTail(ws, i);
    }
    OnlyRecordedExactly(ws);
    assert OnlyRecorded(ws);
  }

  lemma {:induction false} CleanTail(ws: seq<Write>, i: nat)
    requires i < |ws| && Lands(ws[i]) && Trailing(Content(RunBans(None, ws[..i])), Digits) == []
    ensures Recorded(ws, Shown(ws, i))
  {
    var hash := ws[i].ban.hash;
    assert [] + Dec(hash) == Dec(hash);
    DecValue(hash);
    WholeSuffix(Dec(hash));
  }

  /** Among hashes with equally many digits the answer is exact membership, however
      the writes were cut. */
  lemma {:induction false} ExactAmongEqualLengths(ws: seq<Write>, hash: nat)
    requires forall i :: 0 <= i < |ws| ==> |Dec(ws[i].ban.hash)| == |Dec(hash)|
    ensures Banned(Content(RunBans(None, ws)), hash) <==>
      exists i :: 0 <= i < |ws| && Lands(ws[i]) && ws[i].ban.hash == hash
  {
    BannedExactly(None, ws, hash);
    NothingBanned(hash);
    if i :| 0 <= i < |ws| && BanHit(None, ws, hash, i) {
      EqualLengthHit(ws, hash, i);
    }
    if i :| 0 <= i < |ws| && Lands(ws[i]) && ws[i].ban.hash == hash {
      WholeSuffix(Dec(hash));
      assert Recorded(ws, hash);
      RecordedHits(ws, hash);
    }
  }

  lemma {:induction false} EqualLengthHit(ws: seq<Write>, hash: nat, i: nat)
    requires i < |ws| && BanHit(None, ws, hash, i) && |Dec(ws[i].ban.hash)| == |Dec(hash)|
    ensures ws[i].ban.hash == hash
  {
    var key := Dec(ws[i].ban.hash);
    SuffixWithin(Dec(hash), Trailing(Content(RunBans(None, ws[..i])), Digits), key);
    SuffixSameLength(Dec(hash), key);
    DecInjective(hash, ws[i].ban.hash);
  }

  const WHOLE := Access(true, true, 100)

  /** The delimiter does not rule out collisions as the file's header comment
      says: with only 1234 banned, 34 is answered as banned. */
  lemma SuffixCollision()
    ensures Banned(Content(RunBans(None, [Write(Ban(1234, 1), WHOLE)])), 34)
  {
    var ws := [Write(Ban(1234, 1), WHOLE)];
    SmallDecimals();
    assert Lands(ws[0]) && IsSuffix(Dec(34), Dec(ws[0].ban.hash));
    RecordedHits(ws, 34);
    BannedExactly(None, ws, 34);
  }

  lemma SmallDecimals()
    ensures Dec(34) == "34" && Dec(1234) == "1234"
  {
    assert Dec(1) == "1" && Dec(3) == "3";
    assert Dec(12) == "12";
    assert Dec(123) == "123";
  }

  function CutBan(hash: nat): Write {
    Write(Ban(hash, 1), Access(true, true, |Dec(hash)|))
  }

  function WholeBan(hash: nat): Write {
    Write(Ban(hash, 1), Access(true, true, |Dec(hash)| + |BAN_SEPARATOR|))
  }

  /** A write cut behind its digits lends them to the next one: n cut short and then
      hash, n > 0, ban the number written as n and hash in a row (12 and 34 ban 1234),
      with which neither decimal ends. */
  lemma {:induction false} CutBanCollides(n: nat, hash: nat)
    requires n > 0
    ensures Value(Dec(n) + Dec(hash)) >= 0
    ensures Banned(Content(RunBans(None, [CutBan(n), WholeBan(hash)])), Value(Dec(n) + Dec(hash)))
    ensures !Recorded([CutBan(n), WholeBan(hash)], Value(Dec(n) + Dec(hash)))
  {
    CanonicalBehind(n, Dec(hash));
    CutBanGlued(n, hash);
    WholeBanLands(n, hash);
    ShownIsBanned([CutBan(n), WholeBan(hash)], 1);
    TooLongToRecord(n, hash, Value(Dec(n) + Dec(hash)));
  }

  lemma WholeBanLands(n: nat, hash: nat)
    ensures Lands(WholeBan(hash)) && !Lands(CutBan(n))
  {
  }

  lemma TooLongToRecord(n: nat, hash: nat, both: nat)
    requires |Dec(both)| > |Dec(hash)|
    ensures !Recorded([CutBan(n), WholeBan(hash)], both)
  {
    WholeBanLands(n, hash);
  }

  lemma CutBanGlued(n: nat, hash: nat)
    ensures Glued(None, [CutBan(n), WholeBan(hash)], 1) == Dec(n) + Dec(hash)
  {
    assert [CutBan(n), WholeBan(hash)][..1] == [CutBan(n)];
    CutBanLeaves(n);
    AllTrailing(Dec(n), Digits);
  }

  lemma CutBanLeaves(n: nat)
    ensures Content(RunBans(None, [CutBan(n)])) == Dec(n)
  {
    assert [CutBan(n)][..0] == [];
    BanAppends(None, CutBan(n));
    CutKey(Dec(n), BAN_SEPARATOR + BanItem(Ban(n, 1)).rest);
  }

  lemma CutKey(key: Bytes, rest: Bytes)
    ensures [] + Written(key + rest, |key|) == key
  {
  }

  lemma {:induction false} AllTrailing(s: Bytes, cls: Class)
    requires All(s, cls)
    ensures Trailing(s, cls) == s
    decreases |s|
  {
    if s != [] {
      AllTrailing(s[..|s| - 1], cls);
      SplitLast(s);
    }
  }

  /** The line ban_mutation composes. */
  function BanEntry(hash: nat, exitCode: int): (e: Bytes)
    ensures e == Entry(BanItem(Ban(hash, exitCode)), BAN_SEPARATOR)
  {
    Dec(hash) + (BAN_SEPARATOR + (" EXIT_CODE: " + DecInt(exitCode) + [NEWLINE]))
  }

  class QuarantineRegistry {
    const hashCode: Bytes -> nat
    var ledger: Option<Bytes>

    constructor (hashCode: Bytes -> nat)
      ensures this.hashCode == hashCode && ledger == None
    {
      this.hashCode, ledger := hashCode, None;
    }

    method IsBanned(source: Bytes, a: Access) returns (banned: bool)
      ensures banned <==> BannedAnswer(ledger, hashCode(source), a)
    {
      if ledger.None? || !a.canOpen {
        return false;
      }
      if !a.canLock {
        return true;
      }
      var content := ReadAll(ledger.value, a.count);
      banned := Find(content, Dec(hashCode(source)) + BAN_SEPARATOR);
    }

    method BanMutation(source: Bytes, exitCode: int, a: Access)
      modifies this
      ensures ledger == AfterBan(old(ledger), Ban(hashCode(source), exitCode), a)
    {
      if !a.canOpen {
        return;
      }
      if ledger.None? {
        ledger := Some([]);
      }
      if !a.canLock {
        assert ledger.value + [] == ledger.value;
        return;
      }
      var entry := BanEntry(hashCode(source), exitCode);
      ledger := Some(ledger.value + Written(entry, a.count));
    }
  }

  // ---------------------------------------------------------------- HiveMind

  const HIVE_SEPARATOR: Bytes := [NEWLINE]

  ghost predicate Assimilated(ledger: Bytes, key: Bytes) {
    Occurs(ledger, key + HIVE_SEPARATOR)
  }

  /** Once a registration got past its newline, no later one hides it. */
  lemma RegistrationPersists(before: Bytes, key: Bytes, count: nat, later: Bytes)
    requires count >= |key| + |HIVE_SEPARATOR|
    ensures Assimilated(before + Written(key + HIVE_SEPARATOR, count) + later, key)
  {
    var e := key + HIVE_SEPARATOR;
    WholeSlice(e);
    assert OccursAt(e, e, 0);
    OccursInConcat(before, e, later, e);
  }

  function AfterRegistration(hive: Option<Bytes>, key: Bytes, a: Access): Option<Bytes> {
    if !a.canOpen then hive
    else Some(Content(hive) + if a.canLock then Written(key + HIVE_SEPARATOR, a.count) else [])
  }

  datatype Registration = Registration(key: Bytes, access: Access)

  function RunHive(hive: Option<Bytes>, rs: seq<Registration>): Option<Bytes> {
    if rs == [] then hive
    else
      var last := rs[|rs| - 1];
      AfterRegistration(RunHive(hive, rs[..|rs| - 1]), last.key, last.access)
  }

  function HivePiece(r: Registration): Piece {
    Piece(Item(r.key, []), if r.access.canOpen && r.access.canLock then r.access.count else 0)
  }

  function HivePieces(rs: seq<Registration>): seq<Piece> {
    seq(|rs|, i requires 0 <= i < |rs| => HivePiece(rs[i]))
  }

  predicate Registered(r: Registration) {
    Landed(HivePiece(r), HIVE_SEPARATOR)
  }

  lemma RegistrationAppends(hive: Option<Bytes>, r: Registration)
    ensures Content(AfterRegistration(hive, r.key, r.access))
         == Content(hive) + Written(Entry(Item(r.key, []), HIVE_SEPARATOR), HivePiece(r).count)
  {
    assert HIVE_SEPARATOR + [] == HIVE_SEPARATOR;
    assert Content(hive) + [] == Content(hive);
  }

  lemma {:induction false} HiveText(hive: Option<Bytes>, rs: seq<Registration>)
    ensures Content(RunHive(hive, rs)) == Text(Content(hive), HivePieces(rs), HIVE_SEPARATOR)
    decreases |rs|
  {
    if rs == [] {
    } else {
      var front, last := rs[..|rs| - 1], rs[|rs| - 1];
      HiveText(hive, front);
      HivePiecesPush(rs);
      TextPush(Content(hive), HivePieces(front), HivePiece(last), HIVE_SEPARATOR);
      RegistrationAppends(RunHive(hive, front), last);
    }
  }

  lemma HivePiecesPush(rs: seq<Registration>)
    requires rs != []
    ensures HivePieces(rs) == HivePieces(rs[..|rs| - 1]) + [HivePiece(rs[|rs| - 1])]
  {
  }

  /** The line a reader takes for the key of the i-th registration. */
  function GluedLine(hive: Option<Bytes>, rs: seq<Registration>, i: nat): Bytes
    requires i < |rs|
  {
    Trailing(Content(RunHive(hive, rs[..i])), OneLine) + rs[i].key
  }

  ghost predicate HiveHit(hive: Option<Bytes>, rs: seq<Registration>, key: Bytes, i: nat)
    requires i < |rs|
  {
    Registered(rs[i]) && IsSuffix(key, GluedLine(hive, rs, i))
  }

  ghost predicate SomeHiveHit(hive: Option<Bytes>, rs: seq<Registration>, key: Bytes) {
    exists i :: 0 <= i < |rs| && HiveHit(hive, rs, key, i)
  }

  ghost predicate OneLineKeys(rs: seq<Registration>) {
    forall i :: 0 <= i < |rs| ==> NEWLINE !in rs[i].key
  }

  lemma {:induction false} HiveHits(hive: Option<Bytes>, rs: seq<Registration>, key: Bytes, i: nat)
    requires i < |rs| && NEWLINE !in key
    ensures Hit(Content(hive), HivePieces(rs), HIVE_SEPARATOR, key, i) <==> HiveHit(hive, rs, key, i)
  {
    var pre := Content(RunHive(hive, rs[..i]));
    HiveText(hive, rs[..i]);
    assert HivePieces(rs)[..i] == HivePieces(rs[..i]);
    SuffixOfGlued(pre, rs[i].key, key, OneLine);
  }

  /** is_assimilated after any registrations of newline-free keys, whole, cut short or
      failed: exactly the keys known before and those that end the line a registration
      past its newline closed. */
  lemma {:induction false} AssimilatedExactly(hive: Option<Bytes>, rs: seq<Registration>, key: Bytes)
    requires NEWLINE !in key && OneLineKeys(rs)
    ensures Assimilated(Content(RunHive(hive, rs)), key) <==>
      Assimilated(Content(hive), key) || SomeHiveHit(hive, rs, key)
  {
    var pre, ps := Content(hive), HivePieces(rs);
    forall i | 0 <= i < |ps|
      ensures WellSeparated(ps[i].item, HIVE_SEPARATOR)
    {
      assert Entry(ps[i].item, HIVE_SEPARATOR) == rs[i].key + [NEWLINE];
    }
    HiveText(hive, rs);
    FoundExactly(pre, ps, HIVE_SEPARATOR, key);
    if i :| 0 <= i < |ps| && Hit(pre, ps, HIVE_SEPARATOR, key, i) {
      HiveHits(hive, rs, key, i);
    }
    if i :| 0 <= i < |rs| && HiveHit(hive, rs, key, i) {
      HiveHits(hive, rs, key, i);
    }
  }

  ghost predicate EndsRegistered(rs: seq<Registration>, key: Bytes) {
    exists i :: 0 <= i < |rs| && Registered(rs[i]) && IsSuffix(key, rs[i].key)
  }

  lemma {:induction false} RegisteredIsAssimilated(rs: seq<Registration>, key: Bytes)
    requires NEWLINE !in key && OneLineKeys(rs) && EndsRegistered(rs, key)
    ensures Assimilated(Content(RunHive(None, rs)), key)
  {
    var i :| 0 <= i < |rs| && Registered(rs[i]) && IsSuffix(key, rs[i].key);
    var line := GluedLine(None, rs, i);
    assert line[|line| - |rs[i].key|..] == rs[i].key;
    SuffixTransitive(key, rs[i].key, line);
    assert HiveHit(None, rs, key, i);
    AssimilatedExactly(None, rs, key);
  }

  ghost predicate OnlyRegistered(rs: seq<Registration>) {
    forall key :: NEWLINE !in key ==> (Assimilated(Content(RunHive(None, rs)), key) <==> EndsRegistered(rs, key))
  }

  ghost predicate LinesAreRegistered(rs: seq<Registration>) {
    forall i :: 0 <= i < |rs| && Registered(rs[i]) ==> EndsRegistered(rs, GluedLine(None, rs, i))
  }

  /** From an absent ledger the answers are those of the registered keys exactly when
      every line a registration closed is the end of some registered key. */
  lemma {:induction false} OnlyRegisteredExactly(rs: seq<Registration>)
    requires OneLineKeys(rs)
    ensures LinesAreRegistered(rs) ==> OnlyRegistered(rs)
    ensures OnlyRegistered(rs) ==> LinesAreRegistered(rs)
  {
    if LinesAreRegistered(rs) {
      forall key | NEWLINE !in key
        ensures Assimilated(Content(RunHive(None, rs)), key) <==> EndsRegistered(rs, key)
      {
        if EndsRegistered(rs, key) {
          RegisteredIsAssimilated(rs, key);
        }
        if Assimilated(Content(RunHive(None, rs)), key) {
          AssimilatedEndsLine(rs, key);
        }
      }
    }
    if OnlyRegistered(rs) {
      forall i | 0 <= i < |rs| && Registered(rs[i])
        ensures EndsRegistered(rs, GluedLine(None, rs, i))
      {
        LineIsAssimilated(rs, i);
      }
    }
  }

  lemma {:induction false} LineIsAssimilated(rs: seq<Registration>, i: nat)
    requires OneLineKeys(rs) && i < |rs| && Registered(rs[i])
    ensures NEWLINE !in GluedLine(None, rs, i)
    ensures Assimilated(Content(RunHive(None, rs)), GluedLine(None, rs, i))
  {
    var line := GluedLine(None, rs, i);
    LineFree(rs, i);
    WholeSuffix(line);
    assert HiveHit(None, rs, line, i);
    AssimilatedExactly(None, rs, line);
  }

  lemma {:induction false} LineFree(rs: seq<Registration>, i: nat)
    requires OneLineKeys(rs) && i < |rs|
    ensures NEWLINE !in GluedLine(None, rs, i)
  {
    TrailingShape(Content(RunHive(None, rs[..i])), OneLine);
  }

  lemma AssimilatedEndsLine(rs: seq<Registration>, key: Bytes)
    requires NEWLINE !in key && OneLineKeys(rs) && Assimilated(Content(RunHive(None, rs)), key)
    requires LinesAreRegistered(rs)
    ensures EndsRegistered(rs, key)
  {
    AssimilatedExactly(None, rs, key);
    NothingAssimilated(key);
    var i :| 0 <= i < |rs| && HiveHit(None, rs, key, i);
    EndOfRegistered(rs, GluedLine(None, rs, i), key);
  }

  lemma NothingAssimilated(key: Bytes)
    ensures !Assimilated([], key)
  {
  }

  lemma EndOfRegistered(rs: seq<Registration>, line: Bytes, key: Bytes)
    requires EndsRegistered(rs, line) && IsSuffix(key, line)
    ensures EndsRegistered(rs, key)
  {
    var j :| 0 <= j < |rs| && Registered(rs[j]) && IsSuffix(line, rs[j].key);
    SuffixTransitive(key, line, rs[j].key);
  }

  /** Newlines do not rule out phantom collisions as the file's header comment says:
      with only x + key registered, key is answered as assimilated. */
  lemma HiveSuffixCollision(x: Bytes, key: Bytes)
    requires NEWLINE !in x && NEWLINE !in key
    ensures Assimilated(Content(RunHive(None, [InFull(x + key)])), key)
  {
    var rs := [InFull(x + key)];
    assert (x + key)[|x + key| - |key|..] == key;
    assert Registered(rs[0]) && IsSuffix(key, rs[0].key);
    RegisteredIsAssimilated(rs, key);
  }

  /** And a registration cut short lends its bytes to the next: x without its newline
      and then key make x + key known, whatever x and key are. */
  lemma CutHiveCollides(x: Bytes, key: Bytes)
    requires NEWLINE !in x && NEWLINE !in key && x != []
    ensures Assimilated(Content(RunHive(None, [CutShort(x), InFull(key)])), x + key)
    ensures !EndsRegistered([CutShort(x), InFull(key)], x + key)
  {
    CutLineGlued(x, key);
    CutLineClosed(x, key);
    LineIsAssimilated([CutShort(x), InFull(key)], 1);
  }

  lemma CutLineClosed(x: Bytes, key: Bytes)
    requires x != []
    ensures Registered(InFull(key)) && !Registered(CutShort(x))
    ensures !EndsRegistered([CutShort(x), InFull(key)], x + key)
  {
    assert |x + key| > |key|;
  }

  lemma CutLineGlued(x: Bytes, key: Bytes)
    requires NEWLINE !in x
    ensures GluedLine(None, [CutShort(x), InFull(key)], 1) == x + key
  {
    assert [CutShort(x), InFull(key)][..1] == [CutShort(x)];
    CutLine(x);
    AllTrailing(x, OneLine);
  }

  function CutShort(x: Bytes): Registration {
    Registration(x, Access(true, true, |x|))
  }

  function InFull(key: Bytes): Registration {
    Registration(key, Access(true, true, |key| + 1))
  }

  lemma CutLine(x: Bytes)
    ensures Content(RunHive(None, [CutShort(x)])) == x
  {
    assert [CutShort(x)][..0] == [];
    RegistrationAppends(None, CutShort(x));
    CutKey(x, HIVE_SEPARATOR + []);
  }

  class HiveMind {
    var hive: Option<Bytes>

    constructor ()
      ensures hive == None
    {
      hive := None;
    }

    /** Unlike the quarantine ledger, a failed lock answers "not assimilated". */
    method IsAssimilated(key: Bytes, a: Access) returns (known: bool)
      ensures hive.None? || !a.canOpen || !a.canLock ==> !known
      ensures hive.Some? && a.canOpen && a.canLock ==>
        (known <==> Assimilated(hive.value[..Min(a.count, |hive.value|)], key))
    {
      if hive.None? || !a.canOpen || !a.canLock {
        return false;
      }
      var content := ReadAll(hive.value, a.count);
      known := Find(content, key + HIVE_SEPARATOR);
    }

    method RegisterMutationHash(key: Bytes, a: Access)
      modifies this
      ensures hive == AfterRegistration(old(hive), key, a)
    {
      if !a.canOpen {
        return;
      }
      if hive.None? {
        hive := Some([]);
      }
      if !a.canLock {
        assert hive.value + [] == hive.value;
        return;
      }
      hive := Some(hive.value + Written(key + HIVE_SEPARATOR, a.count));
    }
  }
}
