/** Byte strings as the C++ code handles them: decimal printing (std::to_string),
    line splitting (std::getline on a stream) and substring search (std::string::find). */
module Bytes {
  import opened Basics

  type Byte = c: char | (c as int) < 256
  type Bytes = seq<Byte>

  const NEWLINE: Byte := '\n'

  ghost predicate Free(s: Bytes, c: Byte) {
    c !in s
  }

  // ---------------------------------------------------------------- decimal

  predicate IsDigit(c: Byte) {
    '0' <= c <= '9'
  }

  predicate AllDigits(s: Bytes) {
    forall i :: 0 <= i < |s| ==> IsDigit(s[i])
  }

  function Digit(d: nat): (c: Byte)
    requires d < 10
    ensures IsDigit(c) && (c as int) == 48 + d
  {
    (48 + d) as char
  }

  /** The canonical decimal of n, as std::to_string prints an unsigned value. */
  function Dec(n: nat): (s: Bytes)
    ensures s != [] && AllDigits(s)
  {
    if n < 10 then [Digit(n)] else Dec(n / 10) + [Digit(n % 10)]
  }

  /** std::to_string of a signed value. */
  function DecInt(z: int): (s: Bytes) {
    if z < 0 then ['-'] + Dec(-z) else Dec(z)
  }

  /** Reads a signed decimal back. */
  ghost function IntValue(s: Bytes): int {
    if s != [] && s[0] == '-' then -Value(s[1..]) else Value(s)
  }

  lemma DecIntValue(z: int)
    ensures IntValue(DecInt(z)) == z
  {
    if z < 0 {
      DecValue(-z);
      assert DecInt(z)[1..] == Dec(-z);
    } else {
      DecValue(z);
      assert IsDigit(Dec(z)[0]);
    }
  }

  lemma DecIntInjective(a: int, b: int)
    requires DecInt(a) == DecInt(b)
    ensures a == b
  {
    DecIntValue(a);
    DecIntValue(b);
  }

  ghost function Value(s: Bytes): int {
    if s == [] then 0 else 10 * Value(s[..|s| - 1]) + (s[|s| - 1] as int - 48)
  }

  lemma {:induction false} DecValue(n: nat)
    ensures Value(Dec(n)) == n
  {
    if n >= 10 {
      DecValue(n / 10);
      assert Dec(n)[..|Dec(n)| - 1] == Dec(n / 10);
    }
  }

  lemma DecInjective(a: nat, b: nat)
    requires Dec(a) == Dec(b)
    ensures a == b
  {
    DecValue(a);
    DecValue(b);
  }

  lemma {:induction false} ValueNat(s: Bytes)
    requires AllDigits(s)
    ensures Value(s) >= 0
    decreases |s|
  {
    if s != [] {
      ValueNat(s[..|s| - 1]);
    }
  }

  /** The decimal of what digits spell is their end: leading zeros go. */
  lemma {:induction false} CanonicalSuffix(s: Bytes)
    requires s != [] && AllDigits(s)
    ensures Value(s) >= 0 && IsSuffix(Dec(Value(s)), s)
    decreases |s|
  {
    var front, c := s[..|s| - 1], s[|s| - 1];
    ValueNat(front);
    SplitLast(s);
    ValueLast(front, c);
    DecLast(Value(s));
    if Value(front) > 0 {
      CanonicalSuffix(front);
      SuffixExtends(Dec(Value(front)), front, [c]);
    } else {
      SuffixLast(s, c);
    }
  }

  /** And every decimal that ends the digits ends it. */
  lemma {:induction false} SuffixOfCanonical(n: nat, s: Bytes)
    requires AllDigits(s) && IsSuffix(Dec(n), s)
    ensures Value(s) >= 0 && IsSuffix(Dec(n), Dec(Value(s)))
    decreases |s|
  {
    var front, c := s[..|s| - 1], s[|s| - 1];
    ValueNat(front);
    SplitLast(s);
    ValueLast(front, c);
    LastDigits(n, front, c);
    if n >= 10 {
      SuffixOfCanonical(n / 10, front);
      OneDigitMore(n, Value(front), c);
    } else {
      DecLast(Value(s));
      SuffixLast(Dec(Value(s)), c);
    }
  }

  lemma LastDigits(n: nat, front: Bytes, c: Byte)
    requires IsSuffix(Dec(n), front + [c])
    ensures Digit(n % 10) == c
    ensures n >= 10 ==> IsSuffix(Dec(n / 10), front)
    ensures n < 10 ==> Dec(n) == [c]
  {
    DecLast(n);
    SuffixFront(if n >= 10 then Dec(n / 10) else [], Digit(n % 10), front, c);
  }

  lemma OneDigitMore(n: nat, m: nat, c: Byte)
    requires n >= 10 && IsDigit(c) && Digit(n % 10) == c && IsSuffix(Dec(n / 10), Dec(m))
    ensures IsSuffix(Dec(n), Dec(10 * m + (c as int - 48)))
  {
    DecLast(0);
    if m == 0 {
      EndsZero(n / 10, Dec(0));
    }
    DecLast(n);
    DecLast(10 * m + (c as int - 48));
    SuffixExtends(Dec(n / 10), Dec(m), [c]);
  }

  lemma EndsZero(n: nat, zero: Bytes)
    requires zero == [Digit(0)] && IsSuffix(Dec(n), zero)
    ensures n == 0
  {
    OneDigit(n);
    SuffixSameLength(Dec(n), zero);
  }

  /** Behind a number without a leading zero, digits are canonical. */
  lemma {:induction false} CanonicalBehind(n: nat, s: Bytes)
    requires n > 0 && AllDigits(s)
    ensures Value(Dec(n) + s) > 0 && Dec(Value(Dec(n) + s)) == Dec(n) + s
    decreases |s|
  {
    if s == [] {
      DecValue(n);
      assert Dec(n) + s == Dec(n);
    } else {
      var front, c := s[..|s| - 1], s[|s| - 1];
      CanonicalBehind(n, front);
      SplitLast(s);
      Associate(Dec(n), front, [c]);
      ValueLast(Dec(n) + front, c);
      DecLast(Value(Dec(n) + s));
    }
  }

  lemma SuffixFront(x: Bytes, a: Byte, y: Bytes, b: Byte)
    requires IsSuffix(x + [a], y + [b])
    ensures a == b && IsSuffix(x, y)
  {
    var s, t := x + [a], y + [b];
    assert s[|x|] == a && t[|y|] == b && t[|t| - |s|..][|x|] == b;
    assert y[|y| - |x|..] == t[|t| - |s|..][..|x|];
  }

  lemma SuffixLast(s: Bytes, c: Byte)
    requires s != [] && s[|s| - 1] == c
    ensures IsSuffix([c], s)
  {
  }

  lemma DecLast(n: nat)
    ensures Dec(n)[|Dec(n)| - 1] == Digit(n % 10)
    ensures Dec(n) == if n >= 10 then Dec(n / 10) + [Digit(n % 10)] else [Digit(n)]
  {
  }

  lemma ValueLast(front: Bytes, c: Byte)
    requires AllDigits(front) && IsDigit(c)
    ensures Value(front) >= 0 && Value(front + [c]) == 10 * Value(front) + (c as int - 48)
    ensures Value(front + [c]) / 10 == Value(front) && Digit(Value(front + [c]) % 10) == c
  {
    ValueNat(front);
    assert (front + [c])[..|front|] == front;
  }

  lemma OneDigit(n: nat)
    requires |Dec(n)| <= 1
    ensures n < 10 && Dec(n) == [Digit(n)]
  {
    if n >= 10 {
      LongDecimal(n);
    } else {
      DecLast(n);
    }
  }

  lemma LongDecimal(n: nat)
    requires n >= 10
    ensures |Dec(n)| >= 2
  {
  }

  lemma SuffixSameLength(x: Bytes, y: Bytes)
    requires IsSuffix(x, y) && |x| >= |y|
    ensures x == y
  {
  }

  lemma DigitsFree(s: Bytes, c: Byte)
    requires AllDigits(s) && !IsDigit(c)
    ensures c !in s
  {
  }

  // ---------------------------------------------------------------- lines

  /** Position of the first c in s, or |s| when there is none. */
  function IndexOf(s: Bytes, c: Byte): (i: nat)
    ensures i <= |s|
    ensures i < |s| ==> s[i] == c
    ensures forall j :: 0 <= j < i ==> s[j] != c
  {
    if s == [] || s[0] == c then 0 else 1 + IndexOf(s[1..], c)
  }

  /** Fixes IndexOf from a split, without unfolding it. */
  lemma IndexOfSplit(l: Bytes, c: Byte, rest: Bytes)
    requires Free(l, c)
    ensures IndexOf(l + [c] + rest, c) == |l|
    ensures (l + [c] + rest)[..|l|] == l && (l + [c] + rest)[|l| + 1..] == rest
  {
    var s := l + [c] + rest;
    assert s[|l|] == c;
    assert forall j :: 0 <= j < |l| ==> s[j] == l[j];
  }

  lemma IndexOfAbsent(l: Bytes, c: Byte)
    ensures Free(l, c) <==> IndexOf(l, c) == |l|
  {
    if IndexOf(l, c) == |l| {
      assert forall j :: 0 <= j < |l| ==> l[j] != c;
    }
  }

  /** The lines a loop `while (std::getline(f, line))` sees: a last line without
      a newline counts, an empty rest after the last newline does not. */
  function Lines(f: Bytes): (ls: seq<Bytes>)
    ensures forall l :: l in ls ==> NEWLINE !in l
  {
    if f == [] then []
    else
      var i := IndexOf(f, NEWLINE);
      assert NEWLINE !in f[..i];
      if i == |f| then [f] else [f[..i]] + Lines(f[i + 1..])
  }

  /** What one getline call takes from the text still unread: up to the first
      delimiter, which is dropped, or everything when there is none. */
  ghost predicate Taken(rest: Bytes, delim: Byte, line: Bytes, rest': Bytes) {
    var k := IndexOf(rest, delim);
    && line == rest[..k]
    && rest' == if k < |rest| then rest[k + 1..] else []
  }

  lemma LinesTaken(rest: Bytes, line: Bytes, rest': Bytes)
    requires rest != [] && Taken(rest, NEWLINE, line, rest')
    ensures Lines(rest) == [line] + Lines(rest')
    ensures NEWLINE !in line
  {
    if IndexOf(rest, NEWLINE) == |rest| {
      WholeSlice(rest);
    }
  }

  lemma SliceFree(s: Bytes, c: Byte, i: nat)
    requires c !in s && i <= |s|
    ensures c !in s[i..] && c !in s[..i]
  {
  }

  /** Nothing is left open at the end: an append starts a line of its own. */
  predicate LineEnded(f: Bytes) {
    f == [] || f[|f| - 1] == NEWLINE
  }

  lemma LinesCons(l: Bytes, rest: Bytes)
    requires NEWLINE !in l
    ensures Lines(l + [NEWLINE] + rest) == [l] + Lines(rest)
  {
    IndexOfSplit(l, NEWLINE, rest);
  }

  lemma {:induction false} LinesConcat(a: Bytes, b: Bytes)
    requires LineEnded(a)
    ensures Lines(a + b) == Lines(a) + Lines(b)
    decreases |a|
  {
    if a == [] {
      assert a + b == b;
    } else {
      var l, rest := FirstLine(a);
      LinesCons(l, rest);
      LinesConcat(rest, b);
      LinesCons(l, rest + b);
      Associate([l], Lines(rest), Lines(b));
      Associate(l + [NEWLINE], rest, b);
    }
  }

  lemma FirstLine(a: Bytes) returns (l: Bytes, rest: Bytes)
    requires a != [] && LineEnded(a)
    ensures NEWLINE !in l && a == l + [NEWLINE] + rest && LineEnded(rest)
  {
    var i := IndexOf(a, NEWLINE);
    assert i <= |a| - 1;
    l, rest := a[..i], a[i + 1..];
  }

  lemma EndedConcat(a: Bytes, b: Bytes)
    requires LineEnded(a)
    ensures LineEnded(a + b) <==> LineEnded(b)
  {
    if b == [] {
      assert a + b == a;
    }
  }

  lemma OpenLine(tail: Bytes)
    requires NEWLINE !in tail
    ensures Lines(tail) == if tail == [] then [] else [tail]
  {
    IndexOfAbsent(tail, NEWLINE);
  }

  /** Where the open last line starts. */
  lemma {:induction false} LastLine(f: Bytes) returns (k: nat)
    ensures k <= |f| && LineEnded(f[..k]) && NEWLINE !in f[k..]
    decreases |f|
  {
    if LineEnded(f) {
      k := |f|;
      WholeSlice(f);
    } else {
      k := LastLine(f[..|f| - 1]);
      assert f[..|f| - 1][..k] == f[..k];
      assert f[k..] == f[..|f| - 1][k..] + [f[|f| - 1]];
    }
  }

  /** Every file is its ended part followed by the open last line. */
  lemma TornSplit(f: Bytes) returns (whole: Bytes, tail: Bytes)
    ensures f == whole + tail && LineEnded(whole) && NEWLINE !in tail
    ensures LineEnded(f) <==> tail == []
    ensures Lines(f) == Lines(whole) + (if tail == [] then [] else [tail])
  {
    var k := LastLine(f);
    whole, tail := f[..k], f[k..];
    EndedConcat(whole, tail);
    EndedTail(tail);
    LinesConcat(whole, tail);
    OpenLine(tail);
  }

  lemma EndedTail(tail: Bytes)
    requires NEWLINE !in tail
    ensures LineEnded(tail) <==> tail == []
  {
    if tail != [] {
      assert tail[|tail| - 1] in tail;
    }
  }

  /** std::istream reading with std::getline. `good` is false once eofbit or
      failbit is set. */
  class InStream {
    const data: Bytes
    var pos: nat
    var good: bool

    ghost predicate Valid()
      reads this
    {
      pos <= |data|
    }

    ghost function Rest(): (r: Bytes)
      reads this
      requires Valid()
    {
      data[pos..]
    }

    constructor (data: Bytes)
      ensures Valid() && this.data == data && good && pos == 0 && Rest() == data
    {
      this.data, pos, good := data, 0, true;
    }

    /** Fails only when nothing at all can be extracted, not even a delimiter;
        reaching the end of data sets eofbit, so the next call fails. */
    method GetLine(delim: Byte) returns (ok: bool, line: Bytes)
      requires Valid()
      modifies this
      ensures Valid()
      ensures ok <==> old(good) && old(Rest()) != []
      ensures ok ==> Taken(old(Rest()), delim, line, Rest())
      ensures ok ==> (good <==> IndexOf(old(Rest()), delim) < |old(Rest())|)
      ensures ok ==> |Rest()| < |old(Rest())|
      ensures !ok ==> !good && line == [] && Rest() == old(Rest())
    {
      line := [];
      ok := good && pos < |data|;
      if !ok {
        good := false;
        return;
      }
      ghost var rest := Rest();
      var start := pos;
      while pos < |data| && data[pos] != delim
        invariant start <= pos <= |data|
        invariant line == data[start..pos]
        invariant delim !in line
        modifies `pos
      {
        line := line + [data[pos]];
        pos := pos + 1;
      }
      if pos < |data| {
        assert rest == line + [delim] + data[pos + 1..];
        IndexOfSplit(line, delim, data[pos + 1..]);
        pos := pos + 1;
      } else {
        assert rest == line;
        IndexOfAbsent(line, delim);
        good := false;
      }
    }
  }

  /** The part of an append that gets through when a write is cut short. */
  function Written(entry: Bytes, count: nat): Bytes {
    entry[..Min(count, |entry|)]
  }

  // ---------------------------------------------------------------- search

  predicate OccursAt(hay: Bytes, needle: Bytes, i: nat) {
    i + |needle| <= |hay| && hay[i..i + |needle|] == needle
  }

  ghost predicate Occurs(hay: Bytes, needle: Bytes) {
    exists i: nat :: OccursAt(hay, needle, i)
  }

  /** `hay.find(needle) != npos` */
  method Find(hay: Bytes, needle: Bytes) returns (found: bool)
    ensures found <==> Occurs(hay, needle)
  {
    var i := 0;
    while i + |needle| <= |hay|
      invariant forall j: nat :: j < i ==> !OccursAt(hay, needle, j)
    {
      if hay[i..i + |needle|] == needle {
        assert OccursAt(hay, needle, i);
        return true;
      }
      i := i + 1;
    }
    found := false;
  }

  predicate IsSuffix(s: Bytes, t: Bytes) {
    |s| <= |t| && t[|t| - |s|..] == s
  }

  lemma WholeSuffix(s: Bytes)
    ensures IsSuffix(s, s)
  {
  }

  lemma SuffixExtends(x: Bytes, y: Bytes, z: Bytes)
    requires IsSuffix(x, y)
    ensures IsSuffix(x + z, y + z)
  {
    assert (y + z)[|y| - |x|..] == y[|y| - |x|..] + z;
  }

  lemma SuffixTransitive(x: Bytes, y: Bytes, z: Bytes)
    requires IsSuffix(x, y) && IsSuffix(y, z)
    ensures IsSuffix(x, z)
  {
    assert z[|z| - |x|..] == z[|z| - |y|..][|y| - |x|..];
  }

  lemma SuffixWithin(q: Bytes, a: Bytes, b: Bytes)
    requires IsSuffix(q, a + b) && |q| <= |b|
    ensures IsSuffix(q, b)
  {
    assert (a + b)[|a + b| - |q|..] == b[|b| - |q|..];
  }

  lemma SuffixBehind(q: Bytes, a: Bytes, b: Bytes)
    requires IsSuffix(q, b)
    ensures IsSuffix(q, a + b)
  {
    assert (a + b)[|a + b| - |q|..] == b[|b| - |q|..];
  }

  lemma OccursInConcat(pre: Bytes, hay: Bytes, post: Bytes, needle: Bytes)
    requires Occurs(hay, needle)
    ensures Occurs(pre + hay + post, needle)
  {
    var i: nat :| OccursAt(hay, needle, i);
    var all := pre + hay + post;
    assert all[|pre| + i..|pre| + i + |needle|] == hay[i..i + |needle|];
    assert OccursAt(all, needle, |pre| + i);
  }
}
