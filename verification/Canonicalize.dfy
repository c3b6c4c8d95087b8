/** canonicalize in scripts/structural_hash.py: a traversal that numbers names and
    values in order of first appearance and prints the result. */
module Canonicalize {
  import opened Basics
  import opened Bytes

  /** What JSON may hold under "name" or "value" and Python can hash, up to Python's
      equality: True, 1 and 1.0 are one key. */
  datatype Value = Null | Number(n: real) | Text(s: string)

  datatype Node = Node(kind: string, name: Option<Value>, val: Option<Value>, inner: seq<Node>)

  datatype Field = NAME | VALUE

  type Key = (Field, Value)

  /** A node with its names and values replaced by numbers. */
  datatype Labelled = Labelled(kind: string, name: Option<nat>, val: Option<nat>, inner: seq<Labelled>)

  // ---------------------------------------------------------------- numbering

  type Seen = map<Key, nat>

  /** The counter is the number of keys seen. */
  function Touch(seen: Seen, key: Key): (Option<nat>, Seen) {
    if key in seen then (Some(seen[key]), seen) else (Some(|seen|), seen[key := |seen|])
  }

  function LabelField(seen: Seen, f: Field, v: Option<Value>): (Option<nat>, Seen) {
    if v.None? then (None, seen) else Touch(seen, (f, v.value))
  }

  function Label(t: Node, seen: Seen): (Labelled, Seen)
    decreases t, 1
  {
    var (name, s1) := LabelField(seen, NAME, t.name);
    var (val, s2) := LabelField(s1, VALUE, t.val);
    var (inner, s3) := LabelAll(t.inner, s2);
    (Labelled(t.kind, name, val, inner), s3)
  }

  function LabelAll(ts: seq<Node>, seen: Seen): (seq<Labelled>, Seen)
    decreases ts, 0
  {
    if ts == [] then ([], seen)
    else
      var (head, s1) := Label(ts[0], seen);
      var (rest, s2) := LabelAll(ts[1..], s1);
      ([head] + rest, s2)
  }

  // ---------------------------------------------------------------- printing

  function FieldName(f: Field): string {
    if f.NAME? then "NAME_" else "VALUE_"
  }

  function Symbol(f: Field, n: nat): string {
    FieldName(f) + Dec(n)
  }

  function SymbolParts(f: Field, n: Option<nat>): seq<string> {
    if n.None? then [] else [Symbol(f, n.value)]
  }

  function Spaced(parts: seq<string>): string {
    if parts == [] then "" else " " + (parts[0] + Spaced(parts[1..]))
  }

  /** " ".join(parts) */
  function Join(parts: seq<string>): string {
    if parts == [] then "" else parts[0] + Spaced(parts[1..])
  }

  function Print(l: Labelled): string
    decreases l, 1
  {
    "(" + Join([l.kind] + (SymbolParts(NAME, l.name) + (SymbolParts(VALUE, l.val) + PrintAll(l.inner)))) + ")"
  }

  function PrintAll(ls: seq<Labelled>): seq<string>
    decreases ls, 0
  {
    if ls == [] then [] else [Print(ls[0])] + PrintAll(ls[1..])
  }

  /** canonicalize(ast, {"n": 0}, {}) */
  function Canonical(t: Node): string {
    Print(Label(t, map[]).0)
  }

  // ---------------------------------------------------------------- renaming

  ghost predicate Injective(m: map<Key, Key>) {
    forall k, k' :: k in m && k' in m && m[k] == m[k'] ==> k == k'
  }

  /** m carries field f of one node to that of another. */
  ghost predicate CarriesField(m: map<Key, Key>, f: Field, v: Option<Value>, w: Option<Value>) {
    && (v.None? <==> w.None?)
    && (v.Some? ==> (f, v.value) in m && m[(f, v.value)] == (f, w.value))
  }

  /** Same shape, kinds and field presence, and m carries every key across. */
  ghost predicate Carries(m: map<Key, Key>, a: Node, b: Node)
    decreases a, 1
  {
    && a.kind == b.kind
    && CarriesField(m, NAME, a.name, b.name)
    && CarriesField(m, VALUE, a.val, b.val)
    && CarriesAll(m, a.inner, b.inner)
  }

  ghost predicate CarriesAll(m: map<Key, Key>, as': seq<Node>, bs: seq<Node>)
    decreases as', 0
  {
    && |as'| == |bs|
    && (as' != [] ==> Carries(m, as'[0], bs[0]) && CarriesAll(m, as'[1..], bs[1..]))
  }

  /** The two trees differ by a one-to-one renaming of keys. */
  ghost predicate AlphaEquivalent(a: Node, b: Node) {
    exists m: map<Key, Key> :: Injective(m) && Carries(m, a, b)
  }

  // ---------------------------------------------------------------- a renaming gives equal labels

  /** The two tables know corresponding keys under the same numbers. */
  ghost predicate InStep(m: map<Key, Key>, s: Seen, u: Seen) {
    && |s| == |u|
    && (forall k :: k in s ==> k in m && m[k] in u && u[m[k]] == s[k])
    && (forall k :: k in m && m[k] in u ==> k in s)
  }

  lemma FieldInStep(m: map<Key, Key>, f: Field, v: Option<Value>, w: Option<Value>, s: Seen, u: Seen)
    requires Injective(m) && InStep(m, s, u) && CarriesField(m, f, v, w)
    ensures LabelField(s, f, v).0 == LabelField(u, f, w).0
    ensures InStep(m, LabelField(s, f, v).1, LabelField(u, f, w).1)
  {
  }

  lemma {:induction false} NodeInStep(m: map<Key, Key>, a: Node, b: Node, s: Seen, u: Seen)
    requires Injective(m) && InStep(m, s, u) && Carries(m, a, b)
    ensures Label(a, s).0 == Label(b, u).0
    ensures InStep(m, Label(a, s).1, Label(b, u).1)
    decreases a, 1
  {
    FieldInStep(m, NAME, a.name, b.name, s, u);
    var s1, u1 := LabelField(s, NAME, a.name).1, LabelField(u, NAME, b.name).1;
    FieldInStep(m, VALUE, a.val, b.val, s1, u1);
    AllInStep(m, a.inner, b.inner, LabelField(s1, VALUE, a.val).1, LabelField(u1, VALUE, b.val).1);
  }

  lemma {:induction false} AllInStep(m: map<Key, Key>, as': seq<Node>, bs: seq<Node>, s: Seen, u: Seen)
    requires Injective(m) && InStep(m, s, u) && CarriesAll(m, as', bs)
    ensures LabelAll(as', s).0 == LabelAll(bs, u).0
    ensures InStep(m, LabelAll(as', s).1, LabelAll(bs, u).1)
    decreases as', 0
  {
    if as' == [] {
    } else {
      NodeInStep(m, as'[0], bs[0], s, u);
      AllInStep(m, as'[1..], bs[1..], Label(as'[0], s).1, Label(bs[0], u).1);
    }
  }

  // ---------------------------------------------------------------- equal labels give a renaming

  /** Different keys have different numbers, all below the counter. */
  ghost predicate Numbered(s: Seen) {
    && (forall k :: k in s ==> s[k] < |s|)
    && (forall k, k' :: k in s && k' in s && s[k] == s[k'] ==> k == k')
  }

  ghost predicate Extends(s: Seen, s': Seen) {
    forall k :: k in s ==> k in s' && s'[k] == s[k]
  }

  ghost predicate FitsField(s: Seen, f: Field, v: Option<Value>, n: Option<nat>) {
    && (v.None? <==> n.None?)
    && (v.Some? ==> (f, v.value) in s && s[(f, v.value)] == n.value)
  }

  /** The labels are what this one table says. */
  ghost predicate Fits(s: Seen, t: Node, l: Labelled)
    decreases t, 1
  {
    && t.kind == l.kind
    && FitsField(s, NAME, t.name, l.name)
    && FitsField(s, VALUE, t.val, l.val)
    && FitsAll(s, t.inner, l.inner)
  }

  ghost predicate FitsAll(s: Seen, ts: seq<Node>, ls: seq<Labelled>)
    decreases ts, 0
  {
    && |ts| == |ls|
    && (ts != [] ==> Fits(s, ts[0], ls[0]) && FitsAll(s, ts[1..], ls[1..]))
  }

  lemma LabelFieldNumbers(s: Seen, f: Field, v: Option<Value>)
    requires Numbered(s)
    ensures var (n, s') := LabelField(s, f, v); Numbered(s') && Extends(s, s') && FitsField(s', f, v, n)
  {
  }

  lemma {:induction false} LabelNumbers(t: Node, s: Seen, final: Seen)
    requires Numbered(s)
    ensures Numbered(Label(t, s).1) && Extends(s, Label(t, s).1)
    ensures Extends(Label(t, s).1, final) ==> Fits(final, t, Label(t, s).0)
    decreases t, 1
  {
    LabelFieldNumbers(s, NAME, t.name);
    var s1 := LabelField(s, NAME, t.name).1;
    LabelFieldNumbers(s1, VALUE, t.val);
    LabelAllNumbers(t.inner, LabelField(s1, VALUE, t.val).1, final);
  }

  lemma {:induction false} LabelAllNumbers(ts: seq<Node>, s: Seen, final: Seen)
    requires Numbered(s)
    ensures Numbered(LabelAll(ts, s).1) && Extends(s, LabelAll(ts, s).1)
    ensures Extends(LabelAll(ts, s).1, final) ==> FitsAll(final, ts, LabelAll(ts, s).0)
    decreases ts, 0
  {
    if ts == [] {
    } else {
      LabelNumbers(ts[0], s, final);
      LabelAllNumbers(ts[1..], Label(ts[0], s).1, final);
    }
  }

  ghost predicate Partnered(u: Seen, f: Field, n: nat) {
    exists k :: k in u && k.0 == f && u[k] == n
  }

  ghost function Partner(u: Seen, f: Field, n: nat): (k: Key)
    requires Partnered(u, f, n)
    ensures k in u && k.0 == f && u[k] == n
  {
    var k :| k in u && k.0 == f && u[k] == n;
    k
  }

  /** Keys of two tables with the same field and number belong together. */
  ghost function Match(s: Seen, u: Seen): (m: map<Key, Key>)
  {
    map k | k in s && Partnered(u, k.0, s[k]) :: Partner(u, k.0, s[k])
  }

  lemma MatchInjective(s: Seen, u: Seen)
    requires Numbered(s)
    ensures Injective(Match(s, u))
  {
  }

  lemma MatchField(s: Seen, u: Seen, f: Field, v: Option<Value>, w: Option<Value>, n: Option<nat>)
    requires Numbered(u) && FitsField(s, f, v, n) && FitsField(u, f, w, n)
    ensures CarriesField(Match(s, u), f, v, w)
  {
  }

  lemma {:induction false} MatchNode(s: Seen, u: Seen, a: Node, b: Node, l: Labelled)
    requires Numbered(u) && Fits(s, a, l) && Fits(u, b, l)
    ensures Carries(Match(s, u), a, b)
    decreases a, 1
  {
    MatchField(s, u, NAME, a.name, b.name, l.name);
    MatchField(s, u, VALUE, a.val, b.val, l.val);
    MatchAll(s, u, a.inner, b.inner, l.inner);
  }

  lemma {:induction false} MatchAll(s: Seen, u: Seen, as': seq<Node>, bs: seq<Node>, ls: seq<Labelled>)
    requires Numbered(u) && FitsAll(s, as', ls) && FitsAll(u, bs, ls)
    ensures CarriesAll(Match(s, u), as', bs)
    decreases as', 0
  {
    if as' == [] {
    } else {
      MatchNode(s, u, as'[0], bs[0], ls[0]);
      MatchAll(s, u, as'[1..], bs[1..], ls[1..]);
    }
  }

  /** Numbering in order of first appearance decides renaming. */
  lemma LabelsDecide(a: Node, b: Node)
    ensures Label(a, map[]).0 == Label(b, map[]).0 <==> AlphaEquivalent(a, b)
  {
    if m: map<Key, Key> :| Injective(m) && Carries(m, a, b) {
      NodeInStep(m, a, b, map[], map[]);
    }
    if Label(a, map[]).0 == Label(b, map[]).0 {
      var s, u := Label(a, map[]).1, Label(b, map[]).1;
      LabelNumbers(a, map[], s);
      LabelNumbers(b, map[], u);
      MatchNode(s, u, a, b, Label(a, map[]).0);
      MatchInjective(s, u);
    }
  }

  lemma AlphaIsEquivalence(a: Node, b: Node, c: Node)
    ensures AlphaEquivalent(a, a)
    ensures AlphaEquivalent(a, b) ==> AlphaEquivalent(b, a)
    ensures AlphaEquivalent(a, b) && AlphaEquivalent(b, c) ==> AlphaEquivalent(a, c)
  {
    LabelsDecide(a, a);
    LabelsDecide(a, b);
    LabelsDecide(b, a);
    LabelsDecide(b, c);
    LabelsDecide(a, c);
  }

  // ---------------------------------------------------------------- the print is unambiguous

  /** The characters that kinds may be written with. */
  type Alphabet = char -> bool

  predicate Over(text: string, ok: Alphabet) {
    forall i :: 0 <= i < |text| ==> ok(text[i])
  }

  predicate KindsOver(t: Node, ok: Alphabet)
    decreases t, 1
  {
    Over(t.kind, ok) && AllOver(t.inner, ok)
  }

  predicate AllOver(ts: seq<Node>, ok: Alphabet)
    decreases ts, 0
  {
    ts != [] ==> KindsOver(ts[0], ok) && AllOver(ts[1..], ok)
  }

  predicate LabelsOver(l: Labelled, ok: Alphabet)
    decreases l, 1
  {
    Over(l.kind, ok) && AllLabelsOver(l.inner, ok)
  }

  predicate AllLabelsOver(ls: seq<Labelled>, ok: Alphabet)
    decreases ls, 0
  {
    ls != [] ==> LabelsOver(ls[0], ok) && AllLabelsOver(ls[1..], ok)
  }

  /** The alphabet has the letters of the field's symbols and some digit. */
  predicate Spells(ok: Alphabet, f: Field) {
    Over(FieldName(f), ok) && exists d: nat :: d < 10 && ok(Digit(d))
  }

  /** No ')', and next to a space neither '(' nor what it takes to write a symbol. */
  predicate Legible(ok: Alphabet) {
    !ok(')') && (ok(' ') ==> !ok('(') && !Spells(ok, NAME) && !Spells(ok, VALUE))
  }

  lemma {:induction false} LabelOver(t: Node, s: Seen, ok: Alphabet)
    requires KindsOver(t, ok)
    ensures LabelsOver(Label(t, s).0, ok)
    decreases t, 1
  {
    var s1 := LabelField(s, NAME, t.name).1;
    LabelAllOver(t.inner, LabelField(s1, VALUE, t.val).1, ok);
  }

  lemma {:induction false} LabelAllOver(ts: seq<Node>, s: Seen, ok: Alphabet)
    requires AllOver(ts, ok)
    ensures AllLabelsOver(LabelAll(ts, s).0, ok)
    decreases ts, 0
  {
    if ts == [] {
    } else {
      LabelOver(ts[0], s, ok);
      LabelAllOver(ts[1..], Label(ts[0], s).1, ok);
    }
  }

  /** The print of l in front of a text, written from the right. */
  function PrintTo(l: Labelled, rest: string): string
    decreases l, 1
  {
    "(" + (l.kind + SymbolTo(NAME, l.name, SymbolTo(VALUE, l.val, PrintAllTo(l.inner, ")" + rest))))
  }

  function SymbolTo(f: Field, n: Option<nat>, rest: string): string {
    if n.None? then rest else " " + (FieldName(f) + (Dec(n.value) + rest))
  }

  function PrintAllTo(ls: seq<Labelled>, rest: string): string
    decreases ls, 0
  {
    if ls == [] then rest else " " + PrintTo(ls[0], PrintAllTo(ls[1..], rest))
  }

  lemma {:induction false} SpacedConcat(ps: seq<string>, qs: seq<string>)
    ensures Spaced(ps + qs) == Spaced(ps) + Spaced(qs)
    decreases |ps|
  {
    if ps == [] {
      assert ps + qs == qs;
      assert "" + Spaced(qs) == Spaced(qs);
    } else {
      assert (ps + qs)[1..] == ps[1..] + qs;
      SpacedConcat(ps[1..], qs);
      Regroup(" ", ps[0], Spaced(ps[1..]), Spaced(qs));
    }
  }

  lemma SymbolSpaced(f: Field, n: Option<nat>, rest: string)
    ensures Spaced(SymbolParts(f, n)) + rest == SymbolTo(f, n, rest)
  {
    if n.None? {
      assert "" + rest == rest;
    } else {
      var sym := Symbol(f, n.value);
      assert [sym][1..] == [];
      assert sym + "" == sym;
      assert (" " + (FieldName(f) + Dec(n.value))) + rest == " " + (FieldName(f) + (Dec(n.value) + rest));
    }
  }

  lemma JoinSpaced(kind: string, ps: seq<string>)
    ensures Join([kind] + ps) == kind + Spaced(ps)
  {
    assert ([kind] + ps)[1..] == ps;
  }

  lemma Bracketed(kind: string, x: string, rest: string)
    ensures ("(" + (kind + x) + ")") + rest == "(" + (kind + (x + (")" + rest)))
  {
  }

  lemma {:induction false} PrintToIsPrint(l: Labelled, rest: string)
    ensures Print(l) + rest == PrintTo(l, rest)
    decreases l, 1
  {
    var names, vals, kids := SymbolParts(NAME, l.name), SymbolParts(VALUE, l.val), PrintAll(l.inner);
    JoinSpaced(l.kind, names + (vals + kids));
    SpacedConcat(names, vals + kids);
    SpacedConcat(vals, kids);
    Bracketed(l.kind, Spaced(names + (vals + kids)), rest);
    Associate(Spaced(names), Spaced(vals) + Spaced(kids), ")" + rest);
    Associate(Spaced(vals), Spaced(kids), ")" + rest);
    PrintAllToIsPrintAll(l.inner, ")" + rest);
    SymbolSpaced(VALUE, l.val, PrintAllTo(l.inner, ")" + rest));
    SymbolSpaced(NAME, l.name, SymbolTo(VALUE, l.val, PrintAllTo(l.inner, ")" + rest)));
  }

  lemma {:induction false} PrintAllToIsPrintAll(ls: seq<Labelled>, rest: string)
    ensures Spaced(PrintAll(ls)) + rest == PrintAllTo(ls, rest)
    decreases ls, 0
  {
    if ls == [] {
      assert "" + rest == rest;
    } else {
      var more := PrintAll(ls[1..]);
      assert ([Print(ls[0])] + more)[1..] == more;
      Regroup(" ", Print(ls[0]), Spaced(more), rest);
      PrintAllToIsPrintAll(ls[1..], rest);
      PrintToIsPrint(ls[0], PrintAllTo(ls[1..], rest));
    }
  }

  /** Two texts split at the first stop character. */
  lemma SplitAtStop(p: string, x: string, q: string, y: string, stop: char -> bool)
    requires p + x == q + y && x != [] && y != [] && stop(x[0]) && stop(y[0])
    requires forall i :: 0 <= i < |p| ==> !stop(p[i])
    requires forall i :: 0 <= i < |q| ==> !stop(q[i])
    ensures p == q && x == y
  {
    var t := p + x;
    assert t[|p|] == x[0] && t[|q|] == y[0];
    assert forall i :: 0 <= i < |p| ==> t[i] == p[i];
    assert forall i :: 0 <= i < |q| ==> t[i] == q[i];
    assert |p| == |q|;
    assert p == (p + x)[..|p|] && q == (q + y)[..|q|];
    assert x == (p + x)[|p|..] && y == (q + y)[|q|..];
  }

  predicate NoDigit(c: char) {
    !('0' <= c <= '9')
  }

  /** What may follow a field's place in the print. */
  ghost predicate AfterName(x: string) {
    x != [] && (x[0] == ')' || (|x| > 1 && x[0] == ' ' && (x[1] == 'V' || x[1] == '(')))
  }

  ghost predicate AfterValue(x: string) {
    x != [] && (x[0] == ')' || (|x| > 1 && x[0] == ' ' && x[1] == '('))
  }

  lemma SymbolToShape(f: Field, n: Option<nat>, x: string)
    ensures n.Some? ==> |SymbolTo(f, n, x)| > 1 && SymbolTo(f, n, x)[0] == ' '
                        && SymbolTo(f, n, x)[1] == (if f.NAME? then 'N' else 'V')
  {
  }

  lemma SymbolInjective(f: Field, n: Option<nat>, k: Option<nat>, x: string, y: string)
    requires SymbolTo(f, n, x) == SymbolTo(f, k, y)
    requires if f.NAME? then AfterName(x) && AfterName(y) else AfterValue(x) && AfterValue(y)
    ensures n == k && x == y
  {
    SymbolToShape(f, n, x);
    SymbolToShape(f, k, y);
    if n.Some? && k.Some? {
      PrefixCancel(" ", FieldName(f) + (Dec(n.value) + x), FieldName(f) + (Dec(k.value) + y));
      PrefixCancel(FieldName(f), Dec(n.value) + x, Dec(k.value) + y);
      SplitAtStop(Dec(n.value), x, Dec(k.value), y, NoDigit);
      DecInjective(n.value, k.value);
    }
  }

  lemma PrefixCancel(p: string, x: string, y: string)
    requires p + x == p + y
    ensures x == y
  {
    assert x == (p + x)[|p|..];
    assert y == (p + y)[|p|..];
  }

  lemma AllToShape(ls: seq<Labelled>, rest: string)
    requires rest != [] && rest[0] == ')'
    ensures AfterValue(PrintAllTo(ls, rest))
    ensures ls != [] <==> PrintAllTo(ls, rest)[0] == ' '
  {
    if ls != [] {
      assert PrintTo(ls[0], PrintAllTo(ls[1..], rest))[0] == '(';
    }
  }

  lemma ValueToShape(n: Option<nat>, x: string)
    requires AfterValue(x)
    ensures AfterName(SymbolTo(VALUE, n, x))
  {
    SymbolToShape(VALUE, n, x);
  }

  /** What ends a kind in the print. */
  predicate EndsKind(x: string) {
    x != [] && (x[0] == ' ' || x[0] == ')')
  }

  lemma NameToShape(n: Option<nat>, x: string)
    requires AfterName(x)
    ensures EndsKind(SymbolTo(NAME, n, x))
  {
    SymbolToShape(NAME, n, x);
  }

  /** A kind that reached into a symbol would have to spell all of it. */
  lemma ReachesSymbol(f: Field, n: nat, rest: string, s: string, y: string, ok: Alphabet)
    requires SymbolTo(f, Some(n), rest) == s + y && s != [] && Over(s, ok) && EndsKind(y)
    ensures ok(' ') && Spells(ok, f)
  {
    var sym, all := " " + (FieldName(f) + Dec(n)), s + y;
    assert all == sym + rest;
    assert s[0] == all[0] == ' ';
    SymbolChars(f, n);
    assert all[|s|] == y[0];
    assert forall i :: 0 <= i < |sym| ==> all[i] == sym[i];
    assert |s| >= |sym|;
    forall i | 0 <= i < |sym|
      ensures ok(sym[i])
    {
      assert sym[i] == all[i] == s[i];
    }
    assert Over(sym, ok);
    SpelledOut(f, n, ok);
  }

  /** No character of a symbol ends a kind. */
  lemma SymbolChars(f: Field, n: nat)
    ensures var sym := " " + (FieldName(f) + Dec(n));
      forall i :: 0 < i < |sym| ==> sym[i] != ' ' && sym[i] != ')'
  {
    var name, digits := FieldName(f), Dec(n);
    assert forall i :: 0 <= i < |name| ==> name[i] != ' ' && name[i] != ')';
    assert forall i :: 0 <= i < |digits| ==> IsDigit(digits[i]);
  }

  lemma SpelledOut(f: Field, n: nat, ok: Alphabet)
    requires Over(" " + (FieldName(f) + Dec(n)), ok)
    ensures Spells(ok, f)
  {
    var name, digits := FieldName(f), Dec(n);
    var sym := " " + (name + digits);
    forall i | 0 <= i < |name|
      ensures ok(name[i])
    {
      assert sym[i + 1] == name[i] && ok(sym[i + 1]);
    }
    var c := digits[0];
    assert sym[|name| + 1] == c && ok(sym[|name| + 1]);
    assert IsDigit(c);
    assert c == Digit(c as int - 48);
  }

  /** The longer of two kinds would reach into what follows the shorter. */
  lemma KindReaches(n: Option<nat>, v: Option<nat>, x: string, s: string, y: string, ok: Alphabet)
    requires SymbolTo(NAME, n, SymbolTo(VALUE, v, x)) == s + y && AfterValue(x)
    requires s != [] && Over(s, ok) && EndsKind(y)
    ensures !Legible(ok)
  {
    if n.Some? {
      ReachesSymbol(NAME, n.value, SymbolTo(VALUE, v, x), s, y, ok);
    } else if v.Some? {
      ReachesSymbol(VALUE, v.value, x, s, y, ok);
    } else {
      var all := s + y;
      assert all == x;
      assert s[0] == all[0] && y[0] == all[|s|];
      if x[0] != ')' {
        assert |s| > 1;
        assert s[1] == all[1] == '(';
      }
    }
  }

  lemma KindsAlign(k: string, k': string, n: Option<nat>, v: Option<nat>, x: string, y: string, ok: Alphabet)
    requires k + SymbolTo(NAME, n, SymbolTo(VALUE, v, x)) == k' + y && AfterValue(x) && EndsKind(y)
    requires Over(k', ok) && Legible(ok)
    ensures |k'| <= |k|
  {
    var tail := SymbolTo(NAME, n, SymbolTo(VALUE, v, x));
    if |k| < |k'| {
      var s := k'[|k|..];
      assert tail == (k + tail)[|k|..];
      assert s + y == (k' + y)[|k|..];
      KindReaches(n, v, x, s, y, ok);
    }
  }

  lemma SamePrefix(p: string, x: string, q: string, y: string)
    requires p + x == q + y && |p| == |q|
    ensures p == q && x == y
  {
    assert p == (p + x)[..|p|] && q == (q + y)[..|q|];
    assert x == (p + x)[|p|..] && y == (q + y)[|q|..];
  }

  /** Over a legible alphabet a print is determined by any text that starts with it. */
  lemma {:induction false} PrintUnambiguous(l: Labelled, k: Labelled, x: string, y: string, ok: Alphabet)
    requires Legible(ok) && LabelsOver(l, ok) && LabelsOver(k, ok) && PrintTo(l, x) == PrintTo(k, y)
    ensures l == k && x == y
    decreases l, 1
  {
    var kidsL, kidsK := PrintAllTo(l.inner, ")" + x), PrintAllTo(k.inner, ")" + y);
    AllToShape(l.inner, ")" + x);
    AllToShape(k.inner, ")" + y);
    HeadUnambiguous(l, k, kidsL, kidsK, ok);
    PrintAllUnambiguous(l.inner, k.inner, ")" + x, ")" + y, ok);
    PrefixCancel(")", x, y);
  }

  /** Kind, name and value before the children. */
  lemma {:induction false} HeadUnambiguous(l: Labelled, k: Labelled, x: string, y: string, ok: Alphabet)
    requires Legible(ok) && Over(l.kind, ok) && Over(k.kind, ok) && AfterValue(x) && AfterValue(y)
    requires "(" + (l.kind + SymbolTo(NAME, l.name, SymbolTo(VALUE, l.val, x)))
          == "(" + (k.kind + SymbolTo(NAME, k.name, SymbolTo(VALUE, k.val, y)))
    ensures l.kind == k.kind && l.name == k.name && l.val == k.val && x == y
  {
    var valsL, valsK := SymbolTo(VALUE, l.val, x), SymbolTo(VALUE, k.val, y);
    ValueToShape(l.val, x);
    ValueToShape(k.val, y);
    var namesL, namesK := SymbolTo(NAME, l.name, valsL), SymbolTo(NAME, k.name, valsK);
    NameToShape(l.name, valsL);
    NameToShape(k.name, valsK);
    PrefixCancel("(", l.kind + namesL, k.kind + namesK);
    KindsAlign(l.kind, k.kind, l.name, l.val, x, namesK, ok);
    KindsAlign(k.kind, l.kind, k.name, k.val, y, namesL, ok);
    SamePrefix(l.kind, namesL, k.kind, namesK);
    SymbolInjective(NAME, l.name, k.name, valsL, valsK);
    SymbolInjective(VALUE, l.val, k.val, x, y);
  }

  lemma {:induction false} PrintAllUnambiguous(ls: seq<Labelled>, ks: seq<Labelled>, x: string, y: string,
                                               ok: Alphabet)
    requires Legible(ok) && AllLabelsOver(ls, ok) && AllLabelsOver(ks, ok) && PrintAllTo(ls, x) == PrintAllTo(ks, y)
    requires x != [] && y != [] && x[0] == ')' && y[0] == ')'
    ensures ls == ks && x == y
    decreases ls, 0
  {
    AllToShape(ls, x);
    AllToShape(ks, y);
    if ls != [] {
      var restL, restK := PrintAllTo(ls[1..], x), PrintAllTo(ks[1..], y);
      PrefixCancel(" ", PrintTo(ls[0], restL), PrintTo(ks[0], restK));
      PrintUnambiguous(ls[0], ks[0], restL, restK, ok);
      PrintAllUnambiguous(ls[1..], ks[1..], x, y, ok);
      assert ls == [ls[0]] + ls[1..] && ks == [ks[0]] + ks[1..];
    }
  }

  // ---------------------------------------------------------------- the theorem

  /** A one-to-one renaming never changes the print, whatever the kinds. */
  lemma RenamingInvariant(a: Node, b: Node)
    requires AlphaEquivalent(a, b)
    ensures Canonical(a) == Canonical(b)
  {
    LabelsDecide(a, b);
  }

  /** One print in characters: names before values, parents before children, one counter
      for both fields, and a key met again keeps its symbol. */
  lemma {:induction false} ExamplePrint(v: Value)
    ensures Canonical(Node("F", Some(v), None, [Node("G", Some(v), Some(v), [])]))
         == "(" + ("F" + (" NAME_0" + (" " + "(G NAME_0 VALUE_1)"))) + ")"
  {
    var child := Node("G", Some(v), Some(v), []);
    var s1: Seen := map[(NAME, v) := 0];
    var g := Labelled("G", Some(0), Some(1), []);
    assert Label(child, s1).0 == g by {
      assert LabelField(s1, NAME, Some(v)) == (Some(0), s1);
      assert LabelField(s1, VALUE, Some(v)).0 == Some(1);
    }
    ExampleLabel(v, child, s1, g);
    ExampleChild(g);
    ExampleParent(g);
  }

  lemma {:induction false} ExampleLabel(v: Value, child: Node, s1: Seen, g: Labelled)
    requires s1 == map[(NAME, v) := 0] && Label(child, s1).0 == g
    ensures Label(Node("F", Some(v), None, [child]), map[]).0 == Labelled("F", Some(0), None, [g])
  {
    assert LabelField(map[], NAME, Some(v)) == (Some(0), s1);
    LabelAllPush([], child, s1);
    assert [] + [child] == [child] && [] + [g] == [g];
  }

  lemma {:induction false} ExampleChild(g: Labelled)
    requires g == Labelled("G", Some(0), Some(1), [])
    ensures Print(g) == "(G NAME_0 VALUE_1)"
  {
    FirstSymbols();
    PrintParts(g, ["NAME_0"] + ["VALUE_1"]);
    SpacedOne("NAME_0");
    SpacedPush(["NAME_0"], "VALUE_1");
  }

  lemma {:induction false} ExampleParent(g: Labelled)
    requires Print(g) == "(G NAME_0 VALUE_1)"
    ensures Print(Labelled("F", Some(0), None, [g])) == "(" + ("F" + (" NAME_0" + (" " + "(G NAME_0 VALUE_1)"))) + ")"
  {
    NamedParent("F", 0, g);
    FirstSymbols();
    assert " " + "NAME_0" == " NAME_0";
  }

  lemma FirstSymbols()
    ensures Symbol(NAME, 0) == "NAME_0" && Symbol(VALUE, 1) == "VALUE_1"
  {
    assert Dec(0) == "0" && Dec(1) == "1";
  }

  lemma {:induction false} NamedParent(kind: string, n: nat, g: Labelled)
    ensures Print(Labelled(kind, Some(n), None, [g])) == Paren(kind + ((" " + Symbol(NAME, n)) + (" " + Print(g))))
  {
    var sym := Symbol(NAME, n);
    PrintAllPush([], g);
    assert [] + [g] == [g] && [] + [Print(g)] == [Print(g)];
    PrintParts(Labelled(kind, Some(n), None, [g]), [sym] + [Print(g)]);
    SpacedOne(sym);
    SpacedPush([sym], Print(g));
  }

  /** canonicalize decides equality up to renaming: with kinds over a legible
      alphabet two trees print alike exactly when some one-to-one map of (field,
      value) keys carries one to the other. */
  lemma DecidesOver(a: Node, b: Node, ok: Alphabet)
    requires Legible(ok) && KindsOver(a, ok) && KindsOver(b, ok)
    ensures Canonical(a) == Canonical(b) <==> AlphaEquivalent(a, b)
  {
    LabelsDecide(a, b);
    if Canonical(a) == Canonical(b) {
      var l, k := Label(a, map[]).0, Label(b, map[]).0;
      LabelOver(a, map[], ok);
      LabelOver(b, map[], ok);
      PrintToIsPrint(l, "");
      PrintToIsPrint(k, "");
      PrintUnambiguous(l, k, "", "", ok);
    }
  }

  predicate Plain(c: char) {
    c != ' ' && c != ')'
  }

  /** In particular when no kind has a space or a closing parenthesis. */
  lemma CanonicalDecides(a: Node, b: Node)
    requires KindsOver(a, Plain) && KindsOver(b, Plain)
    ensures Canonical(a) == Canonical(b) <==> AlphaEquivalent(a, b)
  {
    DecidesOver(a, b, Plain);
  }

  // ---------------------------------------------------------------- no larger alphabet will do

  function Leaf(kind: string): Node {
    Node(kind, None, None, [])
  }

  function Bare(kind: string, inner: seq<Node>): Node {
    Node(kind, None, None, inner)
  }

  function FieldLeaf(f: Field, v: Value): Node {
    if f.NAME? then Node("", Some(v), None, []) else Node("", None, Some(v), [])
  }

  function Numbering(kind: string, inner: seq<Labelled>): Labelled {
    Labelled(kind, None, None, inner)
  }

  function FieldNumber(f: Field, n: nat): Labelled {
    if f.NAME? then Labelled("", Some(n), None, []) else Labelled("", None, Some(n), [])
  }

  function Paren(text: string): string {
    "(" + text + ")"
  }

  lemma {:induction false} BareLabel(kind: string, inner: seq<Node>, s: Seen)
    ensures Label(Bare(kind, inner), s) == (Numbering(kind, LabelAll(inner, s).0), LabelAll(inner, s).1)
  {
  }

  lemma {:induction false} LabelAllPush(ts: seq<Node>, t: Node, s: Seen)
    ensures var (ls, s1) := LabelAll(ts, s);
      LabelAll(ts + [t], s) == (ls + [Label(t, s1).0], Label(t, s1).1)
    decreases |ts|
  {
    if ts == [] {
      assert [] + [t] == [t] && [t][1..] == [];
      assert LabelAll([t][1..], Label(t, s).1) == ([], Label(t, s).1);
      assert [Label(t, s).0] + [] == [Label(t, s).0];
      assert [] + [Label(t, s).0] == [Label(t, s).0];
    } else {
      var (head, s1) := Label(ts[0], s);
      LabelAllPush(ts[1..], t, s1);
      assert (ts + [t])[1..] == ts[1..] + [t];
      var (rest, s2) := LabelAll(ts[1..], s1);
      Associate([head], rest, [Label(t, s2).0]);
    }
  }

  lemma {:induction false} PrintAllPush(ls: seq<Labelled>, l: Labelled)
    ensures PrintAll(ls + [l]) == PrintAll(ls) + [Print(l)]
    decreases |ls|
  {
    if ls == [] {
      assert [] + [l] == [l] && [l][1..] == [];
      assert PrintAll([l][1..]) == [];
      assert [Print(l)] + [] == [Print(l)] && [] + [Print(l)] == [Print(l)];
    } else {
      PrintAllPush(ls[1..], l);
      assert (ls + [l])[1..] == ls[1..] + [l];
      Associate([Print(ls[0])], PrintAll(ls[1..]), [Print(l)]);
    }
  }

  lemma {:induction false} PrintBare(kind: string, inner: seq<Labelled>)
    ensures Print(Numbering(kind, inner)) == Paren(kind + Spaced(PrintAll(inner)))
  {
    var kids := PrintAll(inner);
    assert [] + ([] + kids) == kids;
    PrintParts(Numbering(kind, inner), kids);
  }

  lemma SpacedPush(ps: seq<string>, p: string)
    ensures Spaced(ps + [p]) == Spaced(ps) + (" " + p)
  {
    SpacedConcat(ps, [p]);
    assert [p][1..] == [];
    assert p + "" == p;
  }

  /** Trees whose labels print alike although they differ. */
  lemma Collide(a: Node, b: Node)
    requires Print(Label(a, map[]).0) == Print(Label(b, map[]).0) && Label(a, map[]).0 != Label(b, map[]).0
    ensures Canonical(a) == Canonical(b) && !AlphaEquivalent(a, b)
  {
    LabelsDecide(a, b);
  }

  lemma OneChildLabel(kind: string, child: Node, s: Seen)
    ensures Label(Bare(kind, [child]), s).0 == Numbering(kind, [Label(child, s).0])
  {
    BareLabel(kind, [child], s);
    LabelAllPush([], child, s);
    assert [] + [child] == [child] && [] + [Label(child, s).0] == [Label(child, s).0];
  }

  lemma {:induction false} PrintOneChild(kind: string, child: Labelled)
    ensures Print(Numbering(kind, [child])) == Paren(kind + (" " + Print(child)))
  {
    PrintBare(kind, [child]);
    PrintAllPush([], child);
    assert [] + [child] == [child] && [] + [Print(child)] == [Print(child)];
    SpacedOne(Print(child));
  }

  lemma {:induction false} PrintLeaf(kind: string)
    ensures Print(Numbering(kind, [])) == Paren(kind)
  {
    PrintBare(kind, []);
    assert kind + "" == kind;
  }

  lemma LeafLabel(kind: string, s: Seen)
    ensures Label(Leaf(kind), s) == (Numbering(kind, []), s)
  {
    BareLabel(kind, [], s);
  }

  lemma LeafOver(kind: string, ok: Alphabet)
    requires Over(kind, ok)
    ensures KindsOver(Leaf(kind), ok)
  {
  }

  lemma {:induction false} OneChildOver(kind: string, child: Node, ok: Alphabet)
    requires Over(kind, ok) && KindsOver(child, ok)
    ensures KindsOver(Bare(kind, [child]), ok)
  {
    assert [child][1..] == [];
    assert AllOver([child][1..], ok);
  }

  lemma {:induction false} AllOverPush(ts: seq<Node>, t: Node, ok: Alphabet)
    requires AllOver(ts, ok) && KindsOver(t, ok)
    ensures AllOver(ts + [t], ok)
    decreases |ts|
  {
    if ts == [] {
      assert [] + [t] == [t] && [t][1..] == [];
      assert AllOver([t][1..], ok);
    } else {
      AllOverPush(ts[1..], t, ok);
      assert (ts + [t])[1..] == ts[1..] + [t];
    }
  }

  /** A closing parenthesis: two children, or a child with a child. */
  lemma ClosingCollides(ok: Alphabet) returns (a: Node, b: Node)
    requires ok(')')
    ensures KindsOver(a, ok) && KindsOver(b, ok)
    ensures Canonical(a) == Canonical(b) && !AlphaEquivalent(a, b)
  {
    var none, close := Leaf(""), Leaf(")");
    a, b := Bare("", [none] + [close]), Bare("", [Bare(")", [none])]);
    ClosingOver(ok);
    TwoLeaves("", ")");
    Nested(")", "");
    ClosingText();
    Collide(a, b);
  }

  lemma ClosingOver(ok: Alphabet)
    requires ok(')')
    ensures KindsOver(Bare("", [Leaf("")] + [Leaf(")")]), ok) && KindsOver(Bare("", [Bare(")", [Leaf("")])]), ok)
  {
    LeafOver("", ok);
    LeafOver(")", ok);
    assert AllOver([], ok);
    AllOverPush([], Leaf(""), ok);
    assert [] + [Leaf("")] == [Leaf("")];
    AllOverPush([Leaf("")], Leaf(")"), ok);
    OneChildOver(")", Leaf(""), ok);
    OneChildOver("", Bare(")", [Leaf("")]), ok);
  }

  lemma ClosingText()
    ensures Paren("" + ((" " + Paren("")) + (" " + Paren(")")))) == Paren("" + (" " + Paren(")" + (" " + Paren("")))))
  {
    assert Paren("") == "()" && Paren(")") == "())";
    assert Paren(")" + (" " + Paren(""))) == "() ())";
  }

  lemma {:induction false} TwoLeaves(k: string, k': string)
    ensures var l, l' := Numbering(k, []), Numbering(k', []);
      && Label(Bare("", [Leaf(k)] + [Leaf(k')]), map[]).0 == Numbering("", [l] + [l'])
      && Print(Numbering("", [l] + [l'])) == Paren("" + ((" " + Paren(k)) + (" " + Paren(k'))))
  {
    BareLabel("", [Leaf(k)] + [Leaf(k')], map[]);
    LabelTwoLeaves(k, k');
    PrintTwoLeaves(k, k');
  }

  lemma {:induction false} LabelTwoLeaves(k: string, k': string)
    ensures LabelAll([Leaf(k)] + [Leaf(k')], map[]).0 == [Numbering(k, [])] + [Numbering(k', [])]
  {
    LabelAllPush([], Leaf(k), map[]);
    assert [] + [Leaf(k)] == [Leaf(k)] && [] + [Numbering(k, [])] == [Numbering(k, [])];
    LabelAllPush([Leaf(k)], Leaf(k'), map[]);
    LeafLabel(k, map[]);
    LeafLabel(k', map[]);
  }

  lemma {:induction false} PrintTwoLeaves(k: string, k': string)
    ensures Print(Numbering("", [Numbering(k, [])] + [Numbering(k', [])]))
         == Paren("" + ((" " + Paren(k)) + (" " + Paren(k'))))
  {
    var l, l' := Numbering(k, []), Numbering(k', []);
    PrintBare("", [l] + [l']);
    PrintAllPush([], l);
    assert [] + [l] == [l] && [] + [Print(l)] == [Print(l)];
    PrintAllPush([l], l');
    SpacedOne(Print(l));
    SpacedPush([Print(l)], Print(l'));
    PrintLeaf(k);
    PrintLeaf(k');
  }

  lemma SpacedOne(p: string)
    ensures Spaced([p]) == " " + p
  {
    assert [p][1..] == [];
    assert p + "" == p;
  }

  lemma {:induction false} Nested(k: string, k': string)
    ensures var l := Numbering("", [Numbering(k, [Numbering(k', [])])]);
      && Label(Bare("", [Bare(k, [Leaf(k')])]), map[]).0 == l
      && Print(l) == Paren("" + (" " + Paren(k + (" " + Paren(k')))))
  {
    OneChildLabel("", Bare(k, [Leaf(k')]), map[]);
    ParentAndLeaf(k, k');
    PrintOneChild("", Numbering(k, [Numbering(k', [])]));
  }

  /** A space and an opening parenthesis: parent and child share them out. */
  lemma OpeningCollides(ok: Alphabet) returns (a: Node, b: Node)
    requires ok(' ') && ok('(')
    ensures KindsOver(a, ok) && KindsOver(b, ok)
    ensures Canonical(a) == Canonical(b) && !AlphaEquivalent(a, b)
  {
    a, b := Bare("", [Leaf(" (")]), Bare(" (", [Leaf("")]);
    LeafOver(" (", ok);
    LeafOver("", ok);
    OneChildOver("", Leaf(" ("), ok);
    OneChildOver(" (", Leaf(""), ok);
    ParentAndLeaf("", " (");
    ParentAndLeaf(" (", "");
    OpeningText();
    Collide(a, b);
  }

  lemma OpeningText()
    ensures Paren("" + (" " + Paren(" ("))) == Paren(" (" + (" " + Paren("")))
  {
  }

  lemma {:induction false} ParentAndLeaf(k: string, k': string)
    ensures var l := Numbering(k, [Numbering(k', [])]);
      Label(Bare(k, [Leaf(k')]), map[]).0 == l && Print(l) == Paren(k + (" " + Paren(k')))
  {
    OneChildLabel(k, Leaf(k'), map[]);
    LeafLabel(k', map[]);
    PrintLeaf(k');
    PrintOneChild(k, Numbering(k', []));
  }

  /** Leaves that use up the numbers below n. */
  function Fillers(f: Field, n: nat): seq<Node> {
    if n == 0 then [] else Fillers(f, n - 1) + [FieldLeaf(f, Text(Dec(n - 1)))]
  }

  lemma {:induction false} FieldLeafLabel(f: Field, v: Value, s: Seen)
    requires (f, v) !in s
    ensures Label(FieldLeaf(f, v), s) == (FieldNumber(f, |s|), s[(f, v) := |s|])
  {
  }

  lemma {:induction false} FillersSeen(f: Field, n: nat, ok: Alphabet)
    ensures AllOver(Fillers(f, n), ok)
    ensures var s := LabelAll(Fillers(f, n), map[]).1;
      |s| == n && forall i: nat :: i >= n ==> (f, Text(Dec(i))) !in s
    decreases n
  {
    if n > 0 {
      FillersSeen(f, n - 1, ok);
      var s, v := LabelAll(Fillers(f, n - 1), map[]).1, Text(Dec(n - 1));
      FieldLeafLabel(f, v, s);
      LabelAllPush(Fillers(f, n - 1), FieldLeaf(f, v), map[]);
      FieldLeafOver(f, v, ok);
      AllOverPush(Fillers(f, n - 1), FieldLeaf(f, v), ok);
      forall i: nat | i >= n
        ensures (f, Text(Dec(i))) !in s[(f, v) := |s|]
      {
        if Dec(i) == Dec(n - 1) {
          DecInjective(i, n - 1);
        }
      }
    }
  }

  lemma {:induction false} FieldLeafOver(f: Field, v: Value, ok: Alphabet)
    ensures KindsOver(FieldLeaf(f, v), ok)
  {
  }

  lemma {:induction false} PrintParts(l: Labelled, parts: seq<string>)
    requires parts == SymbolParts(NAME, l.name) + (SymbolParts(VALUE, l.val) + PrintAll(l.inner))
    ensures Print(l) == Paren(l.kind + Spaced(parts))
  {
    JoinSpaced(l.kind, parts);
  }

  lemma {:induction false} PrintFieldNumber(f: Field, n: nat)
    ensures Print(FieldNumber(f, n)) == Paren("" + (" " + Symbol(f, n)))
  {
    OnePart(f, n);
    PrintParts(FieldNumber(f, n), [Symbol(f, n)]);
    SpacedOne(Symbol(f, n));
  }

  lemma {:induction false} OnePart(f: Field, n: nat)
    ensures var l := FieldNumber(f, n);
      [Symbol(f, n)] == SymbolParts(NAME, l.name) + (SymbolParts(VALUE, l.val) + PrintAll(l.inner))
  {
  }

  /** A space and the letters of a symbol: a kind that ends like a field. */
  lemma SymbolCollides(ok: Alphabet, f: Field) returns (a: Node, b: Node)
    requires ok(' ') && Spells(ok, f)
    ensures KindsOver(a, ok) && KindsOver(b, ok)
    ensures Canonical(a) == Canonical(b) && !AlphaEquivalent(a, b)
  {
    var n: nat :| n < 10 && ok(Digit(n));
    var kind, before := " " + Symbol(f, n), Fillers(f, n);
    var named, plain := FieldLeaf(f, Text(Dec(n))), Leaf(kind);
    a, b := Bare("", before + [named]), Bare("", before + [plain]);
    FillersSeen(f, n, ok);
    SpelledKind(f, n, ok);
    LeafOver(kind, ok);
    FieldLeafOver(f, Text(Dec(n)), ok);
    AllOverPush(before, named, ok);
    AllOverPush(before, plain, ok);
    var (ls, s) := LabelAll(before, map[]);
    FieldLeafLabel(f, Text(Dec(n)), s);
    LeafLabel(kind, s);
    PrintFieldNumber(f, n);
    PrintLeaf(kind);
    assert "" + kind == kind;
    LastChild(before, named, ls, s, FieldNumber(f, n));
    LastChild(before, plain, ls, s, Numbering(kind, []));
    assert (ls + [FieldNumber(f, n)])[|ls|] != (ls + [Numbering(kind, [])])[|ls|];
    Collide(a, b);
  }

  lemma {:induction false} LastChild(before: seq<Node>, t: Node, ls: seq<Labelled>, s: Seen, l: Labelled)
    requires LabelAll(before, map[]) == (ls, s) && Label(t, s).0 == l
    ensures Label(Bare("", before + [t]), map[]).0 == Numbering("", ls + [l])
    ensures Print(Numbering("", ls + [l])) == Paren("" + Spaced(PrintAll(ls) + [Print(l)]))
  {
    BareLabel("", before + [t], map[]);
    LabelAllPush(before, t, map[]);
    PrintBare("", ls + [l]);
    PrintAllPush(ls, l);
  }

  lemma SpelledKind(f: Field, n: nat, ok: Alphabet)
    requires ok(' ') && Over(FieldName(f), ok) && n < 10 && ok(Digit(n))
    ensures Over(" " + Symbol(f, n), ok)
  {
    assert Dec(n) == [Digit(n)];
    var sym := " " + (FieldName(f) + [Digit(n)]);
    forall i | 0 <= i < |sym|
      ensures ok(sym[i])
    {
      if 0 < i <= |FieldName(f)| {
        assert sym[i] == FieldName(f)[i - 1];
      }
    }
  }

  /** Two trees of different shape or labelling that print alike. */
  lemma KindsMatter(ok: Alphabet) returns (a: Node, b: Node)
    requires !Legible(ok)
    ensures KindsOver(a, ok) && KindsOver(b, ok)
    ensures Canonical(a) == Canonical(b) && !AlphaEquivalent(a, b)
  {
    if ok(')') {
      a, b := ClosingCollides(ok);
    } else if ok('(') {
      a, b := OpeningCollides(ok);
    } else {
      a, b := SymbolCollides(ok, if Spells(ok, NAME) then NAME else VALUE);
    }
  }

  ghost predicate Decides(ok: Alphabet) {
    forall a: Node, b: Node :: KindsOver(a, ok) && KindsOver(b, ok) ==>
      (Canonical(a) == Canonical(b) <==> AlphaEquivalent(a, b))
  }

  /** The alphabets for which the canonical form decides are the legible ones. */
  lemma DecidesExactly(ok: Alphabet)
    ensures Decides(ok) <==> Legible(ok)
  {
    if Legible(ok) {
      forall a: Node, b: Node | KindsOver(a, ok) && KindsOver(b, ok)
        ensures Canonical(a) == Canonical(b) <==> AlphaEquivalent(a, b)
      {
        DecidesOver(a, b, ok);
      }
    } else {
      var a, b := KindsMatter(ok);
    }
  }

  // ---------------------------------------------------------------- the code

  /** The `counter` and `seen` dictionaries shared by the whole traversal. */
  class Table {
    var n: nat
    var seen: map<Key, string>
    ghost var numbers: Seen

    ghost predicate Valid()
      reads this
    {
      && n == |numbers|
      && seen.Keys == numbers.Keys
      && forall k :: k in seen ==> seen[k] == Symbol(k.0, numbers[k])
    }

    constructor ()
      ensures Valid() && numbers == map[]
    {
      n, seen, numbers := 0, map[], map[];
    }

    /** One pass of the loop over the two fields. */
    method AddField(f: Field, v: Option<Value>, parts: seq<string>) returns (parts': seq<string>)
      requires Valid()
      modifies this
      ensures Valid() && numbers == LabelField(old(numbers), f, v).1
      ensures parts' == parts + SymbolParts(f, LabelField(old(numbers), f, v).0)
    {
      if v.None? {
        return parts + [];
      }
      var key := (f, v.value);
      if key !in seen {
        seen := seen[key := FieldName(f) + Dec(n)];
        numbers := numbers[key := n];
        n := n + 1;
      }
      parts' := parts + [seen[key]];
    }
  }

  method CanonicalizeNode(node: Node, table: Table) returns (text: string)
    requires table.Valid()
    modifies table
    ensures table.Valid() && table.numbers == Label(node, old(table.numbers)).1
    ensures text == Print(Label(node, old(table.numbers)).0)
    decreases node, 1
  {
    var parts := [node.kind];
    parts := table.AddField(NAME, node.name, parts);
    parts := table.AddField(VALUE, node.val, parts);
    parts := AddChildren(node, table, parts);
    PartsOf(node, old(table.numbers));
    text := "(" + Join(parts) + ")";
  }

  /** The loop over the children. */
  method AddChildren(node: Node, table: Table, parts: seq<string>) returns (parts': seq<string>)
    requires table.Valid()
    modifies table
    ensures table.Valid() && table.numbers == LabelAll(node.inner, old(table.numbers)).1
    ensures parts' == parts + PrintAll(LabelAll(node.inner, old(table.numbers)).0)
    decreases node, 0
  {
    parts' := parts;
    ghost var s := table.numbers;
    var i := 0;
    while i < |node.inner|
      invariant i <= |node.inner| && table.Valid()
      invariant LabelAll(node.inner, s).1 == LabelAll(node.inner[i..], table.numbers).1
      invariant parts + PrintAll(LabelAll(node.inner, s).0)
             == parts' + PrintAll(LabelAll(node.inner[i..], table.numbers).0)
    {
      ghost var u := table.numbers;
      var child := CanonicalizeNode(node.inner[i], table);
      OneChild(node.inner, i, u, parts', child);
      parts' := parts' + [child];
      i := i + 1;
    }
    assert parts' + [] == parts';
  }

  lemma PartsOf(node: Node, s: Seen)
    ensures var (name, s1) := LabelField(s, NAME, node.name);
      var (val, s2) := LabelField(s1, VALUE, node.val);
      var kids := PrintAll(LabelAll(node.inner, s2).0);
      var parts := (([node.kind] + SymbolParts(NAME, name)) + SymbolParts(VALUE, val)) + kids;
      && Print(Label(node, s).0) == "(" + Join(parts) + ")"
      && Label(node, s).1 == LabelAll(node.inner, s2).1
  {
    var (name, s1) := LabelField(s, NAME, node.name);
    var (val, s2) := LabelField(s1, VALUE, node.val);
    var names, vals, kids := SymbolParts(NAME, name), SymbolParts(VALUE, val), PrintAll(LabelAll(node.inner, s2).0);
    Associate([node.kind] + names, vals, kids);
    Associate([node.kind], names, vals + kids);
  }

  lemma {:induction false} OneChild(ts: seq<Node>, i: nat, s: Seen, parts: seq<string>, child: string)
    requires i < |ts| && child == Print(Label(ts[i], s).0)
    ensures var s1 := Label(ts[i], s).1;
      && LabelAll(ts[i..], s).1 == LabelAll(ts[i + 1..], s1).1
      && parts + PrintAll(LabelAll(ts[i..], s).0) == (parts + [child]) + PrintAll(LabelAll(ts[i + 1..], s1).0)
  {
    assert ts[i..][1..] == ts[i + 1..];
    var (head, s1) := Label(ts[i], s);
    var rest := LabelAll(ts[i + 1..], s1).0;
    assert ([head] + rest)[1..] == rest;
    Associate(parts, [child], PrintAll(rest));
  }

  /** canonicalize with fresh dictionaries, as structural_hash calls it. */
  method Canonicalize(ast: Node) returns (canonical: string)
    ensures canonical == Canonical(ast)
  {
    var table := new Table();
    canonical := CanonicalizeNode(ast, table);
  }
}
