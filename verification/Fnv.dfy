/** 64-bit FNV-1a as include/core.hpp and include/Moltbook.hpp compute it: the
    multiplication wraps modulo 2^64 and the exclusive or is written out bit by bit. */
module Fnv {
  import opened Bytes

  const MODULUS: nat := 0x1_0000_0000_0000_0000
  const OFFSET_BASIS: nat := 14695981039346656037
  const PRIME: nat := 1099511628211
  // PRIME * PRIME_INVERSE == 1 + PRIME_LAPS * MODULUS
  const PRIME_INVERSE: nat := 14886173955864302971
  const PRIME_LAPS: nat := 887285111055

  type Word = h: nat | h < MODULUS

  // ---------------------------------------------------------------- exclusive or

  function Pow2(k: nat): (p: nat)
    ensures p > 0
  {
    if k == 0 then 1 else 2 * Pow2(k - 1)
  }

  /** The low k bits of a ^ b. */
  function Xor(a: nat, b: nat, k: nat): (r: nat)
    ensures r < Pow2(k)
  {
    if k == 0 then 0 else (a + b) % 2 + 2 * Xor(a / 2, b / 2, k - 1)
  }

  lemma {:induction false} XorInvolution(a: nat, b: nat, k: nat)
    requires a < Pow2(k)
    ensures Xor(Xor(a, b, k), b, k) == a
  {
    if k > 0 {
      XorInvolution(a / 2, b / 2, k - 1);
      BitArithmetic(a, b, Xor(a / 2, b / 2, k - 1));
    }
  }

  lemma BitArithmetic(a: nat, b: nat, high: nat)
    ensures ((a + b) % 2 + 2 * high) / 2 == high
    ensures ((a + b) % 2 + 2 * high + b) % 2 == a % 2
  {
  }

  lemma {:induction false} XorCommutes(a: nat, b: nat, k: nat)
    ensures Xor(a, b, k) == Xor(b, a, k)
  {
    if k > 0 {
      XorCommutes(a / 2, b / 2, k - 1);
    }
  }

  lemma Pow64()
    ensures Pow2(64) == MODULUS
  {
    assert Pow2(8) == 0x100;
    assert Pow2(16) == 0x1_0000;
    assert Pow2(24) == 0x100_0000;
    assert Pow2(32) == 0x1_0000_0000;
    assert Pow2(40) == 0x100_0000_0000;
    assert Pow2(48) == 0x1_0000_0000_0000;
    assert Pow2(56) == 0x100_0000_0000_0000;
  }

  function Xor64(a: Word, b: Word): Word {
    Pow64();
    Xor(a, b, 64)
  }

  lemma Xor64Undo(a: Word, b: Word)
    ensures Xor64(Xor64(a, b), b) == a
  {
    Pow64();
    XorInvolution(a, b, 64);
  }

  // ---------------------------------------------------------------- one step

  /** How a byte widens to 64 bits: `unsigned char` keeps its value, plain `char`
      is signed on x86-64 and extends its sign. */
  datatype Widening = Unsigned | SignExtended

  function Widen(c: Byte, w: Widening): Word {
    var v := c as int;
    if w.SignExtended? && v >= 128 then v + (MODULUS - 256) else v
  }

  function Step(h: Word, c: Byte, w: Widening): Word {
    Xor64(h, Widen(c, w)) * PRIME % MODULUS
  }

  /** The same step run backwards. */
  function Unstep(h: Word, c: Byte, w: Widening): Word {
    Xor64(h * PRIME_INVERSE % MODULUS, Widen(c, w))
  }

  lemma ModUnique(x: int, q: int, h: Word)
    requires x == h + MODULUS * q
    ensures x % MODULUS == h
  {
  }

  lemma MulDistribute(r: int, h: int, q: int)
    requires r == h * PRIME - MODULUS * q
    ensures r * PRIME_INVERSE == h + MODULUS * (h * PRIME_LAPS - q * PRIME_INVERSE)
  {
    assert PRIME * PRIME_INVERSE == 1 + MODULUS * PRIME_LAPS;
  }

  lemma MulDistributeBack(r: int, h: int, q: int)
    requires r == h * PRIME_INVERSE - MODULUS * q
    ensures r * PRIME == h + MODULUS * (h * PRIME_LAPS - q * PRIME)
  {
    assert PRIME * PRIME_INVERSE == 1 + MODULUS * PRIME_LAPS;
  }

  lemma MulUndo(h: Word)
    ensures (h * PRIME % MODULUS) * PRIME_INVERSE % MODULUS == h
    ensures (h * PRIME_INVERSE % MODULUS) * PRIME % MODULUS == h
  {
    var q := h * PRIME / MODULUS;
    var r := h * PRIME % MODULUS;
    MulDistribute(r, h, q);
    ModUnique(r * PRIME_INVERSE, h * PRIME_LAPS - q * PRIME_INVERSE, h);
    var q' := h * PRIME_INVERSE / MODULUS;
    var r' := h * PRIME_INVERSE % MODULUS;
    MulDistributeBack(r', h, q');
    ModUnique(r' * PRIME, h * PRIME_LAPS - q' * PRIME, h);
  }

  /** For every byte the step is a permutation of the 64-bit states. */
  lemma StepBijective(h: Word, c: Byte, w: Widening)
    ensures Unstep(Step(h, c, w), c, w) == h
    ensures Step(Unstep(h, c, w), c, w) == h
  {
    MulUndo(Xor64(h, Widen(c, w)));
    Xor64Undo(h, Widen(c, w));
    Xor64Undo(h * PRIME_INVERSE % MODULUS, Widen(c, w));
    MulUndo(h);
  }

  /** From one state, different bytes lead to different states. */
  lemma StepSeparatesBytes(h: Word, c: Byte, d: Byte, w: Widening)
    requires Step(h, c, w) == Step(h, d, w)
    ensures c == d
  {
    var x, y := Widen(c, w), Widen(d, w);
    MulUndo(Xor64(h, x));
    MulUndo(Xor64(h, y));
    Pow64();
    XorCommutes(h, x, 64);
    XorCommutes(h, y, 64);
    Xor64Undo(x, h);
    Xor64Undo(y, h);
  }

  // ---------------------------------------------------------------- whole contents

  function Fold(h: Word, s: Bytes, w: Widening): Word {
    if s == [] then h else Step(Fold(h, s[..|s| - 1], w), s[|s| - 1], w)
  }

  function Fnv1a(s: Bytes, w: Widening): Word {
    Fold(OFFSET_BASIS, s, w)
  }

  lemma {:induction false} FoldConcat(h: Word, s: Bytes, t: Bytes, w: Widening)
    ensures Fold(h, s + t, w) == Fold(Fold(h, s, w), t, w)
    decreases |t|
  {
    if t == [] {
      assert s + t == s;
    } else {
      var t', last := t[..|t| - 1], t[|t| - 1];
      assert (s + t)[..|s + t| - 1] == s + t';
      FoldConcat(h, s, t', w);
    }
  }

  lemma {:induction false} FoldInjective(h: Word, g: Word, s: Bytes, w: Widening)
    requires Fold(h, s, w) == Fold(g, s, w)
    ensures h == g
    decreases |s|
  {
    if s != [] {
      var s', last := s[..|s| - 1], s[|s| - 1];
      StepBijective(Fold(h, s', w), last, w);
      StepBijective(Fold(g, s', w), last, w);
      FoldInjective(h, g, s', w);
    }
  }

  /** Two contents that differ in exactly one byte never share a hash. */
  lemma OneByteChangesHash(pre: Bytes, c: Byte, d: Byte, post: Bytes, w: Widening)
    requires c != d
    ensures Fnv1a(pre + [c] + post, w) != Fnv1a(pre + [d] + post, w)
  {
    var h := Fold(OFFSET_BASIS, pre, w);
    FoldOneByte(pre, c, post, w);
    FoldOneByte(pre, d, post, w);
    if Fnv1a(pre + [c] + post, w) == Fnv1a(pre + [d] + post, w) {
      FoldInjective(Step(h, c, w), Step(h, d, w), post, w);
      StepSeparatesBytes(h, c, d, w);
    }
  }

  lemma FoldOneByte(pre: Bytes, c: Byte, post: Bytes, w: Widening)
    ensures Fnv1a(pre + [c] + post, w) == Fold(Step(Fold(OFFSET_BASIS, pre, w), c, w), post, w)
  {
    FoldConcat(OFFSET_BASIS, pre + [c], post, w);
    assert (pre + [c])[..|pre|] == pre;
  }

  /** structural_hash and calculate_checksum: the same loop over differently
      widened bytes. */
  method HashLoop(content: Bytes, w: Widening) returns (h: Word)
    ensures h == Fnv1a(content, w)
  {
    h := OFFSET_BASIS;
    for i := 0 to |content|
      invariant h == Fold(OFFSET_BASIS, content[..i], w)
    {
      assert content[..i + 1][..i] == content[..i];
      h := Xor64(h, Widen(content[i], w));
      h := h * PRIME % MODULUS;
    }
    assert content[..|content|] == content;
  }

  // ---------------------------------------------------------------- known values

  lemma PeelBit(x: nat, y: nat, l: nat, b: nat)
    ensures (2 * x + l) / 2 == x + l / 2 && (2 * y + b) / 2 == y + b / 2
    ensures (2 * x + l + (2 * y + b)) % 2 == (l + b) % 2
  {
  }

  lemma XorTwoBits(h: nat, g: nat, l: nat, b: nat, k: nat)
    requires l < 4 && b < 4
    ensures Xor(4 * h + l, 4 * g + b, k + 2) == 4 * Xor(h, g, k) + Xor(l, b, 2)
  {
    XorSplitStep(h, g, l / 2, b / 2, k, 1, Xor(h, g, k));
    XorSplitStep(2 * h, 2 * g, l, b, k, 2, 2 * Xor(h, g, k));
  }

  lemma XorFourBits(h: nat, g: nat, l1: nat, l0: nat, b1: nat, b0: nat, k: nat)
    requires l1 < 4 && l0 < 4 && b1 < 4 && b0 < 4
    ensures Xor(16 * h + (4 * l1 + l0), 16 * g + (4 * b1 + b0), k + 4)
         == 16 * Xor(h, g, k) + Xor(4 * l1 + l0, 4 * b1 + b0, 4)
  {
    XorTwoBits(4 * h + l1, 4 * g + b1, l0, b0, k + 2);
    XorTwoBits(h, g, l1, b1, k);
    XorTwoBits(l1, b1, l0, b0, 2);
  }

  lemma XorNibble(h: nat, g: nat, l: nat, b: nat, k: nat)
    requires l < 16 && b < 16
    ensures Xor(16 * h + l, 16 * g + b, k + 4) == 16 * Xor(h, g, k) + Xor(l, b, 4)
  {
    XorFourBits(h, g, l / 4, l % 4, b / 4, b % 4, k);
  }

  lemma XorTwoNibbles(h: nat, g: nat, l1: nat, l0: nat, b1: nat, b0: nat, k: nat)
    requires l1 < 16 && l0 < 16 && b1 < 16 && b0 < 16
    ensures Xor(256 * h + (16 * l1 + l0), 256 * g + (16 * b1 + b0), k + 8)
         == 256 * Xor(h, g, k) + Xor(16 * l1 + l0, 16 * b1 + b0, 8)
  {
    XorNibble(16 * h + l1, 16 * g + b1, l0, b0, k + 4);
    XorNibble(h, g, l1, b1, k);
    XorNibble(l1, b1, l0, b0, 4);
  }

  /** The lowest byte and the rest do not meet. */
  lemma XorByte(h: nat, g: nat, l: nat, b: nat, k: nat)
    requires l < 256 && b < 256
    ensures Xor(256 * h + l, 256 * g + b, k + 8) == 256 * Xor(h, g, k) + Xor(l, b, 8)
  {
    XorTwoNibbles(h, g, l / 16, l % 16, b / 16, b % 16, k);
  }

  lemma XorSplitStep(x: nat, y: nat, l: nat, b: nat, k: nat, j: nat, z: nat)
    requires j > 0 && Xor(x + l / 2, y + b / 2, k + j - 1) == z + Xor(l / 2, b / 2, j - 1)
    ensures Xor(2 * x + l, 2 * y + b, k + j) == 2 * z + Xor(l, b, j)
  {
    PeelBit(x, y, l, b);
    XorPeel(2 * x + l, 2 * y + b, k + j);
    XorPeel(l, b, j);
  }

  lemma XorPeel(a: nat, b: nat, k: nat)
    requires k > 0
    ensures Xor(a, b, k) == (a + b) % 2 + 2 * Xor(a / 2, b / 2, k - 1)
  {
  }

  lemma {:induction false} XorZero(a: nat, k: nat)
    requires a < Pow2(k)
    ensures Xor(a, 0, k) == a
  {
    if k > 0 {
      XorZero(a / 2, k - 1);
    }
  }

  lemma {:induction false} XorOnes(a: nat, k: nat)
    requires a < Pow2(k)
    ensures Xor(a, Pow2(k) - 1, k) == Pow2(k) - 1 - a
  {
    if k > 0 {
      XorOnes(a / 2, k - 1);
      XorPeel(a, Pow2(k) - 1, k);
      OnesBit(a, Pow2(k - 1));
    }
  }

  lemma OnesBit(a: nat, p: nat)
    requires p > 0
    ensures (2 * p - 1) / 2 == p - 1 && (a + (2 * p - 1)) % 2 == 1 - a % 2 && a == 2 * (a / 2) + a % 2
  {
  }

  lemma Pow56()
    ensures Pow2(8) == 0x100 && Pow2(56) == 0x100_0000_0000_0000
  {
    Pow64();
    assert Pow2(8) == 0x100;
    assert Pow2(64) == 256 * Pow2(56) by {
      assert Pow2(57) == 2 * Pow2(56) && Pow2(58) == 2 * Pow2(57) && Pow2(59) == 2 * Pow2(58);
      assert Pow2(60) == 2 * Pow2(59) && Pow2(61) == 2 * Pow2(60) && Pow2(62) == 2 * Pow2(61);
    }
  }

  lemma BasisByte(h: nat, g: nat, b: nat)
    requires 256 * h + 37 == OFFSET_BASIS && b < 256
    ensures Xor(OFFSET_BASIS, 256 * g + b, 64) == 256 * Xor(h, g, 56) + Xor(37, b, 8)
  {
    XorByte(h, g, 37, b, 56);
  }

  lemma OneByte(c: Byte, w: Widening)
    ensures Fnv1a([c], w) == Step(OFFSET_BASIS, c, w)
  {
    var s: Bytes := [c];
    assert s[..0] == [] && s[|s| - 1] == c;
    assert Fold(OFFSET_BASIS, s[..0], w) == OFFSET_BASIS;
  }

  lemma PlainByte(h: nat, c: Byte, low: nat)
    requires 256 * h + 37 == OFFSET_BASIS && low == Xor(37, c as int, 8)
    ensures Fnv1a([c], Unsigned) == (256 * h + low) * PRIME % MODULUS
  {
    Pow56();
    OneByte(c, Unsigned);
    BasisByte(h, 0, c as int);
    XorZero(h, 56);
  }

  lemma SignedByte(h: nat, c: Byte, low: nat)
    requires 256 * h + 37 == OFFSET_BASIS && low == Xor(37, c as int, 8) && c as int >= 128
    ensures Fnv1a([c], SignExtended) == (256 * (0xff_ffff_ffff_ffff - h) + low) * PRIME % MODULUS
  {
    Pow56();
    OneByte(c, SignExtended);
    BasisByte(h, 0xff_ffff_ffff_ffff, c as int);
    XorOnes(h, 56);
  }

  lemma Nibbles()
    ensures Xor(2, 6, 4) == 4 && Xor(5, 1, 4) == 4 && Xor(2, 14, 4) == 12 && Xor(5, 9, 4) == 12
  {
  }

  lemma LowBytes(a: nat, e9: nat)
    requires a == 97 && e9 == 0xe9
    ensures Xor(37, a, 8) == 68 && Xor(37, e9, 8) == 204
  {
    Nibbles();
    XorNibble(2, 6, 5, 1, 4);
    XorNibble(2, 14, 5, 9, 4);
  }

  lemma PlainValue(c: Byte, low: nat, laps: nat, value: Word)
    requires low == Xor(37, c as int, 8)
    requires (256 * 57406175934947875 + low) * PRIME == value + MODULUS * laps
    ensures Fnv1a([c], Unsigned) == value
  {
    PlainByte(57406175934947875, c, low);
    ModUnique((256 * 57406175934947875 + low) * PRIME, laps, value);
  }

  lemma SignedValue(c: Byte, low: nat, laps: nat, value: Word)
    requires low == Xor(37, c as int, 8) && c as int >= 128
    requires (256 * (0xff_ffff_ffff_ffff - 57406175934947875) + low) * PRIME == value + MODULUS * laps
    ensures Fnv1a([c], SignExtended) == value
  {
    SignedByte(57406175934947875, c, low);
    ModUnique((256 * (0xff_ffff_ffff_ffff - 57406175934947875) + low) * PRIME, laps, value);
  }

  /** The published values of 64-bit FNV-1a for the empty text and for "a". */
  lemma PublishedVectors(s: Bytes)
    ensures s == "" ==> Fnv1a(s, Unsigned) == 0xcbf29ce484222325
    ensures s == "a" ==> Fnv1a(s, Unsigned) == 0xaf63dc4c8601ec8c
  {
    if s == "a" {
      LowBytes(s[0] as int, 0xe9);
      PlainValue(s[0], 68, 875948729822, 12638187200555641996);
      assert s == [s[0]];
    }
  }

  /** A byte from 128 on tells the two ways of widening apart. */
  lemma WideningMatters(c: Byte)
    requires c as int == 0xe9
    ensures Fnv1a([c], Unsigned) == 12638336734137078692
    ensures Fnv1a([c], SignExtended) == 5808574465339960996
  {
    LowBytes(97, c as int);
    PlainValue(c, 204, 875948729822, 12638336734137078692);
    SignedValue(c, 204, 223562898388, 5808574465339960996);
  }
}
