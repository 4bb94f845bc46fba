/**
 * SHA-1 as RFC 3174 defines it, on bit strings: words and their operations (section 3), padding (section 4), digest
 * (section 6.1).
 */
module Sha1Spec {
  import opened Common

  // ---------- words ----------

  /** A 32-bit word, most significant bit first. */
  type Word = s: seq<bool> | |s| == 32 witness seq(32, i => false)

  function Zeros(n: nat): (s: seq<bool>)
    ensures |s| == n && forall i :: 0 <= i < n ==> !s[i]
  {
    seq(n, i => false)
  }

  function And(a: Word, b: Word): (c: Word)
    ensures forall i :: 0 <= i < 32 ==> c[i] == (a[i] && b[i])
  {
    seq(32, i requires 0 <= i < 32 => a[i] && b[i])
  }

  function Or(a: Word, b: Word): (c: Word)
    ensures forall i :: 0 <= i < 32 ==> c[i] == (a[i] || b[i])
  {
    seq(32, i requires 0 <= i < 32 => a[i] || b[i])
  }

  function Xor(a: Word, b: Word): (c: Word)
    ensures forall i :: 0 <= i < 32 ==> c[i] == (a[i] != b[i])
  {
    seq(32, i requires 0 <= i < 32 => a[i] != b[i])
  }

  function Not(a: Word): (c: Word)
    ensures forall i :: 0 <= i < 32 ==> c[i] == !a[i]
  {
    seq(32, i requires 0 <= i < 32 => !a[i])
  }

  /** Addition modulo 2^32. */
  function Add(a: Word, b: Word): Word {
    LowBits(Number(a) + Number(b), 32)
  }

  /** S^n: circular left shift. */
  function Rotate(n: nat, w: Word): (r: Word)
    requires n <= 32
  {
    w[n..] + w[..n]
  }

  // ---------- splitting numbers ----------

  lemma LowBitsNext(x: nat, n: nat)
    requires n > 0
    ensures LowBits(x, n) == LowBits(x / 2, n - 1) + [x % 2 == 1]
  {}

  /** x without its n low-order bits. */
  function Halved(x: nat, n: nat): nat {
    if n == 0 then x else Halved(x / 2, n - 1)
  }

  lemma {:induction false} LowBitsSplit(x: nat, a: nat, b: nat)
    ensures LowBits(x, a + b) == LowBits(Halved(x, b), a) + LowBits(x, b)
  {
    if b == 0 {
      assert LowBits(x, 0) == [];
      assert LowBits(x, a) + [] == LowBits(x, a);
    } else {
      hide LowBits;
      LowBitsSplit(x / 2, a, b - 1);
      LowBitsNext(x, a + b);
      LowBitsNext(x, b);
    }
  }

  lemma {:induction false} HalvedTwice(x: nat, a: nat, b: nat)
    ensures Halved(x, a + b) == Halved(Halved(x, a), b)
  {
    if a > 0 {
      HalvedTwice(x / 2, a - 1, b);
    }
  }

  lemma HalvedWord(x: nat)
    ensures Halved(x, 8) == x / 0x100 && Halved(x, 32) == x / 0x1_0000_0000
  {
    hide *;
    HalvedEight(x);
    HalvedEight(x / 0x100);
    HalvedEight(x / 0x1_0000);
    HalvedEight(x / 0x100_0000);
    HalvedTwice(x, 8, 24);
    HalvedTwice(x / 0x100, 8, 16);
    HalvedTwice(x / 0x1_0000, 8, 8);
    assert x / 0x100 / 0x100 == x / 0x1_0000 && x / 0x1_0000 / 0x100 == x / 0x100_0000;
    assert x / 0x100_0000 / 0x100 == x / 0x1_0000_0000;
  }

  lemma HalvedFour(x: nat)
    ensures Halved(x, 4) == x / 0x10
  {
    assert Halved(x / 8, 1) == Halved(x / 16, 0);
    assert Halved(x / 4, 2) == Halved(x / 4 / 2, 1);
    assert Halved(x, 4) == Halved(x / 2, 3) == Halved(x / 2 / 2, 2);
  }

  lemma HalvedEight(x: nat)
    ensures Halved(x, 8) == x / 0x100
  {
    HalvedFour(x);
    HalvedTwice(x, 4, 4);
    HalvedFour(x / 0x10);
  }

  // ---------- functions and constants ----------

  function F(t: nat, b: Word, c: Word, d: Word): Word
    requires t < 80
  {
    if t < 20 then Or(And(b, c), And(Not(b), d))
    else if t < 40 then Xor(Xor(b, c), d)
    else if t < 60 then Or(Or(And(b, c), And(b, d)), And(c, d))
    else Xor(Xor(b, c), d)
  }

  function K(t: nat): Word
    requires t < 80
  {
    if t < 20 then LowBits(0x5A827999, 32)
    else if t < 40 then LowBits(0x6ED9EBA1, 32)
    else if t < 60 then LowBits(0x8F1BBCDC, 32)
    else LowBits(0xCA62C1D6, 32)
  }

  // ---------- padding ----------

  /** Zeros between the closing one bit and the length. */
  function Filler(n: nat): nat {
    if n % 512 <= 447 then 447 - n % 512 else 959 - n % 512
  }

  /** The message, a one bit, zeros, and the message's length in 64 bits. */
  function Pad(m: seq<bool>): (p: seq<bool>) {
    m + [true] + Zeros(Filler(|m|)) + LowBits(|m|, 64)
  }

  /** Padding fills up to a multiple of 512 bits. */
  lemma PadLength(m: seq<bool>)
    ensures |Pad(m)| % 512 == 0 && |m| + 65 <= |Pad(m)| <= |m| + 576
  {
    hide LowBits;
    var q, r := |m| / 512, |m| % 512;
    assert |m| == 512 * q + r;
    assert |Pad(m)| == if r <= 447 then 512 * (q + 1) else 512 * (q + 2);
  }

  // ---------- digest ----------

  datatype State = State(a: Word, b: Word, c: Word, d: Word, e: Word)

  const INITIAL := State(LowBits(0x67452301, 32), LowBits(0xEFCDAB89, 32), LowBits(0x98BADCFE, 32),
                         LowBits(0x10325476, 32), LowBits(0xC3D2E1F0, 32))

  type Block = s: seq<bool> | |s| == 512 witness seq(512, i => false)

  /** W(t) for a block. */
  function Schedule(block: Block, t: nat): Word {
    if t < 16 then block[32 * t..32 * t + 32]
    else Rotate(1, Xor(Xor(Xor(Schedule(block, t - 3), Schedule(block, t - 8)), Schedule(block, t - 14)),
                   Schedule(block, t - 16)))
  }

  /** One of the 80 steps. */
  function Step(t: nat, s: State, w: Word): State
    requires t < 80
  {
    State(Add(Add(Add(Add(Rotate(5, s.a), F(t, s.b, s.c, s.d)), s.e), w), K(t)), s.a, Rotate(30, s.b), s.c, s.d)
  }

  function Steps(block: Block, t: nat, s: State): State
    requires t <= 80
  {
    if t == 0 then s else Step(t - 1, Steps(block, t - 1, s), Schedule(block, t - 1))
  }

  function AddState(s: State, r: State): State {
    State(Add(s.a, r.a), Add(s.b, r.b), Add(s.c, r.c), Add(s.d, r.d), Add(s.e, r.e))
  }

  function Compress(s: State, block: Block): State {
    AddState(s, Steps(block, 80, s))
  }

  /** What comes before the last whole block of a bit string. */
  function Before(m: seq<bool>): (r: seq<bool>)
    requires |m| >= 512
    ensures |r| < |m|
  {
    m[..|m| - |m| % 512 - 512]
  }

  function LastBlock(m: seq<bool>): Block
    requires |m| >= 512
  {
    m[|m| - |m| % 512 - 512..][..512]
  }

  /** The blocks of a bit string, one after the other; an incomplete last block is left out. */
  function Fold(m: seq<bool>): State {
    if |m| < 512 then INITIAL else Compress(Fold(Before(m)), LastBlock(m))
  }

  /** The message digest. */
  function Digest(m: seq<bool>): State {
    Fold(Pad(m))
  }

  lemma DigestIs(m: seq<bool>)
    ensures Digest(m) == Fold(Pad(m))
  {}

  lemma Remainder(n: nat, r: nat)
    requires n % 512 == 0 && r < 512
    ensures (n + 512 + r) % 512 == r
  {}

  lemma Cut(m: seq<bool>, block: Block, rest: seq<bool>)
    requires |m| % 512 == 0 && |rest| < 512
    ensures Before(m + block + rest) == m && LastBlock(m + block + rest) == block
  {
    var x := m + block + rest;
    Remainder(|m|, |rest|);
    assert x[..|m|] == m && x[|m|..][..512] == block;
  }

  lemma FoldStep(m: seq<bool>)
    requires |m| >= 512
    ensures Fold(m) == Compress(Fold(Before(m)), LastBlock(m))
  {
    hide Compress, Before, LastBlock, INITIAL;
  }

  lemma FoldUnfold(m: seq<bool>, block: Block, rest: seq<bool>)
    requires |m| % 512 == 0 && |rest| < 512
    ensures Fold(m + block + rest) == Compress(Fold(m), block)
  {
    hide *;
    Cut(m, block, rest);
    FoldStep(m + block + rest);
  }

  lemma FoldShort(m: seq<bool>)
    requires |m| < 512
    ensures Fold(m) == INITIAL
  {}

  /** What is less than a block does not matter. */
  lemma FoldTail(m: seq<bool>, rest: seq<bool>)
    requires |m| % 512 == 0 && |rest| < 512
    ensures Fold(m + rest) == Fold(m)
  {
    hide *;
    if |m| == 0 {
      FoldShort(m);
      FoldShort(m + rest);
    } else {
      var n := |m| - 512;
      var block: Block := m[n..];
      assert m == m[..n] + block && m[..n] + block + [] == m[..n] + block;
      FoldUnfold(m[..n], block, []);
      FoldUnfold(m[..n], block, rest);
    }
  }

  /** Whole blocks fold one at a time; what is less than a block does not matter. */
  lemma FoldBlock(m: seq<bool>, block: Block, rest: seq<bool>)
    requires |m| % 512 == 0 && |rest| < 512
    ensures Fold(m + block + rest) == Compress(Fold(m), block)
    ensures Fold(m + rest) == Fold(m)
  {
    hide *;
    FoldUnfold(m, block, rest);
    FoldTail(m, rest);
  }
}
