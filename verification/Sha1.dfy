/** The streaming SHA-1 of the router, proved against the bit-string definition. */
module Sha1 {
  import opened Common
  import opened Sha1Spec
  import Crc8

  type uint32 = x: int | 0 <= x < 0x1_0000_0000

  // ---------- words in C ----------

  function FromUChar(b: Byte): Word {
    Zeros(24) + BitsOf(b)
  }

  function ShiftLeft(w: Word, n: nat): Word
    requires n <= 32
  {
    w[n..] + Zeros(n)
  }

  function ShiftRight(w: Word, n: nat): Word
    requires n <= 32
  {
    Zeros(n) + w[..32 - n]
  }

  /** The SHA1CircularShift macro is a rotation. */
  function CircularShift(n: nat, w: Word): (r: Word)
    requires n <= 32
    ensures r == Rotate(n, w)
  {
    var r := Or(ShiftLeft(w, n), ShiftRight(w, 32 - n));
    assert r == Rotate(n, w);
    r
  }

  lemma Placed(b: Byte, n: nat)
    requires n <= 24
    ensures ShiftLeft(FromUChar(b), n) == Zeros(24 - n) + BitsOf(b) + Zeros(n)
  {
    hide BitsOf;
  }

  /** Joining a byte into the zeros behind what has been collected. */
  lemma Joined(before: seq<bool>, b: seq<bool>, n: nat)
    requires |b| == 8 && |before| + 8 + n == 32
    ensures Or(before + Zeros(8 + n), Zeros(|before|) + b + Zeros(n)) == before + b + Zeros(n)
  {}

  /** Four bytes shifted into place and joined make a big-endian word. */
  lemma FourBytes(a: Byte, b: Byte, c: Byte, d: Byte)
    ensures Or(Or(Or(ShiftLeft(FromUChar(a), 24), ShiftLeft(FromUChar(b), 16)), ShiftLeft(FromUChar(c), 8)),
               FromUChar(d))
         == BitsOf(a) + BitsOf(b) + BitsOf(c) + BitsOf(d)
  {
    hide *;
    Placed(a, 24);
    Placed(b, 16);
    Placed(c, 8);
    assert FromUChar(d) == Zeros(24) + BitsOf(d) + Zeros(0) by {
      FromUCharIs(d);
    }
    assert Zeros(0) + BitsOf(a) + Zeros(24) == BitsOf(a) + Zeros(24);
    Joined(BitsOf(a), BitsOf(b), 16);
    Joined(BitsOf(a) + BitsOf(b), BitsOf(c), 8);
    Joined(BitsOf(a) + BitsOf(b) + BitsOf(c), BitsOf(d), 0);
    assert BitsOf(a) + BitsOf(b) + BitsOf(c) + BitsOf(d) + Zeros(0) == BitsOf(a) + BitsOf(b) + BitsOf(c) + BitsOf(d);
  }

  lemma FromUCharIs(b: Byte)
    ensures FromUChar(b) == Zeros(24) + BitsOf(b) + Zeros(0)
  {
    hide BitsOf;
  }

  lemma SplitAt<T>(s: seq<T>, i: nat)
    requires i < |s|
    ensures s == (s[..i] + [s[i]]) + s[i + 1..]
  {}

  lemma Middle<T>(a: seq<T>, b: seq<T>, c: seq<T>)
    ensures ((a + b) + c)[|a|..|a| + |b|] == b
  {}

  lemma ByteAt(buf: seq<Byte>, i: nat)
    requires i < |buf|
    ensures Crc8.Bits(buf)[8 * i..8 * i + 8] == BitsOf(buf[i])
  {
    hide *;
    SplitAt(buf, i);
    Crc8.BitsAppend(buf[..i] + [buf[i]], buf[i + 1..]);
    Crc8.BitsAppend(buf[..i], [buf[i]]);
    OneByte(buf[i]);
    Middle(Crc8.Bits(buf[..i]), BitsOf(buf[i]), Crc8.Bits(buf[i + 1..]));
  }

  lemma OneByte(b: Byte)
    ensures Crc8.Bits([b]) == BitsOf(b)
  {
    assert [b][..0] == [];
    assert Crc8.Bits([]) + BitsOf(b) == BitsOf(b);
  }

  lemma WordAt(buf: seq<Byte>, t: nat)
    requires |buf| == 64 && t < 16
    ensures BitsOf(buf[4 * t]) + BitsOf(buf[4 * t + 1]) + BitsOf(buf[4 * t + 2]) + BitsOf(buf[4 * t + 3])
         == Schedule(Crc8.Bits(buf), t)
  {
    hide Crc8.Bits;
    hide BitsOf;
    ByteAt(buf, 4 * t);
    ByteAt(buf, 4 * t + 1);
    ByteAt(buf, 4 * t + 2);
    ByteAt(buf, 4 * t + 3);
    FourPieces(Crc8.Bits(buf), 32 * t);
  }

  lemma SliceJoin<T>(s: seq<T>, a: nat, b: nat, c: nat)
    requires a <= b <= c <= |s|
    ensures s[a..b] + s[b..c] == s[a..c]
  {}

  lemma FourPieces(s: seq<bool>, i: nat)
    requires i + 32 <= |s|
    ensures s[i..i + 32] == s[i..i + 8] + s[i + 8..i + 16] + s[i + 16..i + 24] + s[i + 24..i + 32]
  {
    hide *;
    SliceJoin(s, i, i + 8, i + 16);
    SliceJoin(s, i, i + 16, i + 24);
    SliceJoin(s, i, i + 24, i + 32);
  }

  // ---------- bytes and blocks ----------

  const OPENER := Byte(true, false, false, false, false, false, false, false)

  function ZeroBytes(n: nat): (s: seq<Byte>)
    ensures |s| == n
  {
    seq(n, i => NUL)
  }

  function LengthBytes(high: uint32, low: uint32): (s: seq<Byte>)
    ensures |s| == 8
  {
    [ToByte(high / 0x100_0000 % 0x100), ToByte(high / 0x1_0000 % 0x100), ToByte(high / 0x100 % 0x100),
     ToByte(high % 0x100),
     ToByte(low / 0x100_0000 % 0x100), ToByte(low / 0x1_0000 % 0x100), ToByte(low / 0x100 % 0x100), ToByte(low % 0x100)]
  }

  /** A message split at a block boundary. */
  lemma AtBoundary(front: seq<Byte>, tail: seq<Byte>)
    requires |front| % 64 == 0
    ensures Crc8.Bits(front + tail) == Crc8.Bits(front) + Crc8.Bits(tail) && |Crc8.Bits(front)| % 512 == 0
  {
    hide *;
    Crc8.BitsAppend(front, tail);
    WholeBlocks(|front|);
  }

  lemma WholeBlocks(n: nat)
    requires n % 64 == 0
    ensures 8 * n % 512 == 0
  {
    DivUnique(8 * n, 512, n / 64, 0);
  }

  /** Behind a block boundary, one more byte completes the block, or does not matter yet. */
  lemma AbsorbNext(front: seq<Byte>, tail: seq<Byte>, x: Byte)
    requires |front| % 64 == 0 && |tail| < 64
    ensures |tail| == 63 ==>
              Fold(Crc8.Bits(front + (tail + [x]))) ==
              Compress(Fold(Crc8.Bits(front + tail)), Crc8.Bits(tail + [x]))
    ensures |tail| < 63 ==> Fold(Crc8.Bits(front + (tail + [x]))) == Fold(Crc8.Bits(front + tail))
  {
    hide *;
    AtBoundary(front, tail);
    AtBoundary(front, tail + [x]);
    FoldGrow(Crc8.Bits(front), Crc8.Bits(tail), Crc8.Bits(tail + [x]));
  }

  lemma AppendSlices(m: seq<Byte>, x: Byte, n: nat)
    requires n <= |m|
    ensures m == m[..n] + m[n..] && m + [x] == m[..n] + (m[n..] + [x])
  {}

  lemma FoldGrow(pre: seq<bool>, tail: seq<bool>, tail': seq<bool>)
    requires |pre| % 512 == 0 && |tail| < 512
    ensures |tail'| == 512 ==> Fold(pre + tail') == Compress(Fold(pre + tail), tail')
    ensures |tail'| < 512 ==> Fold(pre + tail') == Fold(pre + tail)
  {
    hide *;
    FoldTail(pre, tail);
    if |tail'| == 512 {
      FoldBlock(pre, tail', []);
      assert pre + tail' + [] == pre + tail';
    } else if |tail'| < 512 {
      FoldTail(pre, tail');
    }
  }

  lemma IndexNext(n: nat)
    ensures (n + 1) % 64 == (if n % 64 == 63 then 0 else n % 64 + 1) && (n - n % 64) % 64 == 0
  {}

  /** The two 32-bit halves count like one 64-bit number. */
  lemma CountNext(high: uint32, low: uint32, n: nat)
    requires 8 * n < 0x1_0000_0000_0000_0000 && high * 0x1_0000_0000 + low == 8 * n
    ensures low + 8 <= 0x1_0000_0000
    ensures low + 8 < 0x1_0000_0000 ==> high * 0x1_0000_0000 + (low + 8) == 8 * (n + 1) < 0x1_0000_0000_0000_0000
    ensures low + 8 == 0x1_0000_0000 ==> (high + 1) * 0x1_0000_0000 == 8 * (n + 1)
  {
    assert low == 8 * (n - high * 0x2000_0000);
  }

  // ---------- the length, in bits and in bytes ----------

  /** Only the low-order bits matter. */
  lemma {:induction false} LowBitsMod(x: nat, y: nat, n: nat)
    ensures LowBits(x + y * Pow2(n), n) == LowBits(x, n)
  {
    if n > 0 {
      var p := y * Pow2(n - 1);
      assert y * Pow2(n) == 2 * p;
      assert (x + 2 * p) / 2 == x / 2 + p && (x + 2 * p) % 2 == x % 2;
      LowBitsMod(x / 2, y, n - 1);
    }
  }

  lemma Pow2At32()
    ensures Pow2(8) == 0x100 && Pow2(32) == 0x1_0000_0000
  {
    Pow2At8();
    assert Pow2(10) == 0x400;
    assert Pow2(12) == 0x1000;
    assert Pow2(14) == 0x4000;
    assert Pow2(16) == 0x1_0000;
    assert Pow2(18) == 0x4_0000;
    assert Pow2(20) == 0x10_0000;
    assert Pow2(22) == 0x40_0000;
    assert Pow2(24) == 0x100_0000;
    assert Pow2(26) == 0x400_0000;
    assert Pow2(28) == 0x1000_0000;
    assert Pow2(30) == 0x4000_0000;
  }

  /** Addition of words is addition of the numbers they stand for, modulo 2^32. */
  lemma AddNumber(a: Word, b: Word)
    ensures Number(Add(a, b)) == (Number(a) + Number(b)) % 0x1_0000_0000
  {
    hide LowBits, Number, Pow2;
    var x := Number(a) + Number(b);
    Pow2At32();
    DivMod(x, 0x1_0000_0000);
    LowBitsMod(x % 0x1_0000_0000, x / 0x1_0000_0000, 32);
    NumberOfLowBits(x % 0x1_0000_0000, 32);
  }

  lemma BitsOfToByte(x: nat)
    ensures BitsOf(ToByte(x % 0x100)) == LowBits(x, 8)
  {
    hide *;
    Pow2At8();
    LowBitsMod(x % 0x100, x / 0x100, 8);
    assert x == x % 0x100 + x / 0x100 * 0x100;
    ToByteBits(x % 0x100);
  }

  lemma ToByteBits(v: uint8)
    ensures BitsOf(ToByte(v)) == LowBits(v, 8)
  {
    hide LowBits;
  }

  /** A 32-bit number as four bytes. */
  lemma FourByteNumber(v: uint32)
    ensures LowBits(v, 32) ==
            BitsOf(ToByte(v / 0x100_0000 % 0x100)) + BitsOf(ToByte(v / 0x1_0000 % 0x100)) +
            BitsOf(ToByte(v / 0x100 % 0x100)) + BitsOf(ToByte(v % 0x100))
  {
    hide *;
    HalvedEight(v);
    HalvedEight(v / 0x100);
    HalvedEight(v / 0x1_0000);
    LowBitsSplit(v, 24, 8);
    LowBitsSplit(v / 0x100, 16, 8);
    LowBitsSplit(v / 0x1_0000, 8, 8);
    assert v / 0x100 / 0x100 == v / 0x1_0000 && v / 0x1_0000 / 0x100 == v / 0x100_0000;
    BitsOfToByte(v);
    BitsOfToByte(v / 0x100);
    BitsOfToByte(v / 0x1_0000);
    BitsOfToByte(v / 0x100_0000);
  }

  lemma {:induction false} BitsOfFour(a: Byte, b: Byte, c: Byte, d: Byte)
    ensures Crc8.Bits([a, b, c, d]) == BitsOf(a) + BitsOf(b) + BitsOf(c) + BitsOf(d)
  {
    hide Crc8.Bits;
    hide BitsOf;
    OneByte(a);
    OneByte(b);
    OneByte(c);
    OneByte(d);
    Crc8.BitsAppend([a], [b]);
    Crc8.BitsAppend([a, b], [c]);
    Crc8.BitsAppend([a, b, c], [d]);
    assert [a] + [b] == [a, b] && [a, b] + [c] == [a, b, c] && [a, b, c] + [d] == [a, b, c, d];
  }

  /** The two halves of the counter, byte by byte, are the 64-bit length. */
  lemma LengthBits(high: uint32, low: uint32)
    ensures Crc8.Bits(LengthBytes(high, low)) == LowBits(high * 0x1_0000_0000 + low, 64)
  {
    hide Crc8.Bits;
    hide LowBits;
    hide BitsOf;
    hide ToByte;
    hide Pow2;
    hide Halved;
    HalvedWord(high * 0x1_0000_0000 + low);
    var x := high * 0x1_0000_0000 + low;
    Pow2At32();
    LowBitsSplit(x, 32, 32);
    assert x / 0x1_0000_0000 == high;
    LowBitsMod(low, high, 32);
    FourByteNumber(high);
    FourByteNumber(low);
    var s := LengthBytes(high, low);
    BitsOfFour(s[0], s[1], s[2], s[3]);
    BitsOfFour(s[4], s[5], s[6], s[7]);
    Crc8.BitsAppend([s[0], s[1], s[2], s[3]], [s[4], s[5], s[6], s[7]]);
    assert s == [s[0], s[1], s[2], s[3]] + [s[4], s[5], s[6], s[7]];
  }

  lemma {:induction false} BitsOfZeros(n: nat)
    ensures Crc8.Bits(ZeroBytes(n)) == Zeros(8 * n)
  {
    if n > 0 {
      BitsOfZeros(n - 1);
      assert ZeroBytes(n)[..n - 1] == ZeroBytes(n - 1);
      assert BitsOf(NUL) == Zeros(8);
      assert Zeros(8 * (n - 1)) + Zeros(8) == Zeros(8 * n);
    }
  }

  lemma OpenerBits()
    ensures Crc8.Bits([OPENER]) == [true] + Zeros(7)
  {
    OneByte(OPENER);
    assert BitsOf(OPENER) == [true] + Zeros(7);
  }

  // ---------- padding in bytes ----------

  /** The zero bytes between the opener and the length. */
  function FillBytes(n: nat): nat {
    if n % 64 <= 55 then 55 - n % 64 else 119 - n % 64
  }

  lemma FillerIs(n: nat)
    ensures Filler(8 * n) == 7 + 8 * FillBytes(n)
  {
    DivUnique(8 * n, 512, n / 64, 8 * (n % 64));
  }

  lemma PadIs(m: seq<bool>)
    ensures Pad(m) == m + [true] + Zeros(Filler(|m|)) + LowBits(|m|, 64)
  {}

  lemma ZerosJoin(a: nat, b: nat)
    ensures Zeros(a) + Zeros(b) == Zeros(a + b)
  {}

  lemma Regroup(m: seq<bool>, one: seq<bool>, a: seq<bool>, b: seq<bool>, length: seq<bool>)
    ensures m + one + (a + b) + length == m + (((one + a) + b) + length)
  {}

  lemma InitialIs()
    ensures INITIAL == State(LowBits(0x67452301, 32), LowBits(0xEFCDAB89, 32), LowBits(0x98BADCFE, 32),
                             LowBits(0x10325476, 32), LowBits(0xC3D2E1F0, 32))
  {
    hide LowBits;
  }

  lemma FoldNothing()
    ensures Crc8.Bits([]) == [] && Fold([]) == INITIAL
  {}

  /** The bytes added to a message whose bits the two counters count. */
  function Padding(n: nat, high: uint32, low: uint32): (s: seq<Byte>)
    ensures |s| == 9 + FillBytes(n)
  {
    [OPENER] + ZeroBytes(FillBytes(n)) + LengthBytes(high, low)
  }

  /** The bits added to a message of n bytes. */
  function PaddedBits(n: nat): seq<bool> {
    (([true] + Zeros(7)) + Zeros(8 * FillBytes(n))) + LowBits(8 * n, 64)
  }

  lemma PaddingBits(n: nat, high: uint32, low: uint32)
    requires high * 0x1_0000_0000 + low == 8 * n
    ensures Crc8.Bits(Padding(n, high, low)) == PaddedBits(n)
  {
    hide Crc8.Bits, LowBits, Zeros, ZeroBytes, LengthBytes, FillBytes;
    var z := FillBytes(n);
    OpenerBits();
    BitsOfZeros(z);
    LengthBits(high, low);
    Crc8.BitsAppend([OPENER], ZeroBytes(z));
    Crc8.BitsAppend([OPENER] + ZeroBytes(z), LengthBytes(high, low));
  }

  /** Padding a bit string of whole bytes. */
  lemma PadGrouped(m: seq<bool>, n: nat)
    requires |m| == 8 * n
    ensures Pad(m) == m + PaddedBits(n)
  {
    hide Pad, Zeros, LowBits, Filler, FillBytes;
    PadIs(m);
    FillerIs(n);
    ZerosJoin(7, 8 * FillBytes(n));
    Regroup(m, [true], Zeros(7), Zeros(8 * FillBytes(n)), LowBits(8 * n, 64));
  }

  /** Padding a byte string. */
  lemma PadIsBytes(m: seq<Byte>, high: uint32, low: uint32)
    requires high * 0x1_0000_0000 + low == 8 * |m|
    ensures Pad(Crc8.Bits(m)) == Crc8.Bits(m + Padding(|m|, high, low))
  {
    hide *;
    PadGrouped(Crc8.Bits(m), |m|);
    PaddingBits(|m|, high, low);
    Crc8.BitsAppend(m, Padding(|m|, high, low));
  }

  /** The block that begins at the last boundary. */
  lemma CompleteBlock(front: seq<Byte>, tail: seq<Byte>, block: seq<Byte>)
    requires |front| % 64 == 0 && |tail| < 64 && |block| == 64
    ensures Fold(Crc8.Bits(front + block)) == Compress(Fold(Crc8.Bits(front + tail)), Crc8.Bits(block))
  {
    hide *;
    AtBoundary(front, tail);
    AtBoundary(front, block);
    FoldGrow(Crc8.Bits(front), Crc8.Bits(tail), Crc8.Bits(block));
  }

  /** One more whole block. */
  lemma NextBlock(front: seq<Byte>, block: seq<Byte>)
    requires |front| % 64 == 0 && |block| == 64
    ensures Fold(Crc8.Bits(front + block)) == Compress(Fold(Crc8.Bits(front)), Crc8.Bits(block))
  {
    hide *;
    assert front + [] == front;
    CompleteBlock(front, [], block);
  }

  /** Room for the length: the last block, whose first bytes end the message. */
  function OnlyBlock(tail: seq<Byte>, high: uint32, low: uint32): (s: seq<Byte>)
    requires |tail| <= 55
    ensures |s| == 64
  {
    tail + [OPENER] + ZeroBytes(56 - (|tail| + 1)) + LengthBytes(high, low)
  }

  /** No room: the block that ends the message, and the block that holds the length. */
  function EndBlock(tail: seq<Byte>): (s: seq<Byte>)
    requires 55 < |tail| < 64
    ensures |s| == 64
  {
    tail + [OPENER] + ZeroBytes(64 - (|tail| + 1))
  }

  function LengthBlock(high: uint32, low: uint32): (s: seq<Byte>)
    ensures |s| == 64
  {
    ZeroBytes(56) + LengthBytes(high, low)
  }

  lemma OnlyBlockIs(tail: seq<Byte>, start: seq<Byte>, high: uint32, low: uint32)
    requires |tail| <= 55 && start == tail + [OPENER] + ZeroBytes(56 - (|tail| + 1))
    ensures start + LengthBytes(high, low) == OnlyBlock(tail, high, low)
  {
    hide ZeroBytes, LengthBytes;
  }

  lemma EndBlockIs(tail: seq<Byte>)
    requires 55 < |tail| < 64
    ensures EndBlock(tail) == tail + [OPENER] + ZeroBytes(64 - (|tail| + 1))
  {
    hide ZeroBytes;
  }

  lemma LengthBlockIs(start: seq<Byte>, high: uint32, low: uint32)
    requires start == ZeroBytes(56)
    ensures start + LengthBytes(high, low) == LengthBlock(high, low)
  {
    hide ZeroBytes, LengthBytes;
  }

  lemma OneBlockBytes(front: seq<Byte>, tail: seq<Byte>, high: uint32, low: uint32)
    requires |front| % 64 == 0 && |tail| <= 55
    ensures (front + tail) + Padding(|front + tail|, high, low) == front + OnlyBlock(tail, high, low)
  {
    hide ZeroBytes;
    hide LengthBytes;
    assert |front + tail| % 64 == |tail|;
  }

  /** Room for the length in the last block. */
  lemma PadOne(front: seq<Byte>, tail: seq<Byte>, high: uint32, low: uint32)
    requires |front| % 64 == 0 && |tail| <= 55 && high * 0x1_0000_0000 + low == 8 * |front + tail|
    ensures Digest(Crc8.Bits(front + tail)) ==
            Compress(Fold(Crc8.Bits(front + tail)), Crc8.Bits(OnlyBlock(tail, high, low)))
  {
    hide *;
    DigestIs(Crc8.Bits(front + tail));
    PadIsBytes(front + tail, high, low);
    OneBlockBytes(front, tail, high, low);
    CompleteBlock(front, tail, OnlyBlock(tail, high, low));
  }

  lemma TwoBlockBytes(front: seq<Byte>, tail: seq<Byte>, high: uint32, low: uint32)
    requires |front| % 64 == 0 && 55 < |tail| < 64
    ensures (front + tail) + Padding(|front + tail|, high, low) == (front + EndBlock(tail)) + LengthBlock(high, low)
  {
    hide LengthBytes;
    assert |front + tail| % 64 == |tail|;
    ZeroBytesJoin(64 - (|tail| + 1), 56);
    hide ZeroBytes;
  }

  lemma ZeroBytesJoin(a: nat, b: nat)
    ensures ZeroBytes(a) + ZeroBytes(b) == ZeroBytes(a + b)
  {}

  /** No room: the length goes into a block of its own. */
  lemma PadTwo(front: seq<Byte>, tail: seq<Byte>, high: uint32, low: uint32)
    requires |front| % 64 == 0 && 55 < |tail| < 64 && high * 0x1_0000_0000 + low == 8 * |front + tail|
    ensures Digest(Crc8.Bits(front + tail)) ==
            Compress(Compress(Fold(Crc8.Bits(front + tail)), Crc8.Bits(EndBlock(tail))),
                     Crc8.Bits(LengthBlock(high, low)))
  {
    hide *;
    DigestIs(Crc8.Bits(front + tail));
    PadIsBytes(front + tail, high, low);
    TwoBlockBytes(front, tail, high, low);
    CompleteBlock(front, tail, EndBlock(tail));
    NextBlock(front + EndBlock(tail), LengthBlock(high, low));
  }

  // ---------- the context ----------

  class SHA1Context {
    const digest: array<Word>
    var lengthLow: uint32
    var lengthHigh: uint32
    const block: array<Byte>
    var index: nat
    var computed: bool
    var corrupted: bool
    /** Everything put in since the last reset. */
    ghost var message: seq<Byte>

    ghost function DigestState(): State
      requires digest.Length == 5
      reads digest
    {
      State(digest[0], digest[1], digest[2], digest[3], digest[4])
    }

    /** Four bytes of the block as a word, the first byte in the high-order bits. */
    method LoadWord(t: nat) returns (word: Word)
      requires block.Length == 64 && t < 16
      ensures word == Schedule(Crc8.Bits(block[..]), t)
    {
      hide *;
      word := ShiftLeft(FromUChar(block[t * 4]), 24);
      word := Or(word, ShiftLeft(FromUChar(block[t * 4 + 1]), 16));
      word := Or(word, ShiftLeft(FromUChar(block[t * 4 + 2]), 8));
      word := Or(word, FromUChar(block[t * 4 + 3]));
      FourBytes(block[t * 4], block[t * 4 + 1], block[t * 4 + 2], block[t * 4 + 3]);
      WordAt(block[..], t);
    }

    /** The first 16 words are the block, the other 64 are computed from them. */
    method Expand() returns (w: array<Word>)
      requires block.Length == 64
      ensures fresh(w) && w.Length == 80
      ensures forall t :: 0 <= t < 80 ==> w[t] == Schedule(Crc8.Bits(block[..]), t)
    {
      hide Schedule;
      hide Or;
      hide ShiftLeft;
      hide FromUChar;
      hide Crc8.Bits;
      hide Rotate;
      hide Xor;
      w := new Word[80](_ => Zeros(32));
      for t := 0 to 16
        invariant forall k :: 0 <= k < t ==> w[k] == Schedule(Crc8.Bits(block[..]), k)
      {
        w[t] := LoadWord(t);
      }
      for t := 16 to 80
        invariant forall k :: 0 <= k < t ==> w[k] == Schedule(Crc8.Bits(block[..]), k)
      {
        ScheduleLater(Crc8.Bits(block[..]), t);
        w[t] := CircularShift(1, Xor(Xor(Xor(w[t - 3], w[t - 8]), w[t - 14]), w[t - 16]));
      }
    }

    // ---------- SHA1ProcessMessageBlock ----------

    /** The 80 steps, in their four groups. */
    method RunSteps(w: array<Word>, ghost bits: Block) returns (a: Word, b: Word, c: Word, d: Word, e: Word)
      requires digest.Length == 5 && w.Length == 80 && forall t :: 0 <= t < 80 ==> w[t] == Schedule(bits, t)
      ensures State(a, b, c, d, e) == Steps(bits, 80, DigestState())
    {
      hide Schedule;
      hide Rotate;
      hide Add;
      hide And;
      hide Or;
      hide Xor;
      hide Not;
      hide LowBits;
      hide Step;
      hide Steps;
      hide CircularShift;
      ghost var s := DigestState();
      StepsNone(bits, s);
      a, b, c, d, e := digest[0], digest[1], digest[2], digest[3], digest[4];
      for t := 0 to 20
        invariant State(a, b, c, d, e) == Steps(bits, t, s)
      {
        StepsNext(bits, t, s);
        StepEarly(t, State(a, b, c, d, e), w[t]);
        var temp := Add(Add(Add(Add(CircularShift(5, a), Or(And(b, c), And(Not(b), d))), e), w[t]),
                        LowBits(0x5A827999, 32));
        e := d;
        d := c;
        c := CircularShift(30, b);
        b := a;
        a := temp;
      }
      for t := 20 to 40
        invariant State(a, b, c, d, e) == Steps(bits, t, s)
      {
        StepsNext(bits, t, s);
        StepParity(t, State(a, b, c, d, e), w[t]);
        var temp := Add(Add(Add(Add(CircularShift(5, a), Xor(Xor(b, c), d)), e), w[t]), LowBits(0x6ED9EBA1, 32));
        e := d;
        d := c;
        c := CircularShift(30, b);
        b := a;
        a := temp;
      }
      for t := 40 to 60
        invariant State(a, b, c, d, e) == Steps(bits, t, s)
      {
        StepsNext(bits, t, s);
        StepMajority(t, State(a, b, c, d, e), w[t]);
        var temp := Add(Add(Add(Add(CircularShift(5, a), Or(Or(And(b, c), And(b, d)), And(c, d))), e), w[t]),
                        LowBits(0x8F1BBCDC, 32));
        e := d;
        d := c;
        c := CircularShift(30, b);
        b := a;
        a := temp;
      }
      for t := 60 to 80
        invariant State(a, b, c, d, e) == Steps(bits, t, s)
      {
        StepsNext(bits, t, s);
        StepLate(t, State(a, b, c, d, e), w[t]);
        var temp := Add(Add(Add(Add(CircularShift(5, a), Xor(Xor(b, c), d)), e), w[t]), LowBits(0xCA62C1D6, 32));
        e := d;
        d := c;
        c := CircularShift(30, b);
        b := a;
        a := temp;
      }
    }

    method ProcessMessageBlock()
      requires digest.Length == 5 && block.Length == 64
      modifies this`index, digest
      ensures index == 0 && DigestState() == Compress(old(DigestState()), Crc8.Bits(block[..]))
      ensures var s, r := old(DigestState()), Steps(Crc8.Bits(block[..]), 80, old(DigestState()));
              && Number(digest[0]) == (Number(s.a) + Number(r.a)) % 0x1_0000_0000
              && Number(digest[1]) == (Number(s.b) + Number(r.b)) % 0x1_0000_0000
              && Number(digest[2]) == (Number(s.c) + Number(r.c)) % 0x1_0000_0000
              && Number(digest[3]) == (Number(s.d) + Number(r.d)) % 0x1_0000_0000
              && Number(digest[4]) == (Number(s.e) + Number(r.e)) % 0x1_0000_0000
    {
      hide Schedule;
      hide Crc8.Bits;
      hide Add;
      hide Steps;
      hide Number;
      var w := Expand();
      var a, b, c, d, e := RunSteps(w, Crc8.Bits(block[..]));
      AddNumber(digest[0], a);
      AddNumber(digest[1], b);
      AddNumber(digest[2], c);
      AddNumber(digest[3], d);
      AddNumber(digest[4], e);
      digest[0] := Add(digest[0], a);
      digest[1] := Add(digest[1], b);
      digest[2] := Add(digest[2], c);
      digest[3] := Add(digest[3], d);
      digest[4] := Add(digest[4], e);
      index := 0;
    }

    // ---------- SHA1Reset, SHA1Input ----------

    /** The counters, the block and the digest account for all of the message. */
    ghost predicate Absorbed()
      reads this, digest, block
    {
      && digest.Length == 5 && block.Length == 64
      && 8 * |message| < 0x1_0000_0000_0000_0000
      && lengthHigh * 0x1_0000_0000 + lengthLow == 8 * |message|
      && index == |message| % 64 && block[..index] == message[|message| - index..]
      && DigestState() == Fold(Crc8.Bits(message))
    }

    ghost predicate Valid()
      reads this, digest, block
    {
      && digest.Length == 5 && block.Length == 64 && index < 64
      && (!corrupted && !computed ==> Absorbed())
      && (!corrupted && computed ==> DigestState() == Digest(Crc8.Bits(message)))
    }

    constructor ()
      ensures Valid() && fresh(digest) && fresh(block) && !computed && !corrupted && message == []
    {
      hide LowBits;
      digest := new Word[5](_ => Zeros(32));
      block := new Byte[64](_ => NUL);
      new;
      Reset();
    }

    /** SHA1Reset. */
    method Reset()
      requires digest.Length == 5 && block.Length == 64
      modifies this, digest
      ensures Valid() && !computed && !corrupted && message == []
    {
      hide *;
      FoldNothing();
      InitialIs();
      lengthLow, lengthHigh, index := 0, 0, 0;
      digest[0], digest[1], digest[2] := LowBits(0x67452301, 32), LowBits(0xEFCDAB89, 32), LowBits(0x98BADCFE, 32);
      digest[3], digest[4] := LowBits(0x10325476, 32), LowBits(0xC3D2E1F0, 32);
      computed, corrupted := false, false;
      message := [];
      StartsValid();
    }

    lemma StartsValid()
      requires digest.Length == 5 && block.Length == 64 && message == [] && lengthLow == 0 && lengthHigh == 0
      requires index == 0
      requires State(digest[0], digest[1], digest[2], digest[3], digest[4]) == Fold(Crc8.Bits([])) && !computed
      ensures Valid()
    {
      hide Fold, Digest, Compress, Crc8.Bits, Absorbed;
      StartsAbsorbed();
    }

    lemma StartsAbsorbed()
      requires digest.Length == 5 && block.Length == 64 && message == [] && lengthLow == 0 && lengthHigh == 0
      requires index == 0
      requires State(digest[0], digest[1], digest[2], digest[3], digest[4]) == Fold(Crc8.Bits([]))
      ensures Absorbed()
    {
      hide Fold, Crc8.Bits;
      assert block[..index] == message[|message| - index..];
    }

    /** One round of the input loop. The context is spoilt exactly when the bit count no longer fits 64 bits. */
    method InputByte(x: Byte)
      requires Valid() && !corrupted && !computed
      modifies this, digest, block
      ensures Valid() && !computed && message == old(message) + [x]
      ensures corrupted <==> 8 * |message| >= 0x1_0000_0000_0000_0000
    {
      hide Crc8.Bits;
      hide Fold;
      hide Compress;
      hide Digest;
      ghost var start := |message| - index;
      IndexNext(|message|);
      AppendSlices(message, x, start);
      AbsorbNext(message[..start], message[start..], x);
      CountByte();
      Fill(x);
    }

    /** The 64-bit count of bits in two 32-bit halves. */
    method CountByte()
      requires 8 * |message| < 0x1_0000_0000_0000_0000 && lengthHigh * 0x1_0000_0000 + lengthLow == 8 * |message|
      requires !corrupted
      modifies this`lengthLow, this`lengthHigh, this`corrupted
      ensures corrupted <==> 8 * (|message| + 1) >= 0x1_0000_0000_0000_0000
      ensures !corrupted ==> lengthHigh * 0x1_0000_0000 + lengthLow == 8 * (|message| + 1)
    {
      CountNext(lengthHigh, lengthLow, |message|);
      lengthLow := (lengthLow + 8) % 0x1_0000_0000;
      if lengthLow == 0 {
        lengthHigh := (lengthHigh + 1) % 0x1_0000_0000;
        if lengthHigh == 0 {
          corrupted := true;
        }
      }
    }

    /** The byte goes into the block, and a full block is processed. */
    method Fill(x: Byte)
      requires digest.Length == 5 && block.Length == 64 && index < 64 && index <= |message|
      requires block[..index] == message[|message| - index..]
      modifies this`index, this`message, digest, block
      ensures message == old(message) + [x] && index == if old(index) == 63 then 0 else old(index) + 1
      ensures block[..index] == message[|message| - index..]
      ensures DigestState() == if old(index) < 63 then old(DigestState())
                               else Compress(old(DigestState()), Crc8.Bits(old(message[|message| - 63..]) + [x]))
    {
      hide Crc8.Bits;
      hide Compress;
      hide Steps;
      hide Number;
      ghost var part := block[..index];
      message := message + [x];
      block[index] := x;
      index := index + 1;
      assert block[..index] == part + [x] == message[|message| - index..];
      if index == 64 {
        assert block[..64] == block[..];
        ProcessMessageBlock();
      }
    }

    lemma Bounded()
      requires Valid()
      ensures !corrupted && !computed ==> 8 * |message| < 0x1_0000_0000_0000_0000
    {
      hide Fold;
      hide Digest;
    }

    /**
     * SHA1Input: the bytes join the message. Input after the digest has been computed, or beyond 2^64 - 1 bits, spoils
     * the context for good; no input leaves everything alone.
     */
    method Input(bytes: seq<Byte>)
      requires Valid()
      modifies this, digest, block
      ensures Valid() && computed == old(computed)
      ensures bytes == [] ==> corrupted == old(corrupted) && message == old(message)
      ensures bytes != [] ==>
                (corrupted <==> old(corrupted) || old(computed) ||
                                8 * (|old(message)| + |bytes|) >= 0x1_0000_0000_0000_0000)
      ensures !corrupted ==> message == old(message) + bytes
    {
      hide Absorbed;
      hide Digest;
      Bounded();
      if bytes == [] {
        return;
      }
      if computed || corrupted {
        corrupted := true;
        return;
      }
      var i := 0;
      assert bytes[..0] == [];
      while i < |bytes| && !corrupted
        invariant 0 <= i <= |bytes| && Valid() && !computed && message == old(message) + bytes[..i]
        invariant corrupted <==> 8 * |message| >= 0x1_0000_0000_0000_0000
      {
        assert bytes[..i + 1] == bytes[..i] + [bytes[i]];
        InputByte(bytes[i]);
        i := i + 1;
      }
      if i == |bytes| {
        assert bytes[..i] == bytes;
      }
    }

    // ---------- SHA1PadMessage, SHA1Result ----------

    method FillZeros(end: nat)
      requires block.Length == 64 && index <= end <= 64
      modifies this`index, block
      ensures index == end && block[..end] == old(block[..index]) + ZeroBytes(end - old(index))
    {
      while index < end
        invariant old(index) <= index <= end
        invariant block[..index] == old(block[..index]) + ZeroBytes(index - old(index))
      {
        block[index] := NUL;
        index := index + 1;
      }
    }

    /** The last block: eight bytes of length behind what has been filled in. */
    method StoreLength()
      requires block.Length == 64
      modifies block
      ensures block[..] == old(block[..56]) + LengthBytes(lengthHigh, lengthLow)
    {
      hide ToByte;
      ghost var before := block[..56];
      block[56] := ToByte(lengthHigh / 0x100_0000 % 0x100);
      block[57] := ToByte(lengthHigh / 0x1_0000 % 0x100);
      block[58] := ToByte(lengthHigh / 0x100 % 0x100);
      block[59] := ToByte(lengthHigh % 0x100);
      block[60] := ToByte(lengthLow / 0x100_0000 % 0x100);
      block[61] := ToByte(lengthLow / 0x1_0000 % 0x100);
      block[62] := ToByte(lengthLow / 0x100 % 0x100);
      block[63] := ToByte(lengthLow % 0x100);
      assert block[..56] == before;
      assert block[56..] == LengthBytes(lengthHigh, lengthLow);
      assert block[..] == block[..56] + block[56..];
    }

    /** The closing one bit and zeros up to `end`. */
    method CloseMessage(end: nat)
      requires block.Length == 64 && index < end <= 64
      modifies this`index, block
      ensures index == end
      ensures block[..end] == old(block[..index]) + [OPENER] + ZeroBytes(end - (old(index) + 1))
    {
      hide ZeroBytes;
      ghost var tail := block[..index];
      block[index] := OPENER;
      index := index + 1;
      assert block[..index] == tail + [OPENER];
      FillZeros(end);
    }

    /** SHA1PadMessage. */
    method PadMessage()
      requires Absorbed()
      modifies this`index, digest, block
      ensures index == 0 && DigestState() == Digest(Crc8.Bits(message))
    {
      hide *;
      ghost var front, tail := AbsorbedIs();
      if index > 55 {
        PadTwo(front, tail, lengthHigh, lengthLow);
        CloseMessage(64);
        EndBlockIs(tail);
        assert block[..] == block[..64];
        ProcessMessageBlock();
        FillZeros(56);
        LengthBlockIs(block[..56], lengthHigh, lengthLow);
      } else {
        PadOne(front, tail, lengthHigh, lengthLow);
        CloseMessage(56);
        OnlyBlockIs(tail, block[..56], lengthHigh, lengthLow);
      }
      StoreLength();
      ProcessMessageBlock();
    }

    /** The message up to its last block boundary, and what has been put into the block since. */
    lemma AbsorbedIs() returns (front: seq<Byte>, tail: seq<Byte>)
      requires Absorbed()
      ensures digest.Length == 5 && block.Length == 64 && index < 64 && tail == block[..index]
      ensures message == front + tail && |front| % 64 == 0
      ensures lengthHigh * 0x1_0000_0000 + lengthLow == 8 * |message|
      ensures DigestState() == Fold(Crc8.Bits(message))
    {
      hide Crc8.Bits, Fold, DigestState;
      IndexNext(|message|);
      front, tail := message[..|message| - index], message[|message| - index..];
    }

    /** SHA1Result: the digest of the whole message, unless the context is spoilt; asking again changes nothing. */
    method Result() returns (ok: bool)
      requires Valid()
      modifies this`index, this`computed, digest, block
      ensures Valid() && ok == !corrupted
      ensures ok ==> computed && DigestState() == Digest(Crc8.Bits(message))
    {
      hide Absorbed;
      hide Digest;
      hide Crc8.Bits;
      if corrupted {
        return false;
      }
      if !computed {
        PadMessage();
        computed := true;
      }
      ok := true;
    }
  }

  lemma StepsNone(b: Block, s: State)
    ensures Steps(b, 0, s) == s
  {}

  lemma StepsNext(b: Block, t: nat, s: State)
    requires t < 80
    ensures Steps(b, t + 1, s) == Step(t, Steps(b, t, s), Schedule(b, t))
  {
    hide Step;
    hide Schedule;
  }

  lemma StepEarly(t: nat, s: State, w: Word)
    requires t < 20
    ensures Step(t, s, w) ==
            State(Add(Add(Add(Add(Rotate(5, s.a), Or(And(s.b, s.c), And(Not(s.b), s.d))), s.e), w),
                      LowBits(0x5A827999, 32)),
                  s.a, Rotate(30, s.b), s.c, s.d)
  {
    hide LowBits;
    hide Add;
  }

  lemma StepParity(t: nat, s: State, w: Word)
    requires 20 <= t < 40
    ensures Step(t, s, w) ==
            State(Add(Add(Add(Add(Rotate(5, s.a), Xor(Xor(s.b, s.c), s.d)), s.e), w), LowBits(0x6ED9EBA1, 32)),
                  s.a, Rotate(30, s.b), s.c, s.d)
  {
    hide LowBits;
    hide Add;
  }

  lemma StepMajority(t: nat, s: State, w: Word)
    requires 40 <= t < 60
    ensures Step(t, s, w) ==
            State(Add(Add(Add(Add(Rotate(5, s.a), Or(Or(And(s.b, s.c), And(s.b, s.d)), And(s.c, s.d))), s.e), w),
                      LowBits(0x8F1BBCDC, 32)),
                  s.a, Rotate(30, s.b), s.c, s.d)
  {
    hide LowBits;
    hide Add;
  }

  lemma StepLate(t: nat, s: State, w: Word)
    requires 60 <= t < 80
    ensures Step(t, s, w) ==
            State(Add(Add(Add(Add(Rotate(5, s.a), Xor(Xor(s.b, s.c), s.d)), s.e), w), LowBits(0xCA62C1D6, 32)),
                  s.a, Rotate(30, s.b), s.c, s.d)
  {
    hide LowBits;
    hide Add;
  }

  lemma ScheduleLater(b: Block, t: nat)
    requires t >= 16
    ensures Schedule(b, t) ==
            Rotate(1, Xor(Xor(Xor(Schedule(b, t - 3), Schedule(b, t - 8)), Schedule(b, t - 14)), Schedule(b, t - 16)))
  {}

  // ---------- a message in pieces ----------

  function Flatten(pieces: seq<seq<Byte>>): seq<Byte> {
    if pieces == [] then [] else Flatten(pieces[..|pieces| - 1]) + pieces[|pieces| - 1]
  }

  /**
   * Reset, any number of inputs, result: however a message is cut into pieces, the digest is that of the whole
   * message, and it is refused exactly when the message has 2^64 bits or more.
   */
  method HashPieces(pieces: seq<seq<Byte>>) returns (digest: Option<State>)
    ensures digest ==
            if 8 * |Flatten(pieces)| < 0x1_0000_0000_0000_0000 then Some(Digest(Crc8.Bits(Flatten(pieces)))) else None
  {
    hide SHA1Context.Absorbed;
    hide Digest;
    hide Crc8.Bits;
    var context := new SHA1Context();
    assert pieces[..0] == [];
    for i := 0 to |pieces|
      invariant context.Valid() && !context.computed
      invariant context.corrupted <==> 8 * |Flatten(pieces[..i])| >= 0x1_0000_0000_0000_0000
      invariant !context.corrupted ==> context.message == Flatten(pieces[..i])
      invariant fresh(context) && fresh(context.digest) && fresh(context.block)
    {
      assert pieces[..i + 1][..i] == pieces[..i];
      context.Input(pieces[i]);
    }
    assert pieces[..|pieces|] == pieces;
    var ok := context.Result();
    if !ok {
      return None;
    }
    var d := context.digest;
    digest := Some(State(d[0], d[1], d[2], d[3], d[4]));
  }
}
