/** compute_crc8: its bit-serial loop, the register it implements, and the errors that register detects. */
module Crc8 {

  import opened Common

  // ---------- the remainder register, one bit at a time ----------

  /** Low byte of the generator x^8 + x^2 + x + 1. */
  const GENERATOR := Byte(false, false, false, false, false, true, true, true)

  function Plus(r: Byte, s: Byte): Byte {
    Byte(r.b7 != s.b7, r.b6 != s.b6, r.b5 != s.b5, r.b4 != s.b4, r.b3 != s.b3, r.b2 != s.b2, r.b1 != s.b1, r.b0 != s.b0)
  }

  /** (r << 1) | bit on eight bits. */
  function ShiftLeft(r: Byte, bit: bool): Byte {
    Byte(r.b6, r.b5, r.b4, r.b3, r.b2, r.b1, r.b0, bit)
  }

  /** Shift one message bit in; subtract the generator if the top bit falls out. */
  function Shift(r: Byte, bit: bool): Byte {
    Byte(r.b6, r.b5, r.b4, r.b3, r.b2, r.b1 != r.b7, r.b0 != r.b7, bit != r.b7)
  }

  /** The register after shifting in all of `bits`. */
  function Feed(r: Byte, bits: seq<bool>): Byte {
    if bits == [] then r else Shift(Feed(r, bits[..|bits| - 1]), bits[|bits| - 1])
  }

  function Bits(buf: seq<Byte>): (s: seq<bool>)
    ensures |s| == 8 * |buf|
  {
    if buf == [] then [] else Bits(buf[..|buf| - 1]) + BitsOf(buf[|buf| - 1])
  }

  /** The remainder of a byte buffer. */
  function Crc(buf: seq<Byte>): Byte {
    Feed(NUL, Bits(buf))
  }

  // ---------- the source's loops ----------

  lemma {:induction false} FeedAppend(r: Byte, a: seq<bool>, b: seq<bool>)
    ensures Feed(r, a + b) == Feed(Feed(r, a), b)
  {
    if b == [] {
      assert a + b == a;
    } else {
      var n := |b| - 1;
      FeedAppend(r, a, b[..n]);
      assert (a + b)[..|a + b| - 1] == a + b[..n];
    }
  }

  function Padded(bits: seq<bool>): seq<bool>
    requires |bits| <= 8
  {
    seq(8 - |bits|, i => false) + bits
  }

  /** Fewer than nine bits cannot overflow an empty register. */
  lemma {:induction false} FeedShort(bits: seq<bool>)
    requires |bits| <= 8
    ensures var p := Padded(bits); Feed(NUL, bits) == Byte(p[0], p[1], p[2], p[3], p[4], p[5], p[6], p[7])
  {
    if bits != [] {
      FeedShort(bits[..|bits| - 1]);
    }
  }

  lemma FeedByteIntoZero(b: Byte)
    ensures Feed(NUL, BitsOf(b)) == b
  {
    FeedShort(BitsOf(b));
  }

  lemma FeedNext(r: Byte, bits: seq<bool>, k: nat)
    requires k < |bits|
    ensures Feed(r, bits[..k + 1]) == Shift(Feed(r, bits[..k]), bits[k])
  {
    assert bits[..k + 1][..k] == bits[..k];
  }

  lemma CrcNext(buf: seq<Byte>, i: nat)
    requires i < |buf|
    ensures Crc(buf[..i + 1]) == Feed(Crc(buf[..i]), BitsOf(buf[i]))
  {
    assert buf[..i + 1][..i] == buf[..i];
    FeedAppend(NUL, Bits(buf[..i]), BitsOf(buf[i]));
  }

  /** The inner loop: shift the eight bits of one byte into the register. */
  method FeedByte(start: Byte, byte: Byte) returns (remainder: Byte)
    ensures remainder == Feed(start, BitsOf(byte))
  {
    remainder := start;
    var bits := BitsOf(byte);
    var j := 7;
    while j >= 0
      invariant -1 <= j <= 7
      invariant remainder == Feed(start, bits[..7 - j])
    {
      FeedNext(start, bits, 7 - j);
      if remainder.b7 {
        remainder := ShiftLeft(remainder, bits[7 - j]);
        remainder := Plus(remainder, GENERATOR);
      } else {
        remainder := ShiftLeft(remainder, bits[7 - j]);
      }
      j := j - 1;
    }
    assert bits[..8] == bits;
  }

  /** The register is seeded with the first byte, then the other 63 are shifted in. */
  method ComputeCrc8(buf: seq<Byte>) returns (remainder: Byte)
    requires |buf| == MAX_FRAME_SIZE
    ensures remainder == Crc(buf)
  {
    remainder := buf[0];
    CrcNext(buf, 0);
    FeedByteIntoZero(buf[0]);
    var i := 1;
    while i < MAX_FRAME_SIZE
      invariant 1 <= i <= MAX_FRAME_SIZE
      invariant remainder == Crc(buf[..i])
    {
      CrcNext(buf, i);
      remainder := FeedByte(remainder, buf[i]);
      i := i + 1;
    }
    assert buf[..MAX_FRAME_SIZE] == buf;
  }

  // ---------- linearity ----------

  function Xor(a: seq<bool>, b: seq<bool>): (c: seq<bool>)
    requires |a| == |b|
    ensures |c| == |a|
    ensures forall i :: 0 <= i < |a| ==> c[i] == (a[i] != b[i])
  {
    seq(|a|, i requires 0 <= i < |a| => a[i] != b[i])
  }

  /** The remainder of a bitwise sum is the bitwise sum of the remainders. */
  lemma {:induction false} FeedLinear(r: Byte, s: Byte, a: seq<bool>, b: seq<bool>)
    requires |a| == |b|
    ensures Feed(Plus(r, s), Xor(a, b)) == Plus(Feed(r, a), Feed(s, b))
  {
    if a != [] {
      var n := |a| - 1;
      assert Xor(a, b)[..n] == Xor(a[..n], b[..n]);
      FeedLinear(r, s, a[..n], b[..n]);
    }
  }

  // ---------- burst errors ----------

  ghost predicate AllZero(bits: seq<bool>) {
    forall i :: 0 <= i < |bits| ==> !bits[i]
  }

  /** Zero bits keep a zero register zero and, the generator having a constant term, a nonzero register nonzero. */
  lemma {:induction false} FeedZeros(r: Byte, bits: seq<bool>)
    requires AllZero(bits)
    ensures Feed(r, bits) == NUL <==> r == NUL
  {
    if bits != [] {
      FeedZeros(r, bits[..|bits| - 1]);
    }
  }

  /** Fed into an empty register, a nonzero pattern of at most eight bits leaves a nonzero register. */
  lemma ShortNonzero(e: seq<bool>)
    requires |e| <= 8 && !AllZero(e)
    ensures Feed(NUL, e) != NUL
  {
    FeedShort(e);
    var i :| 0 <= i < |e| && e[i];
    assert Padded(e)[8 - |e| + i];
  }

  /** A nonzero error pattern at most eight bits long, however far it is shifted, has a nonzero remainder. */
  lemma BurstNonzero(zpre: seq<bool>, e: seq<bool>, zpost: seq<bool>)
    requires AllZero(zpre) && AllZero(zpost) && |e| <= 8 && !AllZero(e)
    ensures Feed(NUL, (zpre + e) + zpost) != NUL
  {
    FeedAppend(NUL, zpre + e, zpost);
    FeedAppend(NUL, zpre, e);
    FeedZeros(NUL, zpre);
    ShortNonzero(e);
    FeedZeros(Feed(NUL, e), zpost);
  }

  lemma PlusZero(r: Byte)
    ensures Plus(r, r) == NUL
  {}

  /** Two different bit strings that agree outside eight consecutive positions have different remainders. */
  lemma BurstDetected(pre: seq<bool>, a: seq<bool>, b: seq<bool>, post: seq<bool>)
    requires |a| == |b| <= 8 && a != b
    ensures Feed(NUL, (pre + a) + post) != Feed(NUL, (pre + b) + post)
  {
    var x, y := (pre + a) + post, (pre + b) + post;
    var e := Xor(a, b);
    assert Xor(x, y) == (Xor(pre, pre) + e) + Xor(post, post);
    assert !AllZero(e) by {
      var i :| 0 <= i < |a| && a[i] != b[i];
      assert e[i];
    }
    BurstNonzero(Xor(pre, pre), e, Xor(post, post));
    FeedLinear(NUL, NUL, x, y);
    PlusZero(NUL);
    PlusZero(Feed(NUL, x));
  }

  lemma {:induction false} BitsAppend(a: seq<Byte>, b: seq<Byte>)
    ensures Bits(a + b) == Bits(a) + Bits(b)
  {
    hide BitsOf;
    if b == [] {
      assert a + b == a;
      assert Bits(a) + [] == Bits(a);
    } else {
      var n := |b| - 1;
      BitsAppend(a, b[..n]);
      var c := a + b;
      assert c[..|c| - 1] == a + b[..n] && c[|c| - 1] == b[n];
      assert Bits(c) == Bits(a + b[..n]) + BitsOf(b[n]);
      assert (Bits(a) + Bits(b[..n])) + BitsOf(b[n]) == Bits(a) + (Bits(b[..n]) + BitsOf(b[n]));
    }
  }

  lemma BitsOfInjective(x: Byte, y: Byte)
    requires x != y
    ensures BitsOf(x) != BitsOf(y)
  {
    FeedByteIntoZero(x);
    FeedByteIntoZero(y);
  }

  lemma BitsSplit(buf: seq<Byte>, i: nat)
    requires i < |buf|
    ensures Bits(buf) == Bits(buf[..i]) + BitsOf(buf[i]) + Bits(buf[i + 1..])
  {
    assert buf == buf[..i + 1] + buf[i + 1..];
    BitsAppend(buf[..i + 1], buf[i + 1..]);
    var front := buf[..i + 1];
    assert front[..|front| - 1] == buf[..i] && front[|front| - 1] == buf[i];
  }

  /** Replacing one byte of a buffer by any other value changes the remainder. */
  lemma OneByteErrorDetected(buf: seq<Byte>, i: nat, y: Byte)
    requires i < |buf| && y != buf[i]
    ensures Crc(buf[i := y]) != Crc(buf)
  {
    var buf' := buf[i := y];
    BitsSplit(buf, i);
    BitsSplit(buf', i);
    assert buf'[..i] == buf[..i] && buf'[i + 1..] == buf[i + 1..];
    BitsOfInjective(buf[i], y);
    BurstDetected(Bits(buf[..i]), BitsOf(buf[i]), BitsOf(y), Bits(buf[i + 1..]));
  }

  // ---------- odd numbers of bit errors ----------

  function Count(bits: seq<bool>): nat {
    if bits == [] then 0 else Count(bits[..|bits| - 1]) + (if bits[|bits| - 1] then 1 else 0)
  }

  function OddReg(r: Byte): bool {
    ((r.b7 != r.b6) != (r.b5 != r.b4)) != ((r.b3 != r.b2) != (r.b1 != r.b0))
  }

  /** The generator has an even number of terms, so the register's parity is the parity of what was shifted in. */
  lemma {:induction false} FeedParity(bits: seq<bool>)
    ensures OddReg(Feed(NUL, bits)) <==> Count(bits) % 2 == 1
  {
    if bits != [] {
      FeedParity(bits[..|bits| - 1]);
    }
  }

  /** Flipping any odd number of bits changes the remainder. */
  lemma OddErrorDetected(bits: seq<bool>, e: seq<bool>)
    requires |e| == |bits| && Count(e) % 2 == 1
    ensures Feed(NUL, Xor(bits, e)) != Feed(NUL, bits)
  {
    FeedLinear(NUL, NUL, bits, e);
    FeedParity(e);
  }
}
