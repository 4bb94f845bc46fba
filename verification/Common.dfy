/** Shared vocabulary of the simulator: machine integers, bytes, frames and options. */
module Common {

  datatype Option<+T> = None | Some(value: T)

  type uint8 = x: int | 0 <= x < 256
  type uint16 = x: int | 0 <= x < 65536

  /** A `char` or `uint8_t` whose bits matter, most significant bit first. */
  datatype Byte = Byte(b7: bool, b6: bool, b5: bool, b4: bool, b3: bool, b2: bool, b1: bool, b0: bool)

  const NUL := Byte(false, false, false, false, false, false, false, false)

  const PAYLOAD_SIZE: nat := 56
  const MAX_FRAME_SIZE: nat := 64

  type Payload = s: seq<Byte> | |s| == PAYLOAD_SIZE witness seq(PAYLOAD_SIZE, i => NUL)

  /**
   * The packed 64-byte frame. `data` always spans the whole payload area; only its first `length` bytes are written.
   */
  datatype Frame = Frame(remaining: uint16, dst: uint8, src: uint8, seqNum: uint8, isAck: uint8,
                         length: uint8, data: Payload, checksum: Byte)

  function BitsOf(b: Byte): (s: seq<bool>)
    ensures |s| == 8
  {
    [b.b7, b.b6, b.b5, b.b4, b.b3, b.b2, b.b1, b.b0]
  }

  /** The n low-order bits of x, most significant first. */
  function LowBits(x: nat, n: nat): (s: seq<bool>)
    ensures |s| == n
  {
    if n == 0 then [] else LowBits(x / 2, n - 1) + [x % 2 == 1]
  }

  function Number(s: seq<bool>): nat {
    if s == [] then 0 else 2 * Number(s[..|s| - 1]) + (if s[|s| - 1] then 1 else 0)
  }

  function Pow2(n: nat): (p: nat)
    ensures p > 0
  {
    if n == 0 then 1 else 2 * Pow2(n - 1)
  }

  lemma {:induction false} NumberBound(s: seq<bool>)
    ensures Number(s) < Pow2(|s|)
  {
    if s != [] {
      NumberBound(s[..|s| - 1]);
    }
  }

  lemma {:induction false} NumberOfLowBits(x: nat, n: nat)
    requires x < Pow2(n)
    ensures Number(LowBits(x, n)) == x
  {
    if n > 0 {
      NumberOfLowBits(x / 2, n - 1);
      assert LowBits(x, n)[..n - 1] == LowBits(x / 2, n - 1);
    }
  }

  lemma {:induction false} LowBitsOfNumber(s: seq<bool>)
    ensures LowBits(Number(s), |s|) == s
  {
    if s != [] {
      var n := |s| - 1;
      LowBitsOfNumber(s[..n]);
      assert Number(s) / 2 == Number(s[..n]);
      assert s == s[..n] + [s[n]];
    }
  }

  lemma Pow2At8()
    ensures Pow2(8) == 256
  {
    assert Pow2(2) == 4;
    assert Pow2(4) == 16;
    assert Pow2(6) == 64;
  }

  function ToByte(x: uint8): Byte {
    var s := LowBits(x, 8);
    Byte(s[0], s[1], s[2], s[3], s[4], s[5], s[6], s[7])
  }

  function FromByte(b: Byte): uint8 {
    NumberBound(BitsOf(b));
    Pow2At8();
    Number(BitsOf(b))
  }

  lemma ByteRoundTrip(x: uint8)
    ensures FromByte(ToByte(x)) == x
  {
    Pow2At8();
    NumberOfLowBits(x, 8);
    assert BitsOf(ToByte(x)) == LowBits(x, 8);
  }

  lemma NumberRoundTrip(b: Byte)
    ensures ToByte(FromByte(b)) == b
  {
    LowBitsOfNumber(BitsOf(b));
  }

  // ---------- numbers and sequences ----------

  function Min(a: int, b: int): int {
    if a <= b then a else b
  }

  function Max(a: int, b: int): int {
    if a >= b then a else b
  }

  function RemoveAt<T>(s: seq<T>, i: nat): (r: seq<T>)
    requires i < |s|
    ensures |r| == |s| - 1
  {
    s[..i] + s[i + 1..]
  }

  lemma Associate<T>(a: seq<T>, b: seq<T>, c: seq<T>)
    ensures a + (b + c) == (a + b) + c
  {}

  // ---------- division ----------

  lemma MulApart(a: nat, b: nat, w: nat)
    requires a < b
    ensures a * w + w <= b * w
  {
    assert (a + 1) * w == a * w + w;
    var k := b - (a + 1);
    assert b * w == (a + 1) * w + k * w;
  }

  lemma DivMod(x: nat, w: nat)
    requires w > 0
    ensures x == x / w * w + x % w && 0 <= x / w
  {}

  lemma DivUnique(x: nat, w: nat, q: nat, r: nat)
    requires w > 0 && r < w && x == q * w + r
    ensures x / w == q && x % w == r
  {
    DivMod(x, w);
    if x / w > q {
      MulApart(q, x / w, w);
      assert false;
    } else if x / w < q {
      MulApart(x / w, q, w);
      assert false;
    }
  }
}
