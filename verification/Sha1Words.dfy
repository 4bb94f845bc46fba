/**
 * SHA-1 once more, in 32-bit machine arithmetic and block by block from the front, as section 6.1 of RFC 3174 can be
 * programmed; it computes the digest defined on bit strings.
 */
module Sha1Words {
  import opened Common
  import opened Sha1Spec

  // ---------- the operations ----------

  /** A machine word, `uint32_t` in C. */
  datatype Reg = Reg(x: bv32)

  function Ch(b: bv32, c: bv32, d: bv32): bv32 {
    (b & c) | (!b & d)
  }

  function Maj(b: bv32, c: bv32, d: bv32): bv32 {
    (b & c) | (b & d) | (c & d)
  }

  function Differ(b: bv32, c: bv32): bv32 {
    b ^ c
  }

  function Sum(x: bv32, y: bv32): bv32 {
    x + y
  }

  /** The circular shifts that occur: by 1, by 5 and by 30 places. */
  function By1(x: bv32): bv32 {
    (x << 1) | (x >> 31)
  }

  function By5(x: bv32): bv32 {
    (x << 5) | (x >> 27)
  }

  function By30(x: bv32): bv32 {
    (x << 30) | (x >> 2)
  }

  function Choose(b: Reg, c: Reg, d: Reg): Reg {
    Reg(Ch(b.x, c.x, d.x))
  }

  function Majority(b: Reg, c: Reg, d: Reg): Reg {
    Reg(Maj(b.x, c.x, d.x))
  }

  function Exclusive(b: Reg, c: Reg): Reg {
    Reg(Differ(b.x, c.x))
  }

  function Plus(r: Reg, s: Reg): Reg {
    Reg(Sum(r.x, s.x))
  }

  function Circular1(r: Reg): Reg {
    Reg(By1(r.x))
  }

  function Circular5(r: Reg): Reg {
    Reg(By5(r.x))
  }

  function Circular30(r: Reg): Reg {
    Reg(By30(r.x))
  }

  // ---------- bit strings as machine words ----------

  /** One more bit at the low end. */
  function Append(x: bv32, b: bool): bv32 {
    (x << 1) | (if b then 1 else 0)
  }

  function Push(r: Reg, b: bool): Reg {
    Reg(Append(r.x, b))
  }

  /** A bit string as a machine word, the most significant bit first. */
  function Value(s: seq<bool>): Reg {
    if s == [] then Reg(0) else Push(Value(s[..|s| - 1]), s[|s| - 1])
  }

  lemma ValueSnoc(s: seq<bool>)
    ensures s == [] ==> Value(s) == Reg(0)
    ensures s != [] ==> Value(s) == Push(Value(s[..|s| - 1]), s[|s| - 1])
  {
    hide Push;
  }

  lemma NoBits()
    ensures var zero := Reg(0);
            Choose(zero, zero, zero) == zero && Exclusive(zero, zero) == zero && Majority(zero, zero, zero) == zero
  {}

  /** The bitwise operations work bit by bit. */
  lemma PushChoose(x: Reg, y: Reg, z: Reg, b: bool, c: bool, d: bool)
    ensures Choose(Push(x, b), Push(y, c), Push(z, d)) == Push(Choose(x, y, z), if b then c else d)
  {}

  lemma PushExclusive(x: Reg, y: Reg, b: bool, c: bool)
    ensures Exclusive(Push(x, b), Push(y, c)) == Push(Exclusive(x, y), b != c)
  {}

  lemma PushMajority(x: Reg, y: Reg, z: Reg, b: bool, c: bool, d: bool)
    ensures Majority(Push(x, b), Push(y, c), Push(z, d)) == Push(Majority(x, y, z), (b && c) || (b && d) || (c && d))
  {}

  lemma {:induction false} ChooseValue(b: seq<bool>, c: seq<bool>, d: seq<bool>, r: seq<bool>)
    requires |b| == |c| == |d| == |r|
    requires forall i :: 0 <= i < |r| ==> r[i] == if b[i] then c[i] else d[i]
    ensures Value(r) == Choose(Value(b), Value(c), Value(d))
  {
    hide *;
    ValueSnoc(b);
    ValueSnoc(c);
    ValueSnoc(d);
    ValueSnoc(r);
    NoBits();
    if r != [] {
      var n := |r| - 1;
      ChooseValue(b[..n], c[..n], d[..n], r[..n]);
      PushChoose(Value(b[..n]), Value(c[..n]), Value(d[..n]), b[n], c[n], d[n]);
    }
  }

  lemma {:induction false} ExclusiveValue(b: seq<bool>, c: seq<bool>, r: seq<bool>)
    requires |b| == |c| == |r|
    requires forall i :: 0 <= i < |r| ==> r[i] == (b[i] != c[i])
    ensures Value(r) == Exclusive(Value(b), Value(c))
  {
    hide *;
    ValueSnoc(b);
    ValueSnoc(c);
    ValueSnoc(r);
    NoBits();
    if r != [] {
      var n := |r| - 1;
      ExclusiveValue(b[..n], c[..n], r[..n]);
      PushExclusive(Value(b[..n]), Value(c[..n]), b[n], c[n]);
    }
  }

  lemma {:induction false} MajorityValue(b: seq<bool>, c: seq<bool>, d: seq<bool>, r: seq<bool>)
    requires |b| == |c| == |d| == |r|
    requires forall i :: 0 <= i < |r| ==> r[i] == ((b[i] && c[i]) || (b[i] && d[i]) || (c[i] && d[i]))
    ensures Value(r) == Majority(Value(b), Value(c), Value(d))
  {
    hide *;
    ValueSnoc(b);
    ValueSnoc(c);
    ValueSnoc(d);
    ValueSnoc(r);
    NoBits();
    if r != [] {
      var n := |r| - 1;
      MajorityValue(b[..n], c[..n], d[..n], r[..n]);
      PushMajority(Value(b[..n]), Value(c[..n]), Value(d[..n]), b[n], c[n], d[n]);
    }
  }

  // ---------- rotation ----------

  /** The bit alone, k places up. */
  function Top(b: bool, k: nat): Reg {
    if k == 0 then Push(Reg(0), b) else Push(Top(b, k - 1), false)
  }

  /** The n low-order bits set. */
  function Mask(n: nat): Reg {
    if n == 0 then Reg(0) else Push(Mask(n - 1), true)
  }

  predicate Inside(r: Reg, mask: Reg) {
    r.x & !mask.x == 0
  }

  function Join(r: Reg, s: Reg): Reg {
    Reg(r.x | s.x)
  }

  lemma PushInside(r: Reg, mask: Reg, b: bool)
    requires Inside(r, mask)
    ensures Inside(Push(r, b), Push(mask, true))
  {}

  lemma PushJoin(r: Reg, s: Reg, b: bool)
    ensures Join(Push(r, false), Push(s, b)) == Push(Join(r, s), b)
  {}

  lemma JoinNothing(r: Reg)
    ensures Join(r, Reg(0)) == r && Inside(Reg(0), r)
  {}

  lemma TopStep(b: bool, k: nat)
    ensures Top(b, 0) == Push(Reg(0), b) && (k > 0 ==> Top(b, k) == Push(Top(b, k - 1), false))
    ensures Mask(0) == Reg(0) && (k > 0 ==> Mask(k) == Push(Mask(k - 1), true))
  {
    hide Push;
  }

  /** A leading bit. */
  lemma {:induction false} LeadingBit(b: bool, s: seq<bool>)
    ensures Value([b] + s) == Join(Top(b, |s|), Value(s)) && Inside(Value(s), Mask(|s|))
  {
    hide *;
    TopStep(b, |s|);
    ValueSnoc(s);
    ValueSnoc([b] + s);
    ValueSnoc([]);
    if s == [] {
      assert [b] + s == [b] && [b][..0] == [];
      JoinNothing(Top(b, 0));
      JoinNothing(Mask(0));
    } else {
      var n := |s| - 1;
      assert ([b] + s)[..|s|] == [b] + s[..n];
      LeadingBit(b, s[..n]);
      PushJoin(Top(b, n), Value(s[..n]), s[n]);
      PushInside(Value(s[..n]), Mask(n), s[n]);
    }
  }

  predicate TopBit(r: Reg) {
    r.x & 0x8000_0000 != 0
  }

  /** Shifting circularly by one place brings the top bit back at the low end. */
  lemma CircularTop(r: Reg)
    ensures Circular1(r) == Push(r, TopBit(r))
  {}

  lemma PushedOut(r: Reg, b: bool)
    ensures Push(Join(Reg(0x8000_0000), r), b) == Push(r, b) && Push(Join(Reg(0), r), b) == Push(r, b)
  {}

  lemma TopJoined(r: Reg)
    requires Inside(r, Reg(0x7fff_ffff))
    ensures TopBit(Join(Reg(0x8000_0000), r)) && !TopBit(Join(Reg(0), r))
  {}

  /** A whole word with its first bit moved to the end. */
  lemma MovedBit(b: bool, s: seq<bool>)
    requires |s| == 31
    ensures Value(s + [b]) == Circular1(Value([b] + s))
  {
    hide *;
    LeadingBit(b, s);
    Top31();
    Mask31();
    ValueSnoc(s + [b]);
    assert (s + [b])[..31] == s;
    PushedOut(Value(s), b);
    TopJoined(Value(s));
    CircularTop(Value([b] + s));
  }

  lemma CircularFive(r: Reg)
    ensures Circular5(r) == Circular1(Circular1(Circular1(Circular1(Circular1(r)))))
  {}

  lemma CircularBack(r: Reg)
    ensures Circular30(Circular1(Circular1(r))) == r
  {}

  lemma Top31()
    ensures Top(true, 31) == Reg(0x8000_0000) && Top(false, 31) == Reg(0)
  {
    assert Top(true, 8) == Reg(0x100) && Top(false, 8) == Reg(0);
    assert Top(true, 16) == Reg(0x1_0000) && Top(false, 16) == Reg(0);
    assert Top(true, 24) == Reg(0x100_0000) && Top(false, 24) == Reg(0);
  }

  lemma Mask31()
    ensures Mask(31) == Reg(0x7fff_ffff)
  {
    assert Mask(8) == Reg(0xff);
    assert Mask(16) == Reg(0xffff);
    assert Mask(24) == Reg(0xff_ffff);
  }

  lemma RotateOnce(w: Word)
    ensures Value(Rotate(1, w)) == Circular1(Value(w))
  {
    hide *;
    RotateIs(1, w);
    MovedBit(w[0], w[1..]);
    assert [w[0]] + w[1..] == w && w[..1] == [w[0]];
  }

  lemma RotateIs(n: nat, w: Word)
    requires n <= 32
    ensures Rotate(n, w) == w[n..] + w[..n]
  {}

  lemma RotateTwice(m: nat, n: nat, w: Word)
    requires m + n <= 32
    ensures Rotate(m, Rotate(n, w)) == Rotate(m + n, w)
  {
    var r := Rotate(n, w);
    assert r[m..] == w[m + n..] + w[..n] && r[..m] == w[n..m + n];
  }

  lemma RotateMore(n: nat, w: Word)
    requires n < 32
    ensures Value(Rotate(n + 1, w)) == Circular1(Value(Rotate(n, w)))
  {
    hide *;
    RotateTwice(1, n, w);
    RotateOnce(Rotate(n, w));
  }

  lemma RotateFive(w: Word)
    ensures Value(Rotate(5, w)) == Circular5(Value(w))
  {
    hide *;
    RotateOnce(w);
    RotateMore(1, w);
    RotateMore(2, w);
    RotateMore(3, w);
    RotateMore(4, w);
    CircularFive(Value(w));
  }

  lemma RotateThirty(w: Word)
    ensures Value(Rotate(30, w)) == Circular30(Value(w))
  {
    hide *;
    RotateMore(30, w);
    RotateMore(31, w);
    RotateIs(32, w);
    assert w[32..] + w[..32] == w;
    CircularBack(Value(Rotate(30, w)));
  }

  // ---------- addition ----------

  /** A number in machine arithmetic. */
  function Image(x: nat): Reg {
    if x == 0 then Reg(0) else Push(Image(x / 2), x % 2 == 1)
  }

  lemma ImageStep(x: nat)
    ensures Image(0) == Reg(0) && Image(x) == Push(Image(x / 2), x % 2 == 1)
  {
    assert Push(Reg(0), false) == Reg(0);
  }

  lemma SumIs(x: bv32, y: bv32, z: bv32)
    ensures Sum(x, y) == x + y && Sum(x, y + z) == x + y + z
  {}

  lemma SumFirst(x: bv32, y: bv32, z: bv32)
    ensures Sum(x + y, z) == x + y + z
  {}

  lemma SumAssociates(x: bv32, y: bv32, z: bv32)
    ensures Sum(Sum(x, y), z) == Sum(x, Sum(y, z))
  {
    hide *;
    SumIs(x, y, z);
    SumIs(y, z, z);
    SumFirst(x, y, z);
  }

  lemma AppendIs(x: bv32)
    ensures Append(x, false) == x + x && Append(x, true) == x + x + 1
  {}

  lemma AppendNext(x: bv32)
    ensures Sum(x, 1) == x + 1 && Append(x + 1, false) == x + x + 2
    ensures Sum(x + x, 1) == x + x + 1 && Sum(x + x + 1, 1) == x + x + 2
  {}

  /** Adding one to a number that ends in 0, and to one that ends in 1. */
  lemma SumOfOne(x: bv32)
    ensures Sum(Append(x, false), 1) == Append(x, true)
    ensures Sum(Append(x, true), 1) == Append(Sum(x, 1), false)
  {
    hide *;
    AppendIs(x);
    AppendNext(x);
  }

  lemma AppendOfSum(x: bv32, y: bv32)
    ensures Append(x + y, false) == x + x + y + y && Append(x + y, true) == x + x + y + y + 1
    ensures Sum(x + x, y + y) == x + x + y + y && Sum(x + x + 1, y + y) == x + x + y + y + 1
  {}

  lemma AppendSum(x: bv32, y: bv32)
    ensures Append(Sum(x, y), false) == Sum(Append(x, false), Append(y, false))
    ensures Append(Sum(x, y), true) == Sum(Append(x, true), Append(y, false))
  {
    hide *;
    SumIs(x, y, y);
    AppendOfSum(x, y);
    AppendIs(x);
    AppendIs(y);
  }

  lemma PlusAssociates(r: Reg, s: Reg, t: Reg)
    ensures Plus(Plus(r, s), t) == Plus(r, Plus(s, t))
  {
    hide Sum;
    SumAssociates(r.x, s.x, t.x);
  }

  lemma PlusOne(r: Reg)
    ensures Plus(Push(r, false), Reg(1)) == Push(r, true)
    ensures Plus(Push(r, true), Reg(1)) == Push(Plus(r, Reg(1)), false)
  {
    hide Sum, Append;
    SumOfOne(r.x);
  }

  lemma PushPlus(r: Reg, s: Reg, b: bool)
    ensures Push(Plus(r, s), b) == Plus(Push(r, b), Push(s, false))
  {
    hide Sum, Append;
    AppendSum(r.x, s.x);
  }

  lemma PlusZero(r: Reg)
    ensures Plus(r, Reg(0)) == r && Plus(Reg(0), r) == r
  {}

  lemma {:induction false} ImageNext(x: nat)
    ensures Image(x + 1) == Plus(Image(x), Reg(1))
  {
    hide *;
    ImageStep(x);
    ImageStep(x + 1);
    PlusOne(Image(x / 2));
    if x % 2 == 0 {
      assert (x + 1) / 2 == x / 2;
    } else {
      assert (x + 1) / 2 == x / 2 + 1;
      ImageNext(x / 2);
    }
  }

  /** Machine addition is addition of numbers. */
  lemma {:induction false} ImagePlus(x: nat, y: nat)
    ensures Image(x + y) == Plus(Image(x), Image(y))
    decreases y
  {
    hide *;
    PlusZero(Image(x));
    ImageStep(0);
    if y > 0 {
      ImagePlus(x, y - 1);
      ImageNext(x + (y - 1));
      ImageNext(y - 1);
      PlusAssociates(Image(x), Image(y - 1), Reg(1));
    }
  }

  /** k zeros at the low end. */
  function Shifted(r: Reg, k: nat): Reg {
    if k == 0 then r else Push(Shifted(r, k - 1), false)
  }

  lemma ShiftedStep(r: Reg, k: nat)
    ensures Shifted(r, 0) == r && (k > 0 ==> Shifted(r, k) == Push(Shifted(r, k - 1), false))
  {
    hide Push;
  }

  lemma PushBelow(r: Reg, mask: Reg)
    requires Inside(r, mask)
    ensures Inside(Push(r, false), Push(mask, false))
  {}

  lemma {:induction false} ShiftedBelow(r: Reg, k: nat)
    ensures Inside(Shifted(r, k), Shifted(Reg(0xffff_ffff), k))
  {
    hide Push, Shifted, Inside;
    ShiftedStep(r, k);
    ShiftedStep(Reg(0xffff_ffff), k);
    if k == 0 {
      AllInside(r);
    } else {
      ShiftedBelow(r, k - 1);
      PushBelow(Shifted(r, k - 1), Shifted(Reg(0xffff_ffff), k - 1));
    }
  }

  lemma AllInside(r: Reg)
    ensures Inside(r, Reg(0xffff_ffff)) && (Inside(r, Reg(0)) ==> r == Reg(0))
  {}

  lemma OnesShiftedOut()
    ensures Shifted(Reg(0xffff_ffff), 32) == Reg(0)
  {
    assert Shifted(Reg(0xffff_ffff), 8) == Reg(0xffff_ff00);
    assert Shifted(Reg(0xffff_ffff), 16) == Reg(0xffff_0000);
    assert Shifted(Reg(0xffff_ffff), 24) == Reg(0xff00_0000);
  }

  lemma ShiftedOut(r: Reg)
    ensures Shifted(r, 32) == Reg(0)
  {
    hide *;
    ShiftedBelow(r, 32);
    OnesShiftedOut();
    AllInside(Shifted(r, 32));
  }

  /** The n low-order bits of a number and the rest. */
  lemma {:induction false} ImageSplit(x: nat, n: nat)
    ensures Image(x) == Plus(Value(LowBits(x, n)), Shifted(Image(Halved(x, n)), n))
  {
    hide Push, Plus, Image, Value, Shifted;
    ValueSnoc(LowBits(x, n));
    ShiftedStep(Image(Halved(x, n)), n);
    if n == 0 {
      PlusZero(Image(x));
    } else {
      ImageStep(x);
      ImageSplit(x / 2, n - 1);
      assert LowBits(x, n)[..n - 1] == LowBits(x / 2, n - 1);
      PushPlus(Value(LowBits(x / 2, n - 1)), Shifted(Image(Halved(x, n)), n - 1), x % 2 == 1);
    }
  }

  lemma LowBitsImage(x: nat)
    ensures Value(LowBits(x, 32)) == Image(x)
  {
    hide *;
    ImageSplit(x, 32);
    ShiftedOut(Image(Halved(x, 32)));
    PlusZero(Value(LowBits(x, 32)));
  }

  lemma {:induction false} NumberImage(s: seq<bool>)
    ensures Value(s) == Image(Number(s))
  {
    hide Push, Value, Image;
    ValueSnoc(s);
    ImageStep(Number(s));
    if s != [] {
      NumberImage(s[..|s| - 1]);
      assert Number(s) / 2 == Number(s[..|s| - 1]);
    }
  }

  lemma AddValue(a: Word, b: Word)
    ensures Value(Add(a, b)) == Plus(Value(a), Value(b))
  {
    hide *;
    AddIs(a, b);
    LowBitsImage(Number(a) + Number(b));
    ImagePlus(Number(a), Number(b));
    NumberImage(a);
    NumberImage(b);
  }

  lemma AddIs(a: Word, b: Word)
    ensures Add(a, b) == LowBits(Number(a) + Number(b), 32)
  {
    hide LowBits;
  }

  // ---------- the steps ----------

  datatype Regs = Regs(a: Reg, b: Reg, c: Reg, d: Reg, e: Reg)

  function Mix(t: nat, b: Reg, c: Reg, d: Reg): Reg {
    if t < 20 then Choose(b, c, d)
    else if t < 40 then Exclusive(Exclusive(b, c), d)
    else if t < 60 then Majority(b, c, d)
    else Exclusive(Exclusive(b, c), d)
  }

  function Constant(t: nat): Reg {
    if t < 20 then Reg(0x5A827999) else if t < 40 then Reg(0x6ED9EBA1)
    else if t < 60 then Reg(0x8F1BBCDC) else Reg(0xCA62C1D6)
  }

  // ---------- the constants ----------

  function Four(r: Reg, b3: bool, b2: bool, b1: bool, b0: bool): Reg {
    Reg((r.x << 4) |
        (if b3 then 8 else 0) | (if b2 then 4 else 0) | (if b1 then 2 else 0) | (if b0 then 1 else 0))
  }

  lemma PushFour(r: Reg, b3: bool, b2: bool, b1: bool, b0: bool)
    ensures Push(Push(Push(Push(r, b3), b2), b1), b0) == Four(r, b3, b2, b1, b0)
  {}

  /** A hexadecimal digit more. */
  function Hex(r: Reg, d: nat): Reg {
    Four(r, d / 8 % 2 == 1, d / 4 % 2 == 1, d / 2 % 2 == 1, d % 2 == 1)
  }

  lemma HexDigit(x: nat, d: nat, y: nat)
    requires d < 16 && y == 16 * x + d
    ensures Image(y) == Hex(Image(x), d)
  {
    hide Image, Push, Four;
    assert y / 2 == x * 8 + d / 2 && y % 2 == d % 2;
    assert y / 2 / 2 == x * 4 + d / 4 && y / 2 % 2 == d / 2 % 2;
    assert y / 2 / 2 / 2 == x * 2 + d / 8 && y / 2 / 2 % 2 == d / 4 % 2;
    assert y / 2 / 2 / 2 / 2 == x && y / 2 / 2 / 2 % 2 == d / 8 % 2;
    ImageStep(y);
    ImageStep(y / 2);
    ImageStep(y / 2 / 2);
    ImageStep(y / 2 / 2 / 2);
    PushFour(Image(x), d / 8 % 2 == 1, d / 4 % 2 == 1, d / 2 % 2 == 1, d % 2 == 1);
  }

  /** Four of them. */
  lemma HexFour(x: nat, a: nat, b: nat, c: nat, d: nat, y: nat)
    requires a < 16 && b < 16 && c < 16 && d < 16 && y == 0x1_0000 * x + 0x1000 * a + 0x100 * b + 0x10 * c + d
    ensures Image(y) == Hex(Hex(Hex(Hex(Image(x), a), b), c), d)
  {
    hide *;
    var y1 := 16 * x + a;
    var y2 := 16 * y1 + b;
    var y3 := 16 * y2 + c;
    HexDigit(x, a, y1);
    HexDigit(y1, b, y2);
    HexDigit(y2, c, y3);
    HexDigit(y3, d, y);
  }

  lemma ConstantsEarly()
    ensures Value(LowBits(0x5A827999, 32)) == Reg(0x5A827999)
    ensures Value(LowBits(0x6ED9EBA1, 32)) == Reg(0x6ED9EBA1)
  {
    hide LowBits, Value, Image;
    ImageStep(0);
    LowBitsImage(0x5A827999);
    HexFour(0, 5, 10, 8, 2, 0x5A82);
    HexFour(0x5A82, 7, 9, 9, 9, 0x5A827999);
    LowBitsImage(0x6ED9EBA1);
    HexFour(0, 6, 14, 13, 9, 0x6ED9);
    HexFour(0x6ED9, 14, 11, 10, 1, 0x6ED9EBA1);
  }

  lemma ConstantsLate()
    ensures Value(LowBits(0x8F1BBCDC, 32)) == Reg(0x8F1BBCDC)
    ensures Value(LowBits(0xCA62C1D6, 32)) == Reg(0xCA62C1D6)
  {
    hide LowBits, Value, Image;
    ImageStep(0);
    LowBitsImage(0x8F1BBCDC);
    HexFour(0, 8, 15, 1, 11, 0x8F1B);
    HexFour(0x8F1B, 11, 12, 13, 12, 0x8F1BBCDC);
    LowBitsImage(0xCA62C1D6);
    HexFour(0, 12, 10, 6, 2, 0xCA62);
    HexFour(0xCA62, 12, 1, 13, 6, 0xCA62C1D6);
  }

  lemma InitialFirst()
    ensures Value(LowBits(0x67452301, 32)) == Reg(0x67452301)
  {
    hide LowBits, Value, Image;
    ImageStep(0);
    LowBitsImage(0x67452301);
    HexFour(0, 6, 7, 4, 5, 0x6745);
    HexFour(0x6745, 2, 3, 0, 1, 0x67452301);
  }

  lemma InitialMiddle()
    ensures Value(LowBits(0xEFCDAB89, 32)) == Reg(0xEFCDAB89)
    ensures Value(LowBits(0x98BADCFE, 32)) == Reg(0x98BADCFE)
  {
    hide LowBits, Value, Image;
    ImageStep(0);
    LowBitsImage(0xEFCDAB89);
    HexFour(0, 14, 15, 12, 13, 0xEFCD);
    HexFour(0xEFCD, 10, 11, 8, 9, 0xEFCDAB89);
    LowBitsImage(0x98BADCFE);
    HexFour(0, 9, 8, 11, 10, 0x98BA);
    HexFour(0x98BA, 13, 12, 15, 14, 0x98BADCFE);
  }

  lemma InitialLast()
    ensures Value(LowBits(0x10325476, 32)) == Reg(0x10325476)
    ensures Value(LowBits(0xC3D2E1F0, 32)) == Reg(0xC3D2E1F0)
  {
    hide LowBits, Value, Image;
    ImageStep(0);
    LowBitsImage(0x10325476);
    HexFour(0, 1, 0, 3, 2, 0x1032);
    HexFour(0x1032, 5, 4, 7, 6, 0x10325476);
    LowBitsImage(0xC3D2E1F0);
    HexFour(0, 12, 3, 13, 2, 0xC3D2);
    HexFour(0xC3D2, 14, 1, 15, 0, 0xC3D2E1F0);
  }

  // ---------- a block ----------

  type Words = s: seq<Reg> | |s| == 16 witness seq(16, i => Reg(0))

  function Expanded(words: Words, t: nat): Reg {
    if t < 16 then words[t]
    else Circular1(Exclusive(Exclusive(Exclusive(Expanded(words, t - 3), Expanded(words, t - 8)),
                                       Expanded(words, t - 14)), Expanded(words, t - 16)))
  }

  function Round(t: nat, s: Regs, w: Reg): Regs {
    Regs(Plus(Plus(Plus(Plus(Circular5(s.a), Mix(t, s.b, s.c, s.d)), s.e), w), Constant(t)),
         s.a, Circular30(s.b), s.c, s.d)
  }

  function Rounds(words: Words, t: nat, s: Regs): Regs {
    if t == 0 then s else Round(t - 1, Rounds(words, t - 1, s), Expanded(words, t - 1))
  }

  function Total(s: Regs, r: Regs): Regs {
    Regs(Plus(s.a, r.a), Plus(s.b, r.b), Plus(s.c, r.c), Plus(s.d, r.d), Plus(s.e, r.e))
  }

  function Processed(s: Regs, words: Words): Regs {
    Total(s, Rounds(words, 80, s))
  }

  /** The 16 words of a block. */
  function WordsOf(block: Block): Words {
    seq(16, t requires 0 <= t < 16 => Value(block[32 * t..32 * t + 32]))
  }

  function Values(s: State): Regs {
    Regs(Value(s.a), Value(s.b), Value(s.c), Value(s.d), Value(s.e))
  }

  lemma MixValue(t: nat, b: Word, c: Word, d: Word)
    requires t < 80
    ensures Value(F(t, b, c, d)) == Mix(t, Value(b), Value(c), Value(d))
  {
    hide Value, Choose, Exclusive, Majority;
    if t < 20 {
      ChooseValue(b, c, d, F(t, b, c, d));
    } else if 40 <= t < 60 {
      MajorityValue(b, c, d, F(t, b, c, d));
    } else {
      ExclusiveValue(b, c, Xor(b, c));
      ExclusiveValue(Xor(b, c), d, F(t, b, c, d));
    }
  }

  lemma ConstantValue(t: nat)
    requires t < 80
    ensures Value(K(t)) == Constant(t)
  {
    hide Value, LowBits;
    ConstantsEarly();
    ConstantsLate();
  }

  lemma ScheduleIs(block: Block, t: nat)
    ensures t < 16 ==> Value(Schedule(block, t)) == Expanded(WordsOf(block), t)
    ensures t >= 16 ==>
              && Schedule(block, t) ==
                 Rotate(1, Xor(Xor(Xor(Schedule(block, t - 3), Schedule(block, t - 8)), Schedule(block, t - 14)),
                               Schedule(block, t - 16)))
              && Expanded(WordsOf(block), t) ==
                 Circular1(Exclusive(Exclusive(Exclusive(Expanded(WordsOf(block), t - 3),
                                                         Expanded(WordsOf(block), t - 8)),
                                               Expanded(WordsOf(block), t - 14)), Expanded(WordsOf(block), t - 16)))
  {
    hide Value, Circular1, Exclusive, Xor, Rotate;
  }

  lemma XorValue(a: Word, b: Word)
    ensures Value(Xor(a, b)) == Exclusive(Value(a), Value(b))
  {
    hide Value, Exclusive;
    ExclusiveValue(a, b, Xor(a, b));
  }

  lemma {:induction false} ExpandedValue(block: Block, t: nat)
    ensures Value(Schedule(block, t)) == Expanded(WordsOf(block), t)
  {
    hide *;
    ScheduleIs(block, t);
    if t >= 16 {
      var a, b, c, d :=
        Schedule(block, t - 3), Schedule(block, t - 8), Schedule(block, t - 14), Schedule(block, t - 16);
      ExpandedValue(block, t - 3);
      ExpandedValue(block, t - 8);
      ExpandedValue(block, t - 14);
      ExpandedValue(block, t - 16);
      XorValue(a, b);
      XorValue(Xor(a, b), c);
      XorValue(Xor(Xor(a, b), c), d);
      RotateOnce(Xor(Xor(Xor(a, b), c), d));
    }
  }

  lemma StepIs(t: nat, s: State, w: Word)
    requires t < 80
    ensures Step(t, s, w) ==
            State(Add(Add(Add(Add(Rotate(5, s.a), F(t, s.b, s.c, s.d)), s.e), w), K(t)), s.a, Rotate(30, s.b), s.c, s.d)
    ensures Round(t, Values(s), Value(w)) ==
            Regs(Plus(Plus(Plus(Plus(Circular5(Value(s.a)), Mix(t, Value(s.b), Value(s.c), Value(s.d))), Value(s.e)),
                           Value(w)), Constant(t)), Value(s.a), Circular30(Value(s.b)), Value(s.c), Value(s.d))
  {
    hide Value, Plus, Circular5, Circular30, Mix, Constant, Add, Rotate, F, K;
  }

  lemma ValuesIs(a: Word, b: Word, c: Word, d: Word, e: Word)
    ensures Values(State(a, b, c, d, e)) == Regs(Value(a), Value(b), Value(c), Value(d), Value(e))
  {
    hide Value;
  }

  lemma RoundValue(t: nat, s: State, w: Word)
    requires t < 80
    ensures Values(Step(t, s, w)) == Round(t, Values(s), Value(w))
  {
    hide *;
    StepIs(t, s, w);
    var f := F(t, s.b, s.c, s.d);
    var r := Add(Rotate(5, s.a), f);
    RotateFive(s.a);
    MixValue(t, s.b, s.c, s.d);
    AddValue(Rotate(5, s.a), f);
    AddValue(r, s.e);
    AddValue(Add(r, s.e), w);
    ConstantValue(t);
    AddValue(Add(Add(r, s.e), w), K(t));
    RotateThirty(s.b);
    ValuesIs(Add(Add(Add(r, s.e), w), K(t)), s.a, Rotate(30, s.b), s.c, s.d);
  }

  lemma RoundsStep(block: Block, t: nat, s: State)
    requires t <= 80
    ensures t == 0 ==> Steps(block, t, s) == s && Rounds(WordsOf(block), t, Values(s)) == Values(s)
    ensures t > 0 ==>
              && Steps(block, t, s) == Step(t - 1, Steps(block, t - 1, s), Schedule(block, t - 1))
              && Rounds(WordsOf(block), t, Values(s)) ==
                 Round(t - 1, Rounds(WordsOf(block), t - 1, Values(s)), Expanded(WordsOf(block), t - 1))
  {
    hide Step, Round, Schedule, Expanded, WordsOf, Values;
  }

  lemma {:induction false} RoundsValue(block: Block, t: nat, s: State)
    requires t <= 80
    ensures Values(Steps(block, t, s)) == Rounds(WordsOf(block), t, Values(s))
  {
    hide *;
    RoundsStep(block, t, s);
    if t > 0 {
      RoundsValue(block, t - 1, s);
      ExpandedValue(block, t - 1);
      RoundValue(t - 1, Steps(block, t - 1, s), Schedule(block, t - 1));
    }
  }

  lemma CompressIs(s: State, block: Block)
    ensures var r := Steps(block, 80, s);
            Compress(s, block) == State(Add(s.a, r.a), Add(s.b, r.b), Add(s.c, r.c), Add(s.d, r.d), Add(s.e, r.e))
    ensures var r := Rounds(WordsOf(block), 80, Values(s));
            Processed(Values(s), WordsOf(block)) ==
            Regs(Plus(Value(s.a), r.a), Plus(Value(s.b), r.b), Plus(Value(s.c), r.c), Plus(Value(s.d), r.d),
                 Plus(Value(s.e), r.e))
  {
    hide Add, Steps, Rounds, Plus, Value, WordsOf;
  }

  /** Machine arithmetic compresses a block as the definition on bits does. */
  lemma CompressValue(s: State, block: Block)
    ensures Values(Compress(s, block)) == Processed(Values(s), WordsOf(block))
  {
    hide *;
    CompressIs(s, block);
    RoundsValue(block, 80, s);
    var r := Steps(block, 80, s);
    ValuesIs(r.a, r.b, r.c, r.d, r.e);
    AddValue(s.a, r.a);
    AddValue(s.b, r.b);
    AddValue(s.c, r.c);
    AddValue(s.d, r.d);
    AddValue(s.e, r.e);
    ValuesIs(Add(s.a, r.a), Add(s.b, r.b), Add(s.c, r.c), Add(s.d, r.d), Add(s.e, r.e));
  }

  // ---------- the digest ----------

  const START := Regs(Reg(0x67452301), Reg(0xEFCDAB89), Reg(0x98BADCFE), Reg(0x10325476), Reg(0xC3D2E1F0))

  /** Process the blocks of a padded message from the first to the last. */
  function Absorb(s: Regs, m: seq<bool>): Regs
    decreases |m|
  {
    if |m| < 512 then s else Absorb(Processed(s, WordsOf(m[..512])), m[512..])
  }

  lemma StartIs()
    ensures Values(INITIAL) == START
  {
    hide Value, LowBits;
    InitialFirst();
    InitialMiddle();
    InitialLast();
  }

  lemma AbsorbStep(s: Regs, m: seq<bool>)
    ensures |m| < 512 ==> Absorb(s, m) == s
    ensures |m| >= 512 ==> Absorb(s, m) == Absorb(Processed(s, WordsOf(m[..512])), m[512..])
  {
    hide Processed, WordsOf;
  }

  lemma {:induction false} AbsorbValue(pre: seq<bool>, m: seq<bool>)
    requires |pre| % 512 == 0
    ensures Values(Fold(pre + m)) == Absorb(Values(Fold(pre)), m)
    decreases |m|
  {
    hide *;
    AbsorbStep(Values(Fold(pre)), m);
    if |m| < 512 {
      FoldTail(pre, m);
    } else {
      var block: Block := m[..512];
      assert pre + m == (pre + block) + m[512..] && pre + block + [] == pre + block;
      FoldUnfold(pre, block, []);
      CompressValue(Fold(pre), block);
      AbsorbValue(pre + block, m[512..]);
    }
  }

  /** For every message, the digest is what 32-bit arithmetic computes from the padded message. */
  lemma DigestValue(m: seq<bool>)
    ensures Values(Digest(m)) == Absorb(START, Pad(m))
  {
    hide *;
    DigestIs(m);
    StartIs();
    FoldShort([]);
    AbsorbValue([], Pad(m));
    assert [] + Pad(m) == Pad(m);
  }
}
