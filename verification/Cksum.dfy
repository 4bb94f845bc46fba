/** The Internet checksum (section 1 of RFC 1071) as the router computes and checks it. */
module Cksum {
  import opened Common

  // ---------- the one's complement sum ----------

  /** The 16-bit big-endian words of a buffer, added up; an odd last byte is padded with zero. */
  function WordSum(data: seq<uint8>): nat {
    if data == [] then 0
    else if |data| == 1 then 256 * data[0]
    else 256 * data[0] + data[1] + WordSum(data[2..])
  }

  /** A byte at an even place counts 256 times, one at an odd place once, at every length. */
  lemma {:induction false} ByteWeight(data: seq<uint8>, i: nat, v: uint8)
    requires i < |data|
    ensures WordSum(data[i := v]) == WordSum(data) + (if i % 2 == 0 then 256 else 1) * (v - data[i])
    decreases |data|
  {
    if i >= 2 {
      assert data[i := v][2..] == data[2..][i - 2 := v];
      ByteWeight(data[2..], i - 2, v);
    } else if |data| >= 2 {
      assert data[i := v][2..] == data[2..];
    }
  }

  lemma {:induction false} ZerosSum(data: seq<uint8>)
    requires forall i :: 0 <= i < |data| ==> data[i] == 0
    ensures WordSum(data) == 0
    decreases |data|
  {
    if |data| >= 2 {
      ZerosSum(data[2..]);
    }
  }

  /** Pieces may be summed separately if all but the last have even length. */
  lemma {:induction false} SumAppend(a: seq<uint8>, b: seq<uint8>)
    requires |a| % 2 == 0
    ensures WordSum(a + b) == WordSum(a) + WordSum(b)
    decreases |a|
  {
    if a == [] {
      assert a + b == b;
    } else {
      SumAppend(a[2..], b);
      assert (a + b)[2..] == a[2..] + b;
    }
  }

  /** Data of odd length is summed as if a zero byte followed it. */
  lemma {:induction false} OddPadded(data: seq<uint8>)
    requires |data| % 2 == 1
    ensures WordSum(data) == WordSum(data + [0])
    decreases |data|
  {
    if |data| > 1 {
      OddPadded(data[2..]);
      assert (data + [0])[2..] == data[2..] + [0];
    }
  }

  /** Every word adds at most 0xffff. */
  lemma {:induction false} WordSumBound(data: seq<uint8>)
    ensures 2 * WordSum(data) <= 0xffff * (|data| + 1)
    ensures |data| % 2 == 0 ==> 2 * WordSum(data) <= 0xffff * |data|
    decreases |data|
  {
    if |data| >= 2 {
      WordSumBound(data[2..]);
    }
  }

  /** Up to 131074 bytes the 32-bit sum does not overflow. */
  lemma NoOverflow(data: seq<uint8>)
    requires |data| <= 131074
    ensures WordSum(data) < 0x1_0000_0000
  {
    WordSumBound(data);
  }

  lemma {:induction false} SumOfOnes(n: nat)
    ensures WordSum(seq(2 * n, i => 0xff)) == 0xffff * n
  {
    if n > 0 {
      assert seq(2 * n, i => 0xff)[2..] == seq(2 * (n - 1), i => 0xff);
      SumOfOnes(n - 1);
    }
  }

  /** The bound is sharp: one word more can overflow. */
  lemma OverflowBeyond()
    ensures WordSum(seq(131076, i => 0xff)) >= 0x1_0000_0000
  {
    SumOfOnes(65538);
  }

  /** Adding the carries back in until 16 bits are left. */
  function Folded(sum: nat): (r: nat)
    ensures r <= 0xffff
    decreases sum
  {
    if sum <= 0xffff then sum else Folded(sum / 0x1_0000 + sum % 0x1_0000)
  }

  /** Folding takes away multiples of 0xffff and never reaches zero from a positive sum. */
  lemma {:induction false} FoldedIs(sum: nat) returns (q: nat)
    ensures sum == 0xffff * q + Folded(sum) && (Folded(sum) == 0 <==> sum == 0)
    decreases sum
  {
    if sum <= 0xffff {
      q := 0;
    } else {
      var p := FoldedIs(sum / 0x1_0000 + sum % 0x1_0000);
      q := p + sum / 0x1_0000;
    }
  }

  // ---------- the checksum ----------

  /** htons on a little-endian machine. */
  function Htons(x: uint16): uint16 {
    x % 256 * 256 + x / 256
  }

  /** The checksum of a word sum, as a number. */
  function Complement(sum: nat): (v: uint16)
    ensures 1 <= v
  {
    var c := 0xffff - Folded(sum);
    if c == 0 then 0xffff else c
  }

  /** A sum folds to 0xffff exactly if it is a positive multiple of 0xffff. */
  lemma FoldsToOnes(sum: nat, p: nat)
    requires sum == 0xffff * p && sum > 0
    ensures Folded(sum) == 0xffff
  {
    var q := FoldedIs(sum);
    hide Folded;
    assert Folded(sum) == 0xffff * (p - q);
  }

  /** The checksum is the one value from 1 to 0xffff that brings the sum to 0xffff. */
  lemma ChecksumUnique(sum: nat, v: uint16)
    requires 1 <= v
    ensures v == Complement(sum) <==> Folded(sum + v) == 0xffff
  {
    var q := FoldedIs(sum);
    var p := FoldedIs(sum + v);
    hide Folded;
    var w := Complement(sum);
    var m := if Folded(sum) == 0xffff then q + 2 else q + 1;
    assert sum + w == 0xffff * m;
    if v == w {
      FoldsToOnes(sum + v, m);
    }
    if Folded(sum + v) == 0xffff {
      assert v - w == 0xffff * (p + 1 - m);
    }
  }

  /** The example of section 3 of RFC 1071. */
  lemma KnownChecksum()
    ensures WordSum([0x00, 0x01, 0xf2, 0x03, 0xf4, 0xf5, 0xf6, 0xf7]) == 0x2ddf0
    ensures Folded(0x2ddf0) == 0xddf2 && Complement(0x2ddf0) == 0x220d
  {
    var data: seq<uint8> := [0x00, 0x01, 0xf2, 0x03, 0xf4, 0xf5, 0xf6, 0xf7];
    assert data[2..] == [0xf2, 0x03, 0xf4, 0xf5, 0xf6, 0xf7];
    assert data[2..][2..] == [0xf4, 0xf5, 0xf6, 0xf7];
    assert data[2..][2..][2..] == [0xf6, 0xf7];
    assert data[2..][2..][2..][2..] == [];
  }

  /** What a uint32_t keeps of a number. */
  function Wrap32(n: nat): (r: nat)
    ensures r < 0x1_0000_0000 && (n < 0x1_0000_0000 ==> r == n)
  {
    n % 0x1_0000_0000
  }

  lemma WrapAdd(a: nat, b: nat)
    ensures Wrap32(Wrap32(a) + b) == Wrap32(a + b)
  {}

  /** The 32-bit accumulator of cksum. */
  method AddWords(data: seq<uint8>) returns (sum: nat)
    ensures sum == Wrap32(WordSum(data))
  {
    hide Wrap32;
    sum := 0;
    var i := 0;
    while |data| - i >= 2
      invariant 0 <= i <= |data|
      invariant sum < 0x1_0000_0000 && Wrap32(sum + WordSum(data[i..])) == Wrap32(WordSum(data))
    {
      var word := 256 * (data[i] as int) + data[i + 1];
      assert data[i..][2..] == data[i + 2..];
      WrapAdd(sum + word, WordSum(data[i + 2..]));
      sum := Wrap32(sum + word);
      i := i + 2;
    }
    if |data| - i > 0 {
      sum := Wrap32(sum + 256 * (data[i] as int));
    }
  }

  method FoldCarries(total: nat) returns (sum: nat)
    ensures sum == Folded(total)
  {
    sum := total;
    while sum > 0xffff
      invariant Folded(sum) == Folded(total)
      decreases sum
    {
      sum := sum / 0x1_0000 + sum % 0x1_0000;
    }
  }

  /** cksum. */
  method ComputeCksum(data: seq<uint8>) returns (r: uint16)
    ensures r == Htons(Complement(Wrap32(WordSum(data))))
    ensures |data| <= 131074 ==> r == Htons(Complement(WordSum(data)))
    ensures |data| % 2 == 1 ==> r == Htons(Complement(Wrap32(WordSum(data + [0]))))
  {
    hide WordSum;
    hide Folded;
    hide Wrap32;
    var sum := AddWords(data);
    sum := FoldCarries(sum);
    r := Htons(0xffff - sum);
    if r == 0 {
      r := 0xffff;
    }
    if |data| <= 131074 {
      NoOverflow(data);
    }
    if |data| % 2 == 1 {
      OddPadded(data);
    }
  }

  // ---------- checking ----------

  /** A 16-bit field read by a little-endian machine. */
  function Load(data: seq<uint8>, at: nat): uint16
    requires at + 1 < |data|
  {
    (data[at] as int) + 256 * (data[at + 1] as int)
  }

  function Zeroed(data: seq<uint8>, at: nat): (r: seq<uint8>)
    requires at + 1 < |data|
    ensures |r| == |data|
  {
    data[at := 0][at + 1 := 0]
  }

  lemma {:induction false} SumOfField(data: seq<uint8>, at: nat)
    requires at + 1 < |data| && at % 2 == 0
    ensures WordSum(data) == WordSum(Zeroed(data, at)) + Htons(Load(data, at))
    decreases |data|
  {
    if at == 0 {
      assert Zeroed(data, 0)[2..] == data[2..];
    } else {
      SumOfField(data[2..], at - 2);
      assert Zeroed(data, at)[2..] == Zeroed(data[2..], at - 2);
    }
  }

  lemma HtonsTwice(x: uint16)
    ensures Htons(Htons(x)) == x
    ensures Htons(x) == 0 <==> x == 0
  {}

  /**
   * check_ip_packet_corrupt (field at 10) and check_icmp_packet_corrupt (field at 2): the checksum is recomputed with
   * its field zeroed. What passes is exactly what has a nonzero field that completes the 32-bit sum of the rest to
   * 0xffff; up to 131074 bytes that is the data as a whole folding to 0xffff.
   */
  method CheckCorrupt(data: seq<uint8>, at: nat) returns (corrupt: bool)
    requires at + 1 < |data| && at % 2 == 0
    ensures !corrupt <==>
            Load(data, at) != 0 && Folded(Wrap32(WordSum(Zeroed(data, at))) + Htons(Load(data, at))) == 0xffff
    ensures |data| <= 131074 ==> (!corrupt <==> Load(data, at) != 0 && Folded(WordSum(data)) == 0xffff)
  {
    var sum := Load(data, at);
    var copy := Zeroed(data, at);
    var computed := ComputeCksum(copy);
    corrupt := computed != sum;
    ghost var rest := Wrap32(WordSum(copy));
    hide *;
    FieldCompletes(rest, sum);
    if |data| <= 131074 {
      SumOfField(data, at);
      NoOverflow(copy);
      SmallSum(WordSum(copy));
    }
  }

  /** A field is the checksum of the rest exactly if it is nonzero and completes the sum to 0xffff. */
  lemma FieldCompletes(rest: nat, field: uint16)
    ensures Htons(Complement(rest)) == field <==> field != 0 && Folded(rest + Htons(field)) == 0xffff
  {
    hide Folded;
    HtonsTwice(field);
    HtonsTwice(Complement(rest));
    if field != 0 {
      ChecksumUnique(rest, Htons(field));
    }
  }

  lemma SmallSum(sum: nat)
    requires sum < 0x1_0000_0000
    ensures Wrap32(sum) == sum
  {}

  /**
   * The check of an IP header that declares its own length in 32-bit words. Below 12 bytes the C code writes behind its
   * copy of the header, and beyond the end of the packet it reads what does not belong to it: None.
   */
  method CheckIpHeader(packet: seq<uint8>) returns (corrupt: Option<bool>)
    ensures corrupt.None? <==> packet == [] || !(12 <= 4 * (packet[0] % 16) <= |packet|)
    ensures corrupt.Some? ==>
              var header := packet[..4 * (packet[0] % 16)];
              !corrupt.value <==> Load(header, 10) != 0 && Folded(WordSum(header)) == 0xffff
  {
    if packet == [] || 4 * (packet[0] % 16) < 12 || 4 * (packet[0] % 16) > |packet| {
      return None;
    }
    var answer := CheckCorrupt(packet[..4 * (packet[0] % 16)], 10);
    corrupt := Some(answer);
  }

  /** A header that was given its checksum passes the check. */
  lemma ChecksumPasses(data: seq<uint8>, at: nat, v: uint16)
    requires at + 1 < |data| && at % 2 == 0
    requires v == Htons(Complement(WordSum(Zeroed(data, at))))
    ensures var sent := data[at := v % 256][at + 1 := v / 256];
            Load(sent, at) != 0 && Folded(WordSum(sent)) == 0xffff
  {
    var sent := data[at := v % 256][at + 1 := v / 256];
    assert Zeroed(sent, at) == Zeroed(data, at);
    SumOfField(sent, at);
    var c := Complement(WordSum(Zeroed(data, at)));
    HtonsTwice(c);
    ChecksumUnique(WordSum(Zeroed(data, at)), c);
  }
}
