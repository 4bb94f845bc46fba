/** The 64-byte wire image of a frame, set_checksum and frame_valid, and the corruption send_frame injects. */
module Frames {
  import opened Common
  import opened Crc8

  function Header(f: Frame): (b: seq<Byte>)
    ensures |b| == 7
  {
    [ToByte(f.remaining % 256), ToByte(f.remaining / 256), ToByte(f.dst), ToByte(f.src), ToByte(f.seqNum),
     ToByte(f.isAck), ToByte(f.length)]
  }

  /** The packed struct as bytes; the 16-bit field is little-endian. */
  function Encode(f: Frame): (b: seq<Byte>)
    ensures |b| == MAX_FRAME_SIZE
  {
    (Header(f) + f.data) + [f.checksum]
  }

  function Decode(b: seq<Byte>): (f: Frame)
    requires |b| == MAX_FRAME_SIZE
  {
    Frame(FromByte(b[0]) + 256 * FromByte(b[1]), FromByte(b[2]), FromByte(b[3]), FromByte(b[4]), FromByte(b[5]),
          FromByte(b[6]), b[7..63], b[63])
  }

  lemma Word(lo: uint8, hi: uint8)
    ensures (lo + 256 * hi) % 256 == lo && (lo + 256 * hi) / 256 == hi
  {}

  lemma HeaderOfFields(lo: uint8, hi: uint8, f: Frame)
    requires f.remaining == lo + 256 * hi
    ensures Header(f) == [ToByte(lo), ToByte(hi), ToByte(f.dst), ToByte(f.src), ToByte(f.seqNum), ToByte(f.isAck),
                          ToByte(f.length)]
  {
    hide ToByte;
    Word(lo, hi);
  }

  lemma EncodeDecode(b: seq<Byte>)
    requires |b| == MAX_FRAME_SIZE
    ensures Encode(Decode(b)) == b
  {
    hide ToByte;
    hide FromByte;
    hide Header;
    HeaderBack(b);
    assert b == (b[..7] + b[7..63]) + [b[63]];
  }

  lemma HeaderBack(b: seq<Byte>)
    requires |b| == MAX_FRAME_SIZE
    ensures Header(Decode(b)) == b[..7]
  {
    hide ToByte;
    hide FromByte;
    hide Header;
    HeaderOfFields(FromByte(b[0]), FromByte(b[1]), Decode(b));
    NumberRoundTrip(b[0]);
    NumberRoundTrip(b[1]);
    NumberRoundTrip(b[2]);
    NumberRoundTrip(b[3]);
    NumberRoundTrip(b[4]);
    NumberRoundTrip(b[5]);
    NumberRoundTrip(b[6]);
  }

  lemma DecodeEncode(f: Frame)
    ensures Decode(Encode(f)) == f
  {
    hide ToByte;
    hide FromByte;
    ByteRoundTrip(f.remaining % 256);
    ByteRoundTrip(f.remaining / 256);
    ByteRoundTrip(f.dst);
    ByteRoundTrip(f.src);
    ByteRoundTrip(f.seqNum);
    ByteRoundTrip(f.isAck);
    ByteRoundTrip(f.length);
    assert Encode(f)[..7] == Header(f) && Encode(f)[7..63] == f.data;
  }

  /** Where each field stands on the wire. */
  lemma WireLayout(f: Frame)
    ensures var b := Encode(f);
            && f.remaining == FromByte(b[0]) + 256 * FromByte(b[1])
            && f.dst == FromByte(b[2]) && f.src == FromByte(b[3]) && f.seqNum == FromByte(b[4])
            && f.isAck == FromByte(b[5]) && f.length == FromByte(b[6])
            && (forall i :: 0 <= i < 56 ==> b[7 + i] == f.data[i]) && b[63] == f.checksum
  {
    hide ToByte;
    hide FromByte;
    hide Encode;
    DecodeEncode(f);
    var b := Encode(f);
    assert forall i :: 0 <= i < 56 ==> b[7 + i] == b[7..63][i];
  }

  predicate FrameValid(f: Frame) {
    Crc(Encode(f)) == NUL
  }

  function SetChecksum(f: Frame): Frame {
    f.(checksum := Crc(Encode(f.(checksum := NUL))))
  }

  function Complement(b: Byte): Byte {
    Byte(!b.b7, !b.b6, !b.b5, !b.b4, !b.b3, !b.b2, !b.b1, !b.b0)
  }

  /** What send_frame may do: complement byte i of the wire image. */
  function Corrupt(f: Frame, i: nat): Frame
    requires i < MAX_FRAME_SIZE
  {
    Decode(Encode(f)[i := Complement(Encode(f)[i])])
  }

  /** Corruption changes byte i of the wire image, in every bit, and no other byte. */
  lemma CorruptIs(f: Frame, i: nat)
    requires i < MAX_FRAME_SIZE
    ensures var b, c := Encode(f), Encode(Corrupt(f, i));
            && (forall j :: 0 <= j < 64 && j != i ==> c[j] == b[j])
            && (forall k :: 0 <= k < 8 ==> BitsOf(c[i])[k] == !BitsOf(b[i])[k])
  {
    hide Encode;
    hide Decode;
    EncodeDecode(Encode(f)[i := Complement(Encode(f)[i])]);
  }

  /** Changing the last byte from NUL to c adds c to the remainder. */
  lemma ChecksumByte(pre: seq<Byte>, c: Byte)
    ensures Crc(pre + [c]) == Plus(Crc(pre + [NUL]), c)
  {
    BitsAppend(pre, [c]);
    BitsAppend(pre, [NUL]);
    AddLastByte(Bits(pre), Bits([NUL]), Bits([c]));
    assert Bits([c]) == BitsOf(c) by { assert [c][..0] == []; }
    FeedByteIntoZero(c);
    assert AllZero(Bits([NUL])) by { assert [NUL][..0] == []; }
  }

  lemma AddLastByte(pre: seq<bool>, zeros: seq<bool>, e: seq<bool>)
    requires AllZero(zeros) && |zeros| == |e|
    ensures Feed(NUL, pre + e) == Plus(Feed(NUL, pre + zeros), Feed(NUL, e))
  {
    FeedAppend(NUL, pre, e);
    FeedAppend(NUL, pre, zeros);
    assert Xor(zeros, e) == e;
    FeedLinear(Feed(NUL, pre), NUL, zeros, e);
  }

  lemma PlusIsZero(r: Byte, s: Byte)
    ensures Plus(r, s) == NUL <==> r == s
  {}

  lemma ChecksumUnique(pre: seq<Byte>, c: Byte)
    ensures Crc(pre + [c]) == NUL <==> c == Crc(pre + [NUL])
  {
    ChecksumByte(pre, c);
    var r := Crc(pre + [NUL]);
    PlusIsZero(r, c);
  }

  /** A frame passes the check exactly when its checksum is the one set_checksum computes. */
  lemma ValidIffChecksumSet(f: Frame)
    ensures FrameValid(f) <==> f == SetChecksum(f)
  {
    ChecksumUnique(Header(f) + f.data, f.checksum);
  }

  lemma SetChecksumValid(f: Frame)
    ensures FrameValid(SetChecksum(f))
  {
    ValidIffChecksumSet(SetChecksum(f));
  }

  /** Every corruption the switch injects into a valid frame is caught. */
  lemma CorruptionDetected(f: Frame, i: nat)
    requires FrameValid(f) && i < MAX_FRAME_SIZE
    ensures !FrameValid(Corrupt(f, i))
  {
    var b := Encode(f);
    EncodeDecode(b[i := Complement(b[i])]);
    assert Complement(b[i]).b7 != b[i].b7;
    OneByteErrorDetected(b, i, Complement(b[i]));
  }
}
