/** Eight-bit sequence numbers and the comparison that survives their wrap-around. */
module SeqNum {
  import opened Common

  const MAX_SEQ_NUM := 255

  /** The 8-bit image of an unbounded sequence number. */
  function Wrap(n: int): uint8 {
    n % 256
  }

  /** seq_num_diff: the signed distance from x1 to x2. */
  function SeqNumDiff(x1: uint8, x2: uint8): int {
    var diff := x2 - x1;
    if diff > 127 then diff - (MAX_SEQ_NUM + 1)
    else if diff < -127 then diff + (MAX_SEQ_NUM + 1)
    else diff
  }

  lemma WrapShift(a: int, k: int)
    ensures Wrap(a + k) == Wrap(Wrap(a) + k)
  {}

  lemma WrapPeriod(a: int, b: int)
    ensures exists k: int :: b - a == (Wrap(b) - Wrap(a)) + 256 * k
  {
    var k := b / 256 - a / 256;
    assert b - a == (Wrap(b) - Wrap(a)) + 256 * k;
  }

  /**
   * Exactly when the 8-bit comparison equals the comparison of the unbounded numbers: distances up to 127, and 128 on
   * the side of zero that the raw byte difference does not show.
   */
  lemma DiffExact(a: int, b: int)
    ensures SeqNumDiff(Wrap(a), Wrap(b)) == b - a <==>
            (-127 <= b - a <= 127 || (b - a == 128 && Wrap(a) >= 128) || (b - a == -128 && Wrap(a) < 128))
  {
    WrapPeriod(a, b);
  }

  /** Numbers closer than 256 apart are told apart by their 8-bit images. */
  lemma WrapInjective(a: int, b: int)
    requires -256 < b - a < 256
    ensures Wrap(a) == Wrap(b) <==> a == b
  {
    WrapPeriod(a, b);
  }
}
