/** The register of `Crc8` holds exactly the remainder of the message polynomial modulo x^8 + x^2 + x + 1 over GF(2). */
module CrcPolynomial {
  import opened Common
  import opened Crc8

  /** The coefficient of x^e in the polynomial whose coefficients are listed from x^0 upwards. */
  predicate Coef(p: seq<bool>, e: int) {
    0 <= e < |p| && p[e]
  }

  /** The coefficient of x^e in a message whose bits are listed from the highest power down. */
  predicate MsgCoef(bits: seq<bool>, e: int) {
    0 <= e < |bits| && bits[|bits| - 1 - e]
  }

  predicate RegCoef(r: Byte, e: int) {
    if e == 7 then r.b7 else if e == 6 then r.b6 else if e == 5 then r.b5 else if e == 4 then r.b4
    else if e == 3 then r.b3 else if e == 2 then r.b2 else if e == 1 then r.b1 else e == 0 && r.b0
  }

  /** The coefficient of x^e in q * (x^8 + x^2 + x + 1). */
  predicate MultipleCoef(q: seq<bool>, e: int) {
    (Coef(q, e - 8) != Coef(q, e - 2)) != (Coef(q, e - 1) != Coef(q, e))
  }

  /** message == q * (x^8 + x^2 + x + 1) + r */
  ghost predicate Divides(bits: seq<bool>, q: seq<bool>, r: Byte) {
    forall e: nat :: MsgCoef(bits, e) == (MultipleCoef(q, e) != RegCoef(r, e))
  }

  ghost predicate IsRemainder(bits: seq<bool>, r: Byte) {
    exists q :: Divides(bits, q, r)
  }

  lemma CoefUp(q: seq<bool>, b: bool, e: int)
    ensures Coef([b] + q, e) == if e == 0 then b else Coef(q, e - 1)
  {}

  lemma ShiftCoef(r: Byte, bit: bool, e: nat)
    ensures RegCoef(Shift(r, bit), e) ==
            (if e >= 8 then false
             else if e == 0 then bit != r.b7
             else if e <= 2 then RegCoef(r, e - 1) != r.b7
             else RegCoef(r, e - 1))
  {}

  lemma MultipleUp(q: seq<bool>, b: bool, e: int)
    ensures MultipleCoef([b] + q, e) == (MultipleCoef(q, e - 1) != (b && e in {0, 1, 2, 8}))
  {
    CoefUp(q, b, e);
    CoefUp(q, b, e - 1);
    CoefUp(q, b, e - 2);
    CoefUp(q, b, e - 8);
  }

  /** One register shift multiplies by x, adds the incoming bit and subtracts the generator if degree 8 was reached. */
  lemma DivideOneMore(bits: seq<bool>, q: seq<bool>, r: Byte, bit: bool)
    requires Divides(bits, q, r)
    ensures Divides(bits + [bit], [r.b7] + q, Shift(r, bit))
  {
    forall e: nat
      ensures MsgCoef(bits + [bit], e) == (MultipleCoef([r.b7] + q, e) != RegCoef(Shift(r, bit), e))
    {
      MultipleUp(q, r.b7, e);
      ShiftCoef(r, bit, e);
      if e > 0 {
        assert MsgCoef(bits + [bit], e) == MsgCoef(bits, e - 1);
        assert MsgCoef(bits, e - 1) == (MultipleCoef(q, e - 1) != RegCoef(r, e - 1));
      }
    }
  }

  lemma {:induction false} Divide(bits: seq<bool>) returns (q: seq<bool>)
    ensures Divides(bits, q, Feed(NUL, bits))
  {
    if bits == [] {
      q := [];
    } else {
      var n := |bits| - 1;
      var q0 := Divide(bits[..n]);
      var r := Feed(NUL, bits[..n]);
      q := [r.b7] + q0;
      DivideOneMore(bits[..n], q0, r, bits[n]);
      assert bits[..n] + [bits[n]] == bits;
    }
  }

  /** Two divisions of the same message have quotients that agree from x^k up. */
  lemma {:induction false} QuotientsAgree(bits: seq<bool>, q: seq<bool>, r: Byte, q': seq<bool>, r': Byte, k: nat)
    requires Divides(bits, q, r) && Divides(bits, q', r')
    ensures forall e :: e >= k ==> Coef(q, e) == Coef(q', e)
    decreases |q| + |q'| - k
  {
    if k < |q| + |q'| {
      QuotientsAgree(bits, q, r, q', r', k + 1);
      assert MultipleCoef(q, k + 8) == MultipleCoef(q', k + 8) by {
        assert MsgCoef(bits, k + 8) == (MultipleCoef(q, k + 8) != RegCoef(r, k + 8));
        assert MsgCoef(bits, k + 8) == (MultipleCoef(q', k + 8) != RegCoef(r', k + 8));
      }
    }
  }

  lemma RemainderUnique(bits: seq<bool>, q: seq<bool>, r: Byte, q': seq<bool>, r': Byte)
    requires Divides(bits, q, r) && Divides(bits, q', r')
    ensures r == r'
  {
    QuotientsAgree(bits, q, r, q', r', 0);
    forall e: nat | e < 8 ensures RegCoef(r, e) == RegCoef(r', e) {
      assert MsgCoef(bits, e) == (MultipleCoef(q, e) != RegCoef(r, e));
      assert MsgCoef(bits, e) == (MultipleCoef(q', e) != RegCoef(r', e));
      assert forall i: int :: Coef(q, i) == Coef(q', i);
    }
    assert RegCoef(r, 7) == RegCoef(r', 7) && RegCoef(r, 6) == RegCoef(r', 6) && RegCoef(r, 5) == RegCoef(r', 5);
    assert RegCoef(r, 4) == RegCoef(r', 4) && RegCoef(r, 3) == RegCoef(r', 3) && RegCoef(r, 2) == RegCoef(r', 2);
    assert RegCoef(r, 1) == RegCoef(r', 1) && RegCoef(r, 0) == RegCoef(r', 0);
  }

  /** What compute_crc8 leaves in the register is the remainder, and nothing else is. */
  lemma CrcIsTheRemainder(bits: seq<bool>, r: Byte)
    ensures IsRemainder(bits, r) <==> r == Feed(NUL, bits)
  {
    var q := Divide(bits);
    if IsRemainder(bits, r) {
      var q' :| Divides(bits, q', r);
      RemainderUnique(bits, q, Feed(NUL, bits), q', r);
    }
  }
}
