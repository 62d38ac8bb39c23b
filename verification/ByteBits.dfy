/** The coefficients of a polynomial over GF(2), spelled out.

  Lists of bits carry the inductive proofs; an octet names the eight bits of a byte, so that the
  linear algebra of squaring can be read off.
 */
module ByteBits {
  import opened Gf2Polynomials

  datatype Bit = Zero | One

  function Plus(b: Bit, c: Bit): Bit {
    if b == c then Zero else One
  }

  function Weight(b: Bit): nat {
    if b.One? then 1 else 0
  }

  function LowBit(v: nat): (b: Bit)
    ensures v == Weight(b) + 2 * (v / 2)
  {
    if v % 2 == 1 then One else Zero
  }

  /** Coefficients, constant term first. */
  datatype Bits = End | Low(bit: Bit, high: Bits)

  function Number(s: Bits): nat {
    match s
    case End => 0
    case Low(b, high) => Weight(b) + 2 * Number(high)
  }

  function BitsOf(v: nat, n: nat): Bits {
    if n == 0 then End else Low(LowBit(v), BitsOf(v / 2, n - 1))
  }

  predicate SameLength(s: Bits, t: Bits) {
    match (s, t)
    case (End, End) => true
    case (Low(_, s'), Low(_, t')) => SameLength(s', t')
    case _ => false
  }

  function Sum(s: Bits, t: Bits): Bits
    requires SameLength(s, t)
  {
    match s
    case End => End
    case Low(b, s') => Low(Plus(b, t.bit), Sum(s', t.high))
  }

  lemma {:induction false} NumberOfBits(v: nat, n: nat)
    requires v < Power2(n)
    ensures Number(BitsOf(v, n)) == v
  {
    if n > 0 {
      NumberOfBits(v / 2, n - 1);
    }
  }

  lemma {:induction false} NumberInjective(s: Bits, t: Bits)
    requires SameLength(s, t) && Number(s) == Number(t)
    ensures s == t
  {
    if s.Low? {
      NumberInjective(s.high, t.high);
    }
  }

  lemma XorHorner(a: nat, b: nat, p: Bit, q: Bit)
    ensures Xor(Weight(p) + 2 * a, Weight(q) + 2 * b) == Weight(Plus(p, q)) + 2 * Xor(a, b)
  {
    XorAppend(a, Weight(p), b, Weight(q));
  }

  /** Addition of polynomials is addition of coefficients. */
  lemma {:induction false} XorOfBits(s: Bits, t: Bits)
    requires SameLength(s, t)
    ensures Xor(Number(s), Number(t)) == Number(Sum(s, t))
  {
    if s.Low? {
      XorOfBits(s.high, t.high);
      XorHorner(Number(s.high), Number(t.high), s.bit, t.bit);
    }
  }

  /// Bytes

  datatype Octet = Octet(b0: Bit, b1: Bit, b2: Bit, b3: Bit, b4: Bit, b5: Bit, b6: Bit, b7: Bit)

  const ZERO := Octet(Zero, Zero, Zero, Zero, Zero, Zero, Zero, Zero)

  function List(o: Octet): Bits {
    Low(o.b0, Low(o.b1, Low(o.b2, Low(o.b3, Low(o.b4, Low(o.b5, Low(o.b6, Low(o.b7, End))))))))
  }

  function Value(o: Octet): nat {
    Number(List(o))
  }

  function Flip(o: Octet, p: Octet): Octet {
    Octet(Plus(o.b0, p.b0), Plus(o.b1, p.b1), Plus(o.b2, p.b2), Plus(o.b3, p.b3),
          Plus(o.b4, p.b4), Plus(o.b5, p.b5), Plus(o.b6, p.b6), Plus(o.b7, p.b7))
  }

  /** The value as a sum of powers of two. */
  lemma {:induction false} ValueSum(o: Octet)
    ensures Value(o) == Weight(o.b0) + 2 * Weight(o.b1) + 4 * Weight(o.b2) + 8 * Weight(o.b3)
                      + 16 * Weight(o.b4) + 32 * Weight(o.b5) + 64 * Weight(o.b6) + 128 * Weight(o.b7)
    ensures Value(o) < 256
  {
    var s4 := Low(o.b4, Low(o.b5, Low(o.b6, Low(o.b7, End))));
    FourBits(o.b4, o.b5, o.b6, o.b7, End);
    FourBits(o.b0, o.b1, o.b2, o.b3, s4);
  }

  lemma {:induction false} FourBits(p: Bit, q: Bit, r: Bit, s: Bit, high: Bits)
    ensures Number(Low(p, Low(q, Low(r, Low(s, high)))))
         == Weight(p) + 2 * Weight(q) + 4 * Weight(r) + 8 * Weight(s) + 16 * Number(high)
  {
    assert Number(Low(r, Low(s, high))) == Weight(r) + 2 * Weight(s) + 4 * Number(high);
  }

  lemma SumOfOctets(o: Octet, p: Octet)
    ensures SameLength(List(o), List(p)) && Sum(List(o), List(p)) == List(Flip(o, p))
  {
    var s7, t7 := Low(o.b7, End), Low(p.b7, End);
    var s6, t6 := Low(o.b6, s7), Low(p.b6, t7);
    var s5, t5 := Low(o.b5, s6), Low(p.b5, t6);
    var s4, t4 := Low(o.b4, s5), Low(p.b4, t5);
    var s3, t3 := Low(o.b3, s4), Low(p.b3, t4);
    var s2, t2 := Low(o.b2, s3), Low(p.b2, t3);
    var s1, t1 := Low(o.b1, s2), Low(p.b1, t2);
    assert SameLength(s7, t7) && Sum(s7, t7) == Low(Plus(o.b7, p.b7), End);
    assert SameLength(s6, t6) && Sum(s6, t6) == Low(Plus(o.b6, p.b6), Sum(s7, t7));
    assert SameLength(s5, t5) && Sum(s5, t5) == Low(Plus(o.b5, p.b5), Sum(s6, t6));
    assert SameLength(s4, t4) && Sum(s4, t4) == Low(Plus(o.b4, p.b4), Sum(s5, t5));
    assert SameLength(s3, t3) && Sum(s3, t3) == Low(Plus(o.b3, p.b3), Sum(s4, t4));
    assert SameLength(s2, t2) && Sum(s2, t2) == Low(Plus(o.b2, p.b2), Sum(s3, t3));
    assert SameLength(s1, t1) && Sum(s1, t1) == Low(Plus(o.b1, p.b1), Sum(s2, t2));
  }

  lemma {:induction false} XorOfOctets(o: Octet, p: Octet)
    ensures Xor(Value(o), Value(p)) == Value(Flip(o, p))
  {
    SumOfOctets(o, p);
    XorOfBits(List(o), List(p));
  }

  lemma ValueInjective(o: Octet, p: Octet)
    requires Value(o) == Value(p)
    ensures o == p
  {
    SumOfOctets(o, p);
    NumberInjective(List(o), List(p));
  }

  lemma OctetOf(v: nat) returns (o: Octet)
    requires v < 256
    ensures Value(o) == v
  {
    var v1 := v / 2;
    var v2 := v1 / 2;
    var v3 := v2 / 2;
    var v4 := v3 / 2;
    var v5 := v4 / 2;
    var v6 := v5 / 2;
    var v7 := v6 / 2;
    o := Octet(LowBit(v), LowBit(v1), LowBit(v2), LowBit(v3), LowBit(v4), LowBit(v5), LowBit(v6), LowBit(v7));
    assert BitsOf(v6, 2) == Low(LowBit(v6), Low(LowBit(v7), End));
    assert BitsOf(v4, 4) == Low(LowBit(v4), Low(LowBit(v5), BitsOf(v6, 2)));
    assert BitsOf(v2, 6) == Low(LowBit(v2), Low(LowBit(v3), BitsOf(v4, 4)));
    assert BitsOf(v, 8) == Low(LowBit(v), Low(LowBit(v1), BitsOf(v2, 6)));
    assert Power2(8) == 256;
    NumberOfBits(v, 8);
  }
}
