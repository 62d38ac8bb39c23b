/** The field GF(2^8) of recovery.py: multiplication by shift and reduce, inversion by Fermat.

  Mul is defined by polynomial product and division (module Gf2Polynomials); the two loops are
  proved against it. That it is a field is proved without enumeration: squaring is additive, its
  eighth iterate fixes x and hence every byte, and its only fixed points are 0 and 1.
 */
module GaloisField {
  import opened ByteBits
  import opened Gf2Polynomials

  type Byte = x: nat | x < 256

  datatype Option<T> = None | Some(value: T)

  /** The product of two polynomials modulo 0x11B. */
  function Mul(a: nat, b: nat): Byte {
    Remainder(Product(a, b))
  }

  function Add(a: Byte, b: Byte): Byte {
    XorBytes(a, b);
    Xor(a, b)
  }

  function Power(a: nat, n: nat): Byte {
    if n == 0 then 1 else Mul(a, Power(a, n - 1))
  }

  /** Fermat: the inverse of a non-zero byte is its 254th power. */
  function Inverse(a: nat): Byte {
    Power(a, 254)
  }

  /// The loops

  /** Shift and reduce. A factor beyond a byte is accepted on the right, as the source does. */
  method GfMul(x: nat, y: nat) returns (r: nat)
    requires x < 256
    ensures r == Mul(x, y)
  {
    hide Mul, Xor, Fold;
    var a, b, result := x, y, 0;
    XorZero(Mul(x, y));
    while b != 0
      invariant a < 256 && result < 256
      invariant Xor(result, Mul(a, b)) == Mul(x, y)
      decreases b
    {
      ShiftAndReduce(result, a, b);
      FoldIsReduction(2 * a);
      if b % 2 == 1 {
        result := Xor(result, a);
      }
      a := 2 * a;
      if (a / 256) % 2 == 1 {
        a := Xor(a, IRREDUCIBLE);
      }
      b := b / 2;
    }
    MulZero(a);
    XorZero(result);
    r := result % 256;
  }

  lemma FoldIsReduction(v: nat)
    requires v < 512
    ensures Fold(v) == if (v / 256) % 2 == 1 then Xor(v, IRREDUCIBLE) else v
  {
  }

  /** What one turn of the multiplication loop keeps. */
  lemma ShiftAndReduce(result: nat, a: nat, b: nat)
    requires result < 256 && a < 256 && b != 0
    ensures Xor(result, a) < 256
    ensures Xor(result, Mul(a, b)) ==
            Xor(if b % 2 == 1 then Xor(result, a) else result, Mul(Fold(2 * a), b / 2))
  {
    XorBytes(result, a);
    assert Fold(2 * a) == Remainder(2 * a);
    ProductDoubleLeft(a, b / 2);
    RemainderOfProduct(2 * a, b / 2);
    var low := if b % 2 == 1 then a else 0;
    RemainderOfSum(low, 2 * Product(a, b / 2));
    XorAssoc(result, low, Mul(Fold(2 * a), b / 2));
    XorZero(result);
  }

  /** Inversion; None stands for ZeroDivisionError. */
  method GfInv(a: nat) returns (r: Option<Byte>)
    requires a < 256
    ensures r == if a == 0 then None else Some(Inverse(a))
    ensures a != 0 ==> Mul(a, r.value) == 1
  {
    if a == 0 {
      return None;
    }
    var result, power, exp: nat := 1, a, 254;
    MulOne(Power(a, 254));
    while exp > 0
      invariant result < 256 && power < 256
      invariant Mul(result, Power(power, exp)) == Power(a, 254)
    {
      PowerHalve(power, exp);
      MulAssoc(result, power, Power(Mul(power, power), exp / 2));
      if exp % 2 == 1 {
        result := GfMul(result, power);
      }
      power := GfMul(power, power);
      exp := exp / 2;
    }
    MulOne(result);
    InverseLaw(a);
    r := Some(result);
  }

  /// Commutative ring laws

  lemma MulComm(a: nat, b: nat)
    ensures Mul(a, b) == Mul(b, a)
  {
    ProductComm(a, b);
  }

  lemma MulAssoc(a: nat, b: nat, c: nat)
    ensures Mul(Mul(a, b), c) == Mul(a, Mul(b, c))
  {
    RemainderOfProduct(Product(a, b), c);
    RemainderOfProduct(Product(b, c), a);
    ProductAssoc(a, b, c);
  }

  lemma MulOne(a: nat)
    ensures a < 256 ==> Mul(1, a) == a == Mul(a, 1)
  {
    ProductOne(a);
  }

  lemma MulZero(a: nat)
    ensures Mul(0, a) == 0 == Mul(a, 0)
  {
    ProductZero(a);
  }

  lemma MulAdd(a: nat, b: nat, c: nat)
    ensures Mul(a, Xor(b, c)) == Xor(Mul(a, b), Mul(a, c))
    ensures Mul(Xor(b, c), a) == Xor(Mul(b, a), Mul(c, a))
  {
    ProductAddRight(a, b, c);
    RemainderOfSum(Product(a, b), Product(a, c));
    MulComm(a, Xor(b, c));
    MulComm(a, b);
    MulComm(a, c);
  }

  /** A factor counts only by its residue modulo 0x11B. */
  lemma {:induction false} MulResidue(a: nat, b: nat)
    ensures Mul(a, b) == Mul(a, Remainder(b))
  {
    RemainderOfProduct(b, a);
  }

  /** Four factors may be regrouped in pairs. */
  lemma MulSwap(a: nat, b: nat, c: nat, d: nat)
    ensures Mul(Mul(a, b), Mul(c, d)) == Mul(Mul(a, c), Mul(b, d))
  {
    MulAssoc(a, b, Mul(c, d));
    MulAssoc(b, c, d);
    MulComm(b, c);
    MulAssoc(c, b, d);
    MulAssoc(a, c, Mul(b, d));
  }

  /// Powers

  lemma {:induction false} PowerOfSquare(a: nat, k: nat)
    ensures Power(a, 2 * k) == Power(Mul(a, a), k)
  {
    hide Product, Xor, Remainder;
    if k > 0 {
      PowerOfSquare(a, k - 1);
      assert Power(a, 2 * k) == Mul(a, Mul(a, Power(a, 2 * (k - 1))));
      MulAssoc(a, a, Power(a, 2 * (k - 1)));
    }
  }

  /** The identity behind square-and-multiply. */
  lemma {:induction false} PowerHalve(a: nat, n: nat)
    ensures n % 2 == 0 ==> Power(a, n) == Power(Mul(a, a), n / 2)
    ensures n % 2 == 1 ==> Power(a, n) == Mul(a, Power(Mul(a, a), n / 2))
  {
    hide Product, Xor, Remainder;
    var k := n / 2;
    PowerOfSquare(a, k);
    if n % 2 == 1 {
      assert n == 2 * k + 1;
      PowerStep(a, 2 * k);
    } else {
      assert n == 2 * k;
    }
  }

  lemma PowerStep(a: nat, n: nat)
    ensures Power(a, n + 1) == Mul(a, Power(a, n))
  {
  }

  /// Squaring on the eight bits of a byte

  /** Squaring is additive: the cross terms cancel. */
  lemma SquareAdd(a: nat, b: nat)
    ensures Mul(Xor(a, b), Xor(a, b)) == Xor(Mul(a, a), Mul(b, b))
  {
    MulAdd(Xor(a, b), a, b);
    MulAdd(a, a, b);
    MulAdd(b, a, b);
    MulComm(a, b);
    XorSwap(Mul(a, a), Mul(a, b), Mul(b, b), Mul(a, b));
    XorComm(Mul(a, b), Mul(b, b));
    XorSelf(Mul(a, b));
    XorZero(Xor(Mul(a, a), Mul(b, b)));
  }

  /** Multiplication by x (FIPS 197, section 4.2.1): shift, and fold x^8 into x^4 + x^3 + x + 1. */
  function TimesX(o: Octet): Octet {
    Octet(o.b7, Plus(o.b0, o.b7), o.b1, Plus(o.b2, o.b7), Plus(o.b3, o.b7), o.b4, o.b5, o.b6)
  }

  lemma MulTwo(v: nat)
    requires v < 256
    ensures Mul(2, v) == Fold(2 * v)
  {
    ProductDoubleLeft(1, v);
    ProductOne(v);
    if v < 128 {
      assert Remainder(2 * v) == 2 * v;
    } else {
      assert Remainder(2 * v) == Fold(2 * Remainder(v) + 0);
    }
  }

  lemma TimesXIsRight(o: Octet)
    ensures Mul(2, Value(o)) == Value(TimesX(o))
  {
    hide Product, Xor, Remainder, Number;
    var v := Value(o);
    var shifted := Octet(Zero, o.b0, o.b1, o.b2, o.b3, o.b4, o.b5, o.b6);
    ValueSum(o);
    ValueSum(shifted);
    MulTwo(v);
    if o.b7.One? {
      var low := Octet(One, One, Zero, One, One, Zero, Zero, Zero);
      ValueSum(low);
      assert 2 * v == 256 + Value(shifted) && IRREDUCIBLE == 256 + Value(low);
      assert Power2(8) == 256;
      XorTopCancels(Value(shifted), Value(low), 8);
      XorOfOctets(shifted, low);
      assert Flip(shifted, low) == TimesX(o);
    } else {
      assert shifted == TimesX(o);
    }
  }

  /** The square of a byte, bit by bit. Squaring is linear, so every bit is a sum of bits. */
  function Squared(o: Octet): Octet {
    Octet(Plus(o.b0, Plus(o.b4, o.b6)),
          Plus(o.b4, Plus(o.b6, o.b7)),
          Plus(o.b1, o.b5),
          Plus(Plus(o.b4, o.b5), Plus(o.b6, o.b7)),
          Plus(o.b2, Plus(o.b4, o.b7)),
          Plus(o.b5, o.b6),
          Plus(o.b3, o.b5),
          Plus(o.b6, o.b7))
  }

  /** (xu + b)^2 = x^2 u^2 + b. */
  function SquareHorner(q: Octet, b: Bit): Octet {
    var d := TimesX(TimesX(q));
    d.(b0 := Plus(d.b0, b))
  }

  lemma SquareOfDouble(u: nat)
    ensures Mul(2 * u, 2 * u) == Mul(2, Mul(2, Mul(u, u)))
  {
    ProductDoubleLeft(u, 2 * u);
    ProductDoubleRight(u, u);
    var p := Product(u, u);
    ProductDoubleLeft(1, 2 * p);
    ProductDoubleLeft(1, p);
    ProductOne(2 * p);
    ProductOne(p);
    RemainderOfProduct(p, 2);
    RemainderOfProduct(Product(2, p), 2);
  }

  lemma SquareHornerIsRight(u: nat, q: Octet, b: Bit)
    requires Mul(u, u) == Value(q)
    ensures Mul(Weight(b) + 2 * u, Weight(b) + 2 * u) == Value(SquareHorner(q, b))
  {
    hide Product, Xor, Remainder, Number;
    var bit := Weight(b);
    var d, low := TimesX(TimesX(q)), Octet(b, Zero, Zero, Zero, Zero, Zero, Zero, Zero);
    assert Xor(2 * u, bit) == bit + 2 * u by {
      XorHorner(u, 0, Zero, b);
      XorZero(u);
    }
    SquareAdd(2 * u, bit);
    MulOne(1);
    MulZero(0);
    SquareOfDouble(u);
    TimesXIsRight(q);
    TimesXIsRight(TimesX(q));
    XorOfOctets(d, low);
    ValueSum(low);
    assert SquareHorner(q, b) == Flip(d, low);
  }

  function SquareOf(s: Bits): Octet {
    match s
    case End => ZERO
    case Low(b, high) => SquareHorner(SquareOf(high), b)
  }

  lemma {:induction false} SquareOfIsRight(s: Bits)
    ensures Mul(Number(s), Number(s)) == Value(SquareOf(s))
  {
    hide Product, Xor, Remainder, SquareHorner;
    match s
    case End =>
      MulZero(0);
      ValueSum(ZERO);
    case Low(b, high) =>
      SquareOfIsRight(high);
      SquareHornerIsRight(Number(high), SquareOf(high), b);
  }

  /** Running the Horner scheme on eight bits gives the table of sums. */
  lemma {:induction false} SquareTable(o: Octet)
    ensures SquareOf(List(o)) == Squared(o)
  {
    var b0, b1, b2, b3, b4, b5, b6, b7 := o.b0, o.b1, o.b2, o.b3, o.b4, o.b5, o.b6, o.b7;
    var q6 := Octet(b6, Zero, b7, Zero, Zero, Zero, Zero, Zero);
    var q4 := Octet(b4, Zero, b5, Zero, b6, Zero, b7, Zero);
    var q3 := Octet(Plus(b3, b7), b7, b4, b7, Plus(b5, b7), Zero, b6, Zero);
    var q2 := Octet(Plus(b2, b6), b6, Plus(b3, b7), Plus(b7, b6), Plus(b4, b6), b7, Plus(b5, b7), Zero);
    var s6 := Low(b6, Low(b7, End));
    var s4 := Low(b4, Low(b5, s6));
    var s2 := Low(b2, Low(b3, s4));
    assert SquareOf(s6) == q6;
    SquareHornerNoCarry(q6, b5);
    SquareHornerNoCarry(SquareHorner(q6, b5), b4);
    assert SquareOf(s4) == q4;
    SquareHornerNoCarry(q4, b3);
    assert SquareHorner(q4, b3) == q3;
    SquareHornerNoCarry(q3, b2);
    assert SquareOf(s2) == q2;
    SquareHornerNoCarry(q2, b1);
    var s := Plus(b5, b7);
    var q1 := Octet(Plus(b1, s), s, Plus(b2, b6), Plus(b6, s), Plus(b3, b5), Plus(b7, b6), Plus(b4, b6), b7);
    assert SquareHorner(q2, b1) == q1;
    assert SquareHorner(q1, b0) == Squared(o);
  }

  /** A step of the scheme from a square below x^7. */
  lemma SquareHornerNoCarry(q: Octet, b: Bit)
    requires q.b7 == Zero
    ensures SquareHorner(q, b) ==
            Octet(Plus(b, q.b6), q.b6, q.b0, Plus(q.b1, q.b6), Plus(q.b2, q.b6), q.b3, q.b4, q.b5)
  {
  }

  lemma {:induction false} SquaredIsRight(o: Octet)
    ensures Mul(Value(o), Value(o)) == Value(Squared(o))
  {
    SquareOfIsRight(List(o));
    SquareTable(o);
  }

  /// Squaring is a field automorphism of order 8

  /** Squares n times. */
  function Frobenius(a: nat, n: nat): nat
    decreases n
  {
    if n == 0 then a else Frobenius(Mul(a, a), n - 1)
  }

  lemma {:induction false} FrobeniusAdd(a: nat, b: nat, n: nat)
    ensures Frobenius(Xor(a, b), n) == Xor(Frobenius(a, n), Frobenius(b, n))
    decreases n
  {
    if n > 0 {
      SquareAdd(a, b);
      FrobeniusAdd(Mul(a, a), Mul(b, b), n - 1);
    }
  }

  lemma {:induction false} FrobeniusMul(a: nat, b: nat, n: nat)
    ensures n > 0 ==> Frobenius(Mul(a, b), n) == Mul(Frobenius(a, n), Frobenius(b, n))
    decreases n
  {
    if n > 0 {
      MulSwap(a, b, a, b);
      FrobeniusMul(Mul(a, a), Mul(b, b), n - 1);
    }
  }

  function Iterate(o: Octet, n: nat): Octet
    decreases n
  {
    if n == 0 then o else Iterate(Squared(o), n - 1)
  }

  lemma {:induction false} FrobeniusIsIterate(o: Octet, n: nat)
    ensures Frobenius(Value(o), n) == Value(Iterate(o, n))
    decreases n
  {
    hide Product, Xor, Remainder, Number;
    if n > 0 {
      SquaredIsRight(o);
      FrobeniusIsIterate(Squared(o), n - 1);
    }
  }

  lemma {:induction false} FrobeniusOfX()
    ensures Frobenius(2, 8) == 2
  {
    hide Product, Xor, Remainder, Number, Frobenius, Iterate;
    var x := Octet(Zero, One, Zero, Zero, Zero, Zero, Zero, Zero);
    ValueSum(x);
    FrobeniusIsIterate(x, 8);
    IterateOfX(x);
  }

  lemma IterateOfX(x: Octet)
    requires x == Octet(Zero, One, Zero, Zero, Zero, Zero, Zero, Zero)
    ensures Iterate(x, 8) == x
  {
    var x2 := Squared(Squared(x));
    var x4 := Squared(Squared(x2));
    var x6 := Squared(Squared(x4));
    assert Iterate(x, 8) == Iterate(x2, 6);
    assert Iterate(x2, 6) == Iterate(x4, 4);
    assert Iterate(x4, 4) == Iterate(x6, 2);
    assert Iterate(x6, 2) == Squared(Squared(x6)) == x;
  }

  /** a^256 = a for every byte, by Horner's rule on the bits of a. */
  lemma {:induction false} FrobeniusFixesBytes(a: nat)
    requires a < 256
    ensures Frobenius(a, 8) == a
  {
    if a > 1 {
      FrobeniusFixesBytes(a / 2);
      FrobeniusOfX();
      DoubleIsMul(a / 2);
      FrobeniusMul(2, a / 2, 8);
      XorLowBit(a);
      FrobeniusAdd(2 * (a / 2), a % 2, 8);
      FrobeniusFixesBytes(a % 2);
    } else {
      MulZero(0);
      MulOne(1);
      FrobeniusOfIdempotent(a, 8);
    }
  }

  lemma DoubleIsMul(a: nat)
    requires 2 * a < 256
    ensures Mul(2, a) == 2 * a
  {
    ProductDoubleLeft(1, a);
    ProductOne(a);
  }

  lemma {:induction false} FrobeniusOfIdempotent(a: nat, n: nat)
    requires Mul(a, a) == a
    ensures Frobenius(a, n) == a
  {
    if n > 0 {
      FrobeniusOfIdempotent(a, n - 1);
    }
  }

  /** Squaring fixes only 0 and 1: the linear map e -> e^2 + e has kernel {0, 1}. */
  lemma IdempotentIsZeroOrOne(e: nat)
    requires e < 256 && Mul(e, e) == e
    ensures e < 2
  {
    var o := OctetOf(e);
    SquaredIsRight(o);
    ValueInjective(o, Squared(o));
    assert o.b1 == o.b2 == o.b3 == o.b4 == o.b5 == o.b6 == o.b7 == Zero;
    ValueSum(o);
  }

  /// The field laws that need irreducibility

  lemma {:induction false} FrobeniusIsPower(a: nat, n: nat)
    requires a < 256
    ensures Frobenius(a, n) == Power(a, Power2(n))
    decreases n
  {
    hide Product, Xor, Remainder;
    if n == 0 {
      MulOne(a);
    } else {
      FrobeniusIsPower(Mul(a, a), n - 1);
      PowerHalve(a, Power2(n));
    }
  }

  /** Every non-zero byte times its 254th power is 1. */
  lemma InverseLaw(a: nat)
    requires a < 256 && a != 0
    ensures Mul(a, Inverse(a)) == 1 == Mul(Inverse(a), a)
  {
    var i := Inverse(a);
    var e := Mul(a, i);
    assert Mul(a, e) == a by {
      FrobeniusFixesBytes(a);
      FrobeniusIsPower(a, 8);
      assert Power2(8) == 256;
      assert Power(a, 255) == e;
      assert Power(a, 256) == Mul(a, Power(a, 255));
    }
    MulComm(a, i);
    MulAssoc(i, a, e);
    MulComm(i, e);
    assert Mul(e, e) == e by {
      MulComm(e, i);
    }
    IdempotentIsZeroOrOne(e);
    MulZero(a);
  }

  /** A product of bytes is zero only if a factor is. */
  lemma NoZeroDivisors(a: nat, b: nat)
    requires a < 256 && b < 256
    ensures Mul(a, b) == 0 <==> a == 0 || b == 0
  {
    MulZero(a);
    MulZero(b);
    if a != 0 && Mul(a, b) == 0 {
      InverseLaw(a);
      MulAssoc(Inverse(a), a, b);
      MulOne(b);
      MulZero(Inverse(a));
    }
  }

  /** The remainder of a number below 256 is the number: distinct bytes stay distinct. */
  lemma ResidueOfByte(b: nat)
    ensures b < 256 ==> Remainder(b) == b
  {
  }
}
