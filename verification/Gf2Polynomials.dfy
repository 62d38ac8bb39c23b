/** Polynomials over GF(2), written as the natural numbers whose bits are their coefficients.

  This is the arithmetic that Python's integers give recovery.py: `^` is addition, `<< 1` is
  multiplication by x. The module is the independent reference for the byte field: it knows
  nothing of shift-and-reduce loops, only of polynomial product and of division by 0x11B
  (FIPS 197, sections 4.1 and 4.2).
 */
module Gf2Polynomials {

  /** x^8 + x^4 + x^3 + x + 1. */
  const IRREDUCIBLE := 0x11B

  /** Bitwise exclusive or: the sum of two polynomials. */
  function Xor(a: nat, b: nat): nat
    decreases a + b
  {
    if a == 0 && b == 0 then 0
    else (if a % 2 == b % 2 then 0 else 1) + 2 * Xor(a / 2, b / 2)
  }

  /** The polynomial product, before any reduction. */
  function Product(a: nat, b: nat): nat
    decreases b
  {
    if b == 0 then 0
    else Xor(if b % 2 == 1 then a else 0, 2 * Product(a, b / 2))
  }

  /// Addition is a group in which every element is its own negative

  lemma XorStep(a: nat, b: nat)
    ensures Xor(a, b) % 2 == if a % 2 == b % 2 then 0 else 1
    ensures Xor(a, b) / 2 == Xor(a / 2, b / 2)
  {
  }

  lemma XorComm(a: nat, b: nat)
    ensures Xor(a, b) == Xor(b, a)
    decreases a + b
  {
  }

  lemma XorZero(a: nat)
    ensures Xor(a, 0) == a == Xor(0, a)
  {
  }

  lemma XorSelf(a: nat)
    ensures Xor(a, a) == 0
  {
  }

  lemma {:induction false} XorAssoc(a: nat, b: nat, c: nat)
    ensures Xor(Xor(a, b), c) == Xor(a, Xor(b, c))
    decreases a + b + c
  {
    if a + b + c > 0 {
      XorAssoc(a / 2, b / 2, c / 2);
      XorStep(a, b);
      XorStep(b, c);
      XorStep(Xor(a, b), c);
      XorStep(a, Xor(b, c));
    }
  }

  /** The rearrangement that distributivity proofs need. */
  lemma {:induction false} XorSwap(a: nat, b: nat, c: nat, d: nat)
    ensures Xor(Xor(a, b), Xor(c, d)) == Xor(Xor(a, c), Xor(b, d))
  {
    XorAssoc(a, b, Xor(c, d));
    XorAssoc(b, c, d);
    XorComm(b, c);
    XorAssoc(c, b, d);
    XorAssoc(a, c, Xor(b, d));
  }

  /** Adding twice cancels. */
  lemma XorCancel(a: nat, b: nat)
    ensures Xor(Xor(a, b), b) == a
    ensures Xor(b, Xor(b, a)) == a
  {
    XorAssoc(a, b, b);
    XorAssoc(b, b, a);
    XorSelf(b);
    XorZero(a);
  }

  /** Two polynomials are equal exactly when their sum is zero. */
  lemma XorIsZero(a: nat, b: nat)
    ensures Xor(a, b) == 0 <==> a == b
  {
    XorCancel(a, b);
    XorSelf(a);
    XorZero(b);
  }

  lemma XorDouble(a: nat, b: nat)
    ensures Xor(2 * a, 2 * b) == 2 * Xor(a, b)
  {
  }

  /** Writing a number by its lowest bit is an addition. */
  lemma XorLowBit(a: nat)
    ensures Xor(2 * (a / 2), a % 2) == a
  {
    XorZero(a / 2);
  }

  function Power2(n: nat): (r: nat)
    ensures r > 0
  {
    if n == 0 then 1 else 2 * Power2(n - 1)
  }

  /** Degrees under addition: a sum never exceeds the larger degree, the larger of two different
    degrees survives, and two equal leading terms cancel. */
  lemma {:induction false} XorDegree(a: nat, b: nat, n: nat)
    ensures a < Power2(n) && b < Power2(n) ==> Xor(a, b) < Power2(n)
    ensures Power2(n) <= a && b < Power2(n) ==> Power2(n) <= Xor(a, b)
    ensures Power2(n) <= a < 2 * Power2(n) && Power2(n) <= b < 2 * Power2(n) ==> Xor(a, b) < Power2(n)
  {
    if n == 0 {
      XorZero(a);
    } else {
      XorDegree(a / 2, b / 2, n - 1);
      XorStep(a, b);
    }
  }

  lemma XorBytes(a: nat, b: nat)
    ensures a < 256 && b < 256 ==> Xor(a, b) < 256
    ensures 256 <= a < 512 && 256 <= b < 512 ==> Xor(a, b) < 256
    ensures 512 <= a && b < 512 ==> 512 <= Xor(a, b)
  {
    assert Power2(8) == 256 && Power2(9) == 512;
    XorDegree(a, b, 8);
    XorDegree(a, b, 9);
  }

  lemma XorAppend(a: nat, p: nat, b: nat, q: nat)
    requires p < 2 && q < 2
    ensures Xor(2 * a + p, 2 * b + q) == 2 * Xor(a, b) + (if p == q then 0 else 1)
  {
    hide Xor;
    var x, y := 2 * a + p, 2 * b + q;
    assert x / 2 == a && x % 2 == p && y / 2 == b && y % 2 == q;
    XorStep(x, y);
  }

  /** Two equal leading terms cancel. */
  lemma {:induction false} XorTopCancels(a: nat, b: nat, n: nat)
    requires a < Power2(n) && b < Power2(n)
    ensures Xor(Power2(n) + a, Power2(n) + b) == Xor(a, b)
  {
    if n == 0 {
      XorSelf(1);
    } else {
      hide Xor;
      XorTopCancels(a / 2, b / 2, n - 1);
      XorTopAppend(Power2(n - 1), a / 2, a % 2, b / 2, b % 2);
    }
  }

  lemma XorTopAppend(p: nat, a: nat, r: nat, b: nat, t: nat)
    requires r < 2 && t < 2 && Xor(p + a, p + b) == Xor(a, b)
    ensures Xor(2 * p + (2 * a + r), 2 * p + (2 * b + t)) == Xor(2 * a + r, 2 * b + t)
  {
    hide Xor;
    XorAppend(p + a, r, p + b, t);
    XorAppend(a, r, b, t);
    assert 2 * (p + a) + r == 2 * p + (2 * a + r) && 2 * (p + b) + t == 2 * p + (2 * b + t);
  }

  /// Product makes the polynomials a commutative ring

  lemma {:induction false} ProductZero(b: nat)
    ensures Product(0, b) == 0 == Product(b, 0)
  {
    if b > 0 {
      ProductZero(b / 2);
    }
  }

  lemma {:induction false} ProductOne(b: nat)
    ensures Product(1, b) == b == Product(b, 1)
  {
    XorZero(b);
    if b > 0 {
      ProductOne(b / 2);
      XorLowBit(b);
      XorComm(2 * (b / 2), b % 2);
    }
  }

  lemma ProductDoubleRight(a: nat, b: nat)
    ensures Product(a, 2 * b) == 2 * Product(a, b)
  {
    XorZero(2 * Product(a, b));
  }

  lemma {:induction false} ProductDoubleLeft(a: nat, b: nat)
    ensures Product(2 * a, b) == 2 * Product(a, b)
  {
    if b > 0 {
      ProductDoubleLeft(a, b / 2);
      XorDouble(if b % 2 == 1 then a else 0, 2 * Product(a, b / 2));
    }
  }

  lemma {:induction false} ProductAddLeft(a: nat, a': nat, b: nat)
    ensures Product(Xor(a, a'), b) == Xor(Product(a, b), Product(a', b))
  {
    if b > 0 {
      ProductAddLeft(a, a', b / 2);
      var p, p' := Product(a, b / 2), Product(a', b / 2);
      XorDouble(p, p');
      XorZero(0);
      XorSwap(if b % 2 == 1 then a else 0, 2 * p, if b % 2 == 1 then a' else 0, 2 * p');
    }
  }

  lemma {:induction false} ProductComm(a: nat, b: nat)
    ensures Product(a, b) == Product(b, a)
    decreases a
  {
    if a == 0 {
      ProductZero(b);
    } else {
      ProductComm(a / 2, b);
      XorLowBit(a);
      ProductAddLeft(2 * (a / 2), a % 2, b);
      ProductDoubleLeft(a / 2, b);
      ProductOne(b);
      ProductZero(b);
      XorComm(2 * Product(a / 2, b), Product(a % 2, b));
    }
  }

  lemma {:induction false} ProductAddRight(a: nat, b: nat, b': nat)
    ensures Product(a, Xor(b, b')) == Xor(Product(a, b), Product(a, b'))
  {
    ProductComm(a, Xor(b, b'));
    ProductComm(a, b);
    ProductComm(a, b');
    ProductAddLeft(b, b', a);
  }

  lemma {:induction false} ProductAssoc(a: nat, b: nat, c: nat)
    ensures Product(Product(a, b), c) == Product(a, Product(b, c))
    decreases c
  {
    if c > 0 {
      ProductAssoc(a, b, c / 2);
      var low := if c % 2 == 1 then b else 0;
      ProductAddRight(a, low, 2 * Product(b, c / 2));
      ProductDoubleRight(a, Product(b, c / 2));
      assert Product(a, low) == if c % 2 == 1 then Product(a, b) else 0;
    }
  }

  /// Division by the irreducible polynomial

  /** Drops x^8 from a polynomial of degree at most 8. */
  function Fold(v: nat): (r: nat)
    requires v < 512
    ensures r < 256
  {
    XorBytes(v, IRREDUCIBLE);
    if v >= 256 then Xor(v, IRREDUCIBLE) else v
  }

  /** The remainder modulo 0x11B, by long division from the top bit down. */
  function Remainder(p: nat): (r: nat)
    ensures r < 256
  {
    if p < 256 then p else Fold(2 * Remainder(p / 2) + p % 2)
  }

  /** The quotient by 0x11B. */
  function Quotient(p: nat): nat
  {
    if p < 256 then 0
    else 2 * Quotient(p / 2) + (if 2 * Remainder(p / 2) + p % 2 >= 256 then 1 else 0)
  }

  lemma SubtractDivisor(q: nat, v: nat)
    requires 256 <= v < 512
    ensures Xor(2 * Product(IRREDUCIBLE, q), v) == Xor(Product(IRREDUCIBLE, 2 * q + 1), Fold(v))
  {
    var m := 2 * Product(IRREDUCIBLE, q);
    assert Product(IRREDUCIBLE, 2 * q + 1) == Xor(IRREDUCIBLE, m);
    XorComm(IRREDUCIBLE, m);
    XorAssoc(m, IRREDUCIBLE, Xor(v, IRREDUCIBLE));
    XorComm(v, IRREDUCIBLE);
    XorCancel(v, IRREDUCIBLE);
  }

  /** One step of long division: bring down a bit, and subtract 0x11B if it now fits. */
  lemma DivisionStep(p: nat, q: nat, r: nat)
    requires r < 256
    requires p / 2 == Xor(Product(IRREDUCIBLE, q), r)
    ensures var v := 2 * r + p % 2;
      p == Xor(Product(IRREDUCIBLE, 2 * q + (if v >= 256 then 1 else 0)), Fold(v))
  {
    hide Xor, Product;
    var v := 2 * r + p % 2;
    XorAppend(Product(IRREDUCIBLE, q), 0, r, p % 2);
    if v >= 256 {
      SubtractDivisor(q, v);
    } else {
      ProductDoubleRight(IRREDUCIBLE, q);
    }
  }

  /** Long division is right: p = quotient * 0x11B + remainder, with the remainder a byte. */
  lemma {:induction false} DivisionTheorem(p: nat)
    ensures p == Xor(Product(IRREDUCIBLE, Quotient(p)), Remainder(p))
  {
    hide Xor, Product;
    if p < 256 {
      ProductZero(IRREDUCIBLE);
      XorZero(p);
    } else {
      DivisionTheorem(p / 2);
      DivisionStep(p, Quotient(p / 2), Remainder(p / 2));
    }
  }

  /** A non-zero multiple of 0x11B has degree at least 8. */
  lemma {:induction false} MultipleIsLarge(k: nat)
    requires k > 0
    ensures Product(IRREDUCIBLE, k) >= 256
  {
    if k == 1 {
      ProductOne(IRREDUCIBLE);
    } else {
      MultipleIsLarge(k / 2);
      var low := if k % 2 == 1 then IRREDUCIBLE else 0;
      XorBytes(2 * Product(IRREDUCIBLE, k / 2), low);
      XorComm(2 * Product(IRREDUCIBLE, k / 2), low);
    }
  }

  /** The remainder is the only byte that differs from p by a multiple of 0x11B. */
  lemma RemainderUnique(p: nat, k: nat, r: nat)
    requires r < 256
    requires p == Xor(Product(IRREDUCIBLE, k), r)
    ensures r == Remainder(p)
  {
    DivisionTheorem(p);
    var r' := Remainder(p);
    var m, m' := Product(IRREDUCIBLE, k), Product(IRREDUCIBLE, Quotient(p));
    assert Xor(r, r') == Xor(m, m') by {
      XorCancel(m, r);
      XorCancel(r', m');
      XorComm(m', r');
      XorSelf(p);
      XorSwap(m, r, m', r');
      XorIsZero(Xor(m, m'), Xor(r, r'));
    }
    ProductAddRight(IRREDUCIBLE, k, Quotient(p));
    XorBytes(r, r');
    if Xor(k, Quotient(p)) > 0 {
      MultipleIsLarge(Xor(k, Quotient(p)));
      assert false;
    }
    XorIsZero(r, r');
  }

  lemma RemainderOfSum(p: nat, q: nat)
    ensures Remainder(Xor(p, q)) == Xor(Remainder(p), Remainder(q))
  {
    DivisionTheorem(p);
    DivisionTheorem(q);
    var k, l := Quotient(p), Quotient(q);
    XorSwap(Product(IRREDUCIBLE, k), Remainder(p), Product(IRREDUCIBLE, l), Remainder(q));
    ProductAddRight(IRREDUCIBLE, k, l);
    XorBytes(Remainder(p), Remainder(q));
    RemainderUnique(Xor(p, q), Xor(k, l), Xor(Remainder(p), Remainder(q)));
  }

  /** A factor may be reduced before a product: the product is defined on residues. */
  lemma {:induction false} RemainderOfProduct(p: nat, q: nat)
    ensures Remainder(Product(Remainder(p), q)) == Remainder(Product(p, q))
    ensures Remainder(Product(q, Remainder(p))) == Remainder(Product(q, p))
  {
    DivisionTheorem(p);
    var k, r := Quotient(p), Remainder(p);
    ProductAddLeft(Product(IRREDUCIBLE, k), r, q);
    ProductAssoc(IRREDUCIBLE, k, q);
    RemainderOfSum(Product(IRREDUCIBLE, Product(k, q)), Product(r, q));
    XorZero(Product(IRREDUCIBLE, Product(k, q)));
    RemainderUnique(Product(IRREDUCIBLE, Product(k, q)), Product(k, q), 0);
    XorZero(Remainder(Product(r, q)));
    ProductComm(p, q);
    ProductComm(r, q);
  }
}
