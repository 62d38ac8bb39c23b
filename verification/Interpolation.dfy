/** Polynomials over GF(2^8): Horner evaluation and Lagrange interpolation (recovery.py, 53-73).

  The theorem behind the recovery of a secret is that k points with distinct x determine a
  polynomial with k coefficients, both its values (LagrangeRecovers) and its coefficients
  (RootsForceZero). An index counts by its residue modulo 0x11B, so indices beyond a byte, which
  a deserialized share may carry, are covered too.
 */
module Interpolation {
  import opened Gf2Polynomials
  import opened GaloisField

  /** Horner's rule, constant term first. */
  function Eval(coeffs: seq<Byte>, x: nat): Byte {
    if coeffs == [] then 0 else Add(Mul(Eval(coeffs[1..], x), x), coeffs[0])
  }

  method EvalPoly(coeffs: seq<Byte>, x: nat) returns (result: Byte)
    ensures result == Eval(coeffs, x)
  {
    result := 0;
    var i := |coeffs|;
    while i > 0
      invariant 0 <= i <= |coeffs|
      invariant result == Eval(coeffs[i..], x)
    {
      i := i - 1;
      assert coeffs[i..][1..] == coeffs[i + 1..];
      var product := GfMul(result, x);
      result := Add(product, coeffs[i]);
    }
    assert coeffs[0..] == coeffs;
  }

  type Point = (nat, Byte)

  /** The product of x - x_j over the first n points other than point i. */
  function Factors(points: seq<Point>, i: nat, x: nat, n: nat): Byte
    requires n <= |points|
  {
    if n == 0 then 1
    else if n - 1 == i then Factors(points, i, x, n - 1)
    else Mul(Factors(points, i, x, n - 1), Xor(x, points[n - 1].0))
  }

  function Denominator(points: seq<Point>, i: nat): Byte
    requires i < |points|
  {
    Factors(points, i, points[i].0, |points|)
  }

  function Term(points: seq<Point>, i: nat, x: nat): Byte
    requires i < |points|
  {
    Mul(points[i].1, Mul(Factors(points, i, x, |points|), Inverse(Denominator(points, i))))
  }

  /** The sum of the first n Lagrange terms. */
  function Interpolant(points: seq<Point>, x: nat, n: nat): Byte
    requires n <= |points|
  {
    if n == 0 then 0 else Add(Interpolant(points, x, n - 1), Term(points, n - 1, x))
  }

  /** The x-coordinates are different elements of the field. */
  ghost predicate Distinct(points: seq<Point>) {
    forall i, j :: 0 <= i < j < |points| ==> Remainder(points[i].0) != Remainder(points[j].0)
  }

  /** Lagrange interpolation; None stands for the ZeroDivisionError of a repeated x. */
  method LagrangeInterpolate(points: seq<Point>, x: nat) returns (r: Option<Byte>)
    ensures r.Some? <==> Distinct(points)
    ensures r.Some? ==> r.value == Interpolant(points, x, |points|)
  {
    hide Product, Xor, Remainder, Power;
    var result: Byte := 0;
    for i := 0 to |points|
      invariant result == Interpolant(points, x, i)
      invariant forall k | 0 <= k < i :: Denominator(points, k) != 0
    {
      var (xi, yi) := points[i];
      var numerator: Byte, denominator: Byte := 1, 1;
      for j := 0 to |points|
        invariant numerator == Factors(points, i, x, j)
        invariant denominator == Factors(points, i, xi, j)
      {
        if i != j {
          numerator := GfMul(numerator, Xor(x, points[j].0));
          denominator := GfMul(denominator, Xor(xi, points[j].0));
        }
      }
      var inverse := GfInv(denominator);
      if inverse.None? {
        DenominatorZero(points, i);
        return None;
      }
      var quotient := GfMul(numerator, inverse.value);
      var term := GfMul(yi, quotient);
      result := Add(result, term);
    }
    forall i, j | 0 <= i < j < |points| ensures Remainder(points[i].0) != Remainder(points[j].0) {
      DenominatorZero(points, i);
    }
    r := Some(result);
  }

  /// Which denominators vanish

  lemma SameResidue(x: nat, y: nat)
    ensures Remainder(Xor(x, y)) == 0 <==> Remainder(x) == Remainder(y)
  {
    RemainderOfSum(x, y);
    XorIsZero(Remainder(x), Remainder(y));
  }

  lemma {:induction false} FactorsZero(points: seq<Point>, i: nat, x: nat, n: nat)
    requires n <= |points|
    ensures Factors(points, i, x, n) == 0 <==>
            exists j :: 0 <= j < n && j != i && Remainder(x) == Remainder(points[j].0)
  {
    hide Product, Xor, Remainder;
    if n > 0 {
      FactorsZero(points, i, x, n - 1);
      var d := Xor(x, points[n - 1].0);
      SameResidue(x, points[n - 1].0);
      MulResidue(Factors(points, i, x, n - 1), d);
      NoZeroDivisors(Factors(points, i, x, n - 1), Remainder(d));
    }
  }

  lemma DenominatorZero(points: seq<Point>, i: nat)
    requires i < |points|
    ensures Denominator(points, i) == 0 <==>
            exists j :: 0 <= j < |points| && j != i && Remainder(points[i].0) == Remainder(points[j].0)
    ensures Denominator(points, i) == 0 ==> !Distinct(points)
  {
    hide Product, Xor, Remainder;
    FactorsZero(points, i, points[i].0, |points|);
    if Denominator(points, i) == 0 {
      var j :| 0 <= j < |points| && j != i && Remainder(points[i].0) == Remainder(points[j].0);
      assert i < j || j < i;
    }
  }

  /// The interpolant passes through its points

  lemma {:induction false} InterpolantAtNode(points: seq<Point>, m: nat, n: nat)
    requires Distinct(points) && m < |points| && n <= |points|
    ensures Interpolant(points, points[m].0, n) == if m < n then points[m].1 else 0
  {
    hide Product, Xor, Remainder;
    if n > 0 {
      InterpolantAtNode(points, m, n - 1);
      TermAtNode(points, n - 1, m);
      XorZero(points[m].1);
      XorZero(0);
    }
  }

  lemma {:induction false} TermAtNode(points: seq<Point>, i: nat, m: nat)
    requires Distinct(points) && i < |points| && m < |points|
    ensures Term(points, i, points[m].0) == if i == m then points[m].1 else 0
  {
    hide Product, Xor, Remainder, Power;
    var y, x := points[i].1, points[m].0;
    if i == m {
      DenominatorZero(points, i);
      InverseLaw(Denominator(points, i));
      MulOne(y);
    } else {
      FactorsZero(points, i, x, |points|);
      MulZero(Inverse(Denominator(points, i)));
      MulZero(y);
    }
  }

  /// Coefficient lists

  function Plus(p: seq<Byte>, q: seq<Byte>): (r: seq<Byte>)
    requires |p| == |q|
    ensures |r| == |p|
  {
    if p == [] then [] else [Add(p[0], q[0])] + Plus(p[1..], q[1..])
  }

  function Scale(p: seq<Byte>, k: Byte): (r: seq<Byte>)
    ensures |r| == |p|
  {
    if p == [] then [] else [Mul(p[0], k)] + Scale(p[1..], k)
  }

  /** The coefficients of p(X) * (X - c). */
  function TimesLinear(p: seq<Byte>, c: Byte): (r: seq<Byte>)
    ensures |r| == |p| + 1
  {
    if p == [] then [0]
    else
      var t := TimesLinear(p[1..], c);
      [Mul(p[0], c), Add(t[0], p[0])] + t[1..]
  }

  lemma {:induction false} EvalPlus(p: seq<Byte>, q: seq<Byte>, x: nat)
    requires |p| == |q|
    ensures Eval(Plus(p, q), x) == Add(Eval(p, x), Eval(q, x))
  {
    hide Product, Xor, Remainder;
    if p == [] {
      XorZero(0);
    } else {
      EvalPlus(p[1..], q[1..], x);
      var u, v := Eval(p[1..], x), Eval(q[1..], x);
      assert Plus(p, q)[1..] == Plus(p[1..], q[1..]);
      MulAdd(x, u, v);
      XorSwap(Mul(u, x), Mul(v, x), p[0], q[0]);
    }
  }

  lemma {:induction false} EvalScale(p: seq<Byte>, k: Byte, x: nat)
    ensures Eval(Scale(p, k), x) == Mul(Eval(p, x), k)
  {
    hide Product, Xor, Remainder;
    if p == [] {
      MulZero(k);
    } else {
      EvalScale(p[1..], k, x);
      var u := Eval(p[1..], x);
      assert Scale(p, k)[1..] == Scale(p[1..], k);
      MulAssoc(u, k, x);
      MulComm(k, x);
      MulAssoc(u, x, k);
      MulAdd(k, Mul(u, x), p[0]);
    }
  }

  lemma {:induction false} EvalTimesLinear(p: seq<Byte>, c: Byte, x: nat)
    ensures Eval(TimesLinear(p, c), x) == Mul(Eval(p, x), Xor(x, c))
  {
    hide Xor, Mul;
    if p == [] {
      MulZero(Xor(x, c));
      MulZero(x);
      XorZero(0);
      assert TimesLinear(p, c)[1..] == [];
    } else {
      EvalTimesLinear(p[1..], c, x);
      var t := TimesLinear(p[1..], c);
      var tail := [Add(t[0], p[0])] + t[1..];
      assert TimesLinear(p, c)[1..] == tail && tail[1..] == t[1..];
      HornerTimesLinear(Eval(p[1..], x), Mul(Eval(t[1..], x), x), t[0], p[0], c, x);
    }
  }

  /** The field identity behind TimesLinear, with u for p's tail and w + t for u(x - c). */
  lemma {:induction false} HornerTimesLinear(u: Byte, w: Byte, t: Byte, p: Byte, c: Byte, x: nat)
    requires Add(w, t) == Mul(u, Xor(x, c))
    ensures Add(Mul(Add(w, Add(t, p)), x), Mul(p, c)) == Mul(Add(Mul(u, x), p), Xor(x, c))
  {
    hide Product, Xor, Remainder;
    var d := Xor(x, c);
    XorAssoc(w, t, p);
    MulAdd(x, Mul(u, d), p);
    MulAssoc(u, d, x);
    MulComm(d, x);
    MulAssoc(u, x, d);
    MulAdd(d, Mul(u, x), p);
    MulAdd(p, x, c);
    XorAssoc(Mul(Mul(u, x), d), Mul(p, x), Mul(p, c));
  }

  /// Division by a linear factor, and the root bound

  /** The quotient of p by X - r (synthetic division). */
  function Deflate(p: seq<Byte>, r: nat): (q: seq<Byte>)
    ensures |q| == if p == [] then 0 else |p| - 1
  {
    if |p| <= 1 then [] else [Eval(p[1..], r)] + Deflate(p[1..], r)
  }

  /** p(x) = q(x) * (x - r) + p(r). */
  lemma {:induction false} DeflateIsQuotient(p: seq<Byte>, r: nat, x: nat)
    ensures Eval(p, x) == Add(Mul(Eval(Deflate(p, r), x), Xor(x, r)), Eval(p, r))
  {
    hide Product, Xor, Remainder;
    if |p| <= 1 {
      MulZero(Xor(x, r));
      MulZero(x);
      MulZero(r);
      assert p != [] ==> Eval(p[1..], x) == 0 == Eval(p[1..], r);
      XorZero(Eval(p, r));
    } else {
      DeflateIsQuotient(p[1..], r, x);
      assert Deflate(p, r)[1..] == Deflate(p[1..], r);
      HornerDeflate(Eval(p[1..], x), Eval(Deflate(p[1..], r), x), Eval(p[1..], r), p[0], x, r);
    }
  }

  /** The field identity behind Deflate, with s = q(x - r) + t for p's tail. */
  lemma {:induction false} HornerDeflate(s: Byte, q: Byte, t: Byte, p: Byte, x: nat, r: nat)
    requires s == Add(Mul(q, Xor(x, r)), t)
    ensures Add(Mul(s, x), p) == Add(Mul(Add(Mul(q, x), t), Xor(x, r)), Add(Mul(t, r), p))
  {
    hide Product, Xor, Remainder;
    var d := Xor(x, r);
    MulAdd(x, Mul(q, d), t);
    MulAssoc(q, d, x);
    MulComm(d, x);
    MulAssoc(q, x, d);
    MulAdd(d, Mul(q, x), t);
    MulAdd(t, x, r);
    var m, tx, tr := Mul(Mul(q, x), d), Mul(t, x), Mul(t, r);
    XorAssoc(m, Xor(tx, tr), Xor(tr, p));
    XorAssoc(tx, tr, Xor(tr, p));
    XorCancel(p, tr);
    XorAssoc(m, tx, p);
  }

  ghost predicate AllZero(p: seq<Byte>) {
    forall i :: 0 <= i < |p| ==> p[i] == 0
  }

  lemma {:induction false} EvalOfZero(p: seq<Byte>, x: nat)
    requires AllZero(p)
    ensures Eval(p, x) == 0
  {
    hide Product, Xor, Remainder;
    if p != [] {
      EvalOfZero(p[1..], x);
      MulZero(x);
      XorZero(0);
    }
  }

  lemma {:induction false} ZeroQuotient(p: seq<Byte>, r: nat)
    requires AllZero(Deflate(p, r)) && Eval(p, r) == 0
    ensures AllZero(p)
  {
    hide Product, Xor, Remainder;
    if p != [] {
      if |p| > 1 {
        var q := Deflate(p, r);
        assert q[0] == Eval(p[1..], r) && q[1..] == Deflate(p[1..], r);
        assert AllZero(Deflate(p[1..], r)) by {
          forall i | 0 <= i < |q[1..]| ensures q[1..][i] == 0 {
            assert q[1..][i] == q[i + 1];
          }
        }
        ZeroQuotient(p[1..], r);
      }
      assert Eval(p[1..], r) == 0;
      MulZero(r);
      XorZero(p[0]);
      forall i | 0 <= i < |p| ensures p[i] == 0 {
        assert i > 0 ==> p[i] == p[1..][i - 1];
      }
    }
  }

  /** Pairwise different residues. */
  ghost predicate DistinctResidues(xs: seq<nat>) {
    forall i, j :: 0 <= i < j < |xs| ==> Remainder(xs[i]) != Remainder(xs[j])
  }

  /** A polynomial with at most k coefficients and k distinct roots has only zero coefficients. */
  lemma {:induction false} RootsForceZero(p: seq<Byte>, xs: seq<nat>)
    requires |p| <= |xs| && DistinctResidues(xs)
    requires forall i :: 0 <= i < |xs| ==> Eval(p, xs[i]) == 0
    ensures AllZero(p)
    decreases |p|
  {
    hide Product, Xor, Remainder;
    if p != [] {
      var n := |xs| - 1;
      var r, q := xs[n], Deflate(p, xs[n]);
      forall i | 0 <= i < n ensures Eval(q, xs[..n][i]) == 0 {
        var x := xs[i];
        DeflateIsQuotient(p, r, x);
        XorZero(Mul(Eval(q, x), Xor(x, r)));
        MulResidue(Eval(q, x), Xor(x, r));
        SameResidue(x, r);
        NoZeroDivisors(Eval(q, x), Remainder(Xor(x, r)));
      }
      RootsForceZero(q, xs[..n]);
      ZeroQuotient(p, r);
    }
  }

  /// The interpolant as a coefficient list

  function FactorsPoly(points: seq<Point>, i: nat, n: nat): (p: seq<Byte>)
    requires n <= |points|
    ensures |p| == n + (if i < n then 0 else 1)
  {
    if n == 0 then [1]
    else if n - 1 == i then FactorsPoly(points, i, n - 1)
    else TimesLinear(FactorsPoly(points, i, n - 1), Remainder(points[n - 1].0))
  }

  function Zeros(n: nat): (p: seq<Byte>)
    ensures |p| == n && AllZero(p)
  {
    seq(n, i => 0)
  }

  function InterpolantPoly(points: seq<Point>, n: nat): (p: seq<Byte>)
    requires n <= |points|
    ensures |p| == |points|
  {
    if n == 0 then Zeros(|points|)
    else
      var weight := Mul(points[n - 1].1, Inverse(Denominator(points, n - 1)));
      Plus(InterpolantPoly(points, n - 1), Scale(FactorsPoly(points, n - 1, |points|), weight))
  }

  lemma {:induction false} EvalFactorsPoly(points: seq<Point>, i: nat, x: nat, n: nat)
    requires n <= |points|
    ensures Eval(FactorsPoly(points, i, n), x) == Factors(points, i, x, n)
  {
    hide Product, Xor, Remainder;
    if n == 0 {
      MulZero(x);
      XorZero(1);
      assert [1 as Byte][1..] == [];
    } else {
      EvalFactorsPoly(points, i, x, n - 1);
      if n - 1 != i {
        var c := points[n - 1].0;
        EvalTimesLinear(FactorsPoly(points, i, n - 1), Remainder(c), x);
        FactorOfResidue(Factors(points, i, x, n - 1), x, c);
      }
    }
  }

  lemma {:induction false} FactorOfResidue(a: Byte, x: nat, c: nat)
    ensures Mul(a, Xor(x, Remainder(c))) == Mul(a, Xor(x, c))
  {
    hide Product, Xor;
    MulResidue(a, Xor(x, Remainder(c)));
    MulResidue(a, Xor(x, c));
    RemainderOfSum(x, c);
    RemainderOfSum(x, Remainder(c));
    ResidueOfByte(Remainder(c));
  }

  lemma {:induction false} EvalInterpolantPoly(points: seq<Point>, x: nat, n: nat)
    requires n <= |points|
    ensures Eval(InterpolantPoly(points, n), x) == Interpolant(points, x, n)
  {
    hide Product, Xor, Remainder, Power;
    if n == 0 {
      EvalOfZero(Zeros(|points|), x);
    } else {
      var i := n - 1;
      EvalInterpolantPoly(points, x, i);
      EvalFactorsPoly(points, i, x, |points|);
      var f, inv := Factors(points, i, x, |points|), Inverse(Denominator(points, i));
      var weight := Mul(points[i].1, inv);
      EvalScale(FactorsPoly(points, i, |points|), weight, x);
      EvalPlus(InterpolantPoly(points, i), Scale(FactorsPoly(points, i, |points|), weight), x);
      MulComm(f, weight);
      MulAssoc(points[i].1, inv, f);
      MulComm(inv, f);
    }
  }

  /// The interpolation theorem

  /** The sum of two coefficient lists of possibly different length. */
  function PadTo(p: seq<Byte>, n: nat): (r: seq<Byte>)
    requires |p| <= n
    ensures |r| == n
  {
    p + Zeros(n - |p|)
  }

  lemma {:induction false} EvalPad(p: seq<Byte>, n: nat, x: nat)
    requires |p| <= n
    ensures Eval(PadTo(p, n), x) == Eval(p, x)
  {
    hide Product, Xor, Remainder;
    if p == [] {
      EvalOfZero(PadTo(p, n), x);
    } else {
      EvalPad(p[1..], n - 1, x);
      assert PadTo(p, n)[1..] == PadTo(p[1..], n - 1);
    }
  }

  lemma {:induction false} PlusIsZero(p: seq<Byte>, q: seq<Byte>)
    requires |p| == |q|
    ensures AllZero(Plus(p, q)) <==> p == q
  {
    hide Product, Xor, Remainder;
    if p != [] {
      PlusIsZero(p[1..], q[1..]);
      XorIsZero(p[0], q[0]);
      var s := Plus(p, q);
      assert s[1..] == Plus(p[1..], q[1..]);
      assert p == [p[0]] + p[1..] && q == [q[0]] + q[1..];
      if AllZero(s) {
        forall i | 0 <= i < |s[1..]| ensures s[1..][i] == 0 {
          assert s[1..][i] == s[i + 1];
        }
        assert s[0] == 0;
      }
      if p == q {
        forall i | 0 <= i < |s| ensures s[i] == 0 {
          assert i > 0 ==> s[i] == s[1..][i - 1];
        }
      }
    }
  }

  /** Two coefficient lists of length at most k that agree at k distinct points are equal. */
  lemma AgreementForcesEquality(p: seq<Byte>, q: seq<Byte>, xs: seq<nat>)
    requires |p| == |q| <= |xs| && DistinctResidues(xs)
    requires forall i :: 0 <= i < |xs| ==> Eval(p, xs[i]) == Eval(q, xs[i])
    ensures p == q
  {
    hide Product, Xor, Remainder;
    forall i | 0 <= i < |xs| ensures Eval(Plus(p, q), xs[i]) == 0 {
      EvalPlus(p, q, xs[i]);
      XorSelf(Eval(p, xs[i]));
    }
    RootsForceZero(Plus(p, q), xs);
    PlusIsZero(p, q);
  }

  function Abscissas(points: seq<Point>): (xs: seq<nat>)
    ensures |xs| == |points|
  {
    seq(|points|, i requires 0 <= i < |points| => points[i].0)
  }

  /** From k points of a polynomial with at most k coefficients, interpolation gives back its value
    everywhere. */
  lemma {:induction false} LagrangeRecovers(points: seq<Point>, coeffs: seq<Byte>, x: nat)
    requires Distinct(points) && |coeffs| <= |points|
    requires forall i :: 0 <= i < |points| ==> points[i].1 == Eval(coeffs, points[i].0)
    ensures Interpolant(points, x, |points|) == Eval(coeffs, x)
  {
    hide Product, Xor, Remainder;
    var n := |points|;
    var p, q := InterpolantPoly(points, n), PadTo(coeffs, n);
    forall i | 0 <= i < n ensures Eval(p, Abscissas(points)[i]) == Eval(q, Abscissas(points)[i]) {
      EvalInterpolantPoly(points, points[i].0, n);
      InterpolantAtNode(points, i, n);
      EvalPad(coeffs, n, points[i].0);
    }
    AgreementForcesEquality(p, q, Abscissas(points));
    EvalInterpolantPoly(points, x, n);
    EvalPad(coeffs, n, x);
  }
}
