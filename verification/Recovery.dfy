/** Shamir secret sharing of a byte string (recovery.py, 76-139).

  The coefficients that the source draws from `secrets.randbelow` are an argument, one row for
  each byte of the secret, so that every theorem speaks of all the draws.
 */
module Recovery {
  import opened Gf2Polynomials
  import opened GaloisField
  import opened Interpolation

  datatype Share = Share(index: nat, value: seq<Byte>)

  datatype Error = InvalidParameters | NoShares | UnequalLengths | ZeroDivision

  datatype Result<T> = Ok(value: T) | Err(error: Error)

  /// Splitting

  predicate ValidParameters(threshold: int, total: int) {
    2 <= threshold <= total <= 255
  }

  /** One row of threshold - 1 random bytes for each byte of the secret. */
  ghost predicate ValidDraws(secret: seq<Byte>, threshold: int, draws: seq<seq<Byte>>) {
    |draws| == |secret| && forall i :: 0 <= i < |draws| ==> |draws[i]| == threshold - 1
  }

  /** The y-coordinates at x of the first n polynomials. */
  function ValuesAt(secret: seq<Byte>, draws: seq<seq<Byte>>, x: nat, n: nat): (v: seq<Byte>)
    requires |draws| == |secret| && n <= |secret|
    ensures |v| == n
    ensures forall o :: 0 <= o < n ==> v[o] == Eval([secret[o]] + draws[o], x)
  {
    seq(n, o requires 0 <= o < n => Eval([secret[o]] + draws[o], x))
  }

  /** The share that a split hands out for x. */
  function ShareAt(secret: seq<Byte>, draws: seq<seq<Byte>>, x: nat): Share
    requires |draws| == |secret|
  {
    Share(x, ValuesAt(secret, draws, x, |secret|))
  }

  /** What a split returns. An empty secret gives no shares: the list is only filled in while the
    first byte is split. */
  function Split(secret: seq<Byte>, threshold: int, total: int, draws: seq<seq<Byte>>): Result<seq<Share>>
    requires |draws| == |secret|
  {
    if !ValidParameters(threshold, total) then Err(InvalidParameters)
    else if secret == [] then Ok([])
    else Ok(seq(total, k requires 0 <= k < total => ShareAt(secret, draws, k + 1)))
  }

  /** The shares stand in the order of their indices from 1 on, and carry for each byte of the secret the
    value there of the polynomial with that byte and its draws as coefficients. */
  ghost predicate HandedOut(shares: seq<Share>, secret: seq<Byte>, draws: seq<seq<Byte>>)
    requires |draws| == |secret|
  {
    forall k :: 0 <= k < |shares| ==>
      && shares[k].index == k + 1
      && |shares[k].value| == |secret|
      && forall o :: 0 <= o < |secret| ==> shares[k].value[o] == Eval([secret[o]] + draws[o], k + 1)
  }

  method SplitSecret(secret: seq<Byte>, threshold: int, total: int, draws: seq<seq<Byte>>)
    returns (r: Result<seq<Share>>)
    requires |draws| == |secret|
    ensures r == Split(secret, threshold, total, draws)
    ensures !(2 <= threshold <= total <= 255) ==> r == Err(InvalidParameters)
    ensures 2 <= threshold <= total <= 255 ==>
              r.Ok? && |r.value| == (if secret == [] then 0 else total) && HandedOut(r.value, secret, draws)
  {
    if !(2 <= threshold <= total <= 255) {
      return Err(InvalidParameters);
    }
    var shares: seq<Share> := [];
    for offset := 0 to |secret|
      invariant |shares| == if offset == 0 then 0 else total
      invariant forall k :: 0 <= k < |shares| ==>
                  shares[k] == Share(k + 1, ValuesAt(secret, draws, k + 1, offset))
    {
      var coeffs := [secret[offset]] + draws[offset];
      for x := 1 to total + 1
        invariant |shares| == if offset == 0 then x - 1 else total
        invariant forall k :: 0 <= k < x - 1 ==>
                    shares[k] == Share(k + 1, ValuesAt(secret, draws, k + 1, offset + 1))
        invariant forall k :: x - 1 <= k < |shares| ==>
                    shares[k] == Share(k + 1, ValuesAt(secret, draws, k + 1, offset))
      {
        var y := EvalPoly(coeffs, x);
        assert ValuesAt(secret, draws, x, offset + 1) == ValuesAt(secret, draws, x, offset) + [y];
        if offset == 0 {
          assert ValuesAt(secret, draws, x, offset) == [];
          shares := shares + [Share(x, [y])];
        } else {
          shares := shares[x - 1 := Share(x, shares[x - 1].value + [y])];
        }
      }
    }
    assert shares == Split(secret, threshold, total, draws).value;
    r := Ok(shares);
  }

  /// Recovering

  ghost predicate EqualLengths(shares: seq<Share>) {
    forall i, j :: 0 <= i < |shares| && 0 <= j < |shares| ==> |shares[i].value| == |shares[j].value|
  }

  /** The points that byte o contributes. */
  function PointsOf(shares: seq<Share>, o: nat): (p: seq<Point>)
    requires forall i :: 0 <= i < |shares| ==> o < |shares[i].value|
    ensures |p| == |shares|
    ensures forall i :: 0 <= i < |p| ==> p[i] == (shares[i].index, shares[i].value[o])
  {
    seq(|shares|, i requires 0 <= i < |shares| => (shares[i].index, shares[i].value[o]))
  }

  function Indices(shares: seq<Share>): (xs: seq<nat>)
    ensures |xs| == |shares| && forall i :: 0 <= i < |xs| ==> xs[i] == shares[i].index
  {
    seq(|shares|, i requires 0 <= i < |shares| => shares[i].index)
  }

  /** What recovery returns, for every list of shares and in the source's order of checks. */
  ghost function Recovered(shares: seq<Share>): Result<seq<Byte>> {
    if shares == [] then Err(NoShares)
    else if !EqualLengths(shares) then Err(UnequalLengths)
    else if shares[0].value != [] && !DistinctResidues(Indices(shares)) then Err(ZeroDivision)
    else Ok(seq(|shares[0].value|, o requires 0 <= o < |shares[0].value| =>
      Interpolant(PointsOf(shares, o), 0, |shares|)))
  }

  method RecoverSecret(shares: seq<Share>) returns (r: Result<seq<Byte>>)
    ensures r == Recovered(shares)
  {
    hide Interpolant, Eval, Remainder;
    if shares == [] {
      return Err(NoShares);
    }
    var length := |shares[0].value|;
    var pointsByByte: seq<seq<Point>> := seq(length, _ => []);
    for i := 0 to |shares|
      invariant |pointsByByte| == length
      invariant forall k :: 0 <= k < i ==> |shares[k].value| == length
      invariant forall o :: 0 <= o < length ==> pointsByByte[o] == PointsOf(shares[..i], o)
    {
      var sh := shares[i];
      if |sh.value| != length {
        return Err(UnequalLengths);
      }
      for o := 0 to length
        invariant |pointsByByte| == length
        invariant forall p :: 0 <= p < o ==> pointsByByte[p] == PointsOf(shares[..i + 1], p)
        invariant forall p :: o <= p < length ==> pointsByByte[p] == PointsOf(shares[..i], p)
      {
        assert PointsOf(shares[..i + 1], o) == PointsOf(shares[..i], o) + [(sh.index, sh.value[o])];
        pointsByByte := pointsByByte[o := pointsByByte[o] + [(sh.index, sh.value[o])]];
      }
    }
    assert shares[..|shares|] == shares;
    assert EqualLengths(shares);
    var secret: seq<Byte> := [];
    for o := 0 to length
      invariant |secret| == o
      invariant o > 0 ==> DistinctResidues(Indices(shares))
      invariant forall p :: 0 <= p < o ==> secret[p] == Interpolant(PointsOf(shares, p), 0, |shares|)
    {
      DistinctPoints(shares, o);
      var value := LagrangeInterpolate(pointsByByte[o], 0);
      if value.None? {
        return Err(ZeroDivision);
      }
      secret := secret + [value.value];
    }
    assert secret == Recovered(shares).value;
    r := Ok(secret);
  }

  /** Which error recovery reports, for every list of shares, and when there is none. An index counts as
    repeated if another one stands for the same element of the field. */
  lemma RecoveredOutcome(shares: seq<Share>)
    ensures Recovered(shares) == Err(NoShares) <==> |shares| == 0
    ensures Recovered(shares) == Err(UnequalLengths) <==>
            exists i, j :: 0 <= i < |shares| && 0 <= j < |shares| && |shares[i].value| != |shares[j].value|
    ensures Recovered(shares) == Err(ZeroDivision) <==>
            && |shares| > 0
            && (forall i, j :: 0 <= i < |shares| && 0 <= j < |shares| ==> |shares[i].value| == |shares[j].value| > 0)
            && exists i, j :: 0 <= i < j < |shares| && Remainder(shares[i].index) == Remainder(shares[j].index)
    ensures Recovered(shares) != Err(InvalidParameters)
    ensures Recovered(shares).Ok? ==> |shares| > 0 && |Recovered(shares).value| == |shares[0].value|
  {
    hide Interpolant, Remainder;
    var xs := Indices(shares);
    assert DistinctResidues(xs) <==>
           !exists i, j :: 0 <= i < j < |shares| && Remainder(shares[i].index) == Remainder(shares[j].index);
  }

  /** What is recovered, if anything is: for each byte the value at 0 of any polynomial through the points
    that has no more coefficients than there are points. */
  lemma RecoveredIsValueAtZero(shares: seq<Share>, polynomials: seq<seq<Byte>>)
    requires Recovered(shares).Ok? && EqualLengths(shares) && |polynomials| == |shares[0].value|
    requires forall o :: 0 <= o < |polynomials| ==> |polynomials[o]| <= |shares|
    requires forall o, i :: 0 <= o < |polynomials| && 0 <= i < |shares| ==>
               shares[i].value[o] == Eval(polynomials[o], shares[i].index)
    ensures |Recovered(shares).value| == |polynomials|
    ensures forall o :: 0 <= o < |polynomials| ==> Recovered(shares).value[o] == Eval(polynomials[o], 0)
  {
    hide Interpolant, Remainder, Eval;
    forall o | 0 <= o < |polynomials| ensures Recovered(shares).value[o] == Eval(polynomials[o], 0) {
      DistinctPoints(shares, o);
      LagrangeRecovers(PointsOf(shares, o), polynomials[o], 0);
    }
  }

  lemma DistinctPoints(shares: seq<Share>, o: nat)
    requires forall i :: 0 <= i < |shares| ==> o < |shares[i].value|
    ensures Distinct(PointsOf(shares, o)) <==> DistinctResidues(Indices(shares))
  {
    hide Remainder;
    var p, xs := PointsOf(shares, o), Indices(shares);
    assert forall i :: 0 <= i < |p| ==> p[i].0 == xs[i];
  }

  /// Enough shares give back the secret

  /** The list holds shares of this split with pairwise different indices, in any order. */
  ghost predicate SharesOf(picked: seq<Share>, shares: seq<Share>) {
    && (forall i :: 0 <= i < |picked| ==> picked[i] in shares)
    && (forall i, j :: 0 <= i < j < |picked| ==> picked[i].index != picked[j].index)
  }

  lemma PickedShare(secret: seq<Byte>, threshold: int, total: int, draws: seq<seq<Byte>>, share: Share)
    requires ValidParameters(threshold, total) && |draws| == |secret|
    requires share in Split(secret, threshold, total, draws).value
    ensures 1 <= share.index <= total && share == ShareAt(secret, draws, share.index)
  {
  }

  lemma DistinctBytes(shares: seq<Share>)
    requires forall i :: 0 <= i < |shares| ==> shares[i].index < 256
    requires forall i, j :: 0 <= i < j < |shares| ==> shares[i].index != shares[j].index
    ensures DistinctResidues(Indices(shares))
  {
    hide Remainder;
    forall i | 0 <= i < |shares| ensures Remainder(Indices(shares)[i]) == shares[i].index {
      ResidueOfByte(shares[i].index);
    }
  }

  /** Any list of at least threshold shares of one split, in any order and without a repeated
    index, recovers exactly the secret, whatever the random coefficients were. */
  lemma ThresholdSharesRecover(secret: seq<Byte>, threshold: int, total: int, draws: seq<seq<Byte>>, picked: seq<Share>)
    requires ValidParameters(threshold, total) && ValidDraws(secret, threshold, draws)
    requires SharesOf(picked, Split(secret, threshold, total, draws).value)
    requires |picked| >= threshold
    ensures Recovered(picked) == Ok(secret)
  {
    hide Interpolant, Remainder, Split;
    forall i | 0 <= i < |picked|
      ensures 1 <= picked[i].index <= total && picked[i] == ShareAt(secret, draws, picked[i].index)
    {
      PickedShare(secret, threshold, total, draws, picked[i]);
    }
    DistinctBytes(picked);
    forall o | 0 <= o < |secret| ensures Interpolant(PointsOf(picked, o), 0, |picked|) == secret[o] {
      DistinctPoints(picked, o);
      LagrangeRecovers(PointsOf(picked, o), [secret[o]] + draws[o], 0);
      ConstantTerm(secret[o], draws[o]);
    }
    assert Recovered(picked).value == secret;
  }

  /** The shares with these indices, in this order. */
  function Choose(shares: seq<Share>, indices: seq<nat>): (picked: seq<Share>)
    requires forall i :: 0 <= i < |indices| ==> 1 <= indices[i] <= |shares|
    ensures |picked| == |indices| && forall i :: 0 <= i < |indices| ==> picked[i] == shares[indices[i] - 1]
  {
    seq(|indices|, i requires 0 <= i < |indices| => shares[indices[i] - 1])
  }

  /** A split hands out total shares, and any threshold of them, named by their indices from 1 to total in
    any order, recover the secret. */
  lemma AnyThresholdIndicesRecover(secret: seq<Byte>, threshold: int, total: int, draws: seq<seq<Byte>>,
                                   indices: seq<nat>)
    requires 2 <= threshold <= total <= 255 && secret != [] && ValidDraws(secret, threshold, draws)
    requires |indices| >= threshold && forall i :: 0 <= i < |indices| ==> 1 <= indices[i] <= total
    requires forall i, j :: 0 <= i < j < |indices| ==> indices[i] != indices[j]
    ensures var r := Split(secret, threshold, total, draws);
      r.Ok? && |r.value| == total && Recovered(Choose(r.value, indices)) == Ok(secret)
  {
    hide Interpolant, Remainder, Recovered, Eval;
    var shares := Split(secret, threshold, total, draws).value;
    var picked := Choose(shares, indices);
    forall i | 0 <= i < |picked| ensures picked[i] in shares && picked[i].index == indices[i] {
      ShareIndex(secret, draws, indices[i]);
    }
    ThresholdSharesRecover(secret, threshold, total, draws, picked);
  }

  lemma ConstantTerm(s: Byte, row: seq<Byte>)
    ensures Eval([s] + row, 0) == s
  {
    hide Product, Xor, Remainder;
    assert ([s] + row)[1..] == row;
    MulZero(Eval(row, 0));
    XorZero(s);
  }

  /** The round trip through all the shares holds for every secret but the empty one. */
  lemma RoundTrip(secret: seq<Byte>, threshold: int, total: int, draws: seq<seq<Byte>>)
    requires ValidParameters(threshold, total) && ValidDraws(secret, threshold, draws)
    ensures Recovered(Split(secret, threshold, total, draws).value) == Ok(secret) <==> secret != []
  {
    hide Interpolant, Remainder, ShareAt;
    if secret != [] {
      var shares := Split(secret, threshold, total, draws).value;
      forall i | 0 <= i < |shares| ensures shares[i].index == i + 1 {
        PickedShare(secret, threshold, total, draws, shares[i]);
        assert shares[i] == ShareAt(secret, draws, i + 1);
        ShareIndex(secret, draws, i + 1);
      }
      ThresholdSharesRecover(secret, threshold, total, draws, shares);
    }
  }

  lemma ShareIndex(secret: seq<Byte>, draws: seq<seq<Byte>>, x: nat)
    requires |draws| == |secret|
    ensures ShareAt(secret, draws, x).index == x
  {
  }

  /// Fewer shares say nothing about the secret

  /** The row of coefficients puts the secret byte s at 0 and the values ys at the indices xs. */
  ghost predicate Explains(row: seq<Byte>, s: Byte, xs: seq<nat>, ys: seq<Byte>)
    requires |xs| == |ys|
  {
    |row| == |xs| && forall i :: 0 <= i < |xs| ==> Eval([s] + row, xs[i]) == ys[i]
  }

  /** Pairwise different indices, none of them zero in the field. */
  ghost predicate ShareIndices(xs: seq<nat>) {
    DistinctResidues(xs) && forall i :: 0 <= i < |xs| ==> Remainder(xs[i]) != 0
  }

  function PointsThrough(s: Byte, xs: seq<nat>, ys: seq<Byte>): (p: seq<Point>)
    requires |xs| == |ys|
    ensures |p| == |xs| + 1
  {
    [(0, s)] + seq(|xs|, i requires 0 <= i < |xs| => (xs[i], ys[i]))
  }

  /** The only row that explains what threshold - 1 shares show, for the secret byte s. */
  function ExplainingRow(s: Byte, xs: seq<nat>, ys: seq<Byte>): (row: seq<Byte>)
    requires |xs| == |ys|
    ensures |row| == |xs|
  {
    InterpolantPoly(PointsThrough(s, xs, ys), |xs| + 1)[1..]
  }

  lemma DistinctThrough(s: Byte, xs: seq<nat>, ys: seq<Byte>)
    requires |xs| == |ys| && ShareIndices(xs)
    ensures Distinct(PointsThrough(s, xs, ys))
  {
    hide Remainder;
    var p := PointsThrough(s, xs, ys);
    ResidueOfByte(0);
    forall i, j | 0 <= i < j < |p| ensures Remainder(p[i].0) != Remainder(p[j].0) {
      assert p[j].0 == xs[j - 1];
      assert i > 0 ==> p[i].0 == xs[i - 1];
    }
  }

  lemma RowExplains(s: Byte, xs: seq<nat>, ys: seq<Byte>)
    requires |xs| == |ys| && ShareIndices(xs)
    ensures Explains(ExplainingRow(s, xs, ys), s, xs, ys)
  {
    hide Remainder, Interpolant, InterpolantPoly, Eval;
    var p, n := PointsThrough(s, xs, ys), |xs| + 1;
    var poly := InterpolantPoly(p, n);
    DistinctThrough(s, xs, ys);
    forall i | 0 <= i < n ensures Eval(poly, p[i].0) == p[i].1 {
      EvalInterpolantPoly(p, p[i].0, n);
      InterpolantAtNode(p, i, n);
    }
    assert Eval(poly, p[0].0) == s;
    assert poly == [poly[0]] + poly[1..];
    ConstantTerm(poly[0], poly[1..]);
    forall i | 0 <= i < |xs| ensures Eval([s] + poly[1..], xs[i]) == ys[i] {
      assert p[i + 1] == (xs[i], ys[i]);
    }
  }

  lemma OnlyOneRow(row: seq<Byte>, row': seq<Byte>, s: Byte, xs: seq<nat>, ys: seq<Byte>)
    requires |xs| == |ys| && ShareIndices(xs)
    requires Explains(row, s, xs, ys) && Explains(row', s, xs, ys)
    ensures row == row'
  {
    hide Remainder, Eval;
    var zs := [0] + xs;
    ResidueOfByte(0);
    ConstantTerm(s, row);
    ConstantTerm(s, row');
    forall i, j | 0 <= i < j < |zs| ensures Remainder(zs[i]) != Remainder(zs[j]) {
      assert zs[j] == xs[j - 1];
      assert i > 0 ==> zs[i] == xs[i - 1];
    }
    forall i | 0 <= i < |zs| ensures Eval([s] + row, zs[i]) == Eval([s] + row', zs[i]) {
      assert i > 0 ==> zs[i] == xs[i - 1];
    }
    AgreementForcesEquality([s] + row, [s] + row', zs);
    assert row == ([s] + row)[1..] && row' == ([s] + row')[1..];
  }

  /** For any indices and any values seen there, every candidate secret byte is explained by exactly
    one row of coefficients, so that all 256 candidates are equally likely. */
  lemma BelowThresholdSecrecy(s: Byte, xs: seq<nat>, ys: seq<Byte>)
    requires |xs| == |ys| && ShareIndices(xs)
    ensures forall row: seq<Byte> :: Explains(row, s, xs, ys) <==> row == ExplainingRow(s, xs, ys)
  {
    hide Remainder, Eval, InterpolantPoly, Explains;
    RowExplains(s, xs, ys);
    forall row: seq<Byte> | Explains(row, s, xs, ys) ensures row == ExplainingRow(s, xs, ys) {
      OnlyOneRow(row, ExplainingRow(s, xs, ys), s, xs, ys);
    }
  }

  /** The two splits hand out the same shares at the indices xs. */
  ghost predicate SameView(secret: seq<Byte>, draws: seq<seq<Byte>>, secret': seq<Byte>, draws': seq<seq<Byte>>,
                           xs: seq<nat>)
    requires |draws| == |secret| && |draws'| == |secret'|
  {
    forall i :: 0 <= i < |xs| ==> ShareAt(secret, draws, xs[i]) == ShareAt(secret', draws', xs[i])
  }

  /** The draws under which secret' shows what the shares of secret show at xs. */
  function MatchingDraws(secret: seq<Byte>, draws: seq<seq<Byte>>, secret': seq<Byte>, xs: seq<nat>)
    : (d: seq<seq<Byte>>)
    requires |draws| == |secret| == |secret'|
    ensures |d| == |secret'|
    ensures forall o :: 0 <= o < |d| ==> d[o] == ExplainingRow(secret'[o], xs, Seen(secret, draws, xs, o))
  {
    seq(|secret'|, o requires 0 <= o < |secret'| => ExplainingRow(secret'[o], xs, Seen(secret, draws, xs, o)))
  }

  /** What the shares at xs show of byte o. */
  function Seen(secret: seq<Byte>, draws: seq<seq<Byte>>, xs: seq<nat>, o: nat): (ys: seq<Byte>)
    requires |draws| == |secret| && o < |secret|
    ensures |ys| == |xs| && forall i :: 0 <= i < |ys| ==> ys[i] == Eval([secret[o]] + draws[o], xs[i])
  {
    seq(|xs|, i requires 0 <= i < |xs| => Eval([secret[o]] + draws[o], xs[i]))
  }

  /** Perfect secrecy of whole secrets: threshold - 1 shares of one secret are shares of every other
    secret of the same length, under exactly one choice of the random coefficients. */
  lemma PerfectSecrecy(secret: seq<Byte>, threshold: int, draws: seq<seq<Byte>>, secret': seq<Byte>, xs: seq<nat>)
    requires threshold >= 2 && |xs| == threshold - 1 && ShareIndices(xs)
    requires ValidDraws(secret, threshold, draws) && |secret'| == |secret|
    ensures forall draws' :: ValidDraws(secret', threshold, draws') ==>
              (SameView(secret, draws, secret', draws', xs) <==> draws' == MatchingDraws(secret, draws, secret', xs))
  {
    hide Remainder, Eval, ExplainingRow;
    forall draws' | ValidDraws(secret', threshold, draws')
      ensures SameView(secret, draws, secret', draws', xs) <==> draws' == MatchingDraws(secret, draws, secret', xs)
    {
      ViewByBytes(secret, draws, secret', draws', xs);
      forall o | 0 <= o < |secret| {
        BelowThresholdSecrecy(secret'[o], xs, Seen(secret, draws, xs, o));
      }
    }
  }

  lemma ViewByBytes(secret: seq<Byte>, draws: seq<seq<Byte>>, secret': seq<Byte>, draws': seq<seq<Byte>>, xs: seq<nat>)
    requires |draws| == |secret| == |secret'| == |draws'|
    requires forall o :: 0 <= o < |draws'| ==> |draws'[o]| == |xs|
    ensures SameView(secret, draws, secret', draws', xs) <==>
            forall o :: 0 <= o < |secret| ==> Explains(draws'[o], secret'[o], xs, Seen(secret, draws, xs, o))
  {
    hide Remainder, Eval;
    if SameView(secret, draws, secret', draws', xs) {
      forall o, i | 0 <= o < |secret| && 0 <= i < |xs|
        ensures Eval([secret'[o]] + draws'[o], xs[i]) == Seen(secret, draws, xs, o)[i]
      {
        assert ShareAt(secret, draws, xs[i]).value[o] == ShareAt(secret', draws', xs[i]).value[o];
      }
    }
    if forall o :: 0 <= o < |secret| ==> Explains(draws'[o], secret'[o], xs, Seen(secret, draws, xs, o)) {
      forall i | 0 <= i < |xs| ensures ShareAt(secret, draws, xs[i]) == ShareAt(secret', draws', xs[i]) {
        forall o | 0 <= o < |secret|
          ensures ShareAt(secret, draws, xs[i]).value[o] == ShareAt(secret', draws', xs[i]).value[o]
        {
          assert Explains(draws'[o], secret'[o], xs, Seen(secret, draws, xs, o));
        }
      }
    }
  }
}
