/** Cauchy-Schwarz for the correlation, conservation for histograms, bounds for outliers. */
module DashboardTheorems {
  import opened Prelude
  import opened RealAlgebra
  import opened RealSums
  import opened Sorting
  import opened ScoreRules
  import opened ScoringTheorems
  import opened Dashboard

  // ---- Pearson: the co-spread is a symmetric bilinear form ----

  lemma CoSpreadSymmetric(x: seq<real>, y: seq<real>)
    requires |x| == |y|
    ensures CoSpread(x, y) == CoSpread(y, x)
  {
    hide Prod;
    DotSymmetric(x, y);
    ProdCommutes(Sum(x), Sum(y));
  }

  lemma CoSpreadAdd(x: seq<real>, y: seq<real>, z: seq<real>)
    requires |x| == |y| == |z|
    ensures CoSpread(Add(x, y), z) == CoSpread(x, z) + CoSpread(y, z)
  {
    hide Prod;
    AddSums(x, y, z);
    ProdAdds(Dot(x, z), Dot(y, z), |x| as real);
    ProdAdds(Sum(x), Sum(y), Sum(z));
  }

  lemma CoSpreadScale(t: real, x: seq<real>, z: seq<real>)
    requires |x| == |z|
    ensures CoSpread(Scale(t, x), z) == Prod(t, CoSpread(x, z))
  {
    hide Prod;
    ScaleSums(t, x, z);
    ScaleStep(|x| as real, t, Dot(x, z), Sum(x), Sum(z));
  }

  lemma ScaleStep(n: real, t: real, d: real, sx: real, sz: real)
    ensures Prod(n, Prod(t, d)) - Prod(Prod(t, sx), sz) == Prod(t, Prod(n, d) - Prod(sx, sz))
  {
  }

  /** t * x + u * y, entry by entry. */
  function Combine(t: real, x: seq<real>, u: real, y: seq<real>): (z: seq<real>)
    requires |x| == |y|
    ensures |z| == |x|
  {
    Add(Scale(t, x), Scale(u, y))
  }

  lemma CombineCoSpread(t: real, x: seq<real>, u: real, y: seq<real>, z: seq<real>)
    requires |x| == |y| == |z|
    ensures CoSpread(Combine(t, x, u, y), z) == Prod(t, CoSpread(x, z)) + Prod(u, CoSpread(y, z))
  {
    hide Prod, CoSpread;
    CoSpreadAdd(Scale(t, x), Scale(u, y), z);
    CoSpreadScale(t, x, z);
    CoSpreadScale(u, y, z);
  }

  /** The quadratic form with coefficients a, b and 2c. */
  function Form(t: real, u: real, a: real, b: real, c: real): real {
    t * t * a + 2.0 * (t * u * c) + u * u * b
  }

  lemma FormStep(t: real, u: real, a: real, b: real, c: real)
    ensures Prod(t, Prod(t, a) + Prod(u, c)) + Prod(u, Prod(t, c) + Prod(u, b)) == Form(t, u, a, b, c)
  {
  }

  lemma CombineSpread(t: real, x: seq<real>, u: real, y: seq<real>)
    requires |x| == |y|
    ensures Spread(Combine(t, x, u, y)) == Form(t, u, Spread(x), Spread(y), CoSpread(x, y))
  {
    hide Prod, CoSpread, Form, Combine;
    var z := Combine(t, x, u, y);
    CombineCoSpread(t, x, u, y, z);
    CombineCoSpread(t, x, u, y, x);
    CombineCoSpread(t, x, u, y, y);
    CoSpreadSymmetric(x, z);
    CoSpreadSymmetric(y, z);
    CoSpreadSymmetric(y, x);
    FormStep(t, u, Spread(x), Spread(y), CoSpread(x, y));
  }

  // ---- Pearson: a spread is never negative, and zero exactly for a constant list ----

  lemma MeanOf(s: seq<real>) returns (m: real)
    requires s != []
    ensures Prod(m, |s| as real) == Sum(s)
  {
    m := Sum(s) / |s| as real;
  }

  lemma ScaledStep(n: real, m: real, sum: real, q: real, d: real)
    requires Prod(m, n) == sum && d == q - 2.0 * Prod(m, sum) + Prod(n, Prod(m, m))
    ensures Prod(n, q) - Prod(sum, sum) == Prod(n, d)
  {
    assert n * (m * m) == m * sum;
  }

  lemma SpreadIsScaledDeviation(s: seq<real>, m: real)
    requires Prod(m, |s| as real) == Sum(s)
    ensures Spread(s) == Prod(|s| as real, SquaredDeviation(s, m))
  {
    hide Prod;
    SquaredDeviationExpands(s, m);
    ScaledStep(|s| as real, m, Sum(s), Dot(s, s), SquaredDeviation(s, m));
  }

  lemma ProdZeroIff(a: real, b: real)
    ensures Prod(a, b) == 0.0 <==> a == 0.0 || b == 0.0
  {
    ProductZeroIff(a, b);
  }

  lemma SpreadNonNegative(s: seq<real>)
    ensures Spread(s) >= 0.0
  {
    hide Prod;
    if s == [] {
      ProdZero(0.0);
    } else {
      var m := MeanOf(s);
      SpreadIsScaledDeviation(s, m);
      SquaredDeviationNonNegative(s, m);
      ProdNonNegative(|s| as real, SquaredDeviation(s, m));
    }
  }

  predicate AllEqual(s: seq<real>, c: real) {
    forall i :: 0 <= i < |s| ==> s[i] == c
  }

  predicate Constant(s: seq<real>) {
    s == [] || AllEqual(s, s[0])
  }

  lemma {:induction false} NoDeviationIff(s: seq<real>, c: real)
    ensures SquaredDeviation(s, c) == 0.0 <==> AllEqual(s, c)
  {
    hide Prod;
    if s != [] {
      var t, x := s[..|s| - 1], s[|s| - 1];
      NoDeviationIff(t, c);
      SquaredDeviationNonNegative(t, c);
      SquareNonNegative(x - c);
      ProdZeroIff(x - c, x - c);
      assert s == t + [x];
    }
  }

  lemma {:induction false} ConstantSums(s: seq<real>, c: real, z: seq<real>)
    requires AllEqual(s, c) && |s| == |z|
    ensures Sum(s) == Prod(c, |s| as real)
    ensures Dot(s, z) == Prod(c, Sum(z))
  {
    hide Prod;
    if s == [] {
      ProdZero(c);
    } else {
      var n := |s| - 1;
      ConstantSums(s[..n], c, z[..n]);
      ProdAdds(n as real, 1.0, c);
      ProdOne(c);
      ProdAdds(Sum(z[..n]), z[n], c);
    }
  }

  lemma ProdOne(c: real)
    ensures Prod(c, 1.0) == c
  {
  }

  lemma ConstantStep(n: real, c: real, sum: real)
    ensures Prod(n, Prod(c, sum)) - Prod(Prod(c, n), sum) == 0.0
  {
  }

  /** A constant list co-varies with nothing. */
  lemma ConstantCoSpread(s: seq<real>, z: seq<real>)
    requires Constant(s) && |s| == |z|
    ensures CoSpread(s, z) == 0.0
  {
    hide Prod;
    if s == [] {
      ProdZero(0.0);
    } else {
      ConstantSums(s, s[0], z);
      ConstantStep(|s| as real, s[0], Sum(z));
    }
  }

  lemma SpreadZeroIff(s: seq<real>)
    ensures Spread(s) == 0.0 <==> Constant(s)
  {
    hide Prod;
    if Constant(s) {
      ConstantCoSpread(s, s);
    } else {
      var m := MeanOf(s);
      SpreadIsScaledDeviation(s, m);
      NoDeviationIff(s, m);
      ProdZeroIff(|s| as real, SquaredDeviation(s, m));
    }
  }

  // ---- Pearson: Cauchy-Schwarz ----

  lemma FormBoundsProduct(a: real, b: real, c: real)
    requires a >= 0.0 && b >= 0.0
    requires Form(-c, a, a, b, c) >= 0.0 && Form(-c, b, b, a, c) >= 0.0
    requires Form(1.0, 1.0, a, b, c) >= 0.0 && Form(1.0, -1.0, a, b, c) >= 0.0
    ensures Prod(c, c) <= Prod(a, b)
  {
    if a > 0.0 {
      FormImpliesProduct(a, b, c);
    } else if b > 0.0 {
      FormImpliesProduct(b, a, c);
    } else {
      assert c == 0.0;
    }
  }

  /** The radicand of the correlation is never negative and bounds the square of the numerator. */
  lemma CauchySchwarz(x: seq<real>, y: seq<real>)
    requires |x| == |y|
    ensures Spread(x) >= 0.0 && Spread(y) >= 0.0
    ensures Prod(CoSpread(x, y), CoSpread(x, y)) <= Prod(Spread(x), Spread(y))
  {
    hide Prod, CoSpread, Form, Combine;
    var a, b, c := Spread(x), Spread(y), CoSpread(x, y);
    SpreadNonNegative(x);
    SpreadNonNegative(y);
    CoSpreadSymmetric(x, y);
    FormNonNegative(-c, x, a, y);
    FormNonNegative(-c, y, b, x);
    FormNonNegative(1.0, x, 1.0, y);
    FormNonNegative(1.0, x, -1.0, y);
    FormBoundsProduct(a, b, c);
  }

  lemma FormNonNegative(t: real, x: seq<real>, u: real, y: seq<real>)
    requires |x| == |y|
    ensures Form(t, u, Spread(x), Spread(y), CoSpread(x, y)) >= 0.0
  {
    hide Prod, CoSpread, Form, Combine;
    CombineSpread(t, x, u, y);
    SpreadNonNegative(Combine(t, x, u, y));
  }

  lemma RatioWithin(num: real, den: real, bound: real)
    requires den > 0.0 && Prod(num, num) <= bound && Prod(den, den) == bound
    ensures -1.0 <= num / den <= 1.0
  {
    SquareOrder(num, den);
    OrderedRatio(num, den);
  }

  lemma OrderedRatio(num: real, den: real)
    requires den > 0.0 && -den <= num <= den
    ensures -1.0 <= num / den <= 1.0
  {
  }

  /** The reported correlation lies in [-1, 1]; none is reported exactly for short or constant lists. */
  lemma CorrelationWithin(x: seq<real>, y: seq<real>, den: real)
    requires |x| == |y| && IsDenominator(x, y, den)
    ensures var r := Correlation(x, y, den);
            && (r.Some? ==> -1.0 <= r.value <= 1.0)
            && (r.None? <==> |x| <= 1 || Constant(x) || Constant(y))
  {
    hide Prod, CoSpread, Constant, RoundToTwo;
    CauchySchwarz(x, y);
    ProdZeroIff(den, den);
    ProdZeroIff(Spread(x), Spread(y));
    SpreadZeroIff(x);
    SpreadZeroIff(y);
    if |x| > 1 && den != 0.0 {
      RatioWithin(CoSpread(x, y), den, Prod(Spread(x), Spread(y)));
      RoundWithin(CoSpread(x, y) / den, -100, 100);
    }
  }

  lemma CorrelationSymmetric(x: seq<real>, y: seq<real>, den: real)
    requires |x| == |y|
    ensures Correlation(x, y, den) == Correlation(y, x, den)
  {
    hide Prod;
    CoSpreadSymmetric(x, y);
  }

  // ---- Pearson: what is reported ----

  /** Sum of the products of the deviations from cx and cy. */
  function CoDeviation(x: seq<real>, y: seq<real>, cx: real, cy: real): real
    requires |x| == |y|
  {
    if x == [] then 0.0
    else
      var n := |x| - 1;
      CoDeviation(x[..n], y[..n], cx, cy) + Prod(x[n] - cx, y[n] - cy)
  }

  lemma CoDeviationStep(dot: real, sx: real, sy: real, n: real, x: real, y: real, cx: real, cy: real)
    ensures dot - Prod(cy, sx) - Prod(cx, sy) + Prod(n, Prod(cx, cy)) + Prod(x - cx, y - cy)
            == dot + Prod(x, y) - Prod(cy, sx + x) - Prod(cx, sy + y) + Prod(n + 1.0, Prod(cx, cy))
  {
  }

  lemma {:induction false} CoDeviationExpands(x: seq<real>, y: seq<real>, cx: real, cy: real)
    requires |x| == |y|
    ensures CoDeviation(x, y, cx, cy)
            == Dot(x, y) - Prod(cy, Sum(x)) - Prod(cx, Sum(y)) + Prod(|x| as real, Prod(cx, cy))
  {
    hide Prod;
    if x == [] {
      ProdZero(cx);
      ProdZero(cy);
      ProdZero(Prod(cx, cy));
    } else {
      var n := |x| - 1;
      CoDeviationExpands(x[..n], y[..n], cx, cy);
      CoDeviationStep(Dot(x[..n], y[..n]), Sum(x[..n]), Sum(y[..n]), n as real, x[n], y[n], cx, cy);
    }
  }

  lemma ScaledCoStep(n: real, mx: real, my: real, sx: real, sy: real, dot: real, d: real)
    requires Prod(mx, n) == sx && Prod(my, n) == sy
    requires d == dot - Prod(my, sx) - Prod(mx, sy) + Prod(n, Prod(mx, my))
    ensures Prod(n, dot) - Prod(sx, sy) == Prod(n, d)
  {
    assert n * (mx * my) == my * sx;
    assert mx * sy == my * sx;
    assert n * (my * sx) == sx * sy;
  }

  /** The numerator is n times the sum of the products of the deviations from the two means. */
  lemma CoSpreadIsScaledDeviation(x: seq<real>, y: seq<real>, mx: real, my: real)
    requires |x| == |y| && Prod(mx, |x| as real) == Sum(x) && Prod(my, |y| as real) == Sum(y)
    ensures CoSpread(x, y) == Prod(|x| as real, CoDeviation(x, y, mx, my))
  {
    hide Prod;
    CoDeviationExpands(x, y, mx, my);
    ScaledCoStep(|x| as real, mx, my, Sum(x), Sum(y), Dot(x, y), CoDeviation(x, y, mx, my));
  }

  /** den is the root of the product of the two spreads, written with the deviations from the means. */
  predicate IsRootOfSpreads(x: seq<real>, y: seq<real>, mx: real, my: real, den: real)
    requires |x| == |y|
  {
    var n := |x| as real;
    den >= 0.0 && Prod(den, den) == Prod(Prod(n, SquaredDeviation(x, mx)), Prod(n, SquaredDeviation(y, my)))
  }

  lemma GapTimes(gap: real, den: real)
    requires den > 0.0 && -0.005 <= gap <= 0.005
    ensures -0.005 * den <= gap * den <= 0.005 * den
  {
    ScaleLe(-0.005, gap, den);
    ScaleLe(gap, 0.005, den);
  }

  lemma GapSpread(num: real, den: real, r: real)
    requires den > 0.0
    ensures (r - num / den) * den == r * den - num
  {
    var v := num / den;
    assert v * den == num;
  }

  lemma QuotientNear(num: real, den: real, r: real)
    requires den > 0.0 && -0.005 <= r - num / den <= 0.005
    ensures -0.005 * den <= r * den - num <= 0.005 * den
  {
    GapTimes(r - num / den, den);
    GapSpread(num, den, r);
  }

  /**
   * A reported correlation is a whole number of hundredths, and den times it is within half a hundredth of den
   * of n times the sum of the products of the deviations from the means.
   */
  lemma CorrelationValue(x: seq<real>, y: seq<real>, mx: real, my: real, den: real) returns (hundredths: int)
    requires |x| == |y| && Prod(mx, |x| as real) == Sum(x) && Prod(my, |y| as real) == Sum(y)
    requires IsRootOfSpreads(x, y, mx, my, den) && Correlation(x, y, den).Some?
    ensures IsDenominator(x, y, den)
    ensures Correlation(x, y, den).value == hundredths as real / 100.0
    ensures var gap := Correlation(x, y, den).value * den - Prod(|x| as real, CoDeviation(x, y, mx, my));
            -0.005 * den <= gap <= 0.005 * den
  {
    hide Prod, CoSpread, SquaredDeviation, CoDeviation, RoundToTwo;
    SpreadIsScaledDeviation(x, mx);
    SpreadIsScaledDeviation(y, my);
    CoSpreadIsScaledDeviation(x, y, mx, my);
    var v := CoSpread(x, y) / den;
    RoundIsNear(v);
    hundredths := RoundInHundredths(v);
    QuotientNear(CoSpread(x, y), den, RoundToTwo(v));
  }

  lemma RoundInHundredths(v: real) returns (n: int)
    ensures RoundToTwo(v) == n as real / 100.0
  {
    n := (v * 100.0 + 0.5).Floor;
  }

  /** 1, 2, 3 against 1, 3, 2: one half. */
  lemma CorrelationExample()
    ensures IsDenominator([1.0, 2.0, 3.0], [1.0, 3.0, 2.0], 6.0)
    ensures Correlation([1.0, 2.0, 3.0], [1.0, 3.0, 2.0], 6.0) == Some(0.5)
  {
    var x, y := [1.0, 2.0, 3.0], [1.0, 3.0, 2.0];
    ThreeSum(x);
    ThreeSum(y);
    ThreeDot(x, y);
    ThreeDot(x, x);
    ThreeDot(y, y);
    RoundFixesHundredths(50);
  }

  lemma ThreeSum(x: seq<real>)
    requires |x| == 3
    ensures Sum(x) == x[0] + x[1] + x[2]
  {
    assert x[..2][..1] == x[..1] && x[..1][..0] == [];
    assert Sum(x[..1]) == x[0];
  }

  lemma ThreeDot(x: seq<real>, y: seq<real>)
    requires |x| == |y| == 3
    ensures Dot(x, y) == x[0] * y[0] + x[1] * y[1] + x[2] * y[2]
  {
    assert x[..2][..1] == x[..1] && x[..1][..0] == [] && y[..2][..1] == y[..1] && y[..1][..0] == [];
    assert Dot(x[..1], y[..1]) == x[0] * y[0];
  }

  /** a * x + shift, for a constant shift. */
  function Affine(a: real, x: seq<real>, shift: seq<real>): (y: seq<real>)
    requires |x| == |shift|
    ensures |y| == |x|
  {
    Add(Scale(a, x), shift)
  }

  lemma AffineSpread(a: real, x: seq<real>, shift: seq<real>)
    requires |x| == |shift| && Constant(shift)
    ensures CoSpread(x, Affine(a, x, shift)) == Prod(a, Spread(x))
    ensures Spread(Affine(a, x, shift)) == Prod(a, Prod(a, Spread(x)))
  {
    hide Prod, CoSpread;
    var y := Affine(a, x, shift);
    CoSpreadAdd(Scale(a, x), shift, x);
    CoSpreadAdd(Scale(a, x), shift, y);
    CoSpreadScale(a, x, x);
    CoSpreadScale(a, x, y);
    ConstantCoSpread(shift, x);
    ConstantCoSpread(shift, y);
    CoSpreadSymmetric(x, y);
  }

  lemma LinearRatio(a: real, s: real, den: real)
    requires a != 0.0 && s > 0.0 && den >= 0.0 && Prod(den, den) == Prod(s, Prod(a, Prod(a, s)))
    ensures den > 0.0
    ensures Prod(a, s) == if a > 0.0 then den else -den
  {
  }

  /** Scores that move together along a line correlate at exactly +1 or -1. */
  lemma LinearCorrelation(a: real, x: seq<real>, shift: seq<real>, den: real)
    requires a != 0.0 && |x| == |shift| > 1 && Constant(shift) && !Constant(x)
    requires IsDenominator(x, Affine(a, x, shift), den)
    ensures Correlation(x, Affine(a, x, shift), den) == Some(if a > 0.0 then 1.0 else -1.0)
  {
    hide Prod, CoSpread, Constant, RoundToTwo, Affine;
    SpreadNonNegative(x);
    SpreadZeroIff(x);
    AffineSpread(a, x, shift);
    LinearRatio(a, Spread(x), den);
    var sign := if a > 0.0 then 1.0 else -1.0;
    assert CoSpread(x, Affine(a, x, shift)) / den == sign;
    RoundFixesHundredths(100);
    RoundFixesHundredths(-100);
  }

  // ---- Histograms ----

  function BucketTotal(scores: seq<real>, b: nat): nat {
    if b == 0 then 0 else BucketTotal(scores, b - 1) + CountIn(scores, b - 1)
  }

  lemma {:induction false} BucketTotalSnoc(scores: seq<real>, x: real, b: nat)
    ensures BucketTotal(scores + [x], b) ==
            BucketTotal(scores, b) + if 0 <= BucketIndex(x) < b then 1 else 0
  {
    if b > 0 {
      BucketTotalSnoc(scores, x, b - 1);
      assert (scores + [x])[..|scores|] == scores;
    }
  }

  /** No non-negative score is lost or counted twice. */
  lemma {:induction false} HistogramConserves(scores: seq<real>)
    requires NonNegative(scores)
    ensures BucketTotal(scores, 10) == |scores|
  {
    if scores == [] {
      EmptyBuckets(10);
    } else {
      var t, x := scores[..|scores| - 1], scores[|scores| - 1];
      HistogramConserves(t);
      BucketTotalSnoc(t, x, 10);
      BucketRange(x);
      assert scores == t + [x];
    }
  }

  lemma {:induction false} EmptyBuckets(b: nat)
    ensures BucketTotal([], b) == 0
  {
    if b > 0 {
      EmptyBuckets(b - 1);
    }
  }

  /** The bucket a score of 0 to 120 points would have if read as points. */
  function PointsBucket(points: real): int {
    var b := (points / 10.0).Floor;
    if b < 9 then b else 9
  }

  /**
   * The scoring service stores composites as points from 0 to 120, while the histogram reads a
   * fraction: the two readings share a bucket exactly below a tenth of a point and from 90 points up.
   */
  lemma PointsBucketAgreesIff(points: real)
    requires 0.0 <= points <= 120.0
    ensures BucketIndex(points) == PointsBucket(points) <==> points < 0.1 || points >= 90.0
  {
  }

  /** The stored composite of a session without answers, where only MCQ counts: 80 points, filed under 90 and more. */
  lemma StoredCompositeMisread()
    ensures CompositeScores(ModuleScores(map[], MCQ_ONLY), MCQ_ONLY).compositeScore == 80.0
    ensures BucketIndex(80.0) == 9 && PointsBucket(80.0) == 8
  {
    hide CompositeScores;
    assert Answered(map[]) == {};
    McqCore(ModuleScores(map[], MCQ_ONLY));
    NoBonus(ModuleScores(map[], MCQ_ONLY));
    TotalIsExactSum(ModuleScores(map[], MCQ_ONLY), MCQ_ONLY);
    RoundFixesHundredths(8000);
  }

  lemma NoBonus(scores: map<string, real>)
    ensures var c := CompositeScores(scores, MCQ_ONLY); c.bonusScore == 0.0 && c.compositeScore == c.totalScore
  {
    SumZero(scores.Keys, Weighted(scores, BonusWeight(MCQ_ONLY)));
    RoundFixesHundredths(0);
  }

  /** The pass rate's reading of a stored composite, and the one its 70 per cent threshold calls for. */
  predicate Passes(score: real) {
    score * 100.0 >= 70.0
  }

  predicate PointsPass(points: real) {
    points >= 70.0
  }

  /** The two readings agree exactly below seven tenths of a point and from 70 points up. */
  lemma PassAgreesIff(points: real)
    ensures (Passes(points) <==> PointsPass(points)) <==> points < 0.7 || points >= 70.0
  {
  }

  // ---- Outliers ----

  lemma {:induction false} CountBelowAtMost(s: seq<real>, bound: real, k: nat)
    requires k <= |s| && forall i :: k <= i < |s| ==> s[i] >= bound
    ensures CountBelow(s, bound) <= k
  {
    if s != [] {
      CountBelowAtMost(s[..|s| - 1], bound, if k == |s| then k - 1 else k);
    }
  }

  lemma {:induction false} CountAboveAtMost(s: seq<real>, bound: real, k: nat)
    requires k <= |s| && forall i :: 0 <= i < k ==> s[i] <= bound
    ensures CountAbove(s, bound) <= |s| - k
  {
    if s != [] {
      CountAboveAtMost(s[..|s| - 1], bound, if k == |s| then k - 1 else k);
    }
  }

  /** Bounds on both outlier counts, and no duration is on both sides of the fences. */
  lemma OutlierBounds(durations: seq<real>)
    requires |durations| >= 4
    ensures var n, r := |durations|, OutlierCount(durations);
            r.fast <= n / 4 && r.slow <= n - 1 - 3 * n / 4
    ensures |Sort(durations, REAL_LEQ)| == |durations|
    ensures var (lower, upper) := Fences(Sort(durations, REAL_LEQ)); lower <= upper
  {
    hide Sort, CountBelow, CountAbove;
    var n := |durations|;
    SortKeeps(durations, REAL_LEQ);
    SortSorts(durations, REAL_LEQ);
    var sorted := Sort(durations, REAL_LEQ);
    assert forall i, j :: 0 <= i < j < n ==> REAL_LEQ(sorted[i], sorted[j]);
    var i1, i3 := n / 4, 3 * n / 4;
    assert i1 < i3 < n;
    var (lower, upper) := Fences(sorted);
    assert lower <= sorted[i1] <= sorted[i3] <= upper;
    CountBelowAtMost(sorted, lower, i1);
    CountAboveAtMost(sorted, upper, i3 + 1);
  }

  function Below(s: seq<real>, bound: real): set<nat> {
    set i: nat | i < |s| && s[i] < bound
  }

  function Above(s: seq<real>, bound: real): set<nat> {
    set i: nat | i < |s| && s[i] > bound
  }

  lemma PositionsSnoc(s: seq<real>, bound: real)
    requires s != []
    ensures var n := |s| - 1;
            && Below(s, bound) == Below(s[..n], bound) + (if s[n] < bound then {n} else {})
            && Above(s, bound) == Above(s[..n], bound) + (if s[n] > bound then {n} else {})
            && n !in Below(s[..n], bound) && n !in Above(s[..n], bound)
  {
  }

  /** The counting loops count the positions beyond the bound. */
  lemma {:induction false} CountsArePositions(s: seq<real>, bound: real)
    ensures CountBelow(s, bound) == |Below(s, bound)| && CountAbove(s, bound) == |Above(s, bound)|
  {
    hide Below, Above;
    if s == [] {
      NoPositions(bound);
    } else {
      CountsArePositions(s[..|s| - 1], bound);
      PositionsSnoc(s, bound);
    }
  }

  lemma NoPositions(bound: real)
    ensures Below([], bound) == {} && Above([], bound) == {}
  {
  }

  /** Further from the quartile than one and a half times their distance. */
  predicate IsFast(d: real, q1: real, q3: real) {
    2.0 * (q1 - d) > 3.0 * (q3 - q1)
  }

  predicate IsSlow(d: real, q1: real, q3: real) {
    2.0 * (d - q3) > 3.0 * (q3 - q1)
  }

  /** The counted durations are those beyond one and a half interquartile distances; none are counted below four. */
  lemma OutliersAre(durations: seq<real>)
    ensures |durations| < 4 ==> OutlierCount(durations) == Outliers(0, 0)
    ensures |durations| >= 4 ==>
              var sorted, n := Sort(durations, REAL_LEQ), |durations|;
              && |sorted| == n && multiset(sorted) == multiset(durations)
              && var q1, q3 := sorted[n / 4], sorted[3 * n / 4];
                 && OutlierCount(durations).fast == |set i: nat | i < n && IsFast(sorted[i], q1, q3)|
                 && OutlierCount(durations).slow == |set i: nat | i < n && IsSlow(sorted[i], q1, q3)|
  {
    hide Sort, CountBelow, CountAbove;
    if |durations| >= 4 {
      SortKeeps(durations, REAL_LEQ);
      var sorted, n := Sort(durations, REAL_LEQ), |durations|;
      var (lower, upper) := Fences(sorted);
      var q1, q3 := sorted[n / 4], sorted[3 * n / 4];
      CountsArePositions(sorted, lower);
      CountsArePositions(sorted, upper);
      assert Below(sorted, lower) == set i: nat | i < n && IsFast(sorted[i], q1, q3);
      assert Above(sorted, upper) == set i: nat | i < n && IsSlow(sorted[i], q1, q3);
    }
  }

  /** The counts depend on the bag of durations only. */
  lemma OutliersOrderBlind(a: seq<real>, b: seq<real>)
    requires multiset(a) == multiset(b)
    ensures OutlierCount(a) == OutlierCount(b)
  {
    RealLeqIsTotalOrder();
    SortCanonical(a, b, REAL_LEQ);
    assert |a| == |multiset(a)| && |b| == |multiset(b)|;
  }
}
