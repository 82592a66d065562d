/** The statistics loops of dashboard.service.ts. */
module Dashboard {
  import opened Prelude
  import opened RealSums
  import opened Sorting
  import opened ScoreRules

  // ---- Pearson correlation ----

  /** n * (sum of products) - (sum of x) * (sum of y) */
  function CoSpread(x: seq<real>, y: seq<real>): real
    requires |x| == |y|
  {
    Prod(|x| as real, Dot(x, y)) - Prod(Sum(x), Sum(y))
  }

  /** n * (sum of squares) - (sum)^2 */
  function Spread(s: seq<real>): real {
    CoSpread(s, s)
  }

  /** den stands for Math.sqrt of the product of the two spreads. */
  predicate IsDenominator(x: seq<real>, y: seq<real>, den: real) {
    den >= 0.0 && Prod(den, den) == Prod(Spread(x), Spread(y))
  }

  function Correlation(x: seq<real>, y: seq<real>, den: real): Option<real>
    requires |x| == |y|
  {
    if |x| <= 1 || den == 0.0 then None else Some(RoundToTwo(CoSpread(x, y) / den))
  }

  method PearsonCorrelation(x: seq<real>, y: seq<real>, den: real) returns (r: Option<real>)
    requires |x| == |y|
    requires |x| > 1 ==> IsDenominator(x, y, den)
    ensures r == Correlation(x, y, den)
  {
    hide IsDenominator, Prod;
    r := None;
    if |x| > 1 {
      var sumX, sumY, sumXY, sumX2, sumY2 := 0.0, 0.0, 0.0, 0.0, 0.0;
      for i := 0 to |x|
        invariant sumX == Sum(x[..i]) && sumY == Sum(y[..i])
        invariant sumXY == Dot(x[..i], y[..i])
        invariant sumX2 == Dot(x[..i], x[..i]) && sumY2 == Dot(y[..i], y[..i])
      {
        PrefixSums(x, y, i);
        PrefixSums(x, x, i);
        PrefixSums(y, y, i);
        sumX := sumX + x[i];
        sumY := sumY + y[i];
        sumXY := sumXY + Prod(x[i], y[i]);
        sumX2 := sumX2 + Prod(x[i], x[i]);
        sumY2 := sumY2 + Prod(y[i], y[i]);
      }
      assert x[..|x|] == x && y[..|y|] == y;
      var num := Prod(|x| as real, sumXY) - Prod(sumX, sumY);
      if den != 0.0 {
        r := Some(RoundToTwo(num / den));
      }
    }
  }

  // ---- Histograms ----

  /** Math.min(Math.floor(score * 100 / 10), 9) */
  function BucketIndex(score: real): int {
    var b := (score * 100.0 / 10.0).Floor;
    if b < 9 then b else 9
  }

  function CountIn(scores: seq<real>, b: int): nat {
    if scores == [] then 0
    else CountIn(scores[..|scores| - 1], b) + if BucketIndex(scores[|scores| - 1]) == b then 1 else 0
  }

  predicate NonNegative(scores: seq<real>) {
    forall i :: 0 <= i < |scores| ==> scores[i] >= 0.0
  }

  lemma BucketRange(score: real)
    ensures BucketIndex(score) <= 9
    ensures BucketIndex(score) >= 0 <==> score >= 0.0
    ensures BucketIndex(score) == 9 <==> score >= 0.9
  {
  }

  /** Bucket b holds the scores from b tenths up to, but not including, b + 1 tenths. */
  lemma BucketMeaning(score: real, b: int)
    requires b < 9
    ensures BucketIndex(score) == b <==> b as real / 10.0 <= score < (b + 1) as real / 10.0
  {
  }

  /** A negative score indexes outside the ten buckets, which ends the request; that case is None. */
  method Histogram(scores: seq<real>) returns (counts: Option<seq<nat>>)
    ensures counts.Some? <==> NonNegative(scores)
    ensures counts.Some? ==> |counts.value| == 10
                             && forall b :: 0 <= b < 10 ==> counts.value[b] == CountIn(scores, b)
  {
    var buckets := new nat[10](_ => 0);
    for i := 0 to |scores|
      invariant NonNegative(scores[..i])
      invariant forall b :: 0 <= b < 10 ==> buckets[b] == CountIn(scores[..i], b)
    {
      assert scores[..i + 1][..i] == scores[..i];
      BucketRange(scores[i]);
      var b := BucketIndex(scores[i]);
      if b < 0 {
        return None;
      }
      buckets[b] := buckets[b] + 1;
    }
    assert scores[..|scores|] == scores;
    counts := Some(buckets[..]);
  }

  // ---- Quartile outliers ----

  const REAL_LEQ: (real, real) -> bool := (x, y) => x <= y

  lemma RealLeqIsTotalOrder()
    ensures TotalOrder(REAL_LEQ)
  {
  }

  function CountBelow(s: seq<real>, bound: real): nat {
    if s == [] then 0 else CountBelow(s[..|s| - 1], bound) + if s[|s| - 1] < bound then 1 else 0
  }

  function CountAbove(s: seq<real>, bound: real): nat {
    if s == [] then 0 else CountAbove(s[..|s| - 1], bound) + if s[|s| - 1] > bound then 1 else 0
  }

  /** The two fences around the quartiles of a sorted sequence. */
  function Fences(sorted: seq<real>): (real, real)
    requires |sorted| >= 4
  {
    var q1 := sorted[|sorted| / 4];
    var q3 := sorted[3 * |sorted| / 4];
    var iqr := q3 - q1;
    (q1 - 1.5 * iqr, q3 + 1.5 * iqr)
  }

  datatype Outliers = Outliers(fast: nat, slow: nat)

  function OutlierCount(durations: seq<real>): Outliers {
    if |durations| < 4 then Outliers(0, 0)
    else
      SortKeeps(durations, REAL_LEQ);
      var sorted := Sort(durations, REAL_LEQ);
      var (lower, upper) := Fences(sorted);
      Outliers(CountBelow(sorted, lower), CountAbove(sorted, upper))
  }

  /** Array.prototype.sort with a numeric comparator. */
  method SortInPlace(a: array<real>)
    modifies a
    ensures a[..] == Sort(old(a[..]), REAL_LEQ)
  {
    var sorted := Sort(a[..], REAL_LEQ);
    SortKeeps(a[..], REAL_LEQ);
    forall i | 0 <= i < a.Length {
      a[i] := sorted[i];
    }
  }

  method CountOutliers(durations: array<real>) returns (r: Outliers)
    modifies durations
    ensures r == OutlierCount(old(durations[..]))
    ensures durations[..] == if durations.Length < 4 then old(durations[..]) else Sort(old(durations[..]), REAL_LEQ)
  {
    hide Sort;
    var fast, slow: nat := 0, 0;
    var n := durations.Length;
    if n >= 4 {
      SortInPlace(durations);
      var q1 := durations[n / 4];
      var q3 := durations[3 * n / 4];
      var iqr := q3 - q1;
      var lowerBound := q1 - 1.5 * iqr;
      var upperBound := q3 + 1.5 * iqr;
      ghost var d := durations[..];
      for i := 0 to n
        invariant fast == CountBelow(d[..i], lowerBound)
        invariant slow == CountAbove(d[..i], upperBound)
      {
        assert d[..i + 1][..i] == d[..i] && durations[i] == d[i];
        if durations[i] < lowerBound {
          fast := fast + 1;
        }
        if durations[i] > upperBound {
          slow := slow + 1;
        }
      }
      assert d[..n] == d;
    }
    r := Outliers(fast, slow);
  }
}
