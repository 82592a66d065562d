/** Bounds, monotonicity and the Say-Do range. */
module ScoringTheorems {
  import opened Prelude
  import opened RealSums
  import opened ScoreRules

  // ---- Rounding ----

  lemma RoundMonotone(v: real, w: real)
    requires v <= w
    ensures RoundToTwo(v) <= RoundToTwo(w)
  {
    assert v * 100.0 + 0.5 <= w * 100.0 + 0.5;
    assert (v * 100.0 + 0.5).Floor <= (w * 100.0 + 0.5).Floor;
  }

  /** Rounding moves a value by at most half a hundredth. */
  lemma RoundIsNear(v: real)
    ensures Abs(RoundToTwo(v) - v) <= 0.005
  {
  }

  lemma RoundFixesHundredths(n: int)
    ensures RoundToTwo(n as real / 100.0) == n as real / 100.0
  {
    var v := n as real / 100.0;
    assert v * 100.0 == n as real;
    assert (v * 100.0 + 0.5).Floor == n;
  }

  lemma RoundWithin(v: real, lo: int, hi: int)
    requires lo as real / 100.0 <= v <= hi as real / 100.0
    ensures lo as real / 100.0 <= RoundToTwo(v) <= hi as real / 100.0
  {
    RoundFixesHundredths(lo);
    RoundFixesHundredths(hi);
    RoundMonotone(lo as real / 100.0, v);
    RoundMonotone(v, hi as real / 100.0);
  }

  // ---- Module scores ----

  predicate Clamped(qs: seq<QuestionScore>) {
    forall i :: 0 <= i < |qs| ==> 0.0 <= qs[i].accuracy <= 1.0
  }

  predicate SharesNonNegative(qs: seq<QuestionScore>) {
    forall i :: 0 <= i < |qs| ==> Share(qs[i]) >= 0.0
  }

  lemma ScaleLe(x: real, y: real, s: real)
    requires x <= y && s >= 0.0
    ensures x * s <= y * s
  {
    assert (y - x) * s >= 0.0;
  }

  /** The negative shares, counted positively. */
  function NegativeShares(qs: seq<QuestionScore>): real {
    if qs == [] then 0.0
    else NegativeShares(qs[..|qs| - 1]) + if Share(qs[|qs| - 1]) < 0.0 then -Share(qs[|qs| - 1]) else 0.0
  }

  function PositiveShares(qs: seq<QuestionScore>): real {
    if qs == [] then 0.0
    else PositiveShares(qs[..|qs| - 1]) + if Share(qs[|qs| - 1]) > 0.0 then Share(qs[|qs| - 1]) else 0.0
  }

  lemma {:induction false} ShareParts(qs: seq<QuestionScore>)
    ensures ShareSum(qs) == PositiveShares(qs) - NegativeShares(qs)
    ensures NegativeShares(qs) >= 0.0 && PositiveShares(qs) >= 0.0
    ensures NegativeShares(qs) == 0.0 <==> SharesNonNegative(qs)
  {
    hide Share;
    if qs != [] {
      ShareParts(qs[..|qs| - 1]);
      assert qs == qs[..|qs| - 1] + [qs[|qs| - 1]];
    }
  }

  lemma PortionWithin(accuracy: real, share: real)
    requires 0.0 <= accuracy <= 1.0 && share >= 0.0
    ensures 0.0 <= accuracy * share <= share
  {
    assert (1.0 - accuracy) * share >= 0.0;
  }

  lemma PartWithin(accuracy: real, share: real)
    requires 0.0 <= accuracy <= 1.0
    ensures (if share < 0.0 then share else 0.0) <= Prod(accuracy, share) <= if share > 0.0 then share else 0.0
  {
    if share >= 0.0 {
      PortionWithin(accuracy, share);
    } else {
      PortionWithin(accuracy, -share);
      assert accuracy * (-share) == -(accuracy * share);
    }
  }

  lemma EarnedStep(qs: seq<QuestionScore>)
    requires qs != []
    ensures EarnedSum(qs) == EarnedSum(qs[..|qs| - 1]) + Prod(qs[|qs| - 1].accuracy, Share(qs[|qs| - 1]))
  {
  }

  lemma NothingEarned(qs: seq<QuestionScore>)
    requires qs == []
    ensures EarnedSum(qs) == 0.0
  {
  }

  lemma {:induction false} EarnedWithin(qs: seq<QuestionScore>)
    requires Clamped(qs)
    ensures -NegativeShares(qs) <= EarnedSum(qs) <= PositiveShares(qs)
  {
    hide Share, EarnedSum, Prod;
    if qs == [] {
      NothingEarned(qs);
    } else {
      var q := qs[|qs| - 1];
      EarnedWithin(qs[..|qs| - 1]);
      EarnedStep(qs);
      PartWithin(q.accuracy, Share(q));
    }
  }

  lemma {:induction false} AccuracyWithin(qs: seq<QuestionScore>)
    requires Clamped(qs)
    ensures 0.0 <= AccuracySum(qs) <= |qs| as real
  {
    if qs != [] {
      AccuracyWithin(qs[..|qs| - 1]);
    }
  }

  lemma QuotientWithin(a: real, b: real)
    requires b > 0.0 && 0.0 <= a <= b
    ensures 0.0 <= a / b <= 1.0
  {
  }

  /** In difficulty mode, nothing to divide by, or negative shares below half a hundredth of the sum. */
  predicate SharesTame(qs: seq<QuestionScore>, byDifficulty: bool) {
    byDifficulty ==> ShareSum(qs) <= 0.0 || 200.0 * NegativeShares(qs) < ShareSum(qs)
  }

  lemma RatioTame(earned: real, sum: real, negative: real)
    requires sum > 0.0 && 200.0 * negative < sum && -negative <= earned <= sum + negative
    ensures 0.0 <= RoundToTwo(earned / sum) <= 1.0
  {
    var v := earned / sum;
    assert v * sum == earned;
    assert -0.005 < v < 1.005;
  }

  /** A module score of clamped accuracies lies in [0, 1] when the shares are tame. */
  lemma ModuleScoreWithin(qs: seq<QuestionScore>, byDifficulty: bool)
    requires qs != [] && Clamped(qs) && SharesTame(qs, byDifficulty)
    ensures 0.0 <= ModuleScore(qs, byDifficulty) <= 1.0
  {
    hide EarnedSum, AccuracySum, ShareSum, NegativeShares, PositiveShares, RoundToTwo;
    EarnedWithin(qs);
    AccuracyWithin(qs);
    ShareParts(qs);
    if byDifficulty && HasCustomShares(qs) {
      if ShareSum(qs) > 0.0 {
        RatioTame(EarnedSum(qs), ShareSum(qs), NegativeShares(qs));
      }
    } else {
      QuotientWithin(AccuracySum(qs), |qs| as real);
      RoundWithin(AccuracySum(qs) / |qs| as real, 0, 100);
    }
  }

  predicate SameShares(a: seq<QuestionScore>, b: seq<QuestionScore>) {
    |a| == |b| && forall i :: 0 <= i < |a| ==> a[i].pointShare == b[i].pointShare
  }

  lemma {:induction false} SharesAlike(a: seq<QuestionScore>, b: seq<QuestionScore>)
    requires SameShares(a, b)
    ensures ShareSum(a) == ShareSum(b) && NegativeShares(a) == NegativeShares(b)
    ensures PositiveShares(a) == PositiveShares(b) && (HasCustomShares(a) <==> HasCustomShares(b))
  {
    assert forall i :: 0 <= i < |a| ==> a[i].pointShare == b[i].pointShare;
    if a != [] {
      SharesAlike(a[..|a| - 1], b[..|b| - 1]);
    }
  }

  lemma {:induction false} NoCustomShares(qs: seq<QuestionScore>)
    requires !HasCustomShares(qs)
    ensures ShareSum(qs) == 0.0
  {
    if qs != [] {
      assert forall i :: 0 <= i < |qs| ==> qs[i].pointShare.None?;
      NoCustomShares(qs[..|qs| - 1]);
    }
  }

  /** The same questions, answered with accuracy a where the share is positive and wrong elsewhere. */
  function Favouring(qs: seq<QuestionScore>, a: real): (r: seq<QuestionScore>)
    ensures |r| == |qs|
    ensures forall i :: 0 <= i < |qs| ==> r[i] == qs[i].(accuracy := if Share(qs[i]) > 0.0 then a else 0.0)
  {
    seq(|qs|, i requires 0 <= i < |qs| => qs[i].(accuracy := if Share(qs[i]) > 0.0 then a else 0.0))
  }

  lemma FavouringPrefix(qs: seq<QuestionScore>, a: real)
    requires qs != []
    ensures Favouring(qs, a)[..|qs| - 1] == Favouring(qs[..|qs| - 1], a)
  {
    hide Favouring;
  }

  lemma FavouringPart(earned: real, share: real, a: real, positive: real)
    requires earned == Prod(a, positive)
    ensures earned + Prod(if share > 0.0 then a else 0.0, share)
            == Prod(a, positive + if share > 0.0 then share else 0.0)
  {
  }

  lemma {:induction false} FavouringEarns(qs: seq<QuestionScore>, a: real)
    ensures EarnedSum(Favouring(qs, a)) == Prod(a, PositiveShares(qs))
  {
    hide Favouring, EarnedSum, Prod;
    if qs == [] {
      ProdZero(a);
      NothingEarned(Favouring(qs, a));
    } else {
      var n := |qs| - 1;
      FavouringEarns(qs[..n], a);
      FavouringPrefix(qs, a);
      EarnedStep(Favouring(qs, a));
      FavouringPart(EarnedSum(Favouring(qs[..n], a)), Share(qs[n]), a, PositiveShares(qs[..n]));
    }
  }

  ghost predicate ScoreWithin(qs: seq<QuestionScore>, byDifficulty: bool)
    requires qs != []
  {
    0.0 <= ModuleScore(qs, byDifficulty) <= 1.0
  }

  /** On given shares, all clamped accuracies give a score in [0, 1] exactly when the shares are tame. */
  lemma ModuleScoreWithinIff(qs: seq<QuestionScore>, byDifficulty: bool)
    requires qs != []
    ensures (forall answers | answers != [] && SameShares(qs, answers) && Clamped(answers) ::
               ScoreWithin(answers, byDifficulty))
            <==> SharesTame(qs, byDifficulty)
  {
    hide ModuleScore, EarnedSum, ShareSum, NegativeShares, PositiveShares, HasCustomShares, ScoreWithin;
    if SharesTame(qs, byDifficulty) {
      forall answers | answers != [] && SameShares(qs, answers) && Clamped(answers)
        ensures ScoreWithin(answers, byDifficulty)
      {
        SharesAlike(qs, answers);
        ModuleScoreWithin(answers, byDifficulty);
        ScoreWithinIs(answers, byDifficulty);
      }
    } else {
      var full := Favouring(qs, 1.0);
      SharesAlike(qs, full);
      FullFavoursPass(qs);
      ScoreWithinIs(full, byDifficulty);
    }
  }

  lemma ScoreWithinIs(qs: seq<QuestionScore>, byDifficulty: bool)
    requires qs != []
    ensures ScoreWithin(qs, byDifficulty) <==> 0.0 <= ModuleScore(qs, byDifficulty) <= 1.0
  {
  }

  lemma RatioPasses(earned: real, sum: real, negative: real)
    requires sum > 0.0 && 200.0 * negative >= sum && earned == sum + negative
    ensures RoundToTwo(earned / sum) > 1.0
  {
    var v := earned / sum;
    assert v * sum == earned;
    assert v >= 1.005;
  }

  lemma FullFavoursPass(qs: seq<QuestionScore>)
    requires ShareSum(qs) > 0.0 && 200.0 * NegativeShares(qs) >= ShareSum(qs)
    ensures qs != [] && ModuleScore(Favouring(qs, 1.0), true) > 1.0
  {
    hide EarnedSum, ShareSum, NegativeShares, PositiveShares, RoundToTwo, Favouring, ModuleScore;
    var full := Favouring(qs, 1.0);
    SharesAlike(qs, full);
    FavouringEarns(qs, 1.0);
    ShareParts(qs);
    DifficultyScore(full);
    RatioPasses(EarnedSum(full), ShareSum(full), NegativeShares(qs));
  }

  lemma NoneGivesNothing(qs: seq<QuestionScore>)
    ensures ShareSum(qs) > 0.0 ==> qs != [] && HasCustomShares(qs)
  {
    if !HasCustomShares(qs) {
      NoCustomShares(qs);
    }
  }

  /** Same questions and shares, no accuracy lowered. */
  predicate RaisedFrom(low: seq<QuestionScore>, high: seq<QuestionScore>) {
    && |low| == |high|
    && (forall i :: 0 <= i < |low| ==> low[i].pointShare == high[i].pointShare && low[i].accuracy <= high[i].accuracy)
  }

  lemma ProdLe(x: real, y: real, s: real)
    requires x <= y && s >= 0.0
    ensures Prod(x, s) <= Prod(y, s)
  {
    ScaleLe(x, y, s);
  }

  lemma {:induction false} EarnedRaise(low: seq<QuestionScore>, high: seq<QuestionScore>)
    requires RaisedFrom(low, high) && SharesNonNegative(low)
    ensures EarnedSum(low) <= EarnedSum(high)
  {
    hide EarnedSum, Share, Prod;
    if low == [] {
      NothingEarned(low);
      NothingEarned(high);
    } else {
      var n := |low| - 1;
      EarnedRaise(low[..n], high[..n]);
      EarnedStep(low);
      EarnedStep(high);
      ShareOnly(low[n], high[n]);
      ProdLe(low[n].accuracy, high[n].accuracy, Share(low[n]));
    }
  }

  lemma {:induction false} AccuracyRaise(low: seq<QuestionScore>, high: seq<QuestionScore>)
    requires RaisedFrom(low, high)
    ensures AccuracySum(low) <= AccuracySum(high)
  {
    if low != [] {
      AccuracyRaise(low[..|low| - 1], high[..|high| - 1]);
    }
  }

  lemma QuotientRaise(a: real, b: real, n: real)
    requires a <= b && n > 0.0
    ensures a / n <= b / n
  {
  }

  /** In difficulty mode, nothing to divide by or no negative share. */
  predicate SharesSteady(qs: seq<QuestionScore>, byDifficulty: bool) {
    byDifficulty ==> ShareSum(qs) <= 0.0 || SharesNonNegative(qs)
  }

  /** Raising accuracies never lowers a module score when the shares are steady. */
  lemma ModuleScoreMonotone(low: seq<QuestionScore>, high: seq<QuestionScore>, byDifficulty: bool)
    requires low != [] && RaisedFrom(low, high) && SharesSteady(low, byDifficulty)
    ensures ModuleScore(low, byDifficulty) <= ModuleScore(high, byDifficulty)
  {
    hide EarnedSum, AccuracySum, ShareSum, SharesNonNegative, RoundToTwo, HasCustomShares;
    SharesAlike(low, high);
    if byDifficulty && HasCustomShares(low) {
      if ShareSum(low) > 0.0 {
        EarnedRaise(low, high);
        QuotientRaise(EarnedSum(low), EarnedSum(high), ShareSum(low));
        RoundMonotone(EarnedSum(low) / ShareSum(low), EarnedSum(high) / ShareSum(high));
      }
    } else {
      AccuracyRaise(low, high);
      QuotientRaise(AccuracySum(low), AccuracySum(high), |low| as real);
      RoundMonotone(AccuracySum(low) / |low| as real, AccuracySum(high) / |high| as real);
    }
  }

  /** Putting one wrong answer right earns its share. */
  lemma {:induction false} EarnedUpdate(qs: seq<QuestionScore>, i: nat)
    requires i < |qs| && qs[i].accuracy == 0.0
    ensures EarnedSum(RightAt(qs, i)) == EarnedSum(qs) + Share(qs[i])
  {
    hide EarnedSum, Share, Prod, RightAt;
    var n := |qs| - 1;
    var after := RightAt(qs, i);
    ProdZero(Share(qs[i]));
    ProdOneLeft(Share(qs[i]));
    EarnedStep(qs);
    EarnedStep(after);
    assert Share(after[i]) == Share(qs[i]) by { ShareOnly(after[i], qs[i]); }
    if i == n {
      assert after[..n] == qs[..n];
    } else {
      EarnedUpdate(qs[..n], i);
      assert after[..n] == RightAt(qs[..n], i);
    }
  }

  lemma ProdOneLeft(c: real)
    ensures Prod(1.0, c) == c
  {
  }

  lemma ShareOnly(a: QuestionScore, b: QuestionScore)
    requires a.pointShare == b.pointShare
    ensures Share(a) == Share(b)
  {
  }

  lemma RatioFalls(positive: real, sum: real, share: real) returns (a: real)
    requires 0.0 < sum <= positive && share < 0.0
    ensures 0.0 <= a <= 1.0
    ensures Rate(Prod(a, positive) + share, sum) < Rate(Prod(a, positive), sum)
  {
    a := 0.505 * sum / positive;
    assert Prod(a, positive) == 0.505 * sum;
    HalfHundredth(sum, share);
    QuotientWithin(0.505 * sum, positive);
  }

  lemma HalfHundredth(sum: real, share: real)
    requires sum > 0.0 && share < 0.0
    ensures RoundToTwo((0.505 * sum + share) / sum) < RoundToTwo(0.505 * sum / sum)
  {
    var v, w := (0.505 * sum + share) / sum, 0.505 * sum / sum;
    assert w == 0.505 && v * sum == 0.505 * sum + share;
    assert v < 0.505;
    assert RoundToTwo(w) == 0.51;
  }

  function Rate(earned: real, sum: real): real
    requires sum > 0.0
  {
    RoundToTwo(earned / sum)
  }

  lemma DifficultyScore(qs: seq<QuestionScore>)
    requires ShareSum(qs) > 0.0
    ensures qs != [] && ModuleScore(qs, true) == Rate(EarnedSum(qs), ShareSum(qs))
  {
    hide EarnedSum, ShareSum, RoundToTwo, HasCustomShares;
    NoneGivesNothing(qs);
  }

  function RightAt(qs: seq<QuestionScore>, i: nat): (r: seq<QuestionScore>)
    requires i < |qs|
    ensures |r| == |qs| && forall k :: 0 <= k < |qs| ==> r[k] == if k == i then qs[k].(accuracy := 1.0) else qs[k]
  {
    qs[i := qs[i].(accuracy := 1.0)]
  }

  lemma RightAtRaises(low: seq<QuestionScore>, i: nat)
    requires i < |low| && Clamped(low)
    ensures RaisedFrom(low, RightAt(low, i)) && Clamped(RightAt(low, i)) && SameShares(low, RightAt(low, i))
  {
    hide RightAt;
  }

  lemma FavouringIsClamped(qs: seq<QuestionScore>, a: real)
    requires 0.0 <= a <= 1.0
    ensures Clamped(Favouring(qs, a)) && SameShares(qs, Favouring(qs, a))
  {
    hide Favouring, Share;
  }

  /** The favouring answers, and the same with the wrong answer at i put right. */
  lemma FavouringPair(qs: seq<QuestionScore>, a: real, i: nat)
    requires i < |qs| && Share(qs[i]) < 0.0 && 0.0 <= a <= 1.0
    ensures var low := Favouring(qs, a);
            var high := RightAt(low, i);
            && SameShares(qs, low) && Clamped(low) && Clamped(high) && RaisedFrom(low, high)
            && ShareSum(low) == ShareSum(high) == ShareSum(qs)
            && EarnedSum(low) == Prod(a, PositiveShares(qs))
            && EarnedSum(high) == Prod(a, PositiveShares(qs)) + Share(qs[i])
  {
    hide EarnedSum, ShareSum, NegativeShares, PositiveShares, Favouring, HasCustomShares;
    hide SameShares, RaisedFrom, Clamped, Share, Prod, RightAt;
    var low := Favouring(qs, a);
    FavouringIsClamped(qs, a);
    FavouringEarns(qs, a);
    RightAtRaises(low, i);
    EarnedUpdate(low, i);
    ShareOnly(low[i], qs[i]);
    SharesAlike(qs, low);
    SharesAlike(low, RightAt(low, i));
  }

  lemma FindNegative(qs: seq<QuestionScore>) returns (i: nat)
    requires !SharesNonNegative(qs)
    ensures i < |qs| && Share(qs[i]) < 0.0
  {
    i :| 0 <= i < |qs| && Share(qs[i]) < 0.0;
  }

  lemma LowerRateLowers(low: seq<QuestionScore>, high: seq<QuestionScore>)
    requires ShareSum(low) == ShareSum(high) > 0.0
    requires Rate(EarnedSum(high), ShareSum(low)) < Rate(EarnedSum(low), ShareSum(low))
    ensures low != [] && high != [] && ModuleScore(high, true) < ModuleScore(low, true)
  {
    hide EarnedSum, ShareSum, Rate, ModuleScore;
    DifficultyScore(low);
    DifficultyScore(high);
  }

  /** A negative share among shares with a positive sum: raising its answer can lower the score. */
  lemma NegativeShareLowers(qs: seq<QuestionScore>) returns (low: seq<QuestionScore>, high: seq<QuestionScore>)
    requires ShareSum(qs) > 0.0 && !SharesNonNegative(qs)
    ensures low != [] && SameShares(qs, low) && Clamped(low) && Clamped(high) && RaisedFrom(low, high)
    ensures ModuleScore(high, true) < ModuleScore(low, true)
  {
    hide EarnedSum, ShareSum, NegativeShares, PositiveShares, Favouring, ModuleScore, HasCustomShares;
    hide SameShares, RaisedFrom, Clamped, Share, SharesNonNegative, Prod, RightAt, Rate;
    var i := FindNegative(qs);
    ShareParts(qs);
    var a := RatioFalls(PositiveShares(qs), ShareSum(qs), Share(qs[i]));
    FavouringPair(qs, a, i);
    low, high := Favouring(qs, a), RightAt(Favouring(qs, a), i);
    LowerRateLowers(low, high);
  }

  ghost predicate NeverLowers(qs: seq<QuestionScore>, low: seq<QuestionScore>, high: seq<QuestionScore>,
                              byDifficulty: bool)
    requires qs != []
  {
    SameShares(qs, low) && Clamped(low) && Clamped(high) && RaisedFrom(low, high) ==>
      ModuleScore(low, byDifficulty) <= ModuleScore(high, byDifficulty)
  }

  /** On given shares, raising clamped accuracies never lowers the score exactly when the shares are steady. */
  lemma RaisingNeverLowersIff(qs: seq<QuestionScore>, byDifficulty: bool)
    requires qs != []
    ensures (forall low, high :: NeverLowers(qs, low, high, byDifficulty)) <==> SharesSteady(qs, byDifficulty)
  {
    hide ModuleScore, ShareSum;
    if SharesSteady(qs, byDifficulty) {
      forall low, high | SameShares(qs, low) && RaisedFrom(low, high)
        ensures NeverLowers(qs, low, high, byDifficulty)
      {
        SharesAlike(qs, low);
        assert SharesNonNegative(qs) ==> SharesNonNegative(low);
        ModuleScoreMonotone(low, high, byDifficulty);
      }
    } else {
      var low, high := NegativeShareLowers(qs);
      assert !NeverLowers(qs, low, high, byDifficulty);
    }
  }

  /** Shares 2 and -1: one right and one wrong answer score 2, and two right answers score 1. */
  lemma NegativeShareExample()
    ensures ModuleScore([QuestionScore("a", 1.0, Some(2.0)), QuestionScore("b", 0.0, Some(-1.0))], true) == 2.0
    ensures ModuleScore([QuestionScore("a", 1.0, Some(2.0)), QuestionScore("b", 1.0, Some(-1.0))], true) == 1.0
  {
    var a := QuestionScore("a", 1.0, Some(2.0));
    var wrong, right := QuestionScore("b", 0.0, Some(-1.0)), QuestionScore("b", 1.0, Some(-1.0));
    TwoSums(a, wrong);
    TwoSums(a, right);
    assert [a, wrong][0].pointShare.Some? && [a, right][0].pointShare.Some?;
    RoundFixesHundredths(200);
    RoundFixesHundredths(100);
  }

  lemma TwoSums(a: QuestionScore, b: QuestionScore)
    ensures ShareSum([a, b]) == Share(a) + Share(b)
    ensures EarnedSum([a, b]) == a.accuracy * Share(a) + b.accuracy * Share(b)
  {
    assert [a, b][..1] == [a] && [a][..0] == [];
    assert ShareSum([a]) == Share(a) && EarnedSum([a]) == a.accuracy * Share(a);
  }

  // ---- Further answers inside a module ----

  lemma {:induction false} AppendedSums(qs: seq<QuestionScore>, more: seq<QuestionScore>)
    ensures AccuracySum(qs + more) == AccuracySum(qs) + AccuracySum(more)
    ensures ShareSum(qs + more) == ShareSum(qs) + ShareSum(more)
    ensures EarnedSum(qs + more) == EarnedSum(qs) + EarnedSum(more)
  {
    hide Share;
    if more == [] {
      assert qs + more == qs;
    } else {
      var n := |more| - 1;
      AppendedSums(qs, more[..n]);
      assert (qs + more)[..|qs| + n] == qs + more[..n];
    }
  }

  function WrongAnswers(k: nat): (r: seq<QuestionScore>)
    ensures |r| == k && forall i :: 0 <= i < k ==> r[i] == QuestionScore("", 0.0, None)
  {
    seq(k, _ => QuestionScore("", 0.0, None))
  }

  lemma {:induction false} WrongAnswersSum(k: nat)
    ensures AccuracySum(WrongAnswers(k)) == 0.0
  {
    if k > 0 {
      WrongAnswersSum(k - 1);
      assert WrongAnswers(k)[..k - 1] == WrongAnswers(k - 1);
    }
  }

  /** Shares count in difficulty mode only. */
  predicate SharesFit(qs: seq<QuestionScore>, byDifficulty: bool) {
    byDifficulty ==> SharesNonNegative(qs)
  }

  /** The mean accuracy, or the earned part of the shares, is below half a hundredth. */
  predicate EarnsNothing(qs: seq<QuestionScore>, byDifficulty: bool) {
    if byDifficulty && HasCustomShares(qs) then 200.0 * EarnedSum(qs) < ShareSum(qs)
    else 200.0 * AccuracySum(qs) < |qs| as real
  }

  lemma QuotientBelow(earned: real, sum: real)
    requires sum > 0.0 && earned >= 0.0
    ensures earned / sum >= 0.0
    ensures earned / sum < 0.005 <==> 200.0 * earned < sum
  {
    var v := earned / sum;
    assert v * sum == earned;
    if v < 0.005 {
      assert (0.005 - v) * sum > 0.0;
    } else {
      assert (v - 0.005) * sum >= 0.0;
    }
  }

  lemma RoundIsNothing(v: real)
    requires v >= 0.0
    ensures RoundToTwo(v) >= 0.0
    ensures RoundToTwo(v) == 0.0 <==> v < 0.005
  {
  }

  lemma RateIsNothing(earned: real, sum: real)
    requires sum > 0.0 && earned >= 0.0
    ensures RoundToTwo(earned / sum) >= 0.0
    ensures RoundToTwo(earned / sum) == 0.0 <==> 200.0 * earned < sum
  {
    hide RoundToTwo;
    QuotientBelow(earned, sum);
    RoundIsNothing(earned / sum);
  }

  lemma ScoreIsNothingIff(qs: seq<QuestionScore>, byDifficulty: bool)
    requires qs != [] && Clamped(qs) && SharesFit(qs, byDifficulty)
    ensures ModuleScore(qs, byDifficulty) >= 0.0
    ensures ModuleScore(qs, byDifficulty) == 0.0 <==> EarnsNothing(qs, byDifficulty)
  {
    hide EarnedSum, AccuracySum, ShareSum, NegativeShares, PositiveShares, HasCustomShares, RoundToTwo, Share;
    EarnedWithin(qs);
    AccuracyWithin(qs);
    ShareParts(qs);
    if byDifficulty && HasCustomShares(qs) {
      if ShareSum(qs) > 0.0 {
        RateIsNothing(EarnedSum(qs), ShareSum(qs));
      }
    } else {
      RateIsNothing(AccuracySum(qs), |qs| as real);
    }
  }

  lemma ManyWrong(qs: seq<QuestionScore>) returns (more: seq<QuestionScore>)
    requires qs != [] && Clamped(qs)
    ensures Clamped(more) && ModuleScore(qs + more, false) == 0.0
  {
    hide AccuracySum, ModuleScore;
    AccuracyWithin(qs);
    var k: nat := (200.0 * AccuracySum(qs)).Floor + 1;
    more := WrongAnswers(k);
    WrongAnswersSum(k);
    AppendedSums(qs, more);
    assert 200.0 * AccuracySum(qs + more) < |qs + more| as real;
    ScoreIsNothingIff(qs + more, false);
  }

  /** One wrong answer with a share that outweighs everything earned so far. */
  lemma HeavyWrong(qs: seq<QuestionScore>) returns (more: seq<QuestionScore>)
    requires Clamped(qs) && SharesNonNegative(qs)
    ensures more != [] && Clamped(more) && SharesNonNegative(more) && ModuleScore(qs + more, true) == 0.0
  {
    hide EarnedSum, ShareSum, ModuleScore, NegativeShares, PositiveShares, Prod;
    EarnedWithin(qs);
    ShareParts(qs);
    var wrong := QuestionScore("", 0.0, Some(200.0 * EarnedSum(qs) + 1.0));
    more := [wrong];
    AppendedSums(qs, more);
    OneSums(wrong);
    ProdZero(Share(wrong));
    assert (qs + more)[|qs|].pointShare.Some?;
    ScoreIsNothingIff(qs + more, true);
  }

  lemma OneSums(q: QuestionScore)
    ensures ShareSum([q]) == Share(q) && AccuracySum([q]) == q.accuracy
    ensures EarnedSum([q]) == Prod(q.accuracy, Share(q))
  {
    assert [q][..0] == [];
  }

  ghost predicate NotLoweredBy(qs: seq<QuestionScore>, more: seq<QuestionScore>, byDifficulty: bool)
    requires qs != []
  {
    ModuleScore(qs, byDifficulty) <= ModuleScore(qs + more, byDifficulty)
  }

  /** Further answers inside a module can lower its score exactly when it has scored anything yet. */
  lemma FurtherAnswersNeverLowerIff(qs: seq<QuestionScore>, byDifficulty: bool)
    requires qs != [] && Clamped(qs) && SharesFit(qs, byDifficulty)
    ensures (forall more :: Clamped(more) && SharesFit(more, byDifficulty) ==> NotLoweredBy(qs, more, byDifficulty))
            <==> EarnsNothing(qs, byDifficulty)
  {
    hide ModuleScore, EarnsNothing, Clamped, Share;
    ScoreIsNothingIff(qs, byDifficulty);
    if EarnsNothing(qs, byDifficulty) {
      forall more | Clamped(more) && SharesFit(more, byDifficulty)
        ensures NotLoweredBy(qs, more, byDifficulty)
      {
        ClampedTogether(qs, more);
        ScoreIsNothingIff(qs + more, byDifficulty);
      }
    } else if byDifficulty {
      var more := HeavyWrong(qs);
      assert !NotLoweredBy(qs, more, byDifficulty);
    } else {
      var more := ManyWrong(qs);
      assert !NotLoweredBy(qs, more, byDifficulty);
    }
  }

  lemma ClampedTogether(qs: seq<QuestionScore>, more: seq<QuestionScore>)
    requires Clamped(qs) && Clamped(more)
    ensures Clamped(qs + more)
  {
  }

  /** In difficulty mode with shares of any sign, further answers can lower every score. */
  lemma AnySharesCanLower(qs: seq<QuestionScore>) returns (more: seq<QuestionScore>)
    requires qs != []
    ensures Clamped(more) && ModuleScore(qs + more, true) < ModuleScore(qs, true)
  {
    hide EarnedSum, ShareSum, RoundToTwo, ModuleScore;
    var x := EarnedSum(qs) - ModuleScore(qs, true) + 1.0;
    var right := QuestionScore("", 1.0, Some(-x));
    var wrong := QuestionScore("", 0.0, Some(x - ShareSum(qs) + 1.0));
    more := [right, wrong];
    TwoSums(right, wrong);
    AppendedSums(qs, more);
    DifficultyScore(qs + more);
    RateOfOne(EarnedSum(qs + more), ShareSum(qs + more));
    RoundIsNear(ModuleScore(qs, true) - 1.0);
  }

  lemma RateOfOne(earned: real, sum: real)
    requires sum == 1.0
    ensures Rate(earned, sum) == RoundToTwo(earned)
  {
  }

  lemma {:induction false} UniformSums(qs: seq<QuestionScore>, a: real)
    requires forall i :: 0 <= i < |qs| ==> qs[i].accuracy == a
    ensures EarnedSum(qs) == a * ShareSum(qs)
    ensures AccuracySum(qs) == a * |qs| as real
  {
    if qs != [] {
      var t, q := qs[..|qs| - 1], qs[|qs| - 1];
      UniformSums(t, a);
      assert a * ShareSum(qs) == a * ShareSum(t) + a * Share(q);
      assert a * |qs| as real == a * |t| as real + a;
    }
  }

  lemma CancelFactor(product: real, a: real, n: real)
    requires n > 0.0 && product == a * n
    ensures product / n == a
  {
  }

  /** Difficulty mode with custom shares that add up to nothing positive: the MCQ fallback is in force. */
  predicate FallbackInForce(qs: seq<QuestionScore>, byDifficulty: bool) {
    byDifficulty && HasCustomShares(qs) && ShareSum(qs) <= 0.0
  }

  /** A module answered with the same accuracy throughout scores that accuracy, whatever the shares. */
  lemma UniformModuleScore(qs: seq<QuestionScore>, byDifficulty: bool, a: real)
    requires qs != [] && forall i :: 0 <= i < |qs| ==> qs[i].accuracy == a
    ensures ModuleScore(qs, byDifficulty) ==
            if FallbackInForce(qs, byDifficulty) then MCQ_FALLBACK else RoundToTwo(a)
  {
    UniformSums(qs, a);
    CancelFactor(AccuracySum(qs), a, |qs| as real);
    if ShareSum(qs) > 0.0 {
      CancelFactor(EarnedSum(qs), a, ShareSum(qs));
    }
  }

  /** A module with no right answer scores zero exactly when the fallback is not in force. */
  lemma AllWrongScoresZeroIff(qs: seq<QuestionScore>, byDifficulty: bool)
    requires qs != [] && forall i :: 0 <= i < |qs| ==> qs[i].accuracy == 0.0
    ensures ModuleScore(qs, byDifficulty) == 0.0 <==> !FallbackInForce(qs, byDifficulty)
  {
    UniformModuleScore(qs, byDifficulty, 0.0);
    RoundFixesHundredths(0);
  }

  /** The fallback at work: one wrong answer whose share is zero scores 0.8. */
  lemma WrongAnswerScoresFallback()
    ensures var qs := [QuestionScore("q", 0.0, Some(0.0))];
            FallbackInForce(qs, true) && ModuleScore(qs, true) == 0.8
  {
    var qs := [QuestionScore("q", 0.0, Some(0.0))];
    assert qs[0].pointShare.Some?;
    assert qs[..0] == [] && ShareSum(qs) == 0.0;
  }

  // ---- Composite scores ----

  predicate ScoresWithin(scores: map<string, real>) {
    forall k :: k in scores ==> 0.0 <= scores[k] <= 1.0
  }

  predicate WeightsNonNegative(config: map<string, ModuleConf>) {
    forall k :: k in config && config[k].enabled ==>
      if config[k].isBonus then OrZero(config[k].maxBonusPoints) >= 0.0 else OrZero(config[k].weight) >= 0.0
  }

  lemma WeightedSumWithin(scores: map<string, real>, config: map<string, ModuleConf>, weight: string -> real)
    requires ScoresWithin(scores)
    requires forall k :: weight(k) >= 0.0
    requires forall k :: k !in config ==> weight(k) == 0.0
    ensures 0.0 <= SumOver(scores.Keys, Weighted(scores, weight)) <= SumOver(config.Keys, weight)
  {
    forall k | k in scores
      ensures 0.0 <= Weighted(scores, weight)(k) <= weight(k)
    {
      ScaleLe(0.0, scores[k], weight(k));
      ScaleLe(scores[k], 1.0, weight(k));
    }
    SumNonNegative(scores.Keys, Weighted(scores, weight));
    SumMono(scores.Keys, Weighted(scores, weight), weight);
    SumSupport(scores.Keys, config.Keys, weight);
  }

  function PositivePart(weight: string -> real): string -> real {
    k => if weight(k) > 0.0 then weight(k) else 0.0
  }

  function NegativePart(weight: string -> real): string -> real {
    k => if weight(k) < 0.0 then -weight(k) else 0.0
  }

  lemma WeightedWithin(score: real, weight: real)
    requires 0.0 <= score <= 1.0
    ensures (if weight < 0.0 then weight else 0.0) <= score * weight <= if weight > 0.0 then weight else 0.0
  {
    PartWithin(score, weight);
  }

  /** The weighted sum of scores in [0, 1] lies between minus the negative and plus the positive weights. */
  lemma WeightedSumBetween(scores: map<string, real>, config: map<string, ModuleConf>, weight: string -> real)
    requires ScoresWithin(scores) && forall k :: k !in config ==> weight(k) == 0.0
    ensures -SumOver(config.Keys, NegativePart(weight)) <= SumOver(scores.Keys, Weighted(scores, weight))
    ensures SumOver(scores.Keys, Weighted(scores, weight)) <= SumOver(config.Keys, PositivePart(weight))
  {
    hide SumOver;
    var f, p, n := Weighted(scores, weight), PositivePart(weight), NegativePart(weight);
    forall k | k in scores
      ensures -n(k) <= f(k) <= p(k)
    {
      WeightedWithin(scores[k], weight(k));
    }
    SumMono(scores.Keys, f, p);
    SumSupport(scores.Keys, config.Keys, p);
    SumAdd(scores.Keys, f, n, k => f(k) + n(k));
    SumNonNegative(scores.Keys, k => f(k) + n(k));
    SumSupport(scores.Keys, config.Keys, n);
  }

  /** Full marks where the weight is positive, nothing elsewhere. */
  function BestScores(config: map<string, ModuleConf>, weight: string -> real): map<string, real> {
    map k | k in config :: if weight(k) > 0.0 then 1.0 else 0.0
  }

  function WorstScores(config: map<string, ModuleConf>, weight: string -> real): map<string, real> {
    map k | k in config :: if weight(k) < 0.0 then 1.0 else 0.0
  }

  lemma ExtremesReached(config: map<string, ModuleConf>, weight: string -> real)
    ensures ScoresWithin(BestScores(config, weight)) && ScoresWithin(WorstScores(config, weight))
    ensures SumOver(BestScores(config, weight).Keys, Weighted(BestScores(config, weight), weight))
            == SumOver(config.Keys, PositivePart(weight))
    ensures SumOver(WorstScores(config, weight).Keys, Weighted(WorstScores(config, weight), weight))
            == -SumOver(config.Keys, NegativePart(weight))
  {
    hide SumOver;
    var best, worst := BestScores(config, weight), WorstScores(config, weight);
    assert best.Keys == config.Keys && worst.Keys == config.Keys;
    SumAgrees(config.Keys, Weighted(best, weight), PositivePart(weight));
    SumAdd(config.Keys, Weighted(worst, weight), NegativePart(weight), k => 0.0);
    SumZero(config.Keys, k => 0.0);
  }

  ghost predicate Tame(config: map<string, ModuleConf>, weight: string -> real, limit: real) {
    && SumOver(config.Keys, PositivePart(weight)) < limit + 0.005
    && SumOver(config.Keys, NegativePart(weight)) <= 0.005
  }

  /** The positive weights stay within the limits, and the negative ones within half a hundredth. */
  ghost predicate WeightsTame(config: map<string, ModuleConf>) {
    Tame(config, CoreWeight(config), 100.0) && Tame(config, BonusWeight(config), 20.0)
  }

  /** Where rounding crosses the limits of the two scores. */
  lemma RoundAtMost(v: real)
    ensures RoundToTwo(v) <= 100.0 <==> v < 100.005
    ensures RoundToTwo(v) <= 20.0 <==> v < 20.005
    ensures RoundToTwo(v) >= 0.0 <==> v >= -0.005
  {
  }

  ghost predicate CompositeBounded(scores: map<string, real>, config: map<string, ModuleConf>) {
    var c := CompositeScores(scores, config);
    0.0 <= c.coreScore <= 100.0 && 0.0 <= c.bonusScore <= 20.0
  }

  /** Tame weights bound every score, whichever modules were answered. */
  lemma CompositeWithin(scores: map<string, real>, config: map<string, ModuleConf>)
    requires ScoresWithin(scores) && WeightsTame(config)
    ensures var c := CompositeScores(scores, config);
            && 0.0 <= c.coreScore <= 100.0
            && 0.0 <= c.bonusScore <= 20.0
            && 0.0 <= c.totalScore <= 120.0
            && c.totalScore == c.coreScore + c.bonusScore
  {
    hide SumOver, Weighted, PositivePart, NegativePart, RoundToTwo;
    WeightedSumBetween(scores, config, CoreWeight(config));
    WeightedSumBetween(scores, config, BonusWeight(config));
    RoundAtMost(SumOver(scores.Keys, Weighted(scores, CoreWeight(config))));
    RoundAtMost(SumOver(scores.Keys, Weighted(scores, BonusWeight(config))));
    TotalIsExactSum(scores, config);
  }

  /** All scores in [0, 1] give a core within 100 and a bonus within 20 points exactly under tame weights. */
  lemma CompositeWithinIff(config: map<string, ModuleConf>)
    ensures (forall scores :: ScoresWithin(scores) ==> CompositeBounded(scores, config)) <==> WeightsTame(config)
  {
    hide ScoresWithin, SumOver, Weighted, PositivePart, NegativePart, RoundToTwo, BestScores, WorstScores;
    if WeightsTame(config) {
      forall scores | ScoresWithin(scores)
        ensures CompositeBounded(scores, config)
      {
        CompositeWithin(scores, config);
      }
    } else {
      UntameBreaks(config);
    }
  }

  lemma UntameBreaks(config: map<string, ModuleConf>)
    requires !WeightsTame(config)
    ensures exists scores :: ScoresWithin(scores) && !CompositeBounded(scores, config)
  {
    hide ScoresWithin, SumOver, Weighted, PositivePart, NegativePart, RoundToTwo, BestScores, WorstScores;
    var weight := if Tame(config, CoreWeight(config), 100.0) then BonusWeight(config) else CoreWeight(config);
    var best, worst := BestScores(config, weight), WorstScores(config, weight);
    ExtremesReached(config, weight);
    RoundAtMost(SumOver(best.Keys, Weighted(best, weight)));
    RoundAtMost(SumOver(worst.Keys, Weighted(worst, weight)));
    assert !CompositeBounded(best, config) || !CompositeBounded(worst, config);
  }

  /** Weights that are not negative and pass the check are tame. */
  lemma ValidWeightsAreTame(config: map<string, ModuleConf>)
    requires WeightsNonNegative(config) && WeightsValid(config)
    ensures WeightsTame(config)
  {
    hide SumOver;
    SumAgrees(config.Keys, PositivePart(CoreWeight(config)), CoreWeight(config));
    SumAgrees(config.Keys, PositivePart(BonusWeight(config)), BonusWeight(config));
    SumZero(config.Keys, NegativePart(CoreWeight(config)));
    SumZero(config.Keys, NegativePart(BonusWeight(config)));
  }

  lemma CompositeNonNegative(scores: map<string, real>, config: map<string, ModuleConf>)
    requires ScoresWithin(scores) && WeightsNonNegative(config)
    ensures var c := CompositeScores(scores, config);
            c.coreScore >= 0.0 && c.bonusScore >= 0.0 && c.compositeScore >= 0.0
  {
    var core := SumOver(scores.Keys, Weighted(scores, CoreWeight(config)));
    var bonus := SumOver(scores.Keys, Weighted(scores, BonusWeight(config)));
    WeightedSumWithin(scores, config, CoreWeight(config));
    WeightedSumWithin(scores, config, BonusWeight(config));
    hide RoundToTwo, SumOver, Weighted;
    RoundFixesHundredths(0);
    RoundMonotone(0.0, core);
    RoundMonotone(0.0, bonus);
    RoundMonotone(0.0, RoundToTwo(core) + RoundToTwo(bonus));
  }

  /** The third rounding never acts: two rounded scores add up to a whole number of hundredths. */
  lemma TotalIsExactSum(scores: map<string, real>, config: map<string, ModuleConf>)
    ensures var c := CompositeScores(scores, config);
            c.totalScore == c.coreScore + c.bonusScore
  {
    var core := SumOver(scores.Keys, Weighted(scores, CoreWeight(config)));
    var bonus := SumOver(scores.Keys, Weighted(scores, BonusWeight(config)));
    var m, n := (core * 100.0 + 0.5).Floor, (bonus * 100.0 + 0.5).Floor;
    assert RoundToTwo(core) + RoundToTwo(bonus) == (m + n) as real / 100.0;
    RoundFixesHundredths(m + n);
  }

  /** No score lowered or dropped; scores added are not negative. */
  predicate ScoresRaised(low: map<string, real>, high: map<string, real>) {
    && (forall k :: k in low ==> k in high && low[k] <= high[k])
    && (forall k :: k in high && k !in low ==> high[k] >= 0.0)
  }

  lemma WeightedSumRaise(low: map<string, real>, high: map<string, real>, weight: string -> real)
    requires ScoresRaised(low, high)
    requires forall k :: weight(k) >= 0.0
    ensures SumOver(low.Keys, Weighted(low, weight)) <= SumOver(high.Keys, Weighted(high, weight))
  {
    forall k | k in low
      ensures Weighted(low, weight)(k) <= Weighted(high, weight)(k)
    {
      ScaleLe(low[k], high[k], weight(k));
    }
    SumMono(low.Keys, Weighted(low, weight), Weighted(high, weight));
    forall k | k in high.Keys - low.Keys
      ensures Weighted(high, weight)(k) >= 0.0
    {
      ScaleLe(0.0, high[k], weight(k));
    }
    SumSubset(low.Keys, high.Keys, Weighted(high, weight));
  }

  /** Raising module scores, or adding further ones, never lowers a composite. */
  lemma CompositeMonotone(low: map<string, real>, high: map<string, real>, config: map<string, ModuleConf>)
    requires ScoresRaised(low, high) && WeightsNonNegative(config)
    ensures CompositeScores(low, config).coreScore <= CompositeScores(high, config).coreScore
    ensures CompositeScores(low, config).bonusScore <= CompositeScores(high, config).bonusScore
    ensures CompositeScores(low, config).totalScore <= CompositeScores(high, config).totalScore
  {
    WeightedSumRaise(low, high, CoreWeight(config));
    WeightedSumRaise(low, high, BonusWeight(config));
    RoundMonotone(SumOver(low.Keys, Weighted(low, CoreWeight(config))),
                  SumOver(high.Keys, Weighted(high, CoreWeight(config))));
    RoundMonotone(SumOver(low.Keys, Weighted(low, BonusWeight(config))),
                  SumOver(high.Keys, Weighted(high, BonusWeight(config))));
    TotalIsExactSum(low, config);
    TotalIsExactSum(high, config);
  }

  lemma {:induction false} SumAgrees(keys: set<string>, f: string -> real, g: string -> real)
    requires forall k :: k in keys ==> f(k) == g(k)
    ensures SumOver(keys, f) == SumOver(keys, g)
  {
    SumMono(keys, f, g);
    SumMono(keys, g, f);
  }

  lemma SumOverSupport(a: set<string>, b: set<string>, f: string -> real)
    requires b <= a && forall k :: k in a - b ==> f(k) == 0.0
    ensures SumOver(a, f) == SumOver(b, f)
    decreases |a|
  {
    if a != b {
      var k :| k in a && k !in b;
      SumRemove(a, f, k);
      SumOverSupport(a - {k}, b, f);
    }
  }

  /** Full marks in every enabled module give exactly 100 core points and the whole bonus. */
  lemma FullMarks(scores: map<string, real>, config: map<string, ModuleConf>)
    requires WeightsValid(config)
    requires forall k :: k in config && config[k].enabled ==> k in scores && scores[k] == 1.0
    ensures CompositeScores(scores, config).coreScore == 100.0
    ensures CompositeScores(scores, config).bonusScore == RoundToTwo(BonusSum(config))
  {
    FullMarksSum(scores, config, CoreWeight(config));
    FullMarksSum(scores, config, BonusWeight(config));
    RoundFixesHundredths(10000);
  }

  lemma FullMarksSum(scores: map<string, real>, config: map<string, ModuleConf>, weight: string -> real)
    requires forall k :: weight(k) != 0.0 ==> k in config && k in scores && scores[k] == 1.0
    ensures SumOver(scores.Keys, Weighted(scores, weight)) == SumOver(config.Keys, weight)
  {
    var both := scores.Keys * config.Keys;
    forall k | k in scores
      ensures Weighted(scores, weight)(k) == weight(k)
    {
    }
    SumOverSupport(scores.Keys, both, Weighted(scores, weight));
    SumAgrees(both, Weighted(scores, weight), weight);
    SumOverSupport(config.Keys, both, weight);
  }

  /** Scores of modules that are not configured, or not enabled, change nothing. */
  lemma OnlyEnabledModulesCount(scores: map<string, real>, config: map<string, ModuleConf>)
    ensures var used := map k | k in scores && k in config && config[k].enabled :: scores[k];
            CompositeScores(used, config) == CompositeScores(scores, config)
  {
    var used := map k | k in scores && k in config && config[k].enabled :: scores[k];
    EnabledSum(scores, used, config, CoreWeight(config));
    EnabledSum(scores, used, config, BonusWeight(config));
  }

  lemma EnabledSum(scores: map<string, real>, used: map<string, real>, config: map<string, ModuleConf>,
                   weight: string -> real)
    requires used.Keys <= scores.Keys && forall k :: k in used ==> used[k] == scores[k]
    requires forall k :: k in scores && k !in used ==> weight(k) == 0.0
    ensures SumOver(used.Keys, Weighted(used, weight)) == SumOver(scores.Keys, Weighted(scores, weight))
  {
    SumOverSupport(scores.Keys, used.Keys, Weighted(scores, weight));
    SumAgrees(used.Keys, Weighted(used, weight), Weighted(scores, weight));
  }

  // ---- From answers to composite ----

  /** Clamped accuracies, on shares that are tame in the mode of their module. */
  predicate AnswersWithin(answers: map<string, seq<QuestionScore>>, config: map<string, ModuleConf>) {
    forall mod :: mod in answers ==> Clamped(answers[mod]) && SharesTame(answers[mod], ByDifficulty(config, mod))
  }

  lemma ModuleScoresWithin(answers: map<string, seq<QuestionScore>>, config: map<string, ModuleConf>)
    requires AnswersWithin(answers, config)
    ensures ScoresWithin(ModuleScores(answers, config))
  {
    forall mod | mod in Answered(answers)
      ensures 0.0 <= ModuleScore(answers[mod], ByDifficulty(config, mod)) <= 1.0
    {
      ModuleScoreWithin(answers[mod], ByDifficulty(config, mod));
    }
  }

  /** The clamp puts every recorded accuracy in [0, 1], which is what the bounds below start from. */
  lemma ClampBounds(v: real)
    ensures 0.0 <= Clamp01(v) <= 1.0
    ensures 0.0 <= v <= 1.0 <==> Clamp01(v) == v
  {
  }

  lemma SessionScoresWithin(answers: map<string, seq<QuestionScore>>, config: map<string, ModuleConf>)
    requires AnswersWithin(answers, config) && WeightsTame(config)
    ensures var c := CompositeScores(ModuleScores(answers, config), config);
            0.0 <= c.coreScore <= 100.0 && 0.0 <= c.bonusScore <= 20.0 && 0.0 <= c.totalScore <= 120.0
  {
    ModuleScoresWithin(answers, config);
    CompositeWithin(ModuleScores(answers, config), config);
  }

  /** Every answered module is answered again with no accuracy lowered; further ones have clamped accuracies. */
  predicate AnswersRaised(low: map<string, seq<QuestionScore>>, high: map<string, seq<QuestionScore>>,
                          config: map<string, ModuleConf>) {
    && (forall mod :: mod in Answered(low) ==>
          mod in high && RaisedFrom(low[mod], high[mod]) && SharesSteady(low[mod], ByDifficulty(config, mod)))
    && (forall mod :: mod in Answered(high) && mod !in Answered(low) ==>
          Clamped(high[mod]) && SharesTame(high[mod], ByDifficulty(config, mod)))
  }

  ghost predicate NothingLowered(low: map<string, seq<QuestionScore>>, high: map<string, seq<QuestionScore>>,
                                 config: map<string, ModuleConf>) {
    var a := CompositeScores(ModuleScores(low, config), config);
    var b := CompositeScores(ModuleScores(high, config), config);
    a.coreScore <= b.coreScore && a.bonusScore <= b.bonusScore && a.totalScore <= b.totalScore
  }

  /**
   * Raising accuracies, and answering further modules once one is answered, never lowers any module score,
   * nor the core, bonus or total score.
   */
  lemma SessionScoresMonotone(low: map<string, seq<QuestionScore>>, high: map<string, seq<QuestionScore>>,
                              config: map<string, ModuleConf>)
    requires AnswersRaised(low, high, config) && WeightsNonNegative(config)
    requires Answered(low) != {} || Answered(high) == {}
    ensures ScoresRaised(ModuleScores(low, config), ModuleScores(high, config))
    ensures NothingLowered(low, high, config)
  {
    assert Answered(low) <= Answered(high);
    forall mod | mod in Answered(low)
      ensures ModuleScore(low[mod], ByDifficulty(config, mod)) <= ModuleScore(high[mod], ByDifficulty(config, mod))
    {
      ModuleScoreMonotone(low[mod], high[mod], ByDifficulty(config, mod));
    }
    forall mod | mod in Answered(high) && mod !in Answered(low)
      ensures ModuleScore(high[mod], ByDifficulty(config, mod)) >= 0.0
    {
      ModuleScoreWithin(high[mod], ByDifficulty(config, mod));
    }
    hide ModuleScore, CompositeScores, WeightsNonNegative;
    assert ScoresRaised(ModuleScores(low, config), ModuleScores(high, config));
    CompositeMonotone(ModuleScores(low, config), ModuleScores(high, config), config);
  }

  const MCQ_ONLY: map<string, ModuleConf> := map["MCQ" := ModuleConf(true, false, Some(100.0), None, false)]
  const ONE_WRONG: map<string, seq<QuestionScore>> := map["MCQ" := [QuestionScore("q", 0.0, None)]]

  lemma McqCore(scores: map<string, real>)
    requires "MCQ" in scores
    ensures CompositeScores(scores, MCQ_ONLY).coreScore == RoundToTwo(scores["MCQ"] * 100.0)
  {
    var f := Weighted(scores, CoreWeight(MCQ_ONLY));
    SumOverSupport(scores.Keys, {"MCQ"}, f);
    SumRemove({"MCQ"}, f, "MCQ");
    assert {"MCQ"} - {"MCQ"} == {};
    assert f("MCQ") == scores["MCQ"] * 100.0;
  }

  lemma OneWrongScore(config: map<string, ModuleConf>)
    ensures Answered(ONE_WRONG) == {"MCQ"} && Clamped(ONE_WRONG["MCQ"])
    ensures forall byDifficulty :: SharesTame(ONE_WRONG["MCQ"], byDifficulty)
    ensures ModuleScores(ONE_WRONG, config) == map["MCQ" := 0.0]
  {
    var qs := ONE_WRONG["MCQ"];
    assert qs[..0] == [] && AccuracySum(qs) == 0.0;
    assert !HasCustomShares(qs);
    NoCustomShares(qs);
    RoundFixesHundredths(0);
  }

  /** With no answers MCQ stands at 0.8; a first answer, given wrong, takes it and the core score down to nothing. */
  lemma FirstAnswerLowers(none: map<string, seq<QuestionScore>>)
    requires Answered(none) == {}
    ensures AnswersRaised(none, ONE_WRONG, MCQ_ONLY) && WeightsNonNegative(MCQ_ONLY) && WeightsValid(MCQ_ONLY)
    ensures CompositeScores(ModuleScores(none, MCQ_ONLY), MCQ_ONLY).coreScore == 80.0
    ensures CompositeScores(ModuleScores(ONE_WRONG, MCQ_ONLY), MCQ_ONLY).coreScore == 0.0
  {
    hide CompositeScores, WeightsValid, Clamped, SharesTame, RoundToTwo;
    OneWrongScore(MCQ_ONLY);
    RoundFixesHundredths(0);
    RoundFixesHundredths(8000);
    McqCore(ModuleScores(none, MCQ_ONLY));
    McqCore(map["MCQ" := 0.0]);
    ConfigSums();
  }

  /** A second MCQ answer, given wrong after a right one, halves the core score although a module was answered. */
  lemma SecondAnswerLowers()
    ensures var first := [QuestionScore("q", 1.0, None)];
            var low := map["MCQ" := first];
            var high := map["MCQ" := first + [QuestionScore("r", 0.0, None)]];
            && Answered(low) == {"MCQ"}
            && CompositeScores(ModuleScores(low, MCQ_ONLY), MCQ_ONLY).coreScore == 100.0
            && CompositeScores(ModuleScores(high, MCQ_ONLY), MCQ_ONLY).coreScore == 50.0
  {
    hide CompositeScores, RoundToTwo, AccuracySum, HasCustomShares;
    var q, r := QuestionScore("q", 1.0, None), QuestionScore("r", 0.0, None);
    AppendedSums([q], [r]);
    OneSums(q);
    OneSums(r);
    RoundFixesHundredths(100);
    RoundFixesHundredths(50);
    RoundFixesHundredths(10000);
    RoundFixesHundredths(5000);
    McqCore(ModuleScores(map["MCQ" := [q]], MCQ_ONLY));
    McqCore(ModuleScores(map["MCQ" := [q] + [r]], MCQ_ONLY));
  }

  lemma ConfigSums()
    ensures WeightsValid(MCQ_ONLY)
  {
    SumRemove({"MCQ"}, CoreWeight(MCQ_ONLY), "MCQ");
    SumRemove({"MCQ"}, BonusWeight(MCQ_ONLY), "MCQ");
    assert MCQ_ONLY.Keys == {"MCQ"} && {"MCQ"} - {"MCQ"} == {};
  }

  /** Whatever accuracies are raised and whatever modules are answered besides, nothing is lowered. */
  ghost predicate NothingEverLowered(low: map<string, seq<QuestionScore>>, config: map<string, ModuleConf>) {
    forall high :: AnswersRaised(low, high, config) ==> NothingLowered(low, high, config)
  }

  /** The points a session without answers is credited with for MCQ and CODING under one kind of weight. */
  function FallbackPoints(weight: string -> real): real {
    RoundToTwo(MCQ_FALLBACK * weight("MCQ") + CODING_FALLBACK * weight("CODING"))
  }

  /** Neither core nor bonus weights turn that credit into points. */
  predicate FallbackWorthless(config: map<string, ModuleConf>) {
    FallbackPoints(CoreWeight(config)) == 0.0 && FallbackPoints(BonusWeight(config)) == 0.0
  }

  lemma FallbackSum(weight: string -> real)
    ensures var scores := map["MCQ" := MCQ_FALLBACK, "CODING" := CODING_FALLBACK];
            RoundToTwo(SumOver(scores.Keys, Weighted(scores, weight))) == FallbackPoints(weight)
  {
    hide SumOver, RoundToTwo;
    var scores := map["MCQ" := MCQ_FALLBACK, "CODING" := CODING_FALLBACK];
    var f := Weighted(scores, weight);
    assert scores.Keys == {"MCQ", "CODING"};
    SumRemove({"MCQ", "CODING"}, f, "MCQ");
    assert {"MCQ", "CODING"} - {"MCQ"} == {"CODING"};
    SumRemove({"CODING"}, f, "CODING");
    assert {"CODING"} - {"CODING"} == {};
    SumZero({}, f);
  }

  /** What the credit comes to in the composite. */
  lemma FallbackComposite(config: map<string, ModuleConf>)
    ensures var c := CompositeScores(ModuleScores(map[], config), config);
            c.coreScore == FallbackPoints(CoreWeight(config)) && c.bonusScore == FallbackPoints(BonusWeight(config))
  {
    assert Answered(map[]) == {};
    FallbackSum(CoreWeight(config));
    FallbackSum(BonusWeight(config));
  }

  lemma ZeroScores(config: map<string, ModuleConf>)
    ensures var c := CompositeScores(map["MCQ" := 0.0], config); c.coreScore == 0.0 && c.bonusScore == 0.0
  {
    SumZero({"MCQ"}, Weighted(map["MCQ" := 0.0], CoreWeight(config)));
    SumZero({"MCQ"}, Weighted(map["MCQ" := 0.0], BonusWeight(config)));
    assert (map["MCQ" := 0.0]).Keys == {"MCQ"};
    RoundFixesHundredths(0);
  }

  /** Under given weights nothing is ever lowered iff a module is answered or the fallback is worth no points. */
  lemma MoreModulesNeverLowerUnderIff(low: map<string, seq<QuestionScore>>, config: map<string, ModuleConf>)
    requires WeightsNonNegative(config)
    ensures NothingEverLowered(low, config) <==> Answered(low) != {} || FallbackWorthless(config)
  {
    hide AnswersRaised, CompositeScores, WeightsNonNegative;
    if Answered(low) != {} {
      forall high | AnswersRaised(low, high, config)
        ensures NothingLowered(low, high, config)
      {
        SessionScoresMonotone(low, high, config);
      }
    } else {
      assert ModuleScores(low, config) == ModuleScores(map[], config) by { NothingAnswered(low, config); }
      FallbackComposite(config);
      FallbackNonNegative(config);
      if FallbackWorthless(config) {
        forall high | AnswersRaised(low, high, config)
          ensures NothingLowered(low, high, config)
        {
          RaisedFromNothing(low, high, config);
        }
      } else {
        OneWrongRaises(low, config);
        OneWrongScore(config);
        ZeroScores(config);
        assert !NothingLowered(low, ONE_WRONG, config);
      }
    }
  }

  lemma NothingAnswered(low: map<string, seq<QuestionScore>>, config: map<string, ModuleConf>)
    requires Answered(low) == {}
    ensures ModuleScores(low, config) == ModuleScores(map[], config)
  {
    assert Answered(map[]) == {};
  }

  lemma OneWrongRaises(low: map<string, seq<QuestionScore>>, config: map<string, ModuleConf>)
    requires Answered(low) == {}
    ensures AnswersRaised(low, ONE_WRONG, config)
  {
    hide Clamped, SharesTame, ModuleScores;
    OneWrongScore(config);
  }

  lemma FallbackNonNegative(config: map<string, ModuleConf>)
    requires WeightsNonNegative(config)
    ensures var c := CompositeScores(ModuleScores(map[], config), config);
            c.coreScore >= 0.0 && c.bonusScore >= 0.0
  {
    hide CompositeScores, WeightsNonNegative;
    assert Answered(map[]) == {};
    CompositeNonNegative(ModuleScores(map[], config), config);
  }

  lemma RaisedFromNothing(low: map<string, seq<QuestionScore>>, high: map<string, seq<QuestionScore>>,
                          config: map<string, ModuleConf>)
    requires Answered(low) == {} && AnswersRaised(low, high, config) && WeightsNonNegative(config)
    requires FallbackWorthless(config)
    ensures NothingLowered(low, high, config)
  {
    hide CompositeScores, WeightsNonNegative, Clamped, SharesTame, ModuleScore;
    NothingAnswered(low, config);
    FallbackComposite(config);
    forall mod | mod in Answered(high)
      ensures 0.0 <= ModuleScore(high[mod], ByDifficulty(config, mod)) <= 1.0
    {
      ModuleScoreWithin(high[mod], ByDifficulty(config, mod));
    }
    CompositeNonNegative(ModuleScores(high, config), config);
    TotalIsExactSum(ModuleScores(low, config), config);
    TotalIsExactSum(ModuleScores(high, config), config);
  }

  /** Under all weights at once: exactly when some module is answered. */
  lemma MoreModulesNeverLowerIff(low: map<string, seq<QuestionScore>>)
    ensures (forall config :: WeightsNonNegative(config) ==> NothingEverLowered(low, config)) <==> Answered(low) != {}
  {
    hide AnswersRaised, WeightsNonNegative, CompositeScores;
    forall config | WeightsNonNegative(config)
      ensures NothingEverLowered(low, config) <==> Answered(low) != {} || FallbackWorthless(config)
    {
      MoreModulesNeverLowerUnderIff(low, config);
    }
    if Answered(low) == {} {
      FirstAnswerLowers(low);
      NothingAnswered(low, MCQ_ONLY);
      FallbackComposite(MCQ_ONLY);
      assert !FallbackWorthless(MCQ_ONLY);
    }
  }

  // ---- Say-Do ----

  predicate AllWithin01(s: seq<real>) {
    forall i :: 0 <= i < |s| ==> 0.0 <= s[i] <= 1.0
  }

  lemma ProdNonNegative(a: real, b: real)
    requires a >= 0.0 && b >= 0.0
    ensures Prod(a, b) >= 0.0
  {
  }

  lemma SquareBelowValue(x: real)
    requires 0.0 <= x <= 1.0
    ensures Prod(x, x) <= x
  {
    ProdAdds(x, 1.0 - x, x);
    ProdNonNegative(1.0 - x, x);
    assert Prod(1.0, x) == x;
  }

  lemma {:induction false} SquaresBelowValues(s: seq<real>)
    requires AllWithin01(s)
    ensures Dot(s, s) <= Sum(s)
  {
    hide Prod;
    if s != [] {
      SquaresBelowValues(s[..|s| - 1]);
      SquareBelowValue(s[|s| - 1]);
    }
  }

  lemma MeanTimesRest(m: real)
    ensures m - m * m <= 0.25
  {
  }

  lemma QuarterBound(n: real, m: real, sum: real, squares: real, deviation: real)
    requires n >= 0.0 && sum == Prod(m, n) && squares <= sum
    requires deviation == squares - 2.0 * Prod(m, sum) + Prod(n, Prod(m, m))
    ensures deviation <= 0.25 * n
  {
    assert m * sum == n * (m * m);
    assert deviation <= (m - m * m) * n;
    MeanTimesRest(m);
    ScaleLe(m - m * m, 0.25, n);
  }

  lemma MeanTimesLength(s: seq<real>)
    requires s != []
    ensures Prod(Mean(s), |s| as real) == Sum(s)
  {
  }

  /** The variance of values in [0, 1] is at most a quarter. */
  lemma VarianceAtMostQuarter(s: seq<real>)
    requires s != [] && AllWithin01(s)
    ensures 0.0 <= Variance(s) <= 0.25
  {
    hide Prod, Mean;
    var n, m := |s| as real, Mean(s);
    SquaredDeviationNonNegative(s, m);
    SquaredDeviationExpands(s, m);
    SquaresBelowValues(s);
    MeanTimesLength(s);
    QuarterBound(n, m, Sum(s), Dot(s, s), SquaredDeviation(s, m));
    QuotientRaise(0.0, SquaredDeviation(s, m), n);
    QuotientRaise(SquaredDeviation(s, m), 0.25 * n, n);
  }

  lemma SquareAboveQuarter(x: real)
    ensures x > 0.5 ==> x * x > 0.25
  {
  }

  /** Without self-assessments and with two or more module scores the result is in [0.5, 1], unclamped. */
  lemma DeviationScoreRange(scores: seq<real>, composite: real, stdDev: real)
    requires |scores| > 1 && AllWithin01(scores)
    requires stdDev >= 0.0 && stdDev * stdDev == Variance(scores)
    ensures 0.5 <= SayDoScore([], scores, composite, stdDev) <= 1.0
    ensures SayDoScore([], scores, composite, stdDev) == RoundToTwo(1.0 - stdDev)
  {
    VarianceAtMostQuarter(scores);
    SquareAboveQuarter(stdDev);
    RoundWithin(1.0 - stdDev, 50, 100);
  }

  /** The lower end is met by one perfect and one empty module. */
  lemma DeviationScoreLowest()
    ensures Variance([0.0, 1.0]) == 0.5 * 0.5
    ensures SayDoScore([], [0.0, 1.0], 50.0, 0.5) == 0.5
  {
    var s := [0.0, 1.0];
    assert s[..1] == [0.0] && [0.0][..0] == [];
    assert Sum([0.0]) == 0.0 && Sum(s) == 1.0;
    assert SquaredDeviation([0.0], 0.5) == 0.25;
    assert SquaredDeviation(s, 0.5) == 0.5;
    RoundFixesHundredths(50);
  }

  lemma {:induction false} DivergencesNonNegative(rs: seq<Response>)
    ensures forall i :: 0 <= i < |Divergences(rs)| ==> Divergences(rs)[i] >= 0.0
  {
    if rs != [] {
      DivergencesNonNegative(rs[..|rs| - 1]);
    }
  }

  lemma {:induction false} SumOfNonNegatives(s: seq<real>)
    requires forall i :: 0 <= i < |s| ==> s[i] >= 0.0
    ensures Sum(s) >= 0.0
  {
    if s != [] {
      SumOfNonNegatives(s[..|s| - 1]);
    }
  }

  /** A Say-Do score lies in [0, 1] exactly unless a negative composite is what it is taken from. */
  lemma SayDoWithin(rs: seq<Response>, scores: seq<real>, composite: real, stdDev: real)
    requires AllWithin01(scores)
    requires |scores| > 1 ==> stdDev >= 0.0 && stdDev * stdDev == Variance(scores)
    ensures 0.0 <= SayDoScore(Divergences(rs), scores, composite, stdDev) <= 1.0
            <==> Divergences(rs) != [] || |scores| > 1 || composite >= 0.0
  {
    hide Prod, Variance, Divergences, RoundToTwo;
    var ds := Divergences(rs);
    if ds != [] {
      DivergencesNonNegative(rs);
      SumOfNonNegatives(ds);
      QuotientRaise(0.0, Sum(ds), |ds| as real);
      RoundMonotone(1.0 - Mean(ds), 1.0);
      RoundFixesHundredths(100);
    } else if |scores| > 1 {
      DeviationScoreRange(scores, composite, stdDev);
    }
  }

  /** keys lists the modules of m, each once. */
  predicate Enumerates(keys: seq<string>, m: map<string, real>) {
    && (forall i :: 0 <= i < |keys| ==> keys[i] in m)
    && (forall k :: k in m ==> k in keys)
    && (forall i, j :: 0 <= i < j < |keys| ==> keys[i] != keys[j])
  }

  /** Object.values of the module scores. */
  function ValuesOf(keys: seq<string>, m: map<string, real>): (r: seq<real>)
    requires forall i :: 0 <= i < |keys| ==> keys[i] in m
    ensures |r| == |keys| && forall i :: 0 <= i < |keys| ==> r[i] == m[keys[i]]
  {
    seq(|keys|, i requires 0 <= i < |keys| => m[keys[i]])
  }

  /**
   * From clamped accuracies to the stored Say-Do score: in [0, 1] unless it is taken from a negative composite,
   * and without self-assessments but with two or more answered modules in [0.5, 1] and unclamped.
   */
  lemma SessionSayDoWithin(answers: map<string, seq<QuestionScore>>, config: map<string, ModuleConf>,
                           keys: seq<string>, rs: seq<Response>, stdDev: real)
    requires AnswersWithin(answers, config) && Enumerates(keys, ModuleScores(answers, config))
    requires var scores := ValuesOf(keys, ModuleScores(answers, config));
             |scores| > 1 ==> stdDev >= 0.0 && stdDev * stdDev == Variance(scores)
    ensures var scores := ValuesOf(keys, ModuleScores(answers, config));
            var composite := CompositeScores(ModuleScores(answers, config), config).compositeScore;
            var r := SayDoScore(Divergences(rs), scores, composite, stdDev);
            && (0.0 <= r <= 1.0 <==> Divergences(rs) != [] || |scores| > 1 || composite >= 0.0)
            && (WeightsNonNegative(config) ==> 0.0 <= r <= 1.0)
            && (Divergences(rs) == [] && |scores| > 1 ==> r >= 0.5 && r == RoundToTwo(1.0 - stdDev))
  {
    hide ModuleScores, CompositeScores, Variance, SayDoScore, Divergences, RoundToTwo, WeightsNonNegative;
    var m := ModuleScores(answers, config);
    var scores := ValuesOf(keys, m);
    ModuleScoresWithin(answers, config);
    if WeightsNonNegative(config) {
      CompositeNonNegative(m, config);
    }
    SayDoWithin(rs, scores, CompositeScores(m, config).compositeScore, stdDev);
    if |scores| > 1 {
      DeviationScoreRange(scores, CompositeScores(m, config).compositeScore, stdDev);
    }
  }

  /** With self-assessments the clamp acts exactly when the mean divergence exceeds 1.005. */
  lemma ClampActsIff(divergences: seq<real>, scores: seq<real>, composite: real, stdDev: real)
    requires divergences != []
    ensures SayDoScore(divergences, scores, composite, stdDev) != RoundToTwo(1.0 - Mean(divergences))
            <==> Mean(divergences) > 1.005
  {
  }
}
