/** Module scores, composite scores and the Say-Do score as functions over the reals. */
module ScoreRules {
  import opened Prelude
  import opened RealSums

  datatype ModuleConf = ModuleConf(
    enabled: bool,
    isBonus: bool,
    weight: Option<real>,
    maxBonusPoints: Option<real>,
    difficultyMode: bool)

  datatype QuestionScore = QuestionScore(questionId: string, accuracy: real, pointShare: Option<real>)

  const MCQ_FALLBACK := 0.8
  const CODING_FALLBACK := 0.85

  function OrZero(v: Option<real>): real {
    if v.Some? then v.value else 0.0
  }

  /** Math.round(v * 100) / 100 */
  function RoundToTwo(v: real): real {
    (v * 100.0 + 0.5).Floor as real / 100.0
  }

  /** Math.max(0, Math.min(1, v)) */
  function Clamp01(v: real): real {
    if v < 0.0 then 0.0 else if v > 1.0 then 1.0 else v
  }

  // ---- Module scores ----

  function Share(q: QuestionScore): real {
    OrZero(q.pointShare)
  }

  function ShareSum(qs: seq<QuestionScore>): real {
    if qs == [] then 0.0 else ShareSum(qs[..|qs| - 1]) + Share(qs[|qs| - 1])
  }

  function EarnedSum(qs: seq<QuestionScore>): real {
    if qs == [] then 0.0 else EarnedSum(qs[..|qs| - 1]) + qs[|qs| - 1].accuracy * Share(qs[|qs| - 1])
  }

  function AccuracySum(qs: seq<QuestionScore>): real {
    if qs == [] then 0.0 else AccuracySum(qs[..|qs| - 1]) + qs[|qs| - 1].accuracy
  }

  predicate HasCustomShares(qs: seq<QuestionScore>) {
    exists i :: 0 <= i < |qs| && qs[i].pointShare.Some?
  }

  predicate ByDifficulty(config: map<string, ModuleConf>, mod: string) {
    mod in config && config[mod].difficultyMode
  }

  function ModuleScore(qs: seq<QuestionScore>, byDifficulty: bool): real
    requires qs != []
  {
    if byDifficulty && HasCustomShares(qs) then
      if ShareSum(qs) > 0.0 then RoundToTwo(EarnedSum(qs) / ShareSum(qs)) else MCQ_FALLBACK
    else
      RoundToTwo(AccuracySum(qs) / |qs| as real)
  }

  function Answered(answers: map<string, seq<QuestionScore>>): set<string> {
    set mod | mod in answers && answers[mod] != []
  }

  function ModuleScores(answers: map<string, seq<QuestionScore>>, config: map<string, ModuleConf>): map<string, real> {
    if Answered(answers) == {} then map["MCQ" := MCQ_FALLBACK, "CODING" := CODING_FALLBACK]
    else map mod | mod in Answered(answers) :: ModuleScore(answers[mod], ByDifficulty(config, mod))
  }

  // ---- Composite scores ----

  function CoreWeight(config: map<string, ModuleConf>): string -> real {
    k => if k in config && config[k].enabled && !config[k].isBonus then OrZero(config[k].weight) else 0.0
  }

  function BonusWeight(config: map<string, ModuleConf>): string -> real {
    k => if k in config && config[k].enabled && config[k].isBonus then OrZero(config[k].maxBonusPoints) else 0.0
  }

  function Weighted(scores: map<string, real>, weight: string -> real): string -> real {
    k => if k in scores then scores[k] * weight(k) else 0.0
  }

  datatype Composite = Composite(coreScore: real, bonusScore: real, totalScore: real, compositeScore: real)

  ghost function CompositeScores(scores: map<string, real>, config: map<string, ModuleConf>): Composite {
    var core := RoundToTwo(SumOver(scores.Keys, Weighted(scores, CoreWeight(config))));
    var bonus := RoundToTwo(SumOver(scores.Keys, Weighted(scores, BonusWeight(config))));
    var total := RoundToTwo(core + bonus);
    Composite(core, bonus, total, total)
  }

  // ---- Weight validation ----

  datatype WeightError = CoreSumNot100(coreSum: real) | BonusAbove20(bonusSum: real)

  datatype WeightCheck = WeightCheck(valid: bool, coreSum: real, bonusSum: real, error: Option<WeightError>)

  ghost function CoreSum(config: map<string, ModuleConf>): real {
    SumOver(config.Keys, CoreWeight(config))
  }

  ghost function BonusSum(config: map<string, ModuleConf>): real {
    SumOver(config.Keys, BonusWeight(config))
  }

  ghost predicate WeightsValid(config: map<string, ModuleConf>) {
    CoreSum(config) == 100.0 && BonusSum(config) <= 20.0
  }

  // ---- Say-Do ----

  /** What the Say-Do loop reads of one response; `usable` is "question found and payload present". */
  datatype Response = Response(
    usable: bool,
    moduleType: string,
    say: Option<real>,
    selectedIndex: Option<int>,
    correctIndex: int,
    lastCodingRun: Option<(int, int)>,
    lastSqlCompleted: Option<bool>)

  function DoValue(r: Response): real {
    if r.moduleType == "MCQ" then
      (if r.selectedIndex == Some(r.correctIndex) then 1.0 else 0.0)
    else if r.moduleType == "CODING" then
      (if r.lastCodingRun.Some? && r.lastCodingRun.value.1 > 0
       then r.lastCodingRun.value.0 as real / r.lastCodingRun.value.1 as real else 0.0)
    else if r.moduleType == "SQL" then
      (if r.lastSqlCompleted == Some(true) then 1.0 else 0.0)
    else 0.0
  }

  function NormalizedSay(say: real): real {
    if say > 1.0 then say / 100.0 else say
  }

  function Abs(x: real): real {
    if x < 0.0 then -x else x
  }

  function Divergences(rs: seq<Response>): seq<real> {
    if rs == [] then []
    else
      var r := rs[|rs| - 1];
      Divergences(rs[..|rs| - 1])
      + if r.usable && r.say.Some? then [Abs(NormalizedSay(r.say.value) - DoValue(r))] else []
  }

  function Mean(s: seq<real>): real
    requires s != []
  {
    Sum(s) / |s| as real
  }

  function Variance(s: seq<real>): real
    requires s != []
  {
    SquaredDeviation(s, Mean(s)) / |s| as real
  }

  function AtLeastZero(v: real): real {
    if v < 0.0 then 0.0 else v
  }

  /** stdDev stands for Math.sqrt of the variance. */
  function SayDoScore(divergences: seq<real>, scores: seq<real>, composite: real, stdDev: real): real {
    if divergences != [] then AtLeastZero(RoundToTwo(1.0 - Mean(divergences)))
    else if |scores| > 1 then AtLeastZero(RoundToTwo(1.0 - stdDev))
    else if composite / 100.0 > 1.0 then 1.0 else composite / 100.0
  }
}

/** The loops of session-scoring.service.ts and drive.ts. */
module ScoringService {
  import opened Prelude
  import opened RealSums
  import opened ScoreRules

  method ValidateDriveModuleWeights(config: map<string, ModuleConf>) returns (r: WeightCheck)
    ensures r.coreSum == CoreSum(config) && r.bonusSum == BonusSum(config)
    ensures r.valid <==> WeightsValid(config)
    ensures r.error == if r.coreSum != 100.0 then Some(CoreSumNot100(r.coreSum))
                       else if r.bonusSum > 20.0 then Some(BonusAbove20(r.bonusSum))
                       else None
  {
    var coreSum, bonusSum := 0.0, 0.0;
    var todo := config.Keys;
    while todo != {}
      invariant todo <= config.Keys
      invariant coreSum + SumOver(todo, CoreWeight(config)) == CoreSum(config)
      invariant bonusSum + SumOver(todo, BonusWeight(config)) == BonusSum(config)
      decreases todo
    {
      var k :| k in todo;
      SumRemove(todo, CoreWeight(config), k);
      SumRemove(todo, BonusWeight(config), k);
      todo := todo - {k};
      var conf := config[k];
      if conf.enabled {
        if conf.isBonus {
          bonusSum := bonusSum + OrZero(conf.maxBonusPoints);
        } else {
          coreSum := coreSum + OrZero(conf.weight);
        }
      }
    }
    if coreSum != 100.0 {
      return WeightCheck(false, coreSum, bonusSum, Some(CoreSumNot100(coreSum)));
    }
    if bonusSum > 20.0 {
      return WeightCheck(false, coreSum, bonusSum, Some(BonusAbove20(bonusSum)));
    }
    r := WeightCheck(true, coreSum, bonusSum, None);
  }

  method CalculateModuleScores(answers: map<string, seq<QuestionScore>>, config: map<string, ModuleConf>)
    returns (scores: map<string, real>)
    ensures scores == ModuleScores(answers, config)
  {
    scores := map[];
    var todo := answers.Keys;
    while todo != {}
      invariant todo <= answers.Keys
      invariant scores.Keys == Answered(answers) - todo
      invariant forall mod :: mod in scores ==> scores[mod] == ModuleScore(answers[mod], ByDifficulty(config, mod))
      decreases todo
    {
      var mod :| mod in todo;
      todo := todo - {mod};
      if answers[mod] != [] {
        scores := scores[mod := ModuleScore(answers[mod], ByDifficulty(config, mod))];
      }
    }
    if scores == map[] {
      scores := map["MCQ" := 0.8, "CODING" := 0.85];
    }
  }

  lemma WeightedTerm(scores: map<string, real>, config: map<string, ModuleConf>, k: string)
    requires k in scores
    ensures var used := k in config && config[k].enabled;
            && Weighted(scores, CoreWeight(config))(k) ==
               (if used && !config[k].isBonus then scores[k] * OrZero(config[k].weight) else 0.0)
            && Weighted(scores, BonusWeight(config))(k) ==
               (if used && config[k].isBonus then scores[k] * OrZero(config[k].maxBonusPoints) else 0.0)
  {
  }

  method CalculateCompositeScores(scores: map<string, real>, config: map<string, ModuleConf>) returns (c: Composite)
    ensures c == CompositeScores(scores, config)
  {
    hide RoundToTwo;
    var coreScore, bonusScore := 0.0, 0.0;
    ghost var coreTerm, bonusTerm := Weighted(scores, CoreWeight(config)), Weighted(scores, BonusWeight(config));
    var todo := scores.Keys;
    while todo != {}
      invariant todo <= scores.Keys
      invariant coreScore + SumOver(todo, coreTerm) == SumOver(scores.Keys, coreTerm)
      invariant bonusScore + SumOver(todo, bonusTerm) == SumOver(scores.Keys, bonusTerm)
      decreases todo
    {
      var k :| k in todo;
      SumRemove(todo, coreTerm, k);
      SumRemove(todo, bonusTerm, k);
      todo := todo - {k};
      WeightedTerm(scores, config, k);
      if k in config && config[k].enabled {
        if config[k].isBonus {
          bonusScore := bonusScore + scores[k] * OrZero(config[k].maxBonusPoints);
        } else {
          coreScore := coreScore + scores[k] * OrZero(config[k].weight);
        }
      }
    }
    coreScore := RoundToTwo(coreScore);
    bonusScore := RoundToTwo(bonusScore);
    var totalScore := RoundToTwo(coreScore + bonusScore);
    c := Composite(coreScore, bonusScore, totalScore, totalScore);
  }

  method CalculateSayDoConsistency(rs: seq<Response>, scores: seq<real>, composite: real, stdDev: real)
    returns (r: real)
    requires |scores| > 1 ==> stdDev >= 0.0 && stdDev * stdDev == Variance(scores)
    ensures r == SayDoScore(Divergences(rs), scores, composite, stdDev)
  {
    hide Prod, Variance, RoundToTwo;
    var divergences: seq<real> := [];
    for i := 0 to |rs|
      invariant divergences == Divergences(rs[..i])
    {
      assert rs[..i + 1][..i] == rs[..i];
      if rs[i].usable {
        if rs[i].say.Some? {
          divergences := divergences + [Abs(NormalizedSay(rs[i].say.value) - DoValue(rs[i]))];
        }
      }
    }
    assert rs[..|rs|] == rs;
    if |divergences| > 0 {
      r := AtLeastZero(RoundToTwo(1.0 - Sum(divergences) / |divergences| as real));
    } else if |scores| > 1 {
      r := AtLeastZero(RoundToTwo(1.0 - stdDev));
    } else {
      r := if composite / 100.0 > 1.0 then 1.0 else composite / 100.0;
    }
  }
}
