/** What the scoring rules give on single modules, single answers and single responses, in plain numbers. */
module ScoringLaws {
  import opened Prelude
  import opened RealSums
  import opened ScoreRules
  import opened ScoringTheorems

  // ---- Rounding and clamping ----

  lemma FloorIs(x: real, n: int)
    ensures x.Floor == n <==> n as real <= x < n as real + 1.0
  {
  }

  lemma HundredthIs(m: int, n: int)
    ensures m as real / 100.0 == n as real / 100.0 <==> m == n
  {
  }

  /** Rounding gives n hundredths exactly from half a hundredth below to, but not including, half a hundredth above. */
  lemma RoundExactly(v: real, n: int)
    ensures RoundToTwo(v) == n as real / 100.0 <==> n as real / 100.0 - 0.005 <= v < n as real / 100.0 + 0.005
  {
    FloorIs(v * 100.0 + 0.5, n);
    HundredthIs((v * 100.0 + 0.5).Floor, n);
  }

  /** The clamp gives the nearest accuracy there is. */
  lemma ClampIsNearest(v: real, u: real)
    requires 0.0 <= u <= 1.0
    ensures 0.0 <= Clamp01(v) <= 1.0 && Abs(Clamp01(v) - v) <= Abs(u - v)
  {
  }

  // ---- Which modules score by shares ----

  /** A right answer with share 3 and a wrong one with share 1. */
  const UNEVEN: seq<QuestionScore> := [QuestionScore("a", 1.0, Some(3.0)), QuestionScore("b", 0.0, Some(1.0))]

  /** A configured module in difficulty mode scores by shares; any other scores the plain mean. */
  lemma ModeDecides(config: map<string, ModuleConf>, mod: string)
    ensures ModuleScores(map[mod := UNEVEN], config)
            == map[mod := if mod in config && config[mod].difficultyMode then 0.75 else 0.5]
  {
    var a, b := UNEVEN[0], UNEVEN[1];
    TwoSums(a, b);
    assert UNEVEN == [a, b];
    AppendedSums([a], [b]);
    OneSums(a);
    OneSums(b);
    assert [a] + [b] == UNEVEN && UNEVEN[0].pointShare.Some?;
    RoundFixesHundredths(75);
    RoundFixesHundredths(50);
    assert Answered(map[mod := UNEVEN]) == {mod};
  }

  /** Without any share the mode makes no difference. */
  lemma SharesNeeded(qs: seq<QuestionScore>)
    requires qs != [] && forall i :: 0 <= i < |qs| ==> qs[i].pointShare.None?
    ensures ModuleScore(qs, true) == ModuleScore(qs, false)
  {
  }

  // ---- Composites ----

  /** The stored composite is the total, core and bonus together. */
  lemma CompositeIsTotal(scores: map<string, real>, config: map<string, ModuleConf>)
    ensures var c := CompositeScores(scores, config);
            c.compositeScore == c.totalScore == c.coreScore + c.bonusScore
  {
    TotalIsExactSum(scores, config);
  }

  /** The rounded product of a score and a weight. */
  function Points(score: real, weight: real): real {
    RoundToTwo(score * weight)
  }

  lemma OneTerm(k: string, score: real, weight: string -> real)
    ensures SumOver((map[k := score]).Keys, Weighted(map[k := score], weight)) == score * weight(k)
  {
    assert (map[k := score]).Keys == {k};
    SumRemove({k}, Weighted(map[k := score], weight), k);
    assert {k} - {k} == {};
  }

  lemma OneSum(k: string, score: real, weight: string -> real)
    ensures RoundToTwo(SumOver((map[k := score]).Keys, Weighted(map[k := score], weight))) == Points(score, weight(k))
  {
    hide RoundToTwo, SumOver, Weighted;
    OneTerm(k, score, weight);
  }

  lemma OneWeight(k: string, conf: ModuleConf)
    ensures CoreWeight(map[k := conf])(k)
            == if conf.enabled && !conf.isBonus && conf.weight.Some? then conf.weight.value else 0.0
    ensures BonusWeight(map[k := conf])(k)
            == if conf.enabled && conf.isBonus && conf.maxBonusPoints.Some? then conf.maxBonusPoints.value else 0.0
  {
  }

  lemma NothingScored(score: real)
    ensures Points(score, 0.0) == 0.0
  {
    assert score * 0.0 == 0.0;
  }

  /** One module: core points from its weight, or bonus points from its maximum, never both; none when disabled. */
  lemma OneModuleComposite(k: string, score: real, conf: ModuleConf)
    ensures var c := CompositeScores(map[k := score], map[k := conf]);
            var weight := if conf.weight.Some? then conf.weight.value else 0.0;
            var bonus := if conf.maxBonusPoints.Some? then conf.maxBonusPoints.value else 0.0;
            && c.coreScore == (if conf.enabled && !conf.isBonus then Points(score, weight) else 0.0)
            && c.bonusScore == (if conf.enabled && conf.isBonus then Points(score, bonus) else 0.0)
  {
    hide SumOver, CoreWeight, BonusWeight, RoundToTwo, Weighted, Points;
    OneSum(k, score, CoreWeight(map[k := conf]));
    OneSum(k, score, BonusWeight(map[k := conf]));
    OneWeight(k, conf);
    NothingScored(score);
  }

  /** Scores of different modules add up before rounding. */
  lemma WeightedAdds(a: map<string, real>, b: map<string, real>, weight: string -> real)
    requires a.Keys !! b.Keys
    ensures SumOver((a + b).Keys, Weighted(a + b, weight))
            == SumOver(a.Keys, Weighted(a, weight)) + SumOver(b.Keys, Weighted(b, weight))
  {
    hide SumOver;
    var all := (a + b).Keys;
    SumAdd(all, Weighted(a, weight), Weighted(b, weight), Weighted(a + b, weight));
    SumOverSupport(all, a.Keys, Weighted(a, weight));
    SumOverSupport(all, b.Keys, Weighted(b, weight));
  }

  const CODING_ONLY: map<string, ModuleConf> := map["CODING" := ModuleConf(true, false, Some(100.0), None, false)]

  /** A session without answers is credited with 85 of 100 core points when only CODING counts. */
  lemma CodingFallback()
    ensures CompositeScores(ModuleScores(map[], CODING_ONLY), CODING_ONLY).coreScore == 85.0
  {
    FallbackComposite(CODING_ONLY);
    RoundFixesHundredths(8500);
  }

  /** A core of 100 and a bonus of 20 pass the weight check; more bonus or another core do not. */
  lemma WeightCheckBoundary(core: real, bonus: real)
    ensures var config := map["MCQ" := ModuleConf(true, false, Some(core), None, false),
                              "SQL" := ModuleConf(true, true, None, Some(bonus), false)];
            WeightsValid(config) <==> core == 100.0 && bonus <= 20.0
  {
    var config := map["MCQ" := ModuleConf(true, false, Some(core), None, false),
                      "SQL" := ModuleConf(true, true, None, Some(bonus), false)];
    assert config.Keys == {"MCQ", "SQL"};
    TwoKeys(CoreWeight(config));
    TwoKeys(BonusWeight(config));
  }

  lemma TwoKeys(f: string -> real)
    ensures SumOver({"MCQ", "SQL"}, f) == f("MCQ") + f("SQL")
  {
    hide SumOver;
    SumRemove({"MCQ", "SQL"}, f, "MCQ");
    assert {"MCQ", "SQL"} - {"MCQ"} == {"SQL"};
    SumRemove({"SQL"}, f, "SQL");
    assert {"SQL"} - {"SQL"} == {};
    SumZero({}, f);
  }

  // ---- Saying and doing ----

  /** What one response adds. */
  function Said(r: Response): seq<real> {
    if r.usable && r.say.Some? then [Abs(NormalizedSay(r.say.value) - DoValue(r))] else []
  }

  lemma LastDivergence(rs: seq<Response>)
    requires rs != []
    ensures Divergences(rs) == Divergences(rs[..|rs| - 1]) + Said(rs[|rs| - 1])
    ensures Divergences([]) == []
  {
    hide DoValue, NormalizedSay, Abs;
  }

  lemma OneDivergence(r: Response)
    ensures Divergences([r]) == Said(r)
  {
    hide Divergences, Said;
    LastDivergence([r]);
    assert [r][..0] == [];
  }

  /** Responses count one by one; one without a question, a payload or a number said does not count. */
  lemma {:induction false} DivergencesAdd(a: seq<Response>, b: seq<Response>)
    ensures Divergences(a + b) == Divergences(a) + Divergences(b)
  {
    hide Divergences, Said;
    if b == [] {
      assert a + b == a;
      assert Divergences([]) == [] by { NothingSaid(); }
    } else {
      var n := |b| - 1;
      DivergencesAdd(a, b[..n]);
      assert (a + b)[..|a| + n] == a + b[..n];
      LastDivergence(a + b);
      LastDivergence(b);
    }
  }

  lemma NothingSaid()
    ensures Divergences([]) == []
  {
  }

  lemma UnsaidCountsNothing(r: Response)
    requires !r.usable || r.say.None?
    ensures Divergences([r]) == []
  {
    OneDivergence(r);
  }

  /** Said with full confidence: a right MCQ answer diverges by 0, a wrong or missing one by 1. */
  lemma McqDivergence(r: Response)
    requires r.usable && r.say == Some(1.0) && r.moduleType == "MCQ"
    ensures Divergences([r]) == if r.selectedIndex == Some(r.correctIndex) then [0.0] else [1.0]
  {
    OneDivergence(r);
  }

  /** Said with full confidence: code diverges by the share of tests its last run failed, by 1 without tests or runs. */
  lemma CodingDivergence(r: Response)
    requires r.usable && r.say == Some(1.0) && r.moduleType == "CODING"
    ensures r.lastCodingRun == None ==> Divergences([r]) == [1.0]
    ensures forall passed: nat, total: nat :: r.lastCodingRun == Some((passed, total)) && passed <= total ==>
              Divergences([r]) == [if total == 0 then 1.0 else (total - passed) as real / total as real]
  {
    OneDivergence(r);
    match r.lastCodingRun {
      case None =>
      case Some((passed, total)) =>
        if 0 <= passed <= total && 0 < total {
          FailedShare(passed, total);
        }
    }
  }

  lemma FailedShare(passed: nat, total: nat)
    requires passed <= total && total > 0
    ensures Abs(1.0 - passed as real / total as real) == (total - passed) as real / total as real
  {
    var v := passed as real / total as real;
    assert v * total as real == passed as real;
    assert v <= 1.0;
    assert (1.0 - v) * total as real == (total - passed) as real;
  }

  /** Said with full confidence: a query diverges by 0 when its last run completed, by 1 otherwise. */
  lemma SqlDivergence(r: Response)
    requires r.usable && r.say == Some(1.0) && r.moduleType == "SQL"
    ensures Divergences([r]) == if r.lastSqlCompleted == Some(true) then [0.0] else [1.0]
  {
    OneDivergence(r);
  }

  /** Other modules count as not done: what is said is the divergence. */
  lemma OtherDivergence(r: Response, say: real)
    requires r.usable && r.moduleType !in {"MCQ", "CODING", "SQL"} && r.say == Some(say) && 0.0 <= say <= 1.0
    ensures Divergences([r]) == [say]
  {
    OneDivergence(r);
  }

  /** A number above one is a percentage. */
  lemma PercentSaid(r: Response, percent: real)
    requires r.usable && r.moduleType == "MCQ" && r.selectedIndex == Some(r.correctIndex)
    requires r.say == Some(percent) && 1.0 < percent <= 100.0
    ensures Divergences([r]) == [1.0 - percent / 100.0]
  {
    OneDivergence(r);
  }

  /** The three readings: the mean divergence, the deviation, the composite as a fraction. */
  lemma SayDoReadings(scores: seq<real>, composite: real, stdDev: real)
    ensures SayDoScore([0.0, 1.0], scores, composite, stdDev) == 0.5
    ensures |scores| > 1 ==> SayDoScore([], scores, composite, 0.25) == 0.75
    ensures |scores| <= 1 && 0.0 <= composite <= 100.0 ==>
              SayDoScore([], scores, composite, stdDev) * 100.0 == composite
    ensures |scores| <= 1 && composite > 100.0 ==> SayDoScore([], scores, composite, stdDev) == 1.0
  {
    var two := [0.0, 1.0];
    assert two[..1] == [0.0] && [0.0][..0] == [];
    assert Sum([0.0]) == 0.0 && Sum(two) == 1.0;
    RoundFixesHundredths(50);
    RoundFixesHundredths(75);
  }
}
