/** Which minimums keep the decider and the writer in agreement: exactly those that survive their own rounding. */
module AgreementExact {
  import opened Common
  import opened Rounding
  import opened Models
  import opened Config
  import opened Baseline
  import opened Risk
  import opened Controller
  import opened Writer
  import opened Agreement

  /** Under these guardrails the writer accepts every automatic decision about an address or a complete endpoint. */
  ghost predicate AlwaysAgrees(guard: GuardrailConfig) {
    forall q: Question :: q.Automatic() && q.Scoped() && q.cfg.guardrails == guard ==> q.Verdict() == NoProblem
  }

  /** The same of every baseline whose threshold a learner may set. */
  ghost predicate AgreesOnLearned(guard: GuardrailConfig) {
    forall q: Question :: q.Automatic() && q.Scoped() && q.Learned() && q.cfg.guardrails == guard ==>
      q.Verdict() == NoProblem
  }

  /** The rounding condition is necessary and sufficient: over all baselines, and over those that a learner may have
      set. */
  lemma RoundingConditionIsExact(guard: GuardrailConfig)
    requires guard.Valid()
    ensures AgreesOnLearned(guard) <==> LearnedMinimumsSurvive(guard)
    ensures AlwaysAgrees(guard) <==> MinimumsSurviveRounding(guard)
  {
    hide Round3, Round4, LearnedMinimumsSurvive, MinimumsSurviveRounding;
    ConditionSuffices(guard);
    ConditionIsNeeded(guard);
  }

  lemma ConditionSuffices(guard: GuardrailConfig)
    ensures LearnedMinimumsSurvive(guard) ==> AgreesOnLearned(guard)
    ensures MinimumsSurviveRounding(guard) ==> AlwaysAgrees(guard)
  {
    hide LearnedMinimumsSurvive, MinimumsSurviveRounding, Question.Verdict, Question.Learned;
    forall q: Question | q.Automatic() && q.Scoped() && q.cfg.guardrails == guard && q.MinimumsSurvive()
      ensures q.Verdict() == NoProblem
    {
      DeciderAndWriterAgree(q);
    }
  }

  lemma ConditionIsNeeded(guard: GuardrailConfig)
    requires guard.Valid()
    ensures AgreesOnLearned(guard) ==> LearnedMinimumsSurvive(guard)
    ensures AlwaysAgrees(guard) ==> MinimumsSurviveRounding(guard)
  {
    hide Round3, Round4, AlwaysAgrees, AgreesOnLearned, LeastDeviation;
    AgreesMore(guard);
    if Rung(guard.maximumAutomaticAction) >= 1
       && Round3(guard.minimumConfidenceThrottle) < guard.minimumConfidenceThrottle
    {
      ThrottleRefused(guard);
    }
    if Rung(guard.maximumAutomaticAction) >= 2
       && Round3(guard.minimumConfidenceTemporaryBlock) < guard.minimumConfidenceTemporaryBlock
    {
      BlockRefused(guard);
    }
    var minimum := guard.behaviouralThrottleMinimumDeviation;
    if UsesDeviation(guard) && Round4(minimum) < minimum {
      BehaviouralThrottleRefused(guard);
    }
    if t: nat :| UsesDeviation(guard) && 1 <= t <= MAXIMUM_THRESHOLD && Round4(LeastDeviation(minimum, t)) < minimum {
      LearnedThrottleRefused(guard, t);
    }
  }

  lemma AgreesMore(guard: GuardrailConfig)
    ensures AlwaysAgrees(guard) ==> AgreesOnLearned(guard)
  {
    hide Question.Verdict;
  }

  // ---- Questions that reach a minimum exactly ---------------------------

  const LEARNING: BaselineConfig := BaselineConfig(120, 8, 3.0, 1.0, 5, 600, 0.1, 300)

  function Marks(n: nat): (r: string)
    ensures |r| == n
  {
    seq(n, i => 'x')
  }

  function Row(i: nat): Evidence { Evidence("203.0.113.9", "/login", "sqli", "high", "GET", "curl", Marks(i + 1)) }

  /** n rows of one detector, told apart by their stream identifiers. */
  function Hits(n: nat): (rows: seq<Evidence>)
    ensures |rows| == n
    ensures forall i :: 0 <= i < n ==> rows[i] == Row(i)
  {
    if n == 0 then [] else Hits(n - 1) + [Row(n - 1)]
  }

  /** Settings under which every such row counts half of the scale and the campaign alone gives the confidence. */
  function Scoring(temporaryBlockScore: real): RiskConfig {
    RiskConfig(1.0, 0.0, 0.0, map["sqli" := 50.0], 0.0, map["high" := 1.0], 0.0, temporaryBlockScore, 0.0, 1.0)
  }

  function Settings(guard: GuardrailConfig, temporaryBlockScore: real): AdaptiveConfig {
    AdaptiveConfig(AutomaticMode, LEARNING, Scoring(temporaryBlockScore), guard)
  }

  lemma SettingsValid(guard: GuardrailConfig, temporaryBlockScore: real)
    requires guard.Valid() && 0.0 < temporaryBlockScore <= 100.0
    ensures Settings(guard, temporaryBlockScore).Valid()
  {
    hide GuardrailConfig.Valid;
    var risk := Scoring(temporaryBlockScore);
    assert forall d :: d in risk.detectorPoints ==> d == "sqli";
    assert forall s :: s in risk.severityMultipliers ==> s == "high";
  }

  function Asked(guard: GuardrailConfig, temporaryBlockScore: real, confidence: real, n: nat): Question {
    Question(Settings(guard, temporaryBlockScore), (ip, range) => false, "203.0.113.9",
             Some(Campaign(confidence, "high")),
             Hits(n), None, 0, "p1", 0.0)
  }

  lemma {:induction false} HitsDeterministic(n: nat)
    ensures Deterministic(Hits(n)) == Hits(n)
  {
    hide Marks;
    if n > 0 {
      HitsDeterministic(n - 1);
      DeterministicMore(Hits(n - 1), Row(n - 1));
    }
  }

  lemma DeterministicMore(rows: seq<Evidence>, row: Evidence)
    requires row.detector != DETECTOR_REPUTATION
    ensures Deterministic(rows + [row]) == Deterministic(rows) + [row]
  {
    assert (rows + [row])[..|rows|] == rows;
  }

  lemma {:induction false} HitsStrongest(n: nat, risk: RiskConfig)
    requires risk.detectorPoints == map["sqli" := 50.0] && risk.severityMultipliers == map["high" := 1.0]
    ensures Strongest(risk, Hits(n)) == if n == 0 then 0.0 else 50.0
  {
    hide Marks;
    if n > 0 {
      assert Hits(n)[..n - 1] == Hits(n - 1);
      HitsStrongest(n - 1, risk);
      assert RowPoints(risk, Row(n - 1)) == 50.0;
    }
  }

  lemma {:induction false} HitsIds(n: nat)
    ensures |RowIds(Hits(n))| == n
    ensures forall id :: id in RowIds(Hits(n)) ==> |id| <= n
  {
    hide Marks, RowIds, Hits;
    if n == 0 {
      assert RowIds([]) == {} by { NoIds(); }
    } else {
      HitsIds(n - 1);
      RowIdsStep(n);
    }
  }

  lemma NoIds()
    ensures RowIds([]) == {}
  {
  }

  lemma RowIdsStep(n: nat)
    requires n > 0
    ensures RowIds(Hits(n)) == RowIds(Hits(n - 1)) + {Marks(n)}
  {
    hide Marks, Decimal, Hits;
    var rows, before := Hits(n), Hits(n - 1);
    forall i | 0 <= i < n ensures RowId(rows[i], i) == Marks(i + 1) && RowId(rows[i], i) in RowIds(rows) {}
    forall i | 0 <= i < n - 1 ensures RowId(before[i], i) == Marks(i + 1) && RowId(before[i], i) in RowIds(before) {}
    assert RowId(rows[n - 1], n - 1) == Marks(n);
    forall id ensures id in RowIds(rows) <==> id in RowIds(before) + {Marks(n)} {
      if id in RowIds(rows) {
        var i :| 0 <= i < n && id == RowId(rows[i], i);
        assert i < n - 1 ==> id == RowId(before[i], i);
      }
    }
  }

  /** What the engine answers about an address that no list names, in terms of its scores. */
  lemma AnswerOf(q: Question)
    requires !q.Configured()
    ensures var s := ScoresOf(q.cfg, q.campaign, Deterministic(q.evidence), BaselineOf(q.endpoint),
                              ObservedOf(q.endpoint));
            var d := q.Answer();
            && d.source == Adaptive && d.action == Chosen(q.cfg, s, q.bias) && d.confidence == Round3(s.confidence)
            && d.riskScore == Round2(s.total)
            && d.explanation.deterministicEvidenceCount == s.count
            && d.explanation.deviation == Round4(Deviation(BaselineOf(q.endpoint), ObservedOf(q.endpoint)))
            && d.explanation.behaviouralThrottleAuthorized == s.behavioural
            && d.verb == (if q.endpoint.Some? then q.endpoint.value.key.verb else "")
            && d.routeTemplate == (if q.endpoint.Some? then q.endpoint.value.key.routeTemplate else "")
  {
    hide Round2, Round3, Round4, Deterministic, ScoresOf, Chosen, ThrottleRate, ConfiguredAction, Deviation;
  }

  lemma AskedScores(guard: GuardrailConfig, temporaryBlockScore: real, confidence: real, n: nat)
    requires 0.0 <= confidence <= 1.0 && n > 0
    ensures var q := Asked(guard, temporaryBlockScore, confidence, n);
            ScoresOf(q.cfg, q.campaign, Deterministic(q.evidence), None, 0) == Scores(50.0, n, 50.0, confidence, false)
  {
    hide Deterministic, Hits, Strongest, RowIds;
    HitsDeterministic(n);
    HitsStrongest(n, Scoring(temporaryBlockScore));
    HitsIds(n);
  }

  lemma AskedAnswer(guard: GuardrailConfig, temporaryBlockScore: real, confidence: real, n: nat)
    requires guard.Valid() && 0.0 <= confidence <= 1.0 && n > 0 && 0.0 < temporaryBlockScore <= 100.0
    ensures var q := Asked(guard, temporaryBlockScore, confidence, n);
            var candidate := if 50.0 >= temporaryBlockScore then TempBlock else Throttle;
            && q.Automatic() && q.Scoped() && q.cfg.guardrails == guard
            && q.Answer().source == Adaptive && q.Answer().confidence == Round3(confidence)
            && !q.Answer().explanation.behaviouralThrottleAuthorized
            && q.Answer().action == Guarded(candidate, confidence, 50.0, n, false, guard)
  {
    hide Round3, Deterministic, ScoresOf, Guarded, Hits, GuardrailConfig.Valid, RiskConfig.Valid, Question.Answer;
    var q := Asked(guard, temporaryBlockScore, confidence, n);
    AskedScores(guard, temporaryBlockScore, confidence, n);
    SettingsValid(guard, temporaryBlockScore);
    AnswerOf(q);
    assert Learned(Candidate(50.0, q.cfg.risk), 0) == if 50.0 >= temporaryBlockScore then TempBlock else Throttle;
  }

  lemma ThrottleRefused(guard: GuardrailConfig)
    requires guard.Valid() && Rung(guard.maximumAutomaticAction) >= 1
    requires Round3(guard.minimumConfidenceThrottle) < guard.minimumConfidenceThrottle
    ensures !AgreesOnLearned(guard)
  {
    hide Round3, Asked, Question.Answer;
    var confidence, n := guard.minimumConfidenceThrottle, guard.minimumEvidenceThrottle;
    AskedAnswer(guard, 100.0, confidence, n);
    var q := Asked(guard, 100.0, confidence, n);
    assert Guarded(Throttle, confidence, 50.0, n, false, guard) == Throttle;
    assert q.Learned() by {
      AskedIsLearned(guard, 100.0, confidence, n);
    }
    assert q.Verdict() != NoProblem;
  }

  lemma AskedIsLearned(guard: GuardrailConfig, temporaryBlockScore: real, confidence: real, n: nat)
    ensures Asked(guard, temporaryBlockScore, confidence, n).Learned()
  {
    hide Hits;
  }

  lemma BlockRefused(guard: GuardrailConfig)
    requires guard.Valid() && Rung(guard.maximumAutomaticAction) >= 2
    requires Round3(guard.minimumConfidenceTemporaryBlock) < guard.minimumConfidenceTemporaryBlock
    ensures !AgreesOnLearned(guard)
  {
    hide Round3, Asked, Question.Answer;
    var confidence, n := guard.minimumConfidenceTemporaryBlock, guard.minimumEvidenceTemporaryBlock;
    AskedAnswer(guard, 1.0, confidence, n);
    var q := Asked(guard, 1.0, confidence, n);
    assert Guarded(TempBlock, confidence, 50.0, n, false, guard) == TempBlock;
    assert q.Learned() by {
      AskedIsLearned(guard, 1.0, confidence, n);
    }
    assert q.Verdict() != NoProblem;
  }

  // ---- A deviation that reaches its minimum and rounds below it ---------

  /** Some fraction lies between any two positive numbers, or at the lower one. */
  lemma FractionBetween(x: real, high: real) returns (p: nat, q: nat)
    requires 0.0 < x < high
    ensures q > 0 && x <= p as real / q as real < high
  {
    var gap := high - x;
    q := Max(1, Ceil(1.0 / gap));
    p := Ceil(Times(x, q as real));
    GapFits(gap, q as real);
    FractionFits(x, high, p as real, q as real);
  }

  lemma GapFits(gap: real, q: real)
    requires gap > 0.0 && q >= 1.0 / gap
    ensures Times(q, gap) >= 1.0
  {
    assert 1.0 / gap * gap == 1.0;
    TimesMonotone(gap, 1.0 / gap, q);
  }

  lemma FractionFits(x: real, high: real, p: real, q: real)
    requires q > 0.0 && Times(x, q) <= p < Times(x, q) + 1.0 && Times(q, high - x) >= 1.0
    ensures x <= p / q < high
  {
    assert p / q * q == p;
  }

  lemma TenThousandth(p: real, q: real)
    requires q > 0.0
    ensures p / (10000.0 * q) * 10000.0 == p / q
  {
  }

  lemma RoundHalfEvenNear(k: int, y: real)
    requires k as real <= y < k as real + 0.5
    ensures RoundHalfEven(y) == k
  {
    assert y.Floor == k;
  }

  /** When x rounds below itself, so does some fraction that reaches x. */
  lemma FractionRoundsBelow(x: real) returns (p: nat, q: nat)
    requires x > 0.0 && Round4(x) < x
    ensures q > 0 && p as real / q as real >= x && Round4(p as real / q as real) < x
  {
    var y := x * 10000.0;
    var k := RoundHalfEven(y);
    hide RoundHalfEven;
    assert Round4(x) == k as real / 10000.0;
    assert k as real < y <= k as real + 0.5;
    if y == k as real + 0.5 {
      p, q := 2 * k + 1, 20000;
      assert p as real / q as real == x;
    } else {
      var n, m := FractionBetween(y, k as real + 0.5);
      p, q := n, 10000 * m;
      RoundHalfEvenNear(k, n as real / m as real);
      TenThousandth(n as real, m as real);
      assert Round4(p as real / q as real) == k as real / 10000.0;
    }
  }

  /** A busy minute of an endpoint whose learned threshold is t, with no evidence against the address. */
  function Busy(guard: GuardrailConfig, key: EndpointKey, t: nat, above: nat): Question {
    Question(Settings(guard, 100.0), (ip, range) => false, "203.0.113.9", None, [],
             Some(EndpointObservation(key, t + above, Some(EMPTY.(derivedThreshold := t, ready := true)))), 0, "p1",
               0.0)
  }

  lemma BusyAnswer(guard: GuardrailConfig, key: EndpointKey, t: nat, above: nat)
    requires guard.Valid() && Rung(guard.maximumAutomaticAction) >= 1 && guard.behaviouralThrottleEnabled
    requires t > 0 && above as real / t as real >= guard.behaviouralThrottleMinimumDeviation
    ensures var q := Busy(guard, key, t, above);
            && q.Automatic() && q.Authorized() && !q.Configured()
            && q.Answer().action == Throttle && q.Answer().source == Adaptive
            && q.Answer().explanation.behaviouralThrottleAuthorized
            && q.Answer().explanation.deviation == Round4(above as real / t as real)
            && q.Answer().verb == key.verb && q.Answer().routeTemplate == key.routeTemplate
  {
    hide Round3, Round4, TotalScore, Question.Answer, EvidenceConfidence, BehaviouralConfidence, Settings;
    var q := Busy(guard, key, t, above);
    SettingsValid(guard, 100.0);
    BusyIsScoped(guard, key, t, above);
    BusyDeviation(guard, key, t, above);
    assert RowIds([]) == {};
    AnswerOf(q);
  }

  lemma BusyDeviation(guard: GuardrailConfig, key: EndpointKey, t: nat, above: nat)
    requires t > 0
    ensures var q := Busy(guard, key, t, above);
            Deviation(BaselineOf(q.endpoint), ObservedOf(q.endpoint)) == above as real / t as real
  {
    assert (t + above - t) as real == above as real;
    FractionNonNegative(above as real, t as real);
  }

  lemma FractionNonNegative(p: real, q: real)
    requires p >= 0.0 && q > 0.0
    ensures p / q >= 0.0
  {
  }

  lemma BehaviouralThrottleRefused(guard: GuardrailConfig)
    requires guard.Valid() && Rung(guard.maximumAutomaticAction) >= 1 && guard.behaviouralThrottleEnabled
    requires Round4(guard.behaviouralThrottleMinimumDeviation) < guard.behaviouralThrottleMinimumDeviation
    ensures !AlwaysAgrees(guard)
  {
    hide Round4, Busy, Question.Answer;
    var above, t := FractionRoundsBelow(guard.behaviouralThrottleMinimumDeviation);
    var key := EndpointKey("GET", "/login");
    BusyAnswer(guard, key, t, above);
    BusyIsScoped(guard, key, t, above);
    var q := Busy(guard, key, t, above);
    assert q.Verdict() != NoProblem;
  }

  /** A busy minute at the least deviation that reaches the minimum. */
  lemma LearnedThrottleRefused(guard: GuardrailConfig, t: nat)
    requires guard.Valid() && UsesDeviation(guard) && 1 <= t <= MAXIMUM_THRESHOLD
    requires var minimum := guard.behaviouralThrottleMinimumDeviation; Round4(LeastDeviation(minimum, t)) < minimum
    ensures !AgreesOnLearned(guard)
  {
    hide Round4, Busy, Question.Answer;
    var minimum, key := guard.behaviouralThrottleMinimumDeviation, EndpointKey("GET", "/login");
    LeastDeviationReaches(minimum, t);
    var above := Ceil(Times(minimum, t as real));
    assert above >= 0;
    BusyAnswer(guard, key, t, above);
    BusyIsScoped(guard, key, t, above);
    var q := Busy(guard, key, t, above);
    assert q.Verdict() != NoProblem;
  }

  lemma BusyIsScoped(guard: GuardrailConfig, key: EndpointKey, t: nat, above: nat)
    ensures var q := Busy(guard, key, t, above);
            && q.cfg == Settings(guard, 100.0) && q.cfg.guardrails == guard && q.cfg.mode == AutomaticMode
            && (q.Scoped() <==> key.verb != "" && key.routeTemplate != "")
            && (q.Learned() <==> t <= MAXIMUM_THRESHOLD)
  {
  }

  // ---- Under the shipped settings ---------------------------------------

  const SHIPPED_POINTS: map<string, real> :=
    map["sqli" := 100.0, "traversal" := 100.0, "bruteforce" := 80.0, "flood" := 70.0, "enumeration" := 55.0,
        "unknown_route_scanning" := 60.0, "object_enumeration" := 80.0, "ownership_violation" := 90.0,
          "reputation" := 20.0]

  const SHIPPED_RISK: RiskConfig :=
    RiskConfig(0.5, 0.2, 0.3, SHIPPED_POINTS, 5.0, map["low" := 0.5, "medium" := 0.75, "high" := 1.0], 45.0, 75.0,
               0.55, 0.45)

  const SHIPPED_GUARDRAILS: GuardrailConfig :=
    GuardrailConfig(TempBlock, 0.5, 0.75, 1800, 300, 900, 1800, 10, 300, 60, 0.5, false, 2.0, 300, 1, 2, [], [])

  function Shipped(guard: GuardrailConfig): AdaptiveConfig {
    AdaptiveConfig(AutomaticMode, LEARNING, SHIPPED_RISK, guard)
  }

  lemma ShippedRiskValid()
    ensures SHIPPED_RISK.Valid()
  {
    assert forall d :: d in SHIPPED_POINTS ==> 0.0 <= SHIPPED_POINTS[d] <= 100.0;
  }

  /** The shipped settings meet the condition. */
  lemma ShippedSettingsAgree()
    ensures Shipped(SHIPPED_GUARDRAILS).Valid() && AlwaysAgrees(SHIPPED_GUARDRAILS)
  {
    ShippedRiskValid();
    hide AlwaysAgrees, AgreesOnLearned, MinimumsSurviveRounding, LearnedMinimumsSurvive, RiskConfig.Valid;
    GridMinimumsSurvive(SHIPPED_GUARDRAILS, 500, 750, 20000);
    RoundingConditionIsExact(SHIPPED_GUARDRAILS);
  }

  /** Two proven injections from an address of a believed campaign. */
  function TwoInjections(): Question {
    Question(Shipped(SHIPPED_GUARDRAILS), (ip, range) => false, "203.0.113.9", Some(Campaign(0.9, "high")), Hits(2),
             None, 0, "p1", 0.0)
  }

  /** Under the shipped settings they score 50 for the evidence and 27 for the campaign, and are blocked. */
  lemma TwoInjectionsAreBlocked()
    ensures var d := TwoInjections().Answer(); d.riskScore == 77.0 && d.confidence == 0.955 && d.action == TempBlock
  {
    hide Deterministic, ScoresOf, Chosen, Round2, Round3, Round4, Hits, SHIPPED_POINTS, SHIPPED_RISK, Question.Answer;
    var q := TwoInjections();
    AnswerOf(q);
    TwoInjectionsScore(q);
    RoundsOfTwo();
    BlockChosen(q.cfg);
  }

  lemma RoundsOfTwo()
    ensures Round2(77.0) == 77.0 && Round3(0.955) == 0.955
  {
    assert (77.0 * 100.0).Floor == 7700 && (0.955 * 1000.0).Floor == 955;
  }

  lemma BlockChosen(cfg: AdaptiveConfig)
    requires cfg == Shipped(SHIPPED_GUARDRAILS)
    ensures Chosen(cfg, Scores(100.0, 2, 77.0, 0.955, false), 0) == TempBlock
  {
    hide SHIPPED_POINTS;
    assert Candidate(77.0, cfg.risk) == TempBlock && Learned(TempBlock, 0) == TempBlock;
  }

  lemma TwoInjectionsScore(q: Question)
    requires q == TwoInjections()
    ensures ScoresOf(q.cfg, q.campaign, Deterministic(q.evidence), None, 0) == Scores(100.0, 2, 77.0, 0.955, false)
  {
    HitsDeterministic(2);
    HitsIds(2);
    TwoStrongest();
    hide Deterministic, Hits, RowIds, Strongest, SHIPPED_POINTS;
    assert DeterministicScore(SHIPPED_RISK, Hits(2)) == 100.0;
    assert Lookup(SHIPPED_RISK.severityMultipliers, "high") == 1.0;
    assert CampaignScore(SHIPPED_RISK, q.campaign) == 90.0;
  }

  lemma TwoStrongest()
    ensures Strongest(SHIPPED_RISK, Hits(2)) == 100.0
  {
    hide Marks;
    var rows := Hits(2);
    assert rows[..1] == [Row(0)] && rows[1] == Row(1) && [Row(0)][..0] == [];
    assert RowPoints(SHIPPED_RISK, Row(0)) == 100.0 && RowPoints(SHIPPED_RISK, Row(1)) == 100.0;
    assert Strongest(SHIPPED_RISK, [Row(0)]) == 100.0;
  }

  lemma OffGridSettingsValid()
    ensures Shipped(SHIPPED_GUARDRAILS.(minimumConfidenceThrottle := 0.5504)).Valid()
  {
    ShippedRiskValid();
    hide RiskConfig.Valid, SHIPPED_RISK;
  }

  /** One proven injection from an address of a campaign that is barely believed. */
  function OneInjection(cfg: AdaptiveConfig): Question {
    Question(cfg, (ip, range) => false, "203.0.113.9", Some(Campaign(0.0004 / 0.45, "low")), [Row(0)], None, 0, "p1",
             0.0)
  }

  /** With the throttle minimum at 0.5504 and everything else as shipped, one proven injection gives a throttle that the
      writer refuses: its confidence is 0.5504 where it is decided and 0.55 where it is checked. */
  lemma OffGridMinimumDisagrees()
    ensures var q := OneInjection(Shipped(SHIPPED_GUARDRAILS.(minimumConfidenceThrottle := 0.5504)));
            && q.Automatic() && q.Scoped()
            && q.Answer().action == Throttle && q.Answer().confidence == 0.55
            && q.Verdict() == ConfidenceTooLow
  {
    var q := OneInjection(Shipped(SHIPPED_GUARDRAILS.(minimumConfidenceThrottle := 0.5504)));
    OffGridSettingsValid();
    hide Question.Answer, AdaptiveConfig.Valid, SHIPPED_POINTS, SHIPPED_RISK, Row, ScoresOf, Deterministic;
    assert !q.Configured();
    OneInjectionScores(q);
    OneInjectionAnswer(q);
  }

  lemma OneInjectionAnswer(q: Question)
    requires q.cfg == Shipped(SHIPPED_GUARDRAILS.(minimumConfidenceThrottle := 0.5504)) && !q.Configured()
             && q.bias == 0
    requires var s := ScoresOf(q.cfg, q.campaign, Deterministic(q.evidence), BaselineOf(q.endpoint),
                               ObservedOf(q.endpoint));
             s.deterministicScore == 100.0 && s.count == 1 && 45.0 <= s.total < 75.0 && s.confidence == 0.5504
               && !s.behavioural
    ensures var d := q.Answer();
            && d.action == Throttle && d.source == Adaptive && d.confidence == 0.55 && d.ttlSeconds == 900
            && !d.explanation.behaviouralThrottleAuthorized
  {
    AnswerOf(q);
    OffGridRounds();
    var s := ScoresOf(q.cfg, q.campaign, Deterministic(q.evidence), BaselineOf(q.endpoint), ObservedOf(q.endpoint));
    OffGridChosen(q.cfg, s);
    hide Round2, Round3, Round4, ScoresOf, Deterministic, Chosen, RiskOf, SHIPPED_POINTS, SHIPPED_RISK;
  }

  lemma OffGridRounds()
    ensures Round3(0.5504) == 0.55
  {
    assert (0.5504 * 1000.0).Floor == 550;
  }

  lemma OffGridChosen(cfg: AdaptiveConfig, s: Scores)
    requires cfg == Shipped(SHIPPED_GUARDRAILS.(minimumConfidenceThrottle := 0.5504))
    requires s.deterministicScore == 100.0 && s.count == 1 && 45.0 <= s.total < 75.0 && s.confidence == 0.5504
             && !s.behavioural
    ensures Chosen(cfg, s, 0) == Throttle
  {
    hide SHIPPED_POINTS;
    assert Candidate(s.total, cfg.risk) == Throttle;
    assert Learned(Throttle, 0) == Throttle;
  }

  lemma OneInjectionScores(q: Question)
    requires q.cfg.risk == SHIPPED_RISK && q.campaign == Some(Campaign(0.0004 / 0.45, "low")) && q.evidence == [Row(0)]
    ensures var s := ScoresOf(q.cfg, q.campaign, Deterministic(q.evidence), None, 0);
            s.deterministicScore == 100.0 && s.count == 1 && 45.0 <= s.total < 75.0 && s.confidence == 0.5504
              && !s.behavioural
  {
    OneInjectionRow();
    hide Deterministic, DeterministicScore, Row, RowIds, SHIPPED_POINTS;
    assert Lookup(SHIPPED_RISK.severityMultipliers, "low") == 0.5;
    assert CampaignScore(SHIPPED_RISK, q.campaign) == 0.0004 / 0.45 * 0.5 * 100.0;
  }

  lemma OneInjectionRow()
    ensures Deterministic([Row(0)]) == [Row(0)]
    ensures DeterministicScore(SHIPPED_RISK, [Row(0)]) == 100.0 && |RowIds([Row(0)])| == 1
  {
    hide Marks;
    var row := Row(0);
    assert [row][..0] == [];
    assert [] + [row] == [row];
    DeterministicMore([], row);
    assert RowPoints(SHIPPED_RISK, row) == 100.0;
    assert RowIds([row]) == {RowId(row, 0)};
  }

  /** A burst on an endpoint whose method is blank is throttled by the decider, and the writer refuses to write that. */
  lemma BlankMethodIsRefused(guard: GuardrailConfig, routeTemplate: string, t: nat, above: nat) returns (q: Question)
    requires guard.Valid() && UsesDeviation(guard)
    requires MinimumsSurviveRounding(guard) || (t <= MAXIMUM_THRESHOLD && LearnedMinimumsSurvive(guard))
    requires t > 0 && above as real / t as real >= guard.behaviouralThrottleMinimumDeviation
    ensures q.cfg.guardrails == guard && q.endpoint.Some? && q.endpoint.value.key == EndpointKey.Of(" ", routeTemplate)
    ensures q.Automatic() && q.Answer().action == Throttle && q.Verdict() == NotEndpointScoped
  {
    hide EndpointKey.Of, Question.Answer, Question.Verdict, MinimumsSurviveRounding, LearnedMinimumsSurvive;
    var key := EndpointKey.Of(" ", routeTemplate);
    BlankMethod(routeTemplate);
    BusyAnswer(guard, key, t, above);
    BusyIsScoped(guard, key, t, above);
    q := Busy(guard, key, t, above);
    hide Busy;
    WriterVerdict(q);
  }

  lemma BlankMethod(routeTemplate: string)
    ensures EndpointKey.Of(" ", routeTemplate).verb == ""
  {
    hide EndpointKey.Route;
  }

  // ---- Learned thresholds -----------------------------------------------

  /** The thresholds of ready baselines, over all configurations and all histories of observations, are exactly 1 to the
      maximum. */
  lemma LearnedThresholdsExactly(t: int)
    ensures (exists c: BaselineConfig, h :: c.Valid() && Run(c, h).ready && Run(c, h).derivedThreshold == t) <==>
            1 <= t <= MAXIMUM_THRESHOLD
  {
    if c: BaselineConfig, h :| c.Valid() && Run(c, h).ready && Run(c, h).derivedThreshold == t {
      RunInvariant(c, h);
    }
    if 1 <= t <= MAXIMUM_THRESHOLD {
      OneObservationLearns(t);
    }
  }

  /** One trusted minute sets the only threshold that the limits allow. */
  lemma OneObservationLearns(t: nat)
    requires 1 <= t <= MAXIMUM_THRESHOLD
    ensures var c, h := Only(t), [Observation(0, true, 0.0)];
            c.Valid() && Run(c, h).ready && Run(c, h).derivedThreshold == t
  {
    hide Statistics.Median, Statistics.Mad;
    var c, o := Only(t), Observation(0, true, 0.0);
    assert [o][..0] == [];
    assert Run(c, []) == EMPTY;
  }

  function Only(t: nat): BaselineConfig { BaselineConfig(3, 1, 3.0, 1.0, t, t, 0.1, 300) }

  /** A minimum may round below itself and yet refuse nothing that can be learned: no learned threshold shows a
      deviation between it and the next one that rounds up. */
  lemma HarmlessRounding(guard: GuardrailConfig)
    requires ConfidencesSurvive(guard) && guard.behaviouralThrottleMinimumDeviation == 2.00015 - 0.0000000001
    ensures Round4(guard.behaviouralThrottleMinimumDeviation) < guard.behaviouralThrottleMinimumDeviation
    ensures LearnedMinimumsSurvive(guard)
  {
    var minimum := guard.behaviouralThrottleMinimumDeviation;
    assert (minimum * 10000.0).Floor == 20001;
    assert Round4(2.00015) == 2.0002 by {
      assert (2.00015 * 10000.0).Floor == 20001;
    }
    hide Round3, Round4, LeastDeviation;
    forall t | 1 <= t <= MAXIMUM_THRESHOLD ensures Round4(LeastDeviation(minimum, t)) >= minimum {
      NoneBetween(t);
      RoundsMonotone(2.00015, LeastDeviation(minimum, t));
    }
  }

  lemma NoneBetween(t: nat)
    requires 1 <= t <= MAXIMUM_THRESHOLD
    ensures LeastDeviation(2.00015 - 0.0000000001, t) >= 2.00015
  {
    var p := Ceil(Times(2.00015 - 0.0000000001, t as real));
    assert p as real * 20000.0 >= 40003.0 * t as real - 0.2;
    assert p * 20000 >= 40003 * t;
    QuotientAtLeast(p as real, t as real, 2.00015);
  }
}
