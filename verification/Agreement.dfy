/** The decider and the writer state the same rails twice; they agree through rounding and softening. */
module Agreement {
  import opened Common
  import opened Rounding
  import opened Models
  import opened Config
  import opened Baseline
  import opened Risk
  import opened Controller
  import opened Simulation
  import opened Writer
  import RiskLaws
  import Text

  /** One address in one endpoint context, as the engine is asked about it. */
  datatype Question = Question(
    cfg: AdaptiveConfig,
    inRange: InRange,
    ip: string,
    campaign: Option<Campaign>,
    evidence: seq<Evidence>,
    endpoint: Option<EndpointObservation>,
    bias: int,
    policyId: string,
    now: real)
  {
    ghost predicate Automatic() { cfg.Valid() && cfg.mode == AutomaticMode }

    /** The endpoint, if there is one, has a method and a route. */
    predicate Scoped() { endpoint.Some? ==> endpoint.value.key.verb != "" && endpoint.value.key.routeTemplate != "" }

    predicate Authorized() { BehaviouralThrottle(cfg, BaselineOf(endpoint), ObservedOf(endpoint)) }

    predicate Configured() { ConfiguredAction(inRange, ip, cfg.guardrails).Some? }

    function Answer(): PolicyDecision { Decided(cfg, inRange, ip, campaign, evidence, endpoint, bias, policyId, now) }

    function Verdict(): Problem { GuardrailProblem(Answer(), cfg) }

    /** The threshold, if there is one, is one that a learner may set. */
    predicate Learned() {
      BaselineOf(endpoint).Some? && BaselineOf(endpoint).value.ready ==>
        BaselineOf(endpoint).value.derivedThreshold <= MAXIMUM_THRESHOLD
    }

    /** The minimums survive rounding on every deviation that this question can show. */
    ghost predicate MinimumsSurvive() {
      MinimumsSurviveRounding(cfg.guardrails) || (Learned() && LearnedMinimumsSurvive(cfg.guardrails))
    }
  }

  /** The highest threshold that any configuration allows. */
  const MAXIMUM_THRESHOLD: nat := 100_000

  /** No minimum of confidence that the ceiling brings into use rounds below itself. */
  predicate ConfidencesSurvive(guard: GuardrailConfig) {
    && (Rung(guard.maximumAutomaticAction) >= 1 ==>
          Round3(guard.minimumConfidenceThrottle) >= guard.minimumConfidenceThrottle)
    && (Rung(guard.maximumAutomaticAction) >= 2 ==>
          Round3(guard.minimumConfidenceTemporaryBlock) >= guard.minimumConfidenceTemporaryBlock)
  }

  predicate UsesDeviation(guard: GuardrailConfig) {
    Rung(guard.maximumAutomaticAction) >= 1 && guard.behaviouralThrottleEnabled
  }

  /** No minimum that the ceiling and the switches bring into use rounds below itself. */
  predicate MinimumsSurviveRounding(guard: GuardrailConfig) {
    && ConfidencesSurvive(guard)
    && (UsesDeviation(guard) ==>
          Round4(guard.behaviouralThrottleMinimumDeviation) >= guard.behaviouralThrottleMinimumDeviation)
  }

  /** The least deviation from a threshold that reaches a minimum; rates are whole numbers. */
  function LeastDeviation(minimum: real, threshold: nat): real
    requires threshold > 0
  {
    Ceil(Times(minimum, threshold as real)) as real / threshold as real
  }

  /** The same for the deviations from learned thresholds. */
  ghost predicate LearnedMinimumsSurvive(guard: GuardrailConfig) {
    && ConfidencesSurvive(guard)
    && (UsesDeviation(guard) ==>
          forall t :: 1 <= t <= MAXIMUM_THRESHOLD ==>
            Round4(LeastDeviation(guard.behaviouralThrottleMinimumDeviation,
                                  t)) >= guard.behaviouralThrottleMinimumDeviation)
  }

  lemma LeastDeviationIsLeast(minimum: real, threshold: nat, above: int)
    requires threshold > 0 && above as real / threshold as real >= minimum
    ensures above as real / threshold as real >= LeastDeviation(minimum, threshold)
  {
    hide Times;
    var t, p := threshold as real, Ceil(Times(minimum, threshold as real));
    QuotientAtLeast(above as real, t, minimum);
    assert above >= p;
    QuotientMonotone(p as real, above as real, t);
  }

  lemma LeastDeviationReaches(minimum: real, threshold: nat)
    requires threshold > 0
    ensures LeastDeviation(minimum, threshold) >= minimum
  {
    hide Times;
    QuotientAtLeast(Ceil(Times(minimum, threshold as real)) as real, threshold as real, minimum);
  }

  lemma QuotientMonotone(p: real, r: real, q: real)
    requires q > 0.0 && p <= r
    ensures p / q <= r / q
  {
  }

  /** A deviation that authorises a throttle still does when it is rounded. */
  lemma DeviationSurvives(q: Question)
    requires q.cfg.Valid() && q.MinimumsSurvive() && Rung(q.cfg.guardrails.maximumAutomaticAction) >= 1
             && q.Authorized()
    ensures Round4(Deviation(BaselineOf(q.endpoint),
                             ObservedOf(q.endpoint))) >= q.cfg.guardrails.behaviouralThrottleMinimumDeviation
  {
    hide Round3, Round4, LeastDeviation;
    var guard, baseline := q.cfg.guardrails, BaselineOf(q.endpoint).value;
    var t, minimum := baseline.derivedThreshold, guard.behaviouralThrottleMinimumDeviation;
    MinimumSurvivesRounding4(minimum);
    if !MinimumsSurviveRounding(guard) {
      var above := ObservedOf(q.endpoint) - t;
      assert Deviation(BaselineOf(q.endpoint), ObservedOf(q.endpoint)) == above as real / t as real;
      LeastDeviationIsLeast(minimum, t, above);
      RoundsMonotone(LeastDeviation(minimum, t), above as real / t as real);
    }
  }

  /** Minimums written with at most three and four decimals are their own roundings. */
  lemma GridMinimumsSurvive(guard: GuardrailConfig, throttle: int, temporaryBlock: int, deviation: int)
    requires guard.minimumConfidenceThrottle == throttle as real / 1000.0
    requires guard.minimumConfidenceTemporaryBlock == temporaryBlock as real / 1000.0
    requires guard.behaviouralThrottleMinimumDeviation == deviation as real / 10000.0
    ensures Round3(guard.minimumConfidenceThrottle) == guard.minimumConfidenceThrottle
    ensures Round3(guard.minimumConfidenceTemporaryBlock) == guard.minimumConfidenceTemporaryBlock
    ensures Round4(guard.behaviouralThrottleMinimumDeviation) == guard.behaviouralThrottleMinimumDeviation
    ensures MinimumsSurviveRounding(guard)
  {
    Round3Fixes(throttle);
    Round3Fixes(temporaryBlock);
    Round4Fixes(deviation);
  }

  /** A key made from a method that is not blank names a method and a route. */
  lemma KeysOfRequestsAreScoped(verb: string, routeTemplate: string)
    requires verb == "" || Text.Strip(verb) != ""
    ensures EndpointKey.Of(verb, routeTemplate).verb != "" && EndpointKey.Of(verb, routeTemplate).routeTemplate != ""
  {
    CanonicalRoute(routeTemplate);
    hide Text.Upper, Text.Before;
    assert |EndpointKey.Verb(verb)| == |Text.Strip(if verb == "" then "GET" else verb)|;
  }

  /** The facts behind a chosen throttle or block, after rounding. */
  lemma ChosenFacts(q: Question)
    requires q.cfg.Valid() && q.MinimumsSurvive()
    ensures var r := RiskOf(q.cfg, q.campaign, q.evidence, BaselineOf(q.endpoint), ObservedOf(q.endpoint), q.bias);
            var e, guard := r.explanation, q.cfg.guardrails;
            && e.behaviouralThrottleAuthorized == q.Authorized()
            && (r.action == TempBlock ==>
                  && !e.behaviouralThrottleAuthorized
                  && r.confidence >= guard.minimumConfidenceTemporaryBlock
                  && e.deterministicEvidenceCount >= guard.minimumEvidenceTemporaryBlock)
            && (r.action == Throttle && !e.behaviouralThrottleAuthorized ==>
                  && r.confidence >= guard.minimumConfidenceThrottle
                  && e.deterministicEvidenceCount >= guard.minimumEvidenceThrottle)
            && (r.action == Throttle && e.behaviouralThrottleAuthorized ==>
                  && guard.behaviouralThrottleEnabled && e.baselineReady && q.endpoint.Some?
                  && e.deviation >= guard.behaviouralThrottleMinimumDeviation)
            && (r.action == Throttle ==> guard.minimumThrottleRpm <= r.requestsPerMinute <= guard.maximumThrottleRpm)
  {
    var guard, baseline, observed := q.cfg.guardrails, BaselineOf(q.endpoint), ObservedOf(q.endpoint);
    var s := ScoresOf(q.cfg, q.campaign, Deterministic(q.evidence), baseline, observed);
    MinimumSurvivesRounding3(guard.minimumConfidenceThrottle);
    MinimumSurvivesRounding3(guard.minimumConfidenceTemporaryBlock);
    if Rung(guard.maximumAutomaticAction) >= 1 && q.Authorized() {
      DeviationSurvives(q);
    }
    assert ConfidencesSurvive(guard);
    assert s.behavioural == BehaviouralThrottle(q.cfg, baseline, observed);
    hide ScoresOf, Round2, Round3, Round4, Learned, Candidate, Deterministic, Deviation, RoundHalfEven, Times;
  }

  /** In automatic mode the writer's re-check passes every decision as it is made, except one: the behavioural throttle
      of an endpoint whose key lacks its method or its route. */
  lemma WriterVerdict(q: Question)
    requires q.Automatic() && q.MinimumsSurvive()
    ensures q.Verdict() ==
            if !q.Configured() && q.Authorized() && q.Answer().action == Throttle && !q.Scoped() then NotEndpointScoped
            else NoProblem
  {
    ChosenFacts(q);
    RiskLaws.ResultBounds(q.cfg, q.campaign, q.evidence, BaselineOf(q.endpoint), ObservedOf(q.endpoint), q.bias);
    hide RiskOf, MinimumsSurviveRounding, Within, BehaviouralThrottle;
  }

  /** In automatic mode, every adaptive decision passes the writer's re-check as it is decided. */
  lemma DeciderAndWriterAgree(q: Question)
    requires q.Automatic() && q.Scoped() && q.MinimumsSurvive()
    ensures q.Verdict() == NoProblem
  {
    WriterVerdict(q);
  }

  /** Softening a block to a throttle keeps it acceptable. */
  lemma SoftenedStillPasses(d: PolicyDecision, cfg: AdaptiveConfig)
    requires cfg.Valid() && GuardrailProblem(d, cfg) == NoProblem
    requires d.action == TempBlock ==> !d.explanation.behaviouralThrottleAuthorized && d.requestsPerMinute == 0
    requires d.action != Escalate
    ensures GuardrailProblem(Soften(d, Throttle, cfg.guardrails), cfg) == NoProblem
  {
  }

  /** Whatever the simulator makes of an adaptive decision, if it lets it through the writer accepts it. */
  lemma ReviewedDecisionsPass(q: Question, w: Surroundings)
    requires q.Automatic() && q.Scoped() && q.MinimumsSurvive()
    ensures var r := Reviewed(q.Answer(), w, q.cfg.guardrails);
            r.Some? ==> GuardrailProblem(r.value, q.cfg) == NoProblem && r.value.ttlSeconds > 0
  {
    var d, cfg := q.Answer(), q.cfg;
    DeciderAndWriterAgree(q);
    ChosenFacts(q);
    RiskLaws.ResultBounds(cfg, q.campaign, q.evidence, BaselineOf(q.endpoint), ObservedOf(q.endpoint), q.bias);
    if Reviewed(d, w, cfg.guardrails).Some? {
      ReviewNeverStrengthens(d, w, cfg.guardrails);
      hide RiskOf, MinimumsSurviveRounding, Within, GuardrailProblem, Reviewed, ConfiguredAction;
      if d.source == Adaptive {
        SoftenedStillPasses(d, cfg);
      } else {
        HumanPasses(d, cfg);
        HumanPasses(Soften(d, Throttle, cfg.guardrails), cfg);
      }
    }
  }

  lemma HumanPasses(d: PolicyDecision, cfg: AdaptiveConfig)
    requires d.source == Human
    ensures GuardrailProblem(d, cfg) == NoProblem
  {
  }

  // ---------------------------------------------------------------- one budget per cycle

  lemma {:induction false} PassingConcat(a: seq<PolicyDecision>, b: seq<PolicyDecision>, rails: Rails,
                                         cfg: AdaptiveConfig)
    ensures Passing(a + b, rails, cfg) == Passing(a, rails, cfg) + Passing(b, rails, cfg)
  {
    hide Passes;
    if b == [] {
      assert a + b == a;
    } else {
      assert (a + b)[..|a + b| - 1] == a + b[..|b| - 1];
      PassingConcat(a, b[..|b| - 1], rails, cfg);
    }
  }

  /** Handing the writer its decisions in several calls applies exactly what one call would: the first that pass, up to
      the budget. */
  lemma CallsShareOneBudget(a: seq<PolicyDecision>, b: seq<PolicyDecision>, rails: Rails, cfg: AdaptiveConfig,
                            budget: nat)
    ensures var first := Affordable(Passing(a, rails, cfg), budget);
            first + Affordable(Passing(b, rails, cfg), budget - |first|) ==
              Affordable(Passing(a + b, rails, cfg), budget)
    ensures |Affordable(Passing(a + b, rails, cfg), budget)| <= budget
  {
    PassingConcat(a, b, rails, cfg);
    hide Passing;
  }
}
