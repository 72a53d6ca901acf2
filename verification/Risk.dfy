/** From evidence, behaviour and campaign to a score, a confidence and the strongest action the guardrails permit. */
module Risk {
  import opened Common
  import opened Rounding
  import opened Models
  import opened Config
  import opened Baseline

  const DETECTOR_REPUTATION: string := "reputation"

  datatype RiskResult = RiskResult(score: real, confidence: real, action: Action, requestsPerMinute: int,
                                   explanation: Explanation)

  // ---------------------------------------------------------------- evidence

  /** What the gateway itself saw: every row except reputation, in order. */
  function Deterministic(evidence: seq<Evidence>): seq<Evidence> {
    if evidence == [] then []
    else
      var last := evidence[|evidence| - 1];
      Deterministic(evidence[..|evidence| - 1]) + (if last.detector != DETECTOR_REPUTATION then [last] else [])
  }

  function Decimal(n: nat): string {
    if n < 10 then ["0123456789"[n]] else Decimal(n / 10) + ["0123456789"[n % 10]]
  }

  function RowId(row: Evidence, index: nat): string {
    if row.streamId != "" then row.streamId else "unidentified-" + Decimal(index)
  }

  function RowIds(rows: seq<Evidence>): set<string> {
    set i | 0 <= i < |rows| :: RowId(rows[i], i)
  }

  function Lookup(table: map<string, real>, key: string): real {
    if key in table then table[key] else 0.0
  }

  function RowPoints(risk: RiskConfig, row: Evidence): real {
    Clamp(Times(Lookup(risk.detectorPoints, row.detector), Lookup(risk.severityMultipliers, row.severity)), 0.0, 100.0)
  }

  function Strongest(risk: RiskConfig, rows: seq<Evidence>): (s: real)
    ensures s >= 0.0
  {
    if rows == [] then 0.0
    else MaxR(Strongest(risk, rows[..|rows| - 1]), RowPoints(risk, rows[|rows| - 1]))
  }

  function DeterministicScore(risk: RiskConfig, rows: seq<Evidence>): real {
    Clamp(Strongest(risk, rows) + Times(risk.repeatedEvidenceIncrement, Max(0, |RowIds(rows)| - 1) as real), 0.0, 100.0)
  }

  // ---------------------------------------------------------------- scores

  /** How far above its learned threshold the endpoint is, as a fraction; 0 until the baseline is ready. */
  function Deviation(baseline: Option<Summary>, observed: int): real {
    if baseline.None? || !baseline.value.ready || baseline.value.derivedThreshold <= 0 then 0.0
    else MaxR(0.0, (observed - baseline.value.derivedThreshold) as real / baseline.value.derivedThreshold as real)
  }

  predicate BehaviouralThrottle(cfg: AdaptiveConfig, baseline: Option<Summary>, observed: int) {
    && cfg.guardrails.behaviouralThrottleEnabled
    && baseline.Some? && baseline.value.ready && baseline.value.derivedThreshold > 0
    && Deviation(baseline, observed) >= cfg.guardrails.behaviouralThrottleMinimumDeviation
  }

  function CampaignConfidence(campaign: Option<Campaign>): real {
    Clamp(if campaign.Some? then campaign.value.confidence else 0.0, 0.0, 1.0)
  }

  function CampaignScore(risk: RiskConfig, campaign: Option<Campaign>): real {
    var severity := Lookup(risk.severityMultipliers, if campaign.Some? then campaign.value.severity else "low");
    Clamp(Times(CampaignConfidence(campaign), severity) * 100.0, 0.0, 100.0)
  }

  function TotalScore(risk: RiskConfig, deterministicScore: real, deviation: real, campaignScore: real): real {
    Clamp(Times(risk.deterministicWeight, deterministicScore)
          + Times(risk.behaviouralWeight, Clamp(deviation * 100.0, 0.0, 100.0))
          + Times(risk.campaignWeight, campaignScore), 0.0, 100.0)
  }

  function EvidenceConfidence(risk: RiskConfig, deterministicScore: real, campaignConfidence: real): real {
    Clamp(Times(risk.confidenceDeterministicWeight, deterministicScore / 100.0)
          + Times(risk.confidenceCampaignWeight, campaignConfidence), 0.0, 1.0)
  }

  /** Used only for the throttle-only behavioural path. */
  function BehaviouralConfidence(cfg: AdaptiveConfig, baseline: Option<Summary>, observed: int): real {
    if BehaviouralThrottle(cfg, baseline, observed)
    then MinR(1.0, baseline.value.sampleCount as real / Max(cfg.baseline.warmupWindows, 1) as real)
    else 0.0
  }

  function Candidate(score: real, risk: RiskConfig): (a: Action)
    ensures IsAutomatic(a)
  {
    if score >= risk.temporaryBlockScore then TempBlock
    else if score >= risk.throttleScore then Throttle
    else Monitor
  }

  /** Shifts a proposal one rung at most, in the direction of the bias. */
  function Learned(candidate: Action, bias: int): (a: Action)
    requires IsAutomatic(candidate)
    ensures IsAutomatic(a)
    ensures -1 <= Rung(a) - Rung(candidate) <= 1
    ensures bias > 0 ==> Rung(a) == Min(2, Rung(candidate) + 1)
    ensures bias < 0 ==> Rung(a) == Max(0, Rung(candidate) - 1)
    ensures bias == 0 ==> a == candidate
  {
    var step := Max(-1, Min(1, bias));
    AutoAction(Max(0, Min(2, Rung(candidate) + step)))
  }

  // ---------------------------------------------------------------- guardrails

  /** What the rails let the engine do on its own, action by action. */
  predicate Permits(a: Action, confidence: real, deterministicScore: real, count: nat, guard: GuardrailConfig) {
    match a
    case Monitor => true
    case Throttle =>
      && Rung(guard.maximumAutomaticAction) >= 1 && deterministicScore > 0.0
      && count >= guard.minimumEvidenceThrottle && confidence >= guard.minimumConfidenceThrottle
    case TempBlock =>
      && Rung(guard.maximumAutomaticAction) >= 2 && deterministicScore > 0.0
      && count >= guard.minimumEvidenceTemporaryBlock && confidence >= guard.minimumConfidenceTemporaryBlock
    case _ => false
  }

  /** The strongest permitted action that is no stronger than the candidate. */
  function StrongestPermitted(candidate: Action, confidence: real, deterministicScore: real, count: nat,
                              guard: GuardrailConfig): Action
  {
    if Rung(candidate) >= 2 && Permits(TempBlock, confidence, deterministicScore, count, guard) then TempBlock
    else if Rung(candidate) >= 1 && Permits(Throttle, confidence, deterministicScore, count, guard) then Throttle
    else Monitor
  }

  function Guarded(candidate: Action, confidence: real, deterministicScore: real, count: nat, behavioural: bool,
                   guard: GuardrailConfig): Action
  {
    if count == 0 then (if behavioural && Rung(guard.maximumAutomaticAction) >= 1 then Throttle else Monitor)
    else StrongestPermitted(candidate, confidence, deterministicScore, count, guard)
  }

  method Guard(candidate: Action, confidence: real, deterministicScore: real, count: nat, behavioural: bool,
               cfg: AdaptiveConfig)
    returns (action: Action)
    requires IsAutomatic(candidate) && cfg.Valid()
    ensures action == Guarded(candidate, confidence, deterministicScore, count, behavioural, cfg.guardrails)
  {
    var guard := cfg.guardrails;
    action := candidate;
    if count == 0 {
      if !behavioural {
        return Monitor;
      }
      if Rung(guard.maximumAutomaticAction) < Rung(Throttle) {
        return Monitor;
      }
      return Throttle;
    }

    var ceiling := Rung(guard.maximumAutomaticAction);
    if Rung(action) > ceiling {
      action := AutoAction(ceiling);
    }

    if action == TempBlock {
      if count < guard.minimumEvidenceTemporaryBlock {
        action := Throttle;
      } else if confidence < guard.minimumConfidenceTemporaryBlock {
        action := Throttle;
      }
    }

    if action == Throttle {
      if count < guard.minimumEvidenceThrottle {
        action := Monitor;
      } else if confidence < guard.minimumConfidenceThrottle {
        action := Monitor;
      }
    }

    if deterministicScore <= 0.0 {
      action := Monitor;
    }
  }

  function ThrottleRate(action: Action, baseline: Option<Summary>, guard: GuardrailConfig): int {
    if action != Throttle then 0
    else
      var proposed :=
        if baseline.Some? && baseline.value.ready && baseline.value.derivedThreshold > 0
        then RoundHalfEven(Times(guard.throttleBaselineFraction, baseline.value.derivedThreshold as real))
        else guard.defaultThrottleRpm;
      Max(guard.minimumThrottleRpm, Min(guard.maximumThrottleRpm, proposed))
  }

  // ---------------------------------------------------------------- the whole calculation

  /** The scores before rounding. */
  datatype Scores = Scores(deterministicScore: real, count: nat, total: real, confidence: real, behavioural: bool)

  function ScoresOf(cfg: AdaptiveConfig, campaign: Option<Campaign>, rows: seq<Evidence>, baseline: Option<Summary>,
                    observed: int): Scores
  {
    var deterministicScore := DeterministicScore(cfg.risk, rows);
    Scores(deterministicScore,
           |RowIds(rows)|,
           TotalScore(cfg.risk, deterministicScore, Deviation(baseline, observed), CampaignScore(cfg.risk, campaign)),
           MaxR(EvidenceConfidence(cfg.risk, deterministicScore, CampaignConfidence(campaign)),
                BehaviouralConfidence(cfg, baseline, observed)),
           BehaviouralThrottle(cfg, baseline, observed))
  }

  function Chosen(cfg: AdaptiveConfig, s: Scores, learnedBias: int): Action {
    var candidate := if s.behavioural then Throttle else Learned(Candidate(s.total, cfg.risk), learnedBias);
    Guarded(candidate, s.confidence, s.deterministicScore, s.count, s.behavioural, cfg.guardrails)
  }

  function RiskOf(cfg: AdaptiveConfig, campaign: Option<Campaign>, evidence: seq<Evidence>, baseline: Option<Summary>,
                  observed: int, learnedBias: int): RiskResult
  {
    var s := ScoresOf(cfg, campaign, Deterministic(evidence), baseline, observed);
    var action := Chosen(cfg, s, learnedBias);
    RiskResult(Round2(s.total), Round3(s.confidence), action, ThrottleRate(action, baseline, cfg.guardrails),
               Explanation(s.count, Round4(Deviation(baseline, observed)), baseline.Some?
                           && baseline.value.ready, s.behavioural))
  }

  method DeterministicRows(evidence: seq<Evidence>) returns (rows: seq<Evidence>)
    ensures rows == Deterministic(evidence)
  {
    rows := [];
    for i := 0 to |evidence|
      invariant rows == Deterministic(evidence[..i])
    {
      assert evidence[..i + 1][..i] == evidence[..i];
      if evidence[i].detector != DETECTOR_REPUTATION {
        rows := rows + [evidence[i]];
      }
    }
    assert evidence[..|evidence|] == evidence;
  }

  method StrongestPoints(risk: RiskConfig, rows: seq<Evidence>) returns (strongest: real)
    ensures strongest == Strongest(risk, rows)
  {
    hide Times;
    strongest := 0.0;
    for i := 0 to |rows|
      invariant strongest == Strongest(risk, rows[..i])
    {
      assert rows[..i + 1][..i] == rows[..i];
      var base := Lookup(risk.detectorPoints, rows[i].detector);
      var severity := Lookup(risk.severityMultipliers, rows[i].severity);
      strongest := MaxR(strongest, Clamp(Times(base, severity), 0.0, 100.0));
    }
    assert rows[..|rows|] == rows;
  }

  method CalculateRisk(cfg: AdaptiveConfig, campaign: Option<Campaign>, evidence: seq<Evidence>,
                       baseline: Option<Summary>,
                       observedRate: int := 0, learnedBias: int := 0)
    returns (result: RiskResult)
    requires cfg.Valid()
    ensures result == RiskOf(cfg, campaign, evidence, baseline, observedRate, learnedBias)
  {
    hide Times, Round2, Round3, Round4, Guarded, ThrottleRate;
    var risk, guard := cfg.risk, cfg.guardrails;
    var deterministic := DeterministicRows(evidence);
    var count := |RowIds(deterministic)|;
    var strongest := StrongestPoints(risk, deterministic);
    var deterministicScore := Clamp(strongest + Times(risk.repeatedEvidenceIncrement, Max(0, count - 1) as real), 0.0,
                                    100.0);

    var deviation := Deviation(baseline, observedRate);
    var behavioural := BehaviouralThrottle(cfg, baseline, observedRate);
    var campaignConfidence := CampaignConfidence(campaign);
    var total := TotalScore(risk, deterministicScore, deviation, CampaignScore(risk, campaign));

    var confidence := EvidenceConfidence(risk, deterministicScore, campaignConfidence);
    confidence := MaxR(confidence, BehaviouralConfidence(cfg, baseline, observedRate));
    var candidate := if behavioural then Throttle else Candidate(total, risk);
    if !behavioural {
      candidate := Learned(candidate, learnedBias);
    }
    var action := Guard(candidate, confidence, deterministicScore, count, behavioural, cfg);
    result := RiskResult(Round2(total), Round3(confidence), action, ThrottleRate(action, baseline, guard),
                         Explanation(count, Round4(deviation), baseline.Some? && baseline.value.ready, behavioural));
  }
}
