/** The validated configuration of the adaptive decisions. */
module Config {
  import opened Common
  import opened Models
  import opened Baseline

  datatype RiskConfig = RiskConfig(
    deterministicWeight: real,
    behaviouralWeight: real,
    campaignWeight: real,
    detectorPoints: map<string, real>,
    repeatedEvidenceIncrement: real,
    severityMultipliers: map<string, real>,
    throttleScore: real,
    temporaryBlockScore: real,
    confidenceDeterministicWeight: real,
    confidenceCampaignWeight: real)
  {
    ghost predicate Valid() {
      && 0.0 <= deterministicWeight <= 1.0 && 0.0 <= behaviouralWeight <= 1.0 && 0.0 <= campaignWeight <= 1.0
      && 0.99 <= deterministicWeight + behaviouralWeight + campaignWeight <= 1.01
      && 0.0 <= throttleScore < temporaryBlockScore <= 100.0
      && (forall d :: d in detectorPoints ==> 0.0 <= detectorPoints[d] <= 100.0)
      && 0.0 <= repeatedEvidenceIncrement <= 100.0
      && (forall s :: s in severityMultipliers ==> 0.0 <= severityMultipliers[s] <= 1.0)
      && 0.0 <= confidenceDeterministicWeight <= 1.0 && 0.0 <= confidenceCampaignWeight <= 1.0
      && 0.99 <= confidenceDeterministicWeight + confidenceCampaignWeight <= 1.01
    }
  }

  datatype GuardrailConfig = GuardrailConfig(
    maximumAutomaticAction: Action,
    minimumConfidenceThrottle: real,
    minimumConfidenceTemporaryBlock: real,
    maximumPolicyDurationSeconds: int,
    monitorDurationSeconds: int,
    throttleDurationSeconds: int,
    temporaryBlockDurationSeconds: int,
    minimumThrottleRpm: int,
    maximumThrottleRpm: int,
    defaultThrottleRpm: int,
    throttleBaselineFraction: real,
    behaviouralThrottleEnabled: bool,
    behaviouralThrottleMinimumDeviation: real,
    policyCooldownSeconds: int,
    minimumEvidenceThrottle: int,
    minimumEvidenceTemporaryBlock: int,
    allowlist: seq<string>,
    blocklist: seq<string>)
  {
    ghost predicate Valid() {
      && IsAutomatic(maximumAutomaticAction)
      && 0.0 <= minimumConfidenceThrottle <= minimumConfidenceTemporaryBlock <= 1.0
      && 30 <= maximumPolicyDurationSeconds <= 86_400
      && 0 < monitorDurationSeconds <= maximumPolicyDurationSeconds
      && 0 < throttleDurationSeconds <= maximumPolicyDurationSeconds
      && 0 < temporaryBlockDurationSeconds <= maximumPolicyDurationSeconds
      && 1 <= minimumThrottleRpm <= defaultThrottleRpm <= maximumThrottleRpm <= 100_000
      && 0.01 <= throttleBaselineFraction <= 1.0
      && 0.1 <= behaviouralThrottleMinimumDeviation <= 100.0
      && 0 <= policyCooldownSeconds <= 86_400
      && 1 <= minimumEvidenceThrottle <= minimumEvidenceTemporaryBlock
    }
  }

  datatype AdaptiveConfig = AdaptiveConfig(mode: Mode, baseline: BaselineConfig, risk: RiskConfig,
                                           guardrails: GuardrailConfig)
  {
    ghost predicate Valid() {
      mode != ManualOverride && baseline.Valid() && risk.Valid() && guardrails.Valid()
    }
  }
}
