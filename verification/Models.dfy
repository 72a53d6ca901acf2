/** The values that pass between the stages of the decision engine. */
module Models {
  import opened Common

  /** TemporaryBlock is the spelling of TempBlock that adaptive policies have in the store. */
  datatype Action = Monitor | Throttle | TempBlock | Escalate | Allow | TemporaryBlock

  /** The position on ACTION_LADDER, or -1 for an action that is not on it. */
  function Rung(a: Action): int {
    match a
    case Monitor => 0
    case Throttle => 1
    case TempBlock => 2
    case Escalate => 3
    case _ => -1
  }

  /** AUTO_ACTIONS: the ladder without its last rung. */
  predicate IsAutomatic(a: Action) { 0 <= Rung(a) <= 2 }

  function AutoAction(rung: int): (a: Action)
    requires 0 <= rung <= 2
    ensures IsAutomatic(a) && Rung(a) == rung
  {
    if rung == 0 then Monitor else if rung == 1 then Throttle else TempBlock
  }

  datatype Mode = MonitorMode | ManualMode | AutomaticMode | ManualOverride

  datatype Source = Agent | Human | Adaptive | Approved

  datatype Evidence = Evidence(ip: string, endpoint: string, detector: string, severity: string, verb: string,
                               userAgent: string, streamId: string)

  datatype Campaign = Campaign(confidence: real, severity: string)

  /** The parts of a decision's explanation that later stages read back. */
  datatype Explanation = Explanation(
    deterministicEvidenceCount: nat,
    deviation: real,
    baselineReady: bool,
    behaviouralThrottleAuthorized: bool)

  /** Times are seconds. */
  datatype PolicyDecision = PolicyDecision(
    ip: string,
    action: Action,
    confidence: real,
    ttlSeconds: int,
    requestsPerMinute: int,
    source: Source,
    mode: Mode,
    verb: string,
    routeTemplate: string,
    riskScore: real,
    explanation: Explanation,
    policyId: string,
    issuedAt: real,
    supersedesPolicyId: string)
  {
    function ExpiresAt(): real { issuedAt + Max(0, ttlSeconds) as real }

    /** The action as the gateway's store spells it. */
    function WireAction(): Action {
      if action == TempBlock && (source == Adaptive || source == Approved || mode == ManualOverride)
        then TemporaryBlock else action
    }
  }
}
