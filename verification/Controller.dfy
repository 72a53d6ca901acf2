/** Turning a risk result into the decision that is staged and written. */
module Controller {
  import opened Common
  import opened Models
  import opened Config
  import opened Baseline
  import opened Risk
  import Text

  datatype EndpointObservation = EndpointObservation(key: EndpointKey, observed: int, baseline: Option<Summary>)

  /** Whether an address lies in a configured range; addresses that do not parse lie in none. */
  type InRange = (string, string) -> bool

  predicate Within(inRange: InRange, ip: string, ranges: seq<string>) {
    exists i :: 0 <= i < |ranges| && inRange(ip, ranges[i])
  }

  /** A safety allow wins over an overlapping block. */
  function ConfiguredAction(inRange: InRange, ip: string, guard: GuardrailConfig): Option<Action> {
    if Within(inRange, ip, guard.allowlist) then Some(Allow)
    else if Within(inRange, ip, guard.blocklist) then Some(TempBlock)
    else None
  }

  function Duration(action: Action, guard: GuardrailConfig): int {
    var duration := match action
      case Monitor => guard.monitorDurationSeconds
      case Allow => guard.maximumPolicyDurationSeconds
      case Throttle => guard.throttleDurationSeconds
      case TempBlock => guard.temporaryBlockDurationSeconds
      case _ => guard.monitorDurationSeconds;
    Min(duration, guard.maximumPolicyDurationSeconds)
  }

  /** The decision built from a result; a configured address gets its configured action with operator precedence. */
  function Decision(cfg: AdaptiveConfig, inRange: InRange, ip: string, result: RiskResult,
                    endpoint: Option<EndpointObservation>,
                    requested: Option<Action>, policyId: string, now: real): PolicyDecision
  {
    var configured := ConfiguredAction(inRange, ip, cfg.guardrails);
    var selected := configured.GetOr(requested.GetOr(result.action));
    var scoped := endpoint.Some? && configured.None?;
    PolicyDecision(
      ip, selected, result.confidence,
      Duration(selected, cfg.guardrails),
      if selected == Throttle then result.requestsPerMinute else 0,
      if configured.Some? then Human else Adaptive,
      if configured.Some? then ManualOverride else cfg.mode,
      if scoped then endpoint.value.key.verb else "",
      if scoped then endpoint.value.key.routeTemplate else "",
      result.score, result.explanation, policyId, now, "")
  }

  function BaselineOf(endpoint: Option<EndpointObservation>): Option<Summary> {
    if endpoint.Some? then endpoint.value.baseline else None
  }

  function ObservedOf(endpoint: Option<EndpointObservation>): int {
    if endpoint.Some? then endpoint.value.observed else 0
  }

  /** What the controller decides about one address in one endpoint context. */
  function Decided(cfg: AdaptiveConfig, inRange: InRange, ip: string, campaign: Option<Campaign>,
                   evidence: seq<Evidence>,
                   endpoint: Option<EndpointObservation>, bias: int, policyId: string, now: real): PolicyDecision
  {
    var result := RiskOf(cfg, campaign, evidence, BaselineOf(endpoint), ObservedOf(endpoint), bias);
    Decision(cfg, inRange, ip, result, endpoint, None, policyId, now)
  }
}
