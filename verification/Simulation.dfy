/** What a decision would hit besides the attacker. */
module Simulation {
  import opened Common
  import opened Models
  import opened Config
  import opened Controller

  /** The decision, if it is no stronger than the ceiling, and otherwise the ceiling's action in its place. */
  function Soften(d: PolicyDecision, ceiling: Action, guard: GuardrailConfig): PolicyDecision {
    if Rung(d.action) <= Rung(ceiling) then d
    else
      var ttl := if ceiling == Throttle then guard.throttleDurationSeconds
                 else if ceiling == Monitor then guard.monitorDurationSeconds
                 else d.ttlSeconds;
      d.(action := ceiling,
         ttlSeconds := Min(ttl, guard.maximumPolicyDurationSeconds),
         requestsPerMinute := if ceiling == Throttle && d.requestsPerMinute <= 0 then guard.defaultThrottleRpm
           else d.requestsPerMinute)
  }

  datatype Surroundings = Surroundings(
    inRange: InRange,
    allowlist: seq<string>,
    sharedRanges: seq<string>,
    clients: map<string, nat>,
    sharedAddressAgents: nat,
    standing: map<string, Action>)
  {
    function ClientsOf(ip: string): nat { if ip in clients then clients[ip] else 0 }
  }

  /** The decision as it should be applied, or None when it is dropped. */
  function Reviewed(d: PolicyDecision, w: Surroundings, guard: GuardrailConfig): Option<PolicyDecision> {
    if d.action != Allow && Within(w.inRange, d.ip, w.allowlist) then None
    else
      var declared := if Within(w.inRange, d.ip, w.sharedRanges) then Soften(d, Throttle, guard) else d;
      if declared.source == Human then Some(declared)
      else
        var doubted := if w.ClientsOf(d.ip) >= w.sharedAddressAgents && declared.confidence < 0.9
                       then Soften(declared, Throttle, guard) else declared;
        if d.ip in w.standing && Rung(w.standing[d.ip]) > Rung(doubted.action) then None else Some(doubted)
  }

  function ReviewedAll(decisions: seq<PolicyDecision>, w: Surroundings, guard: GuardrailConfig): seq<PolicyDecision> {
    if decisions == [] then []
    else
      var last := Reviewed(decisions[|decisions| - 1], w, guard);
      ReviewedAll(decisions[..|decisions| - 1], w, guard) + (if last.Some? then [last.value] else [])
  }

  method Review(decisions: seq<PolicyDecision>, w: Surroundings, guard: GuardrailConfig)
    returns (approved: seq<PolicyDecision>)
    ensures approved == ReviewedAll(decisions, w, guard)
  {
    approved := [];
    for i := 0 to |decisions|
      invariant approved == ReviewedAll(decisions[..i], w, guard)
    {
      assert decisions[..i + 1][..i] == decisions[..i];
      var decision := decisions[i];
      if decision.action != Allow && Within(w.inRange, decision.ip, w.allowlist) {
        continue;
      }
      if Within(w.inRange, decision.ip, w.sharedRanges) {
        decision := Soften(decision, Throttle, guard);
      }
      if decision.source == Human {
        approved := approved + [decision];
        continue;
      }
      if w.ClientsOf(decision.ip) >= w.sharedAddressAgents {
        if decision.confidence < 0.9 {
          decision := Soften(decision, Throttle, guard);
        }
      }
      if decision.ip in w.standing && Rung(w.standing[decision.ip]) > Rung(decision.action) {
        continue;
      }
      approved := approved + [decision];
    }
    assert decisions[..|decisions|] == decisions;
  }

  /** Review only ever drops a decision or leaves it as strong as it was, except for a block cut to a throttle. */
  lemma ReviewNeverStrengthens(d: PolicyDecision, w: Surroundings, guard: GuardrailConfig)
    requires Reviewed(d, w, guard).Some?
    ensures var r := Reviewed(d, w, guard).value;
            r == d || (Rung(d.action) > Rung(Throttle) && r == Soften(d, Throttle, guard))
    ensures Reviewed(d, w, guard).value.ip == d.ip && Rung(Reviewed(d, w, guard).value.action) <= Rung(d.action)
  {
  }

  /** A softened decision is the throttle of its scope, for the duration of throttles, at its own rate if it has one and
      the default otherwise; nothing else about it changes. */
  lemma SoftenedExactly(d: PolicyDecision, guard: GuardrailConfig)
    requires d.action == TempBlock || d.action == Escalate
    ensures var r := Soften(d, Throttle, guard);
            && r == d.(action := Throttle, ttlSeconds := r.ttlSeconds, requestsPerMinute := r.requestsPerMinute)
            && r.ttlSeconds <= guard.throttleDurationSeconds && r.ttlSeconds <= guard.maximumPolicyDurationSeconds
            && r.ttlSeconds in {guard.throttleDurationSeconds, guard.maximumPolicyDurationSeconds}
            && (d.requestsPerMinute > 0 ==> r.requestsPerMinute == d.requestsPerMinute)
            && (d.requestsPerMinute <= 0 ==> r.requestsPerMinute == guard.defaultThrottleRpm)
  {
  }

  /** Which blocks are cut to a throttle: those against a declared range, whoever decided them; and those of the engine
      against an address with many clients, unless it is nearly certain. An address without evidence has no clients. */
  lemma SoftenedWhen(d: PolicyDecision, w: Surroundings, guard: GuardrailConfig)
    requires d.action == TempBlock && Reviewed(d, w, guard).Some?
    ensures Reviewed(d, w, guard).value.action == Throttle <==>
            || (exists i :: 0 <= i < |w.sharedRanges| && w.inRange(d.ip, w.sharedRanges[i]))
            || (d.source != Human && d.confidence < 0.9
                && if d.ip in w.clients then w.clients[d.ip] >= w.sharedAddressAgents else w.sharedAddressAgents == 0)
  {
  }

  /** No review lets a block through against an address of a range that is declared as shared, whatever its source. */
  lemma SharedRangeIsNeverBlocked(d: PolicyDecision, w: Surroundings, guard: GuardrailConfig)
    requires Within(w.inRange, d.ip, w.sharedRanges) && Reviewed(d, w, guard).Some?
    ensures Rung(Reviewed(d, w, guard).value.action) <= Rung(Throttle)
  {
  }

  /** The standing check keeps a standing block against a decision, as the other checks leave it, if and only if that is
      weaker than a block and the stored spelling of the block is on the ladder. */
  lemma StandingPolicyKept(d: PolicyDecision, standing: PolicyDecision, w: Surroundings, guard: GuardrailConfig)
    requires d.source != Human && standing.action == TempBlock
    requires d.ip in w.standing && w.standing[d.ip] == standing.WireAction()
    requires Reviewed(d, w.(standing := map[]), guard).Some?
    ensures Reviewed(d, w, guard).None? <==>
            && Rung(Reviewed(d, w.(standing := map[]), guard).value.action) < Rung(TempBlock)
            && !(standing.source == Adaptive || standing.source == Approved || standing.mode == ManualOverride)
  {
  }

  /** So a block that the review itself softens takes the place of a standing adaptive block: the address is only
      throttled from then on. */
  lemma SoftenedReplacesStandingBlock(d: PolicyDecision, standing: PolicyDecision, w: Surroundings,
                                      guard: GuardrailConfig)
    requires d.source == Adaptive && d.action == TempBlock && standing.source == Adaptive
             && standing.action == TempBlock
    requires d.ip in w.standing && w.standing[d.ip] == standing.WireAction()
    requires Within(w.inRange, d.ip, w.sharedRanges) && !Within(w.inRange, d.ip, w.allowlist)
    ensures Reviewed(d, w, guard).Some? && Reviewed(d, w, guard).value.action == Throttle
  {
    StandingPolicyKept(d, standing, w, guard);
  }
}
