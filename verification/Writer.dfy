/** The last rails before the store. */
module Writer {
  import opened Common
  import opened Models
  import opened Config
  import opened Controller
  import Text

  datatype Problem =
    | NoProblem
    | ModeCannotEnforce
    | AboveCeiling
    | TooLong
    | BehaviouralDisabled
    | BaselineNotReady
    | DeviationTooLow
    | NotEndpointScoped
    | ConfidenceTooLow
    | EvidenceTooLow
    | RateOutOfBounds

  /** Why the writer will not write a decision, or NoProblem. */
  function GuardrailProblem(d: PolicyDecision, cfg: AdaptiveConfig): Problem {
    var guard, e := cfg.guardrails, d.explanation;
    if d.source != Adaptive && d.source != Approved then NoProblem
    else if d.source == Adaptive && cfg.mode != AutomaticMode then ModeCannotEnforce
    else if d.source == Adaptive && IsAutomatic(d.action) && Rung(d.action) > Rung(guard.maximumAutomaticAction)
      then AboveCeiling
    else if d.ttlSeconds > guard.maximumPolicyDurationSeconds then TooLong
    else if d.action == Throttle then
      var basis :=
        if e.behaviouralThrottleAuthorized then
          if !guard.behaviouralThrottleEnabled then BehaviouralDisabled
          else if !e.baselineReady then BaselineNotReady
          else if e.deviation < guard.behaviouralThrottleMinimumDeviation then DeviationTooLow
          else if d.verb == "" || d.routeTemplate == "" then NotEndpointScoped
          else NoProblem
        else
          if d.confidence < guard.minimumConfidenceThrottle then ConfidenceTooLow
          else if e.deterministicEvidenceCount < guard.minimumEvidenceThrottle then EvidenceTooLow
          else NoProblem;
      if basis != NoProblem then basis
      else if !(guard.minimumThrottleRpm <= d.requestsPerMinute <= guard.maximumThrottleRpm) then RateOutOfBounds
      else NoProblem
    else if d.action == TempBlock then
      if d.confidence < guard.minimumConfidenceTemporaryBlock then ConfidenceTooLow
      else if e.deterministicEvidenceCount < guard.minimumEvidenceTemporaryBlock then EvidenceTooLow
      else NoProblem
    else NoProblem
  }

  datatype Rails = Rails(inRange: InRange, isPublic: string -> bool, allowlist: seq<string>, dryRun: bool,
                         maxIpsPerCycle: nat)

  /** A decision that may be written, budget aside. */
  predicate Passes(d: PolicyDecision, rails: Rails, cfg: AdaptiveConfig) {
    && d.action != Monitor
    && rails.isPublic(d.ip)
    && (d.action == Allow || !Within(rails.inRange, d.ip, rails.allowlist + cfg.guardrails.allowlist))
    && GuardrailProblem(d, cfg) == NoProblem
    && d.ttlSeconds > 0
  }

  /** The writer may write it: it acts, on a public address that no allowlist covers unless it allows, for some time,
      within the rails. */
  predicate MayWrite(d: PolicyDecision, rails: Rails, cfg: AdaptiveConfig) {
    && d.action != Monitor && d.ttlSeconds > 0
    && rails.isPublic(d.ip)
    && (d.action != Allow ==>
          (forall i :: 0 <= i < |rails.allowlist| ==> !rails.inRange(d.ip, rails.allowlist[i]))
          && (forall i :: 0 <= i < |cfg.guardrails.allowlist| ==> !rails.inRange(d.ip, cfg.guardrails.allowlist[i])))
    && WithinRails(d, cfg)
  }

  predicate FromEngine(d: PolicyDecision) { d.source == Adaptive || d.source == Approved }

  /** What the engine decides by itself needs automatic mode and its ceiling; what it decided at all needs the longest
      duration, the rates, and the grounds of its action. */
  predicate WithinRails(d: PolicyDecision, cfg: AdaptiveConfig) {
    var guard, e := cfg.guardrails, d.explanation;
    && (d.source == Adaptive ==> cfg.mode == AutomaticMode)
    && (d.source == Adaptive && IsAutomatic(d.action) ==> Rung(d.action) <= Rung(guard.maximumAutomaticAction))
    && (FromEngine(d) ==> d.ttlSeconds <= guard.maximumPolicyDurationSeconds)
    && (FromEngine(d) && d.action == Throttle ==>
          guard.minimumThrottleRpm <= d.requestsPerMinute && d.requestsPerMinute <= guard.maximumThrottleRpm)
    && (FromEngine(d) && d.action == Throttle && e.behaviouralThrottleAuthorized ==>
          guard.behaviouralThrottleEnabled && e.baselineReady
            && e.deviation >= guard.behaviouralThrottleMinimumDeviation
          && d.verb != "" && d.routeTemplate != "")
    && (FromEngine(d) && d.action == Throttle && !e.behaviouralThrottleAuthorized ==>
          d.confidence >= guard.minimumConfidenceThrottle
            && e.deterministicEvidenceCount >= guard.minimumEvidenceThrottle)
    && (FromEngine(d) && d.action == TempBlock ==>
          d.confidence >= guard.minimumConfidenceTemporaryBlock
          && e.deterministicEvidenceCount >= guard.minimumEvidenceTemporaryBlock)
  }

  /** The re-check finds no problem exactly within the rails, and so the writer writes exactly what it may. */
  lemma PassesExactly(d: PolicyDecision, rails: Rails, cfg: AdaptiveConfig)
    ensures GuardrailProblem(d, cfg) == NoProblem <==> WithinRails(d, cfg)
    ensures Passes(d, rails, cfg) <==> MayWrite(d, rails, cfg)
  {
    var own, shared := rails.allowlist, cfg.guardrails.allowlist;
    assert Within(rails.inRange, d.ip, own + shared) <==>
           (exists i :: 0 <= i < |own| && rails.inRange(d.ip, own[i]))
             || (exists i :: 0 <= i < |shared| && rails.inRange(d.ip, shared[i]))
    by {
      WithinEither(rails.inRange, d.ip, own, shared);
    }
    hide Within;
  }

  lemma WithinEither(inRange: InRange, ip: string, a: seq<string>, b: seq<string>)
    ensures Within(inRange, ip, a + b) <==>
            (exists i :: 0 <= i < |a| && inRange(ip, a[i])) || (exists i :: 0 <= i < |b| && inRange(ip, b[i]))
  {
    if i :| 0 <= i < |a| && inRange(ip, a[i]) {
      assert (a + b)[i] == a[i];
    }
    if i :| 0 <= i < |b| && inRange(ip, b[i]) {
      assert (a + b)[|a| + i] == b[i];
    }
  }

  /** The decisions that pass, in order. */
  function Passing(decisions: seq<PolicyDecision>, rails: Rails, cfg: AdaptiveConfig): seq<PolicyDecision> {
    if decisions == [] then []
    else
      var last := decisions[|decisions| - 1];
      Passing(decisions[..|decisions| - 1], rails, cfg) + (if Passes(last, rails, cfg) then [last] else [])
  }

  /** The part of a list that a budget covers. */
  function Affordable(passing: seq<PolicyDecision>, budget: nat): seq<PolicyDecision> {
    if |passing| <= budget then passing else passing[..budget]
  }

  lemma AffordableStep(decisions: seq<PolicyDecision>, i: nat, rails: Rails, cfg: AdaptiveConfig, budget: nat)
    requires i < |decisions|
    ensures var before := Affordable(Passing(decisions[..i], rails, cfg), budget);
            Affordable(Passing(decisions[..i + 1], rails, cfg), budget) ==
            if Passes(decisions[i], rails, cfg) && |before| < budget then before + [decisions[i]] else before
  {
    hide Passes;
    assert decisions[..i + 1][..i] == decisions[..i];
  }

  lemma NothingAffordable(decisions: seq<PolicyDecision>, rails: Rails, cfg: AdaptiveConfig, budget: nat)
    ensures Affordable(Passing(decisions[..0], rails, cfg), budget) == []
  {
  }

  /** The store's key: the address, or the address with the scope it is limited to. */
  datatype PolicyKey = PolicyKey(ip: string, verb: string, routeTemplate: string)

  function KeyOf(d: PolicyDecision): PolicyKey { PolicyKey(d.ip, Text.Upper(d.verb), d.routeTemplate) }

  function Stored(store: map<PolicyKey, PolicyDecision>, written: seq<PolicyDecision>): map<PolicyKey, PolicyDecision> {
    if written == [] then store
    else
      var last := written[|written| - 1];
      Stored(store, written[..|written| - 1])[KeyOf(last) := last]
  }

  lemma StoredStep(store: map<PolicyKey, PolicyDecision>, written: seq<PolicyDecision>, d: PolicyDecision)
    ensures Stored(store, written + [d]) == Stored(store, written)[KeyOf(d) := d]
  {
    assert (written + [d])[..|written|] == written;
  }

  lemma StoredNothing(store: map<PolicyKey, PolicyDecision>)
    ensures Stored(store, []) == store
  {
  }

  /** Whatever is in the store after a call was there before, or is a decision of that call that the writer may
      write. */
  lemma {:induction false} WrittenAreSafe(store: map<PolicyKey, PolicyDecision>, decisions: seq<PolicyDecision>,
                                          rails: Rails,
                                          cfg: AdaptiveConfig, budget: nat, key: PolicyKey)
    requires key in Stored(store, Affordable(Passing(decisions, rails, cfg), budget))
    ensures var d := Stored(store, Affordable(Passing(decisions, rails, cfg), budget))[key];
            || (key in store && store[key] == d)
            || (d in decisions && MayWrite(d, rails, cfg)
                && key == PolicyKey(d.ip, Text.Upper(d.verb), d.routeTemplate))
  {
    var written := Affordable(Passing(decisions, rails, cfg), budget);
    StoredFrom(store, written, key);
    var d := Stored(store, written)[key];
    if d in written {
      PassingExactly(decisions, rails, cfg, d);
    }
    hide Stored, Passing, MayWrite;
  }

  lemma {:induction false} StoredFrom(store: map<PolicyKey, PolicyDecision>, written: seq<PolicyDecision>,
                                      key: PolicyKey)
    requires key in Stored(store, written)
    ensures var d := Stored(store, written)[key]; (key in store && store[key] == d) || (d in written && KeyOf(d) == key)
  {
    if written != [] && KeyOf(written[|written| - 1]) != key {
      StoredFrom(store, written[..|written| - 1], key);
    }
  }

  lemma {:induction false} PassingExactly(decisions: seq<PolicyDecision>, rails: Rails, cfg: AdaptiveConfig,
                                          d: PolicyDecision)
    ensures d in Passing(decisions, rails, cfg) <==> d in decisions && MayWrite(d, rails, cfg)
  {
    hide Passes, MayWrite;
    if decisions != [] {
      var last := decisions[|decisions| - 1];
      PassingExactly(decisions[..|decisions| - 1], rails, cfg, d);
      PassesExactly(last, rails, cfg);
      assert decisions == decisions[..|decisions| - 1] + [last];
    }
  }

  /** While the budget lasts, every decision that the writer may write has its key in the store. */
  lemma WrittenAreComplete(store: map<PolicyKey, PolicyDecision>, decisions: seq<PolicyDecision>, rails: Rails,
                           cfg: AdaptiveConfig, budget: nat, d: PolicyDecision)
    requires d in decisions && MayWrite(d, rails, cfg) && |Passing(decisions, rails, cfg)| <= budget
    ensures PolicyKey(d.ip, Text.Upper(d.verb), d.routeTemplate) in Stored(store,
        Affordable(Passing(decisions, rails, cfg), budget))
  {
    PassingExactly(decisions, rails, cfg, d);
    StoredHas(store, Passing(decisions, rails, cfg), d);
    hide Stored, Passing, MayWrite;
  }

  lemma {:induction false} StoredHas(store: map<PolicyKey, PolicyDecision>, written: seq<PolicyDecision>,
                                     d: PolicyDecision)
    requires d in written
    ensures KeyOf(d) in Stored(store, written)
  {
    var last := written[|written| - 1];
    if last != d {
      assert written == written[..|written| - 1] + [last];
      StoredHas(store, written[..|written| - 1], d);
    }
  }

  method Check(decision: PolicyDecision, rails: Rails, cfg: AdaptiveConfig) returns (ok: bool)
    ensures ok == Passes(decision, rails, cfg)
  {
    hide Within, GuardrailProblem;
    if decision.action == Monitor {
      return false;
    }
    if !rails.isPublic(decision.ip) {
      return false;
    }
    if decision.action != Allow && Within(rails.inRange, decision.ip, rails.allowlist + cfg.guardrails.allowlist) {
      return false;
    }
    if GuardrailProblem(decision, cfg) != NoProblem {
      return false;
    }
    return decision.ttlSeconds > 0;
  }

  class PolicyWriter {
    const rails: Rails
    var adaptive: AdaptiveConfig
    var cycleBudget: Option<nat>
    var store: map<PolicyKey, PolicyDecision>

    constructor (rails: Rails, adaptive: AdaptiveConfig)
      ensures this.rails == rails && this.adaptive == adaptive && cycleBudget == None && store == map[]
    {
      this.rails, this.adaptive := rails, adaptive;
      cycleBudget, store := None, map[];
    }

    method BeginCycle()
      modifies this`cycleBudget
      ensures cycleBudget == Some(rails.maxIpsPerCycle)
    {
      cycleBudget := Some(rails.maxIpsPerCycle);
    }

    /** Applies the decisions that pass the rails, in order, while the cycle's budget lasts. */
    method Write(decisions: seq<PolicyDecision>) returns (written: nat)
      modifies this`cycleBudget, this`store
      ensures var budget := old(cycleBudget).GetOr(rails.maxIpsPerCycle);
              var applied := Affordable(Passing(decisions, rails, adaptive), budget);
              && cycleBudget == (if old(cycleBudget).Some? then Some(budget - |applied|) else None)
              && (rails.dryRun ==> written == 0 && store == old(store))
              && (!rails.dryRun ==> written == |applied| && store == Stored(old(store), applied))
    {
      written := 0;
      var r, cfg := rails, adaptive;
      var budget := cycleBudget.GetOr(r.maxIpsPerCycle);
      ghost var start, before := budget, store;
      ghost var applied: seq<PolicyDecision> := [];
      NothingAffordable(decisions, r, cfg, start);
      StoredNothing(store);
      hide Passes, Passing, Affordable, KeyOf, Stored;
      for i := 0 to |decisions|
        modifies this`store
        invariant applied == Affordable(Passing(decisions[..i], r, cfg), start)
        invariant budget == start - |applied|
        invariant written == (if r.dryRun then 0 else |applied|)
        invariant store == (if r.dryRun then before else Stored(before, applied))
      {
        AffordableStep(decisions, i, r, cfg, start);
        var decision := decisions[i];
        var ok := Check(decision, r, cfg);
        if !ok {
          continue;
        }
        if budget <= 0 {
          continue;
        }
        StoredStep(before, applied, decision);
        applied := applied + [decision];
        if !r.dryRun {
          store := store[KeyOf(decision) := decision];
          written := written + 1;
        }
        budget := budget - 1;
      }
      assert decisions[..|decisions|] == decisions;
      if cycleBudget.Some? {
        cycleBudget := Some(budget);
      }
    }
  }
}
