/** What a window leads to and teaches, in the terms of its counts and of the learned thresholds. */
module ObservingExact {
  import opened Common
  import opened Models
  import opened Config
  import opened Baseline
  import opened Risk
  import opened Rounding
  import opened RiskExact
  import opened Controller
  import opened Observing
  import Text

  // ---- Configured addresses -----------------------------------------------

  predicate Lists(inRange: InRange, ip: string, ranges: seq<string>) {
    exists range :: range in ranges && inRange(ip, range)
  }

  /** The allowlist decides before the blocklist. */
  lemma ConfiguredExactly(inRange: InRange, ip: string, guard: GuardrailConfig)
    ensures var allowed, blocked := Lists(inRange, ip, guard.allowlist), Lists(inRange, ip, guard.blocklist);
            ConfiguredAction(inRange, ip, guard) ==
            if allowed then Some(Allow) else if blocked then Some(TempBlock) else None
  {
    WithinExactly(inRange, ip, guard.allowlist);
    WithinExactly(inRange, ip, guard.blocklist);
  }

  lemma WithinExactly(inRange: InRange, ip: string, ranges: seq<string>)
    ensures Within(inRange, ip, ranges) <==> Lists(inRange, ip, ranges)
  {
    if Lists(inRange, ip, ranges) {
      var range :| range in ranges && inRange(ip, range);
      var i :| 0 <= i < |ranges| && ranges[i] == range;
      assert inRange(ip, ranges[i]);
    }
  }

  /** An operator's ranges decide for the whole address and in the operator's name; an allow lasts as long as any policy
      may. Every other decision is the engine's own, in the mode that is configured and for the endpoint it was taken
      about. */
  lemma DecisionExactly(cfg: AdaptiveConfig, inRange: InRange, ip: string, result: RiskResult,
                        endpoint: Option<EndpointObservation>, requested: Option<Action>, policyId: string, now: real)
    requires cfg.Valid()
    ensures var d, guard := Decision(cfg, inRange, ip, result, endpoint, requested, policyId, now), cfg.guardrails;
            var allowed, blocked := Lists(inRange, ip, guard.allowlist), Lists(inRange, ip, guard.blocklist);
            && d.ip == ip && d.riskScore == result.score && d.confidence == result.confidence
            && d.explanation == result.explanation && d.policyId == policyId && d.issuedAt == now
            && d.requestsPerMinute == (if d.action == Throttle then result.requestsPerMinute else 0)
            && (allowed ==> d.action == Allow && d.ttlSeconds == guard.maximumPolicyDurationSeconds)
            && (blocked && !allowed ==> d.action == TempBlock)
            && (allowed || blocked ==>
                d.source == Human && d.mode == ManualOverride && d.verb == "" && d.routeTemplate == "")
            && (!allowed && !blocked ==>
                && d.source == Adaptive && d.mode == cfg.mode
                && d.action == (if requested.Some? then requested.value else result.action)
                && (endpoint.None? ==> d.verb == "" && d.routeTemplate == "")
                && (endpoint.Some? ==> EndpointKey(d.verb, d.routeTemplate) == endpoint.value.key))
            && (d.action == Monitor ==> d.ttlSeconds == guard.monitorDurationSeconds)
            && (d.action == Throttle ==> d.ttlSeconds == guard.throttleDurationSeconds)
            && (d.action == TempBlock ==> d.ttlSeconds == guard.temporaryBlockDurationSeconds)
  {
    ConfiguredExactly(inRange, ip, cfg.guardrails);
    hide ConfiguredAction, Lists;
  }

  // ---- What a window leads to -----------------------------------------------

  /** An endpoint that is asked for more often than its learned threshold allows, by the configured fraction. */
  predicate Bursts(cfg: AdaptiveConfig, e: Option<EndpointObservation>) {
    e.Some? && IsAuthorized(cfg, e.value.baseline, e.value.observed)
  }

  lemma ThrottledExactly(cfg: AdaptiveConfig, table: Table, w: Window)
    requires cfg.Valid()
    ensures Throttled(cfg, table, w) <==> Bursts(cfg, Context(table, w))
  {
    hide Context, Chosen, Round2, Round3, Round4, ThrottleRate, AdaptiveConfig.Valid;
    var e := Context(table, w);
    AuthorizedExactly(cfg, BaselineOf(e), ObservedOf(e));
  }

  /** A window leads to a proposal for a configured address, or when its most deviant endpoint bursts. The burst
      throttles that endpoint as far as the rails allow, and the score is the weighted excess. */
  lemma WindowProposalExactly(cfg: AdaptiveConfig, inRange: InRange, table: Table, w: Window, policyId: string,
                              now: real)
    requires cfg.Valid()
    ensures var p, guard, e := Proposal(cfg, inRange, table, w, policyId, now), cfg.guardrails, Context(table, w);
            var listed := Lists(inRange, w.ip, guard.allowlist) || Lists(inRange, w.ip, guard.blocklist);
            && (p.Some? <==> listed || Bursts(cfg, e))
            && (p.Some? && !listed ==>
                && p.value.action == (if Rung(guard.maximumAutomaticAction) >= 1 then Throttle else Monitor)
                && EndpointKey(p.value.verb, p.value.routeTemplate) == e.value.key
                && (p.value.action == Throttle ==> IsRate(guard, e.value.baseline, p.value.requestsPerMinute))
                && exists excess :: IsExcess(e.value.baseline, e.value.observed, excess)
                     && Rounds(p.value.riskScore, 100.0, MinR(100.0, cfg.risk.behaviouralWeight * excess)))
  {
    var e, result := Context(table, w), Score(cfg, table, w);
    hide RiskOf, Context, Decision, Rounds, IsExcess, IsRate, IsAuthorized, Lists, Rung, MaturityOf, ConfidenceOf,
      IsShare, IsCampaignScore, AdaptiveConfig.Valid, ConfiguredAction, IsStrongest;
    ConfiguredExactly(inRange, w.ip, cfg.guardrails);
    ThrottledExactly(cfg, table, w);
    DecisionExactly(cfg, inRange, w.ip, result, e, None, policyId, now);
    WindowScore(cfg, BaselineOf(e), ObservedOf(e));
  }

  lemma WindowScore(cfg: AdaptiveConfig, baseline: Option<Summary>, observed: int)
    requires cfg.Valid()
    ensures var r := RiskOf(cfg, None, [], baseline, observed, 0);
            && (IsAuthorized(cfg, baseline, observed) ==>
                r.action == (if Rung(cfg.guardrails.maximumAutomaticAction) >= 1 then Throttle else Monitor))
            && (r.action == Throttle ==> IsRate(cfg.guardrails, baseline, r.requestsPerMinute))
            && exists excess :: IsExcess(baseline, observed, excess)
                 && Rounds(r.score, 100.0, MinR(100.0, cfg.risk.behaviouralWeight * excess))
  {
    hide RiskOf, Rounds, IsExcess, IsRate, IsAuthorized, Rung, MaturityOf, ConfidenceOf, IsShare, IsCampaignScore,
      AdaptiveConfig.Valid, IsStrongest, TotalOf, EvidenceOf, Wanted;
    var f := ComponentsAlone(cfg, None, [], baseline, observed, 0);
    var g := ResultExactly(cfg, None, [], baseline, observed, 0);
    NoEvidence(cfg, None, baseline, observed, 0);
    assert IsExcess(baseline, observed, f.excess)
      && Rounds(RiskOf(cfg, None, [], baseline, observed, 0).score, 100.0,
                MinR(100.0, cfg.risk.behaviouralWeight * f.excess));
  }

  // ---- What a window teaches ------------------------------------------------

  /** A count teaches when its window is safe, its address is not blocked by the operator, and it is not the burst for
      which its endpoint is being throttled. */
  lemma TeachesExactly(cfg: AdaptiveConfig, inRange: InRange, table: Table, w: Window, key: EndpointKey)
    requires cfg.Valid()
    ensures var guard, e := cfg.guardrails, Context(table, w);
            Teaches(cfg, inRange, table, w, key) <==>
            && w.safeToLearn
            && (Lists(inRange, w.ip, guard.blocklist) ==> Lists(inRange, w.ip, guard.allowlist))
            && !(Bursts(cfg, e) && e.value.key == key)
  {
    hide Throttled, Context, Bursts, ConfiguredAction, Lists, AdaptiveConfig.Valid;
    ConfiguredExactly(inRange, w.ip, cfg.guardrails);
    ThrottledExactly(cfg, table, w);
    if Bursts(cfg, Context(table, w)) {
      BurstsSomewhere(cfg, Context(table, w));
    }
  }

  lemma BurstsSomewhere(cfg: AdaptiveConfig, e: Option<EndpointObservation>)
    requires Bursts(cfg, e)
    ensures e.Some?
  {
  }

  /** What the first n counts of a window say about an endpoint. */
  function Said(cfg: AdaptiveConfig, inRange: InRange, table: Table, w: Window, key: EndpointKey, n: nat)
    : seq<Observation>
    requires n <= |w.counts|
  {
    if n == 0 then []
    else
      var c := w.counts[n - 1];
      Said(cfg, inRange, table, w, key, n - 1)
        + (if c.Key() == key then [Observation(c.observed, Teaches(cfg, inRange, table, w, key), w.start)] else [])
  }

  /** What a run of windows says about an endpoint, oldest first; each window is judged by the baselines before it. */
  function History(cfg: AdaptiveConfig, inRange: InRange, ws: seq<Window>, key: EndpointKey): seq<Observation>
    requires cfg.baseline.rollingWindows >= 1
  {
    if ws == [] then []
    else
      var before, w := ws[..|ws| - 1], ws[|ws| - 1];
      History(cfg, inRange, before, key)
        + Said(cfg, inRange, AfterWindows(cfg, inRange, map[], before), w, key, |w.counts|)
  }


  /** An endpoint has a row if something was said about it, and the row is what these observations make of a new one. */
  ghost predicate HoldsRun(cfg: BaselineConfig, table: Table, key: EndpointKey, history: seq<Observation>)
    requires cfg.rollingWindows >= 1
  {
    (key in table <==> history != []) && (key in table ==> table[key] == Run(cfg, history))
  }

  lemma OneMore(cfg: BaselineConfig, table: Table, history: seq<Observation>, key: EndpointKey, other: EndpointKey,
                o: Observation)
    requires cfg.rollingWindows >= 1 && other.Canonical() == other && HoldsRun(cfg, table, key, history)
    ensures HoldsRun(cfg, LearnedOne(cfg, table, other, o.requests, o.trusted, o.now), key,
                     history + (if other == key then [o] else []))
  {
    hide Observed, EndpointKey.Canonical;
    if other == key {
      var more := history + [o];
      assert more[..|history|] == history && more[|history|] == o;
      assert Run(cfg, more) == Observed(cfg, Run(cfg, history), o.requests, o.trusted, o.now);
    } else {
      assert history + [] == history;
    }
  }

  lemma {:induction false} CountsAreSaid(cfg: AdaptiveConfig, inRange: InRange, ws: seq<Window>, w: Window, n: nat,
                                         key: EndpointKey)
    requires cfg.baseline.rollingWindows >= 1 && n <= |w.counts| && MethodsNamed(w)
    requires HoldsRun(cfg.baseline, AfterWindows(cfg, inRange, map[], ws), key, History(cfg, inRange, ws, key))
    ensures var table := AfterWindows(cfg, inRange, map[], ws);
            HoldsRun(cfg.baseline, LearnedFrom(cfg, inRange, table, w, n), key,
                     History(cfg, inRange, ws, key) + Said(cfg, inRange, table, w, key, n))
  {
    hide HoldsRun, Teaches, LearnedOne, EndpointKey.Of, AfterWindows, History;
    var table, history := AfterWindows(cfg, inRange, map[], ws), History(cfg, inRange, ws, key);
    if n == 0 {
      assert history + [] == history;
    } else {
      var c := w.counts[n - 1];
      CountsAreSaid(cfg, inRange, ws, w, n - 1, key);
      CountKeyIsCanonical(c);
      var o := Observation(c.observed, Teaches(cfg, inRange, table, w, c.Key()), w.start);
      var said, more := Said(cfg, inRange, table, w, key, n - 1), if c.Key() == key then [o] else [];
      OneMore(cfg.baseline, LearnedFrom(cfg, inRange, table, w, n - 1), history + said, key, c.Key(), o);
      assert history + said + more == history + (said + more);
    }
  }

  /** The table after any run of windows holds exactly the endpoints that some window counted, and every row is what the
      observations of its own endpoint, in order, make of a new one. What is proved of one row's history therefore holds
      of every row the controller keeps. */
  lemma {:induction false} RowsAreRuns(cfg: AdaptiveConfig, inRange: InRange, ws: seq<Window>, key: EndpointKey)
    requires cfg.baseline.rollingWindows >= 1
    requires forall i :: 0 <= i < |ws| ==> MethodsNamed(ws[i])
    ensures HoldsRun(cfg.baseline, AfterWindows(cfg, inRange, map[], ws), key, History(cfg, inRange, ws, key))
  {
    hide LearnedFrom, Said, MethodsNamed;
    if ws != [] {
      var before, w := ws[..|ws| - 1], ws[|ws| - 1];
      RowsAreRuns(cfg, inRange, before, key);
      CountsAreSaid(cfg, inRange, before, w, |w.counts|, key);
    }
  }

  // ---- The endpoint a campaign attacked --------------------------------------

  /** The rows that name the route and this method, in either case. */
  function Naming(rows: seq<Evidence>, route: string, m: string): set<int> {
    set i | 0 <= i < |rows| && rows[i].endpoint == route && rows[i].verb != "" && Text.Upper(rows[i].verb) == m
  }

  lemma OneMoreNaming(front: seq<Evidence>, last: Evidence, route: string, m: string)
    ensures var one := last.endpoint == route && last.verb != "" && Text.Upper(last.verb) == m;
            |Naming(front + [last], route, m)| == |Naming(front, route, m)| + if one then 1 else 0
  {
    hide Text.Upper;
    var n, rows := |front|, front + [last];
    var one := last.endpoint == route && last.verb != "" && Text.Upper(last.verb) == m;
    assert rows[n] == last && forall i :: 0 <= i < n ==> rows[i] == front[i];
    assert n !in Naming(front, route, m);
    assert Naming(rows, route, m) == Naming(front, route, m) + if one then {n} else {};
  }

  /** Every method is counted once for each row that names it. */
  lemma {:induction false} MethodsExactly(rows: seq<Evidence>, route: string, m: string)
    ensures multiset(MethodsOn(rows, route))[m] == |Naming(rows, route, m)|
  {
    hide Text.Upper;
    if rows == [] {
      assert Naming(rows, route, m) == {};
    } else {
      var front, last := rows[..|rows| - 1], rows[|rows| - 1];
      MethodsExactly(front, route, m);
      OneMoreNaming(front, last, route, m);
      assert front + [last] == rows;
      hide Naming;
    }
  }
}
