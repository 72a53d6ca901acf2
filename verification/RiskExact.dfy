/** What the result of the risk calculation says, in the terms of its inputs. */
module RiskExact {
  import opened Common
  import opened Rounding
  import opened Sums
  import opened Models
  import opened Config
  import opened Baseline
  import opened Risk

  predicate FromGateway(row: Evidence) { row.detector != "reputation" }

  /** The points of the row's detector, weighed by its severity; what is not configured is worth nothing. */
  function Worth(risk: RiskConfig, row: Evidence): real {
    (if row.detector in risk.detectorPoints then risk.detectorPoints[row.detector] else 0.0)
    * (if row.severity in risk.severityMultipliers then risk.severityMultipliers[row.severity] else 0.0)
  }

  /** The worth of the strongest row from the gateway; 0 without any. */
  ghost predicate IsStrongest(risk: RiskConfig, evidence: seq<Evidence>, v: real) {
    && v >= 0.0
    && (forall i :: 0 <= i < |evidence| && FromGateway(evidence[i]) ==> Worth(risk, evidence[i]) <= v)
    && (v == 0.0 || exists i :: 0 <= i < |evidence| && FromGateway(evidence[i]) && Worth(risk, evidence[i]) == v)
  }

  /** The excess over the learned threshold in percent, 100 at most; b is 0 until there is a threshold. */
  predicate IsExcess(baseline: Option<Summary>, observed: int, b: real) {
    if baseline.Some? && baseline.value.ready && 0 < baseline.value.derivedThreshold < observed then
      var t := baseline.value.derivedThreshold;
      if observed >= 2 * t then b == 100.0 else b * t as real == 100.0 * (observed - t) as real
    else b == 0.0
  }

  /** The excess over the learned threshold as a fraction; 0 until there is a threshold. */
  predicate IsDeviation(baseline: Option<Summary>, observed: int, x: real) {
    if baseline.Some? && baseline.value.ready && 0 < baseline.value.derivedThreshold < observed
    then x * baseline.value.derivedThreshold as real == (observed - baseline.value.derivedThreshold) as real
    else x == 0.0
  }

  predicate IsShare(campaign: Option<Campaign>, share: real) {
    && 0.0 <= share <= 1.0
    && (campaign.None? ==> share == 0.0)
    && (campaign.Some? ==>
          (campaign.value.confidence <= 0.0 ==> share == 0.0) && (campaign.value.confidence >= 1.0 ==> share == 1.0)
          && (0.0 <= campaign.value.confidence <= 1.0 ==> share == campaign.value.confidence))
  }

  /** Confidence times severity, in percent; an unknown severity counts nothing. */
  predicate IsCampaignScore(risk: RiskConfig, campaign: Option<Campaign>, share: real, c: real) {
    if campaign.Some? && campaign.value.severity in risk.severityMultipliers
    then c == 100.0 * share * risk.severityMultipliers[campaign.value.severity]
    else c == 0.0
  }

  predicate IsAuthorized(cfg: AdaptiveConfig, baseline: Option<Summary>, observed: int) {
    && cfg.guardrails.behaviouralThrottleEnabled && baseline.Some? && baseline.value.ready
    && baseline.value.derivedThreshold > 0
    && (observed - baseline.value.derivedThreshold) as real >=
       cfg.guardrails.behaviouralThrottleMinimumDeviation * baseline.value.derivedThreshold as real
  }

  /** value is x in units of 1/scale: the nearest, and the even one of two. */
  ghost predicate Rounds(value: real, scale: real, x: real) {
    exists k :: RoundsTo(k, value, scale, x)
  }

  predicate RoundsTo(k: int, value: real, scale: real, x: real) {
    value * scale == k as real && NearestEven(k, x * scale)
  }

  predicate NearestEven(k: int, x: real) {
    k as real - 0.5 <= x <= k as real + 0.5 && (x == k as real - 0.5 || x == k as real + 0.5 ==> k % 2 == 0)
  }

  /** The strongest row and an increment for every further one, 100 at most. */
  function EvidenceOf(risk: RiskConfig, strongest: real, count: nat): real {
    MinR(100.0, strongest + (if count == 0 then 0.0 else risk.repeatedEvidenceIncrement * (count - 1) as real))
  }

  /** The weighted evidence, excess and campaign, 100 at most. */
  function TotalOf(risk: RiskConfig, evidence: real, excess: real, campaign: real): real {
    MinR(100.0, risk.deterministicWeight * evidence + risk.behaviouralWeight * excess + risk.campaignWeight * campaign)
  }

  function ConfidenceOf(risk: RiskConfig, evidence: real, share: real): real {
    MinR(1.0, risk.confidenceDeterministicWeight * evidence / 100.0 + risk.confidenceCampaignWeight * share)
  }

  /** How much of its warm-up an authorised baseline has behind it, 1 at most. */
  function MaturityOf(cfg: AdaptiveConfig, baseline: Option<Summary>, observed: int): real
    requires cfg.baseline.warmupWindows > 0
  {
    if !IsAuthorized(cfg, baseline, observed) then 0.0
    else if baseline.value.sampleCount >= cfg.baseline.warmupWindows then 1.0
    else baseline.value.sampleCount as real / cfg.baseline.warmupWindows as real
  }

  datatype Facts = Facts(strongest: real, count: nat, evidence: real, excess: real, share: real, campaign: real,
                         total: real, confidence: real)

  ghost predicate AreFacts(f: Facts, cfg: AdaptiveConfig, campaign: Option<Campaign>, evidence: seq<Evidence>,
                           baseline: Option<Summary>, observed: int)
    requires cfg.baseline.warmupWindows > 0
  {
    && IsStrongest(cfg.risk, evidence, f.strongest)
    && f.evidence == EvidenceOf(cfg.risk, f.strongest, f.count)
    && IsExcess(baseline, observed, f.excess)
    && IsShare(campaign, f.share) && IsCampaignScore(cfg.risk, campaign, f.share, f.campaign)
    && f.total == TotalOf(cfg.risk, f.evidence, f.excess, f.campaign)
    && f.confidence == MaxR(ConfidenceOf(cfg.risk, f.evidence, f.share), MaturityOf(cfg, baseline, observed))
  }

  /** The rung that the score and the bias ask for: one for each threshold reached, one more or less for the bias,
      within the ladder. */
  function Wanted(risk: RiskConfig, total: real, bias: int): int {
    var reached := (if total >= risk.throttleScore then 1 else 0)
      + (if total >= risk.temporaryBlockScore then 1 else 0);
    var moved := reached + (if bias > 0 then 1 else if bias < 0 then -1 else 0);
    if moved < 0 then 0 else if moved > 2 then 2 else moved
  }

  /** When the rails let the engine throttle. */
  predicate MayThrottle(cfg: AdaptiveConfig, f: Facts, authorized: bool, bias: int) {
    var guard := cfg.guardrails;
    && Rung(guard.maximumAutomaticAction) >= 1
    && if f.count == 0 then authorized
       else
         && (authorized || Wanted(cfg.risk, f.total, bias) >= 1)
         && f.evidence > 0.0 && f.count >= guard.minimumEvidenceThrottle
         && f.confidence >= guard.minimumConfidenceThrottle
  }

  /** When they let it block. */
  predicate MayBlock(cfg: AdaptiveConfig, f: Facts, authorized: bool, bias: int) {
    var guard := cfg.guardrails;
    && Rung(guard.maximumAutomaticAction) >= 2
    && !authorized && Wanted(cfg.risk, f.total, bias) >= 2
    && f.count >= guard.minimumEvidenceTemporaryBlock && f.evidence > 0.0
    && f.confidence >= guard.minimumConfidenceTemporaryBlock
  }

  /** The rate of a throttle: a fraction of the learned threshold, or the default, within the limits. */
  ghost predicate IsRate(guard: GuardrailConfig, baseline: Option<Summary>, rate: int) {
    exists k :: (if baseline.Some? && baseline.value.ready && baseline.value.derivedThreshold > 0
                 then NearestEven(k, guard.throttleBaselineFraction * baseline.value.derivedThreshold as real)
                 else k == guard.defaultThrottleRpm)
                && NearestWithin(guard.minimumThrottleRpm, guard.maximumThrottleRpm, k, rate)
  }

  /** The whole result: the score is the capped sum of the weighted evidence, excess and campaign, the confidence
      likewise; the action is the strongest that the rails permit; and a throttle has its rate. */
  lemma ResultExactly(cfg: AdaptiveConfig, campaign: Option<Campaign>, evidence: seq<Evidence>,
                      baseline: Option<Summary>, observed: int, bias: int) returns (f: Facts)
    requires cfg.Valid()
    ensures AreFacts(f, cfg, campaign, evidence, baseline, observed)
    ensures var r := RiskOf(cfg, campaign, evidence, baseline, observed, bias);
            var authorized := IsAuthorized(cfg, baseline, observed);
            && f.count == r.explanation.deterministicEvidenceCount
            && Rounds(r.score, 100.0, f.total) && Rounds(r.confidence, 1000.0, f.confidence)
            && r.explanation.behaviouralThrottleAuthorized == authorized
            && r.action == (if MayBlock(cfg, f, authorized, bias) then TempBlock
                            else if MayThrottle(cfg, f, authorized, bias) then Throttle else Monitor)
            && (if r.action ==
                Throttle then IsRate(cfg.guardrails, baseline, r.requestsPerMinute) else r.requestsPerMinute == 0)
  {
    var rows := Deterministic(evidence);
    var s := ScoresOf(cfg, campaign, rows, baseline, observed);
    f := FactsOf(cfg, campaign, evidence, baseline, observed);
    RoundExactly(s.total, s.confidence);
    ActionExactly(cfg, f, s, bias);
    RateExactly(cfg, Chosen(cfg, s, bias), baseline);
    hide Deterministic, ScoresOf, Round2, Round3, Round4, Chosen, ThrottleRate, MayBlock, MayThrottle, IsRate,
    AreFacts, IsAuthorized,
      Rounds;
  }

  lemma DeviationExactly(baseline: Option<Summary>, observed: int)
    ensures IsDeviation(baseline, observed, Deviation(baseline, observed))
  {
  }

  /** The explanation tells the deviation to four places, and whether the baseline was ready. */
  lemma ExplanationExactly(cfg: AdaptiveConfig, campaign: Option<Campaign>, evidence: seq<Evidence>,
                           baseline: Option<Summary>, observed: int, bias: int)
    ensures var e := RiskOf(cfg, campaign, evidence, baseline, observed, bias).explanation;
            && (e.baselineReady <==> baseline.Some? && baseline.value.ready)
            && exists x :: IsDeviation(baseline, observed, x) && Rounds(e.deviation, 10000.0, x)
  {
    hide ScoresOf, Chosen, Round2, Round3, ThrottleRate, IsDeviation, Deviation;
    DeviationExactly(baseline, observed);
    var x := Deviation(baseline, observed);
    RoundsToEven(x * 10000.0);
    assert RoundsTo(RoundHalfEven(x * 10000.0), Round4(x), 10000.0, x);
  }

  // ---- The score --------------------------------------------------------

  lemma FactsOf(cfg: AdaptiveConfig, campaign: Option<Campaign>, evidence: seq<Evidence>, baseline: Option<Summary>,
                observed: int) returns (f: Facts)
    requires cfg.Valid()
    ensures AreFacts(f, cfg, campaign, evidence, baseline, observed)
    ensures var s := ScoresOf(cfg, campaign, Deterministic(evidence), baseline, observed);
            && f.count == s.count && f.evidence == s.deterministicScore && f.total == s.total
            && f.confidence == s.confidence
            && s.behavioural == IsAuthorized(cfg, baseline, observed)
  {
    hide Deterministic, RowIds, Strongest, DeterministicScore, Deviation, CampaignConfidence, CampaignScore,
    EvidenceConfidence,
      IsStrongest, IsExcess, IsShare, IsCampaignScore, BehaviouralThrottle, IsAuthorized, Times, TotalScore, Clamp,
      BehaviouralConfidence, EvidenceOf, TotalOf, ConfidenceOf, MaturityOf, MaxR, RiskConfig.Valid,
      GuardrailConfig.Valid;
    var risk, rows := cfg.risk, Deterministic(evidence);
    var share, campaignScore := CampaignConfidence(campaign), CampaignScore(risk, campaign);
    var score, deviation := DeterministicScore(risk, rows), Deviation(baseline, observed);
    var excess := Clamp(deviation * 100.0, 0.0, 100.0);
    EvidenceExactly(risk, rows);
    StrongestExactly(risk, evidence);
    ExcessExactly(baseline, observed);
    CampaignExactly(risk, campaign);
    TotalExactly(risk, score, deviation, campaignScore);
    ConfidenceExactly(risk, score, share);
    AuthorizedExactly(cfg, baseline, observed);
    BehaviourExactly(cfg, baseline, observed);
    f := Facts(Strongest(risk, rows), |RowIds(rows)|, score, excess, share, campaignScore,
               TotalOf(risk, score, excess, campaignScore),
               MaxR(ConfidenceOf(risk, score, share), MaturityOf(cfg, baseline, observed)));
  }

  lemma {:induction false} StrongestExactly(risk: RiskConfig, evidence: seq<Evidence>)
    requires risk.Valid()
    ensures IsStrongest(risk, evidence, Strongest(risk, Deterministic(evidence)))
  {
    hide RowPoints, Worth, RiskConfig.Valid, IsStrongest;
    if evidence == [] {
      NothingStrongest(risk);
    } else {
      var front, last := evidence[..|evidence| - 1], evidence[|evidence| - 1];
      StrongestExactly(risk, front);
      PointsExactly(risk, last);
      var rows := Deterministic(front);
      assert (rows + [last])[..|rows|] == rows;
      assert rows + [] == rows;
      assert evidence == front + [last];
      OneMoreStrongest(risk, front, last, Strongest(risk, rows));
    }
  }

  lemma NothingStrongest(risk: RiskConfig)
    ensures IsStrongest(risk, [], 0.0)
  {
  }

  lemma OneMoreStrongest(risk: RiskConfig, front: seq<Evidence>, last: Evidence, v: real)
    requires IsStrongest(risk, front, v)
    ensures IsStrongest(risk, front + [last], if FromGateway(last) then MaxR(v, Worth(risk, last)) else v)
  {
    hide Worth;
    var evidence := front + [last];
    assert evidence[|front|] == last;
    forall i | 0 <= i < |front| ensures evidence[i] == front[i] {}
  }

  lemma PointsExactly(risk: RiskConfig, row: Evidence)
    requires risk.Valid()
    ensures RowPoints(risk, row) == Worth(risk, row)
  {
    var p, m := Lookup(risk.detectorPoints, row.detector), Lookup(risk.severityMultipliers, row.severity);
    TimesMonotone(p, 0.0, m);
    TimesMonotone(p, m, 1.0);
  }

  lemma EvidenceExactly(risk: RiskConfig, rows: seq<Evidence>)
    requires risk.Valid()
    ensures DeterministicScore(risk, rows) == EvidenceOf(risk, Strongest(risk, rows), |RowIds(rows)|)
    ensures 0.0 <= DeterministicScore(risk, rows) <= 100.0
  {
    hide Strongest, RowIds;
    var n := |RowIds(rows)|;
    TimesMonotone(risk.repeatedEvidenceIncrement, 0.0, Max(0, n - 1) as real);
    if n > 0 {
      assert Max(0, n - 1) == n - 1;
    }
  }

  lemma ExcessExactly(baseline: Option<Summary>, observed: int)
    ensures IsExcess(baseline, observed, Clamp(Deviation(baseline, observed) * 100.0, 0.0, 100.0))
  {
    if baseline.Some? && baseline.value.ready && 0 < baseline.value.derivedThreshold {
      PercentExactly((observed - baseline.value.derivedThreshold) as real, baseline.value.derivedThreshold as real);
    }
  }

  lemma PercentExactly(above: real, t: real)
    requires t > 0.0
    ensures above <= 0.0 ==> above / t <= 0.0
    ensures above >= 0.0 ==> above / t >= 0.0
    ensures above >= t ==> above / t >= 1.0
    ensures above <= t ==> above / t <= 1.0
    ensures above / t * 100.0 * t == 100.0 * above
  {
    assert above / t * t == above;
    if above >= t {
      assert (above - t) / t >= 0.0;
    } else {
      assert (t - above) / t >= 0.0;
    }
  }

  lemma CampaignExactly(risk: RiskConfig, campaign: Option<Campaign>)
    requires risk.Valid()
    ensures IsShare(campaign, CampaignConfidence(campaign)) && CampaignConfidence(campaign) >= 0.0
    ensures IsCampaignScore(risk, campaign, CampaignConfidence(campaign), CampaignScore(risk, campaign))
    ensures 0.0 <= CampaignScore(risk, campaign) <= 100.0
  {
    var share := CampaignConfidence(campaign);
    var m := Lookup(risk.severityMultipliers, if campaign.Some? then campaign.value.severity else "low");
    TimesMonotone(share, 0.0, m);
    TimesMonotone(share, m, 1.0);
    assert share * m * 100.0 == 100.0 * share * m;
  }

  lemma TotalExactly(risk: RiskConfig, evidence: real, deviation: real, campaign: real)
    requires risk.Valid() && evidence >= 0.0 && campaign >= 0.0
    ensures TotalScore(risk, evidence, deviation, campaign) ==
            TotalOf(risk, evidence, Clamp(deviation * 100.0, 0.0, 100.0), campaign)
  {
    TimesMonotone(risk.deterministicWeight, 0.0, evidence);
    TimesMonotone(risk.behaviouralWeight, 0.0, Clamp(deviation * 100.0, 0.0, 100.0));
    TimesMonotone(risk.campaignWeight, 0.0, campaign);
  }

  lemma ConfidenceExactly(risk: RiskConfig, evidence: real, share: real)
    requires risk.Valid() && evidence >= 0.0 && share >= 0.0
    ensures EvidenceConfidence(risk, evidence, share) == ConfidenceOf(risk, evidence, share)
  {
    var w := risk.confidenceDeterministicWeight;
    TimesMonotone(w, 0.0, evidence / 100.0);
    TimesMonotone(risk.confidenceCampaignWeight, 0.0, share);
    assert w * (evidence / 100.0) == w * evidence / 100.0;
  }

  lemma BehaviourExactly(cfg: AdaptiveConfig, baseline: Option<Summary>, observed: int)
    requires cfg.Valid()
    ensures BehaviouralConfidence(cfg, baseline, observed) == MaturityOf(cfg, baseline, observed)
  {
    AuthorizedExactly(cfg, baseline, observed);
    hide BehaviouralThrottle, IsAuthorized;
    if BehaviouralThrottle(cfg, baseline, observed) {
      PercentExactly(baseline.value.sampleCount as real, cfg.baseline.warmupWindows as real);
    }
  }

  lemma AuthorizedExactly(cfg: AdaptiveConfig, baseline: Option<Summary>, observed: int)
    requires cfg.Valid()
    ensures BehaviouralThrottle(cfg, baseline, observed) <==> IsAuthorized(cfg, baseline, observed)
  {
    if baseline.Some? && baseline.value.derivedThreshold > 0 {
      var t := baseline.value.derivedThreshold as real;
      QuotientAtLeast((observed - baseline.value.derivedThreshold) as real, t,
                   cfg.guardrails.behaviouralThrottleMinimumDeviation);
    }
  }

  // ---- The action -------------------------------------------------------

  lemma RoundExactly(total: real, confidence: real)
    ensures Rounds(Round2(total), 100.0, total) && Rounds(Round3(confidence), 1000.0, confidence)
  {
    RoundsToEven(total * 100.0);
    RoundsToEven(confidence * 1000.0);
    var k, l := RoundHalfEven(total * 100.0), RoundHalfEven(confidence * 1000.0);
    hide RoundHalfEven;
    assert RoundsTo(k, Round2(total), 100.0, total);
    assert RoundsTo(l, Round3(confidence), 1000.0, confidence);
  }

  lemma RoundsToEven(x: real)
    ensures NearestEven(RoundHalfEven(x), x)
  {
  }

  lemma ActionExactly(cfg: AdaptiveConfig, f: Facts, s: Scores, bias: int)
    requires cfg.Valid()
    requires f.count == s.count && f.evidence == s.deterministicScore && f.total == s.total
             && f.confidence == s.confidence
    ensures Chosen(cfg, s, bias) ==
            if MayBlock(cfg, f, s.behavioural, bias) then TempBlock
            else if MayThrottle(cfg, f, s.behavioural, bias) then Throttle else Monitor
  {
    WantedExactly(cfg.risk, s.total, bias);
    hide Learned, Candidate, Wanted, RiskConfig.Valid, BaselineConfig.Valid;
  }

  lemma WantedExactly(risk: RiskConfig, total: real, bias: int)
    requires risk.Valid()
    ensures Rung(Learned(Candidate(total, risk), bias)) == Wanted(risk, total, bias)
  {
  }

  lemma RateExactly(cfg: AdaptiveConfig, action: Action, baseline: Option<Summary>)
    requires cfg.Valid()
    ensures var rate := ThrottleRate(action, baseline, cfg.guardrails);
            if action == Throttle then IsRate(cfg.guardrails, baseline, rate) else rate == 0
  {
    var guard := cfg.guardrails;
    if action == Throttle && baseline.Some? && baseline.value.ready && baseline.value.derivedThreshold > 0 {
      var x := Times(guard.throttleBaselineFraction, baseline.value.derivedThreshold as real);
      RoundsToEven(x);
      assert NearestWithin(guard.minimumThrottleRpm, guard.maximumThrottleRpm, RoundHalfEven(x),
                           ThrottleRate(action, baseline, guard));
    } else if action == Throttle {
      assert NearestWithin(guard.minimumThrottleRpm, guard.maximumThrottleRpm, guard.defaultThrottleRpm,
                           ThrottleRate(action, baseline, guard));
    }
  }

  /** With evidence only, with an excess only, or with a campaign only, the score is that component's own weight times
      the component. */
  lemma ComponentsAlone(cfg: AdaptiveConfig, campaign: Option<Campaign>, evidence: seq<Evidence>,
                        baseline: Option<Summary>, observed: int, bias: int) returns (f: Facts)
    requires cfg.Valid()
    ensures AreFacts(f, cfg, campaign, evidence, baseline, observed)
    ensures var r, risk := RiskOf(cfg, campaign, evidence, baseline, observed, bias), cfg.risk;
            && (campaign.None? && baseline.None? ==>
                Rounds(r.score, 100.0, MinR(100.0, risk.deterministicWeight * f.evidence)))
            && (campaign.None? && evidence == [] ==>
                Rounds(r.score, 100.0, MinR(100.0, risk.behaviouralWeight * f.excess)))
            && (evidence == [] && baseline.None? ==>
                Rounds(r.score, 100.0, MinR(100.0, risk.campaignWeight * f.campaign)))
  {
    hide RiskOf, Rounds, MaturityOf, ConfidenceOf, MayBlock, MayThrottle, IsRate, IsAuthorized, AdaptiveConfig.Valid,
    IsShare;
    f := ResultExactly(cfg, campaign, evidence, baseline, observed, bias);
    if evidence == [] {
      NoEvidence(cfg, campaign, baseline, observed, bias);
    }
    TotalAlone(cfg.risk, f.evidence, f.excess, f.campaign);
    hide TotalOf, EvidenceOf;
    var r := RiskOf(cfg, campaign, evidence, baseline, observed, bias);
    assert Rounds(r.score, 100.0, f.total);
    if campaign.None? && baseline.None? {
      assert f.total == MinR(100.0, cfg.risk.deterministicWeight * f.evidence);
    }
    if campaign.None? && evidence == [] {
      assert f.total == MinR(100.0, cfg.risk.behaviouralWeight * f.excess);
    }
    if evidence == [] && baseline.None? {
      assert f.total == MinR(100.0, cfg.risk.campaignWeight * f.campaign);
    }
  }

  lemma NoEvidence(cfg: AdaptiveConfig, campaign: Option<Campaign>, baseline: Option<Summary>, observed: int, bias: int)
    ensures RiskOf(cfg, campaign, [], baseline, observed, bias).explanation.deterministicEvidenceCount == 0
    ensures forall v :: IsStrongest(cfg.risk, [], v) ==> EvidenceOf(cfg.risk, v, 0) == 0.0
  {
    NoRows();
    hide RowIds, Deterministic, Chosen, Round2, Round3, Round4, ThrottleRate;
  }

  lemma TotalAlone(risk: RiskConfig, evidence: real, excess: real, campaign: real)
    ensures excess == 0.0 && campaign == 0.0 ==>
              TotalOf(risk, evidence, excess, campaign) == MinR(100.0, risk.deterministicWeight * evidence)
    ensures evidence == 0.0 && campaign == 0.0 ==>
              TotalOf(risk, evidence, excess, campaign) == MinR(100.0, risk.behaviouralWeight * excess)
    ensures evidence == 0.0 && excess == 0.0 ==>
              TotalOf(risk, evidence, excess, campaign) == MinR(100.0, risk.campaignWeight * campaign)
  {
  }

  lemma NoRows()
    ensures |RowIds(Deterministic([]))| == 0
  {
    assert RowIds([]) == {};
  }

  // ---- The number of rows -----------------------------------------------

  /** The identifiers of the gateway's rows. */
  function Named(evidence: seq<Evidence>): set<string> {
    set i | 0 <= i < |evidence| && FromGateway(evidence[i]) && evidence[i].streamId != "" :: evidence[i].streamId
  }

  function Nameless(evidence: seq<Evidence>): nat {
    if evidence == [] then 0
    else
      var last := evidence[|evidence| - 1];
      Nameless(evidence[..|evidence| - 1]) + (if FromGateway(last) && last.streamId == "" then 1 else 0)
  }

  const PLACEHOLDER: string := "unidentified-"

  /** The name that a row without an identifier gets at some position before n. */
  ghost predicate IsPlaceholder(id: string, n: nat) { exists k: nat :: k < n && id == PLACEHOLDER + Decimal(k) }

  ghost predicate PlainIds(evidence: seq<Evidence>) {
    forall i :: 0 <= i < |evidence| ==> !(PLACEHOLDER <= evidence[i].streamId)
  }

  /** Every identifier of a row is its own or a placeholder. */
  ghost predicate IdsFrom(ids: set<string>, named: set<string>, n: nat) {
    && (forall id :: id in ids ==> id in named || IsPlaceholder(id, n))
    && (forall id :: id in named ==> id in ids && !(PLACEHOLDER <= id))
  }

  /** Rows with the same identifier count once, and rows without one count each, as long as no identifier looks like a
      placeholder. */
  lemma {:induction false} CountExactly(evidence: seq<Evidence>)
    requires PlainIds(evidence)
    ensures |RowIds(Deterministic(evidence))| == |Named(evidence)| + Nameless(evidence)
    ensures IdsFrom(RowIds(Deterministic(evidence)), Named(evidence), |Deterministic(evidence)|)
  {
    hide RowIds, Named, Decimal, IdsFrom;
    if evidence == [] {
      NoRows();
      NobodyNamed();
      assert IdsFrom({}, {}, 0) by { NoIds(); }
    } else {
      var front, last := evidence[..|evidence| - 1], evidence[|evidence| - 1];
      CountExactly(front);
      var rows := Deterministic(front);
      assert evidence == front + [last] && rows + [] == rows;
      OneMoreNamed(front, last);
      OneMoreId(rows, last);
      if FromGateway(last) {
        var ids, named, id := RowIds(rows), Named(front), RowId(last, |rows|);
        if last.streamId == "" {
          NamelessGrow(ids, named, |rows|, id);
        } else {
          NamedGrow(ids, named, |rows|, id);
        }
        assert RowIds(rows + [last]) == ids + {id};
        assert id in ids ==> ids + {id} == ids;
        assert id in named ==> named + {id} == named;
      }
    }
  }

  lemma NoIds()
    ensures IdsFrom({}, {}, 0)
  {
  }

  lemma StillPlaceholder(id: string, n: nat)
    requires IsPlaceholder(id, n)
    ensures IsPlaceholder(id, n + 1) && PLACEHOLDER <= id && id != PLACEHOLDER + Decimal(n)
  {
    hide Decimal;
    var k: nat :| k < n && id == PLACEHOLDER + Decimal(k);
    assert id[|PLACEHOLDER|..] == Decimal(k);
    if id == PLACEHOLDER + Decimal(n) {
      assert id[|PLACEHOLDER|..] == Decimal(n);
      DecimalInjective(k, n);
    }
  }

  lemma NewPlaceholder(n: nat)
    ensures IsPlaceholder(PLACEHOLDER + Decimal(n), n + 1) && PLACEHOLDER <= PLACEHOLDER + Decimal(n)
  {
    hide Decimal;
  }

  lemma NamedGrow(ids: set<string>, named: set<string>, n: nat, id: string)
    requires IdsFrom(ids, named, n) && !(PLACEHOLDER <= id)
    ensures IdsFrom(ids + {id}, named + {id}, n + 1) && (id in ids <==> id in named)
  {
    hide IsPlaceholder;
    forall i | IsPlaceholder(i, n) ensures IsPlaceholder(i, n + 1) && PLACEHOLDER <= i {
      StillPlaceholder(i, n);
    }
  }

  lemma NamelessGrow(ids: set<string>, named: set<string>, n: nat, added: string)
    requires IdsFrom(ids, named, n) && added == PLACEHOLDER + Decimal(n)
    ensures IdsFrom(ids + {added}, named, n + 1) && added !in ids
  {
    hide IsPlaceholder, Decimal;
    NewPlaceholder(n);
    forall i | IsPlaceholder(i, n) ensures IsPlaceholder(i, n + 1) && i != added {
      StillPlaceholder(i, n);
    }
  }

  lemma NobodyNamed()
    ensures Named([]) == {}
  {
  }

  lemma OneMoreNamed(front: seq<Evidence>, last: Evidence)
    ensures Named(front + [last]) == Named(front)
            + (if FromGateway(last) && last.streamId != "" then {last.streamId} else {})
  {
    var evidence := front + [last];
    assert evidence[|front|] == last && forall i :: 0 <= i < |front| ==> evidence[i] == front[i];
  }

  lemma OneMoreId(rows: seq<Evidence>, last: Evidence)
    ensures RowIds(rows + [last]) == RowIds(rows) + {RowId(last, |rows|)}
  {
    hide RowId;
    var more := rows + [last];
    assert more[|rows|] == last && forall i :: 0 <= i < |rows| ==> more[i] == rows[i];
    forall id ensures id in RowIds(more) <==> id in RowIds(rows) + {RowId(last, |rows|)} {
      if id in RowIds(rows) {
        var i :| 0 <= i < |rows| && RowId(rows[i], i) == id;
        assert RowId(more[i], i) == id;
      }
      assert RowId(more[|rows|], |rows|) in RowIds(more);
    }
  }

  lemma {:induction false} DecimalInjective(a: nat, b: nat)
    requires Decimal(a) == Decimal(b)
    ensures a == b
  {
    DecimalShape(a);
    DecimalShape(b);
    if a >= 10 && b >= 10 {
      var s := Decimal(a);
      assert s[..|s| - 1] == Decimal(a / 10) == Decimal(b / 10);
      DecimalInjective(a / 10, b / 10);
    }
  }

  lemma {:induction false} DecimalShape(n: nat)
    ensures |Decimal(n)| >= 1 && Decimal(n)[|Decimal(n)| - 1] == "0123456789"[n % 10]
    ensures |Decimal(n)| > 1 <==> n >= 10
  {
    if n >= 10 {
      DecimalShape(n / 10);
    }
  }
}
