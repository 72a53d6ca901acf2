/** What is normal for each endpoint, learned from the rates of recent windows that can be trusted. */
module Baseline {
  import opened Common
  import opened Sorting
  import opened Statistics
  import Text

  const UNMATCHED_ROUTE: string := "<unmatched>"

  datatype EndpointKey = EndpointKey(verb: string, routeTemplate: string) {

    static function Verb(verb: string): string {
      Text.Upper(Text.Strip(if verb == "" then "GET" else verb))
    }

    static function Route(routeTemplate: string): string {
      var route := Text.Before(if routeTemplate == "" then UNMATCHED_ROUTE else routeTemplate, '?');
      if route != UNMATCHED_ROUTE && !("/" <= route) then UNMATCHED_ROUTE else route
    }

    static function Of(verb: string, routeTemplate: string): EndpointKey {
      EndpointKey(Verb(verb), Route(routeTemplate))
    }

    function Canonical(): EndpointKey { Of(verb, routeTemplate) }
  }

  datatype BaselineConfig = BaselineConfig(
    rollingWindows: nat,
    warmupWindows: nat,
    madMultiplier: real,
    minimumMad: real,
    minimumThresholdRpm: int,
    maximumThresholdRpm: int,
    hysteresisRatio: real,
    cooldownSeconds: int)
  {
    ghost predicate Valid() {
      && 3 <= rollingWindows <= 1440
      && 1 <= warmupWindows <= rollingWindows
      && 0.1 <= madMultiplier <= 20.0
      && 0.0 <= minimumMad <= 1000.0
      && 1 <= minimumThresholdRpm <= maximumThresholdRpm <= 100_000
      && 0.0 <= hysteresisRatio <= 0.5
      && 0 <= cooldownSeconds <= 86_400
    }

    function ClampThreshold(x: int): int {
      Max(minimumThresholdRpm, Min(maximumThresholdRpm, x))
    }

    function Reach(centre: real, spread: real): real {
      centre + Times(madMultiplier, MaxR(spread, minimumMad))
    }

    function Proposed(statistic: real, mad: real): int {
      ClampThreshold(Ceil(Reach(statistic, mad)))
    }
  }

  /** The value of one summary row. Times are seconds. */
  datatype Summary = Summary(
    sampleCount: nat,
    statistic: real,
    mad: real,
    derivedThreshold: int,
    observedRate: int,
    lastUpdate: Option<real>,
    lastChange: Option<real>,
    version: nat,
    ready: bool,
    samples: seq<real>)

  const EMPTY: Summary := Summary(0, 0.0, 0.0, 0, 0, None, None, 0, false, [])

  predicate MayChange(cfg: BaselineConfig, s: Summary, proposed: int, ready: bool, now: real) {
    if s.derivedThreshold <= 0 then true
    else if ready && !s.ready then true
    else if Abs((proposed - s.derivedThreshold) as real) / Max(s.derivedThreshold, 1) as real < cfg.hysteresisRatio
      then false
    else if s.lastChange == None then true
    else now - s.lastChange.value >= cfg.cooldownSeconds as real
  }

  /** What one observation does to a row. */
  function Observed(cfg: BaselineConfig, s: Summary, requests: int, trusted: bool, now: real): Summary
    requires cfg.rollingWindows >= 1
  {
    var rate := Max(0, requests);
    var seen := s.(observedRate := rate, lastUpdate := Some(now));
    if !trusted then seen else
      var samples := LastN(s.samples + [rate as real], cfg.rollingWindows);
      var statistic := Median(samples);
      var mad := Mad(samples);
      var proposed := cfg.Proposed(statistic, mad);
      var ready := |samples| >= cfg.warmupWindows;
      var measured := seen.(samples := samples, sampleCount := |samples|, statistic := statistic, mad := mad);
      var changed :=
        if MayChange(cfg, measured, proposed, ready, now) then
          measured.(derivedThreshold := proposed, lastChange := Some(now), version := s.version + 1)
        else
          measured;
      changed.(ready := ready)
  }

  /** A stored row, changed in place by the learner. */
  class BaselineSummary {
    const verb: string
    const routeTemplate: string
    var sampleCount: nat
    var statistic: real
    var mad: real
    var derivedThreshold: int
    var observedRate: int
    var lastUpdate: Option<real>
    var lastChange: Option<real>
    var version: nat
    var ready: bool
    var samples: seq<real>

    constructor (verb: string, routeTemplate: string)
      ensures this.verb == verb && this.routeTemplate == routeTemplate
      ensures Value() == EMPTY
    {
      this.verb, this.routeTemplate := verb, routeTemplate;
      sampleCount, statistic, mad, derivedThreshold, observedRate := 0, 0.0, 0.0, 0, 0;
      lastUpdate, lastChange, version, ready, samples := None, None, 0, false, [];
    }

    function Key(): EndpointKey { EndpointKey.Of(verb, routeTemplate) }

    function Value(): Summary
      reads this
    {
      Summary(sampleCount, statistic, mad, derivedThreshold, observedRate, lastUpdate, lastChange, version, ready,
              samples)
    }

    /** The part of observe that rewrites the row. */
    method Admit(config: BaselineConfig, requestsInWindow: int, trusted: bool, now: real)
      requires config.rollingWindows >= 1
      modifies this
      ensures Value() == Observed(config, old(Value()), requestsInWindow, trusted, now)
    {
      hide MayChange, Median, BaselineConfig.Proposed;
      observedRate := Max(0, requestsInWindow);
      lastUpdate := Some(now);
      if trusted {
        var all := samples + [observedRate as real];
        samples := LastN(all, config.rollingWindows);
        sampleCount := |samples|;
        statistic := Median(samples);
        var deviations := Deviations(samples, statistic);
        mad := Median(deviations);
        var proposed := config.Proposed(statistic, mad);
        var nowReady := sampleCount >= config.warmupWindows;
        if MayChange(config, Value(), proposed, nowReady, now) {
          derivedThreshold := proposed;
          lastChange := Some(now);
          version := version + 1;
        }
        ready := nowReady;
      }
    }
  }

  class MemoryBaselineRepository {
    var rows: map<EndpointKey, BaselineSummary>

    /** Every row is stored under its own key, so no row is shared by two keys. */
    ghost predicate Valid()
      reads this
    {
      forall k :: k in rows ==> rows[k].Key() == k
    }

    ghost function Table(): map<EndpointKey, Summary>
      reads this, rows.Values
    {
      map k | k in rows :: rows[k].Value()
    }

    constructor ()
      ensures Valid() && Table() == map[]
    {
      rows := map[];
    }

    method GetBaseline(key: EndpointKey) returns (row: Option<BaselineSummary>)
      ensures row == if key in rows then Some(rows[key]) else None
    {
      row := if key in rows then Some(rows[key]) else None;
    }

    method SaveBaseline(summary: BaselineSummary)
      requires Valid()
      modifies this
      ensures Valid() && rows == old(rows)[summary.Key() := summary]
      ensures Table() == old(Table())[summary.Key() := summary.Value()]
    {
      hide EndpointKey.Of;
      rows := rows[summary.Key() := summary];
    }
  }

  class BaselineLearner {
    const repository: MemoryBaselineRepository
    const config: BaselineConfig

    constructor (repository: MemoryBaselineRepository, config: BaselineConfig)
      ensures this.repository == repository && this.config == config
    {
      this.repository, this.config := repository, config;
    }

    /** One observation: its rate becomes the one that is shown, and a sample only when it is trusted. */
    method Observe(key: EndpointKey, requestsInWindow: int, trusted: bool, now: real) returns (current: BaselineSummary)
      requires repository.Valid() && config.Valid()
      modifies repository, repository.rows.Values
      ensures repository.Valid()
      ensures current.Key() == if key in old(repository.Table()) then key else key.Canonical()
      ensures repository.Table() == old(repository.Table())[current.Key() := current.Value()]
      ensures var table := old(repository.Table());
              current.Value() ==
                Observed(config, if key in table then table[key] else EMPTY, requestsInWindow, trusted, now)
      ensures current.Key() in repository.rows && repository.rows[current.Key()] == current
      ensures fresh(repository.rows.Values - old(repository.rows.Values))
    {
      hide Observed, EndpointKey.Of;
      var found := repository.GetBaseline(key);
      if found.Some? {
        current := found.value;
        assert current in repository.rows.Values;
      } else {
        current := new BaselineSummary(key.verb, key.routeTemplate);
      }
      assert forall k :: k in repository.rows && repository.rows[k] == current ==> found.Some? && k == key;
      current.Admit(config, requestsInWindow, trusted, now);
      ghost var table := old(repository.Table());
      assert repository.Table() == if key in table then table[key := current.Value()] else table;
      repository.SaveBaseline(current);
    }
  }

  lemma CanonicalVerb(verb: string)
    ensures var m := EndpointKey.Verb(verb); EndpointKey.Verb(m) == m <==> (verb == "" || Text.Strip(verb) != "")
  {
    var stripped := Text.Strip(if verb == "" then "GET" else verb);
    Text.UpperIdempotent(stripped);
    if stripped != "" {
      Text.UpperKeepsSpaces(stripped[0]);
      Text.UpperKeepsSpaces(stripped[|stripped| - 1]);
    }
  }

  lemma CanonicalRoute(routeTemplate: string)
    ensures var r := EndpointKey.Route(routeTemplate); r != "" && EndpointKey.Route(r) == r
  {
  }

  /** A key names the method in upper case without blanks around it, GET when there is none; and the route without its
      query, or no route unless it starts with a slash. */
  lemma KeyExactly(verb: string, routeTemplate: string)
    ensures var k := EndpointKey.Of(verb, routeTemplate);
            && k.verb == (if verb == "" then "GET" else Text.Upper(Text.Strip(verb)))
            && k.routeTemplate == (if "/" <= routeTemplate then Text.Before(routeTemplate, '?') else "<unmatched>")
  {
    hide Text.Before, Text.Upper, Text.Strip;
    MissingVerb();
    RouteOnly(routeTemplate);
    hide EndpointKey.Route;
  }

  lemma MissingVerb()
    ensures EndpointKey.Verb("") == "GET"
  {
    assert Text.Strip("GET") == "GET";
    assert Text.Upper("GET") == "GET";
  }

  lemma RouteOnly(routeTemplate: string)
    ensures EndpointKey.Route(routeTemplate) ==
            if "/" <= routeTemplate then Text.Before(routeTemplate, '?') else "<unmatched>"
  {
    if "/" <= routeTemplate {
      assert Text.Before(routeTemplate, '?') == ['/'] + Text.Before(routeTemplate[1..], '?');
    }
  }

  /** A stored key is looked up again under the key it was asked for, except when the method is only blanks. */
  lemma CanonicalKeyIsStable(verb: string, routeTemplate: string)
    ensures var k := EndpointKey.Of(verb, routeTemplate);
            k.Canonical() == k <==> (verb == "" || Text.Strip(verb) != "")
  {
    hide EndpointKey.Verb, EndpointKey.Route;
    CanonicalVerb(verb);
    CanonicalRoute(routeTemplate);
  }

  // ---------------------------------------------------------------- poisoning

  lemma ReachMonotone(cfg: BaselineConfig, centre: real, spread: real, centre': real, spread': real)
    requires cfg.Valid() && centre <= centre' && spread <= spread'
    ensures cfg.Reach(centre, spread) <= cfg.Reach(centre', spread')
  {
    hide Times;
    TimesMonotone(cfg.madMultiplier, MaxR(spread, cfg.minimumMad), MaxR(spread', cfg.minimumMad));
  }

  predicate LeastAtLeast(n: int, x: real) { x <= n as real < x + 1.0 }

  /** p is the number within the limits that is nearest to n. */
  predicate NearestWithin(low: int, high: int, n: int, p: int) {
    && low <= p <= high
    && (n < low ==> p == low) && (n > high ==> p == high) && (low <= n <= high ==> p == n)
  }

  /** The threshold for a centre and a spread: the least whole number that is the multiple of the spread above the
      centre, or the limit nearest to it. */
  ghost predicate IsProposal(cfg: BaselineConfig, centre: real, spread: real, p: int) {
    exists n :: LeastAtLeast(n, centre + cfg.madMultiplier * MaxR(spread, cfg.minimumMad))
                && NearestWithin(cfg.minimumThresholdRpm, cfg.maximumThresholdRpm, n, p)
  }

  lemma ProposalExactly(cfg: BaselineConfig, centre: real, spread: real, p: int)
    requires cfg.Valid()
    ensures IsProposal(cfg, centre, spread, p) <==> p == cfg.Proposed(centre, spread)
  {
    var x := cfg.Reach(centre, spread);
    ReachIs(cfg, centre, spread);
    hide BaselineConfig.Reach;
    assert LeastAtLeast(Ceil(x), x);
    forall n | LeastAtLeast(n, x) ensures n == Ceil(x) {}
    assert NearestWithin(cfg.minimumThresholdRpm, cfg.maximumThresholdRpm, Ceil(x), cfg.Proposed(centre, spread));
    hide Ceil;
  }

  lemma ReachIs(cfg: BaselineConfig, centre: real, spread: real)
    ensures cfg.Reach(centre, spread) == centre + cfg.madMultiplier * MaxR(spread, cfg.minimumMad)
  {
  }

  /** A trusted observation moves the threshold to the proposal of the retained samples when it is the first one, when
      it makes the row ready, or when the proposal differs by the hysteresis ratio and the cooldown has passed; and
      otherwise leaves it. */
  lemma ThresholdExactly(cfg: BaselineConfig, s: Summary, requests: int, now: real)
    requires cfg.Valid() && RowInvariant(cfg, s)
    ensures var t := Observed(cfg, s, requests, true, now);
            exists p :: IsProposal(cfg, Median(t.samples), Mad(t.samples), p) &&
              if s.version == 0 || (t.ready && !s.ready)
                 || (Abs((p - s.derivedThreshold) as real) >= cfg.hysteresisRatio * s.derivedThreshold as real
                     && now - s.lastChange.value >= cfg.cooldownSeconds as real)
              then t.derivedThreshold == p && t.lastChange == Some(now) && t.version == s.version + 1
              else t.derivedThreshold == s.derivedThreshold && t.lastChange == s.lastChange && t.version == s.version
  {
    hide Median, Mad, BaselineConfig.Proposed, IsProposal;
    var t := Observed(cfg, s, requests, true, now);
    var p := cfg.Proposed(Median(t.samples), Mad(t.samples));
    ProposalExactly(cfg, Median(t.samples), Mad(t.samples), p);
    if s.version > 0 {
      QuotientAtLeast(Abs((p - s.derivedThreshold) as real), s.derivedThreshold as real, cfg.hysteresisRatio);
    }
  }

  /** What samples inside an interval can make the learner propose. */
  function LowestProposal(cfg: BaselineConfig, low: real): int {
    Max(cfg.minimumThresholdRpm, Min(cfg.maximumThresholdRpm, Ceil(low + cfg.madMultiplier * cfg.minimumMad)))
  }

  function HighestProposal(cfg: BaselineConfig, low: real, high: real): int {
    Max(cfg.minimumThresholdRpm,
        Min(cfg.maximumThresholdRpm, Ceil(high + cfg.madMultiplier * MaxR(high - low, cfg.minimumMad))))
  }

  lemma ProposedIs(cfg: BaselineConfig, centre: real, spread: real)
    ensures cfg.Proposed(centre, spread) ==
            Max(cfg.minimumThresholdRpm,
                Min(cfg.maximumThresholdRpm, Ceil(centre + cfg.madMultiplier * MaxR(spread, cfg.minimumMad))))
  {
    ReachIs(cfg, centre, spread);
    hide BaselineConfig.Reach, Ceil;
  }

  lemma LowestIsProposal(cfg: BaselineConfig, low: real)
    requires cfg.minimumMad >= 0.0
    ensures LowestProposal(cfg, low) == cfg.Proposed(low, 0.0)
  {
    hide BaselineConfig.Proposed, Ceil, Min, Max;
    ProposedIs(cfg, low, 0.0);
  }

  lemma HighestIsProposal(cfg: BaselineConfig, low: real, high: real)
    ensures HighestProposal(cfg, low, high) == cfg.Proposed(high, high - low)
  {
    hide BaselineConfig.Proposed, Ceil, MaxR, Min, Max;
    ProposedIs(cfg, high, high - low);
  }

  lemma LimitsAreProposals(cfg: BaselineConfig, low: real, high: real)
    requires cfg.Valid()
    ensures LowestProposal(cfg, low) == cfg.Proposed(low, 0.0)
    ensures HighestProposal(cfg, low, high) == cfg.Proposed(high, high - low)
  {
    LowestIsProposal(cfg, low);
    HighestIsProposal(cfg, low, high);
    hide LowestProposal, HighestProposal, BaselineConfig.Proposed;
  }

  lemma ProposalBounds(cfg: BaselineConfig, statistic: real, mad: real, low: real, high: real)
    requires cfg.Valid()
    requires low <= statistic <= high && 0.0 <= mad <= high - low
    ensures LowestProposal(cfg, low) <= cfg.Proposed(statistic, mad) <= HighestProposal(cfg, low, high)
  {
    LimitsAreProposals(cfg, low, high);
    hide BaselineConfig.Reach, Times, LowestProposal, HighestProposal;
    ReachMonotone(cfg, low, 0.0, statistic, mad);
    ReachMonotone(cfg, statistic, mad, high, high - low);
    CeilMonotone(cfg.Reach(low, 0.0), cfg.Reach(statistic, mad));
    CeilMonotone(cfg.Reach(statistic, mad), cfg.Reach(high, high - low));
  }

  /** Whatever a minority of the retained samples say, the median, the MAD and the proposal stay within reach of the
      rest. */
  lemma PoisoningResistance(cfg: BaselineConfig, samples: seq<real>, low: real, high: real)
    requires cfg.Valid() && samples != []
    requires MinorityOutside(samples, low, high)
    ensures low <= Median(samples) <= high
    ensures Mad(samples) <= high - low
    ensures forall p :: IsProposal(cfg, Median(samples), Mad(samples), p) ==>
              LowestProposal(cfg, low) <= p <= HighestProposal(cfg, low, high)
    ensures LowestProposal(cfg, low) <= cfg.Proposed(Median(samples), Mad(samples)) <= HighestProposal(cfg, low, high)
  {
    hide Median, Mad, LowestProposal, HighestProposal, BaselineConfig.Proposed, IsProposal;
    MedianRobust(samples, low, high);
    MadRobust(samples, low, high);
    ProposalBounds(cfg, Median(samples), Mad(samples), low, high);
    forall p | IsProposal(cfg, Median(samples), Mad(samples), p)
      ensures p == cfg.Proposed(Median(samples), Mad(samples))
    {
      ProposalExactly(cfg, Median(samples), Mad(samples), p);
    }
  }

  // ---------------------------------------------------------------- whole runs

  datatype Observation = Observation(requests: int, trusted: bool, now: real)

  /** The row after a history of observations, oldest first. */
  function Run(cfg: BaselineConfig, history: seq<Observation>): Summary
    requires cfg.rollingWindows >= 1
  {
    if history == [] then EMPTY
    else
      var last := history[|history| - 1];
      Observed(cfg, Run(cfg, history[..|history| - 1]), last.requests, last.trusted, last.now)
  }

  /** The trusted rates of a history, oldest first. */
  function TrustedRates(history: seq<Observation>): seq<real> {
    if history == [] then []
    else
      var last := history[|history| - 1];
      TrustedRates(history[..|history| - 1]) + (if last.trusted then [Max(0, last.requests) as real] else [])
  }

  ghost predicate ClockNeverGoesBack(history: seq<Observation>) {
    forall i, j :: 0 <= i <= j < |history| ==> history[i].now <= history[j].now
  }

  /** What every reachable row satisfies. */
  ghost predicate RowInvariant(cfg: BaselineConfig, s: Summary) {
    && s.sampleCount == |s.samples| <= cfg.rollingWindows
    && s.ready == (s.sampleCount >= cfg.warmupWindows)
    && (s.version == 0 <==> s.samples == [])
    && (s.version == 0 ==> s.derivedThreshold == 0 && s.lastChange == None)
    && (s.version > 0 ==>
        cfg.minimumThresholdRpm <= s.derivedThreshold <= cfg.maximumThresholdRpm && s.lastChange.Some?)
    && (s.samples != [] ==> s.statistic == Median(s.samples) && s.mad == Mad(s.samples))
  }

  lemma ObservedKeepsInvariant(cfg: BaselineConfig, s: Summary, requests: int, trusted: bool, now: real)
    requires cfg.Valid() && RowInvariant(cfg, s)
    ensures RowInvariant(cfg, Observed(cfg, s, requests, trusted, now))
    ensures s.ready ==> Observed(cfg, s, requests, trusted, now).ready
  {
    hide Median, Mad;
  }

  lemma {:induction false} RunInvariant(cfg: BaselineConfig, history: seq<Observation>)
    requires cfg.Valid()
    ensures RowInvariant(cfg, Run(cfg, history))
  {
    hide Median, Mad, Observed;
    if history != [] {
      var last := history[|history| - 1];
      var before := history[..|history| - 1];
      RunInvariant(cfg, before);
      ObservedKeepsInvariant(cfg, Run(cfg, before), last.requests, last.trusted, last.now);
    }
  }

  lemma LastNExtend<T>(s: seq<T>, x: T, n: nat)
    requires n >= 1
    ensures LastN(LastN(s, n) + [x], n) == LastN(s + [x], n)
  {
  }

  /** The retained samples are the newest trusted rates, as many as the rolling window holds. */
  lemma {:induction false} RetainedSamples(cfg: BaselineConfig, history: seq<Observation>)
    requires cfg.Valid()
    ensures Run(cfg, history).samples == LastN(TrustedRates(history), cfg.rollingWindows)
  {
    hide Median, Mad, MayChange;
    if history != [] {
      var last := history[|history| - 1];
      var before := history[..|history| - 1];
      RetainedSamples(cfg, before);
      if last.trusted {
        LastNExtend(TrustedRates(before), Max(0, last.requests) as real, cfg.rollingWindows);
      }
    }
  }

  /** Once ready, a baseline stays ready. */
  lemma {:induction false} ReadinessNeverReverts(cfg: BaselineConfig, history: seq<Observation>, i: nat)
    requires cfg.Valid() && i <= |history|
    requires Run(cfg, history[..i]).ready
    ensures Run(cfg, history).ready
  {
    hide Median, Mad, Observed;
    if i == |history| {
      assert history[..i] == history;
    } else {
      var last := history[|history| - 1];
      var before := history[..|history| - 1];
      assert before[..i] == history[..i];
      ReadinessNeverReverts(cfg, before, i);
      RunInvariant(cfg, before);
      ObservedKeepsInvariant(cfg, Run(cfg, before), last.requests, last.trusted, last.now);
    }
  }

  /** At every moment of the history, the retained samples hold only a minority outside the interval. */
  ghost predicate AlwaysMinority(cfg: BaselineConfig, history: seq<Observation>, low: real, high: real) {
    forall i :: 0 <= i <= |history| ==>
      var retained := LastN(TrustedRates(history[..i]), cfg.rollingWindows);
      retained != [] ==> MinorityOutside(retained, low, high)
  }

  /** Over a whole run the threshold in force never leaves what the honest interval allows. */
  lemma {:induction false} ThresholdNeverPoisoned(cfg: BaselineConfig, history: seq<Observation>, low: real, high: real)
    requires cfg.Valid() && AlwaysMinority(cfg, history, low, high)
    ensures Run(cfg, history).version > 0 ==>
      LowestProposal(cfg, low) <= Run(cfg, history).derivedThreshold <= HighestProposal(cfg, low, high)
  {
    hide Median, Mad, MayChange, BaselineConfig.Proposed, LowestProposal, HighestProposal;
    if history != [] {
      var last := history[|history| - 1];
      var before := history[..|history| - 1];
      forall i | 0 <= i <= |before| ensures before[..i] == history[..i] {}
      ThresholdNeverPoisoned(cfg, before, low, high);
      if last.trusted {
        RetainedSamples(cfg, history);
        assert history[..|history|] == history;
        PoisoningResistance(cfg, Run(cfg, history).samples, low, high);
      }
    }
  }

  /** The time that n changes spaced by the cooldown take. */
  function Cooldowns(cfg: BaselineConfig, n: int): real { Times(cfg.cooldownSeconds as real, n as real) }

  /** Of the changes counted by the version, all but the first one and the one at warm-up waited a cooldown. */
  ghost predicate ChangesSpaced(cfg: BaselineConfig, s: Summary, start: real) {
    s.version > 0 ==>
      && s.lastChange.Some?
      && Cooldowns(cfg, s.version - (if s.ready then 2 else 1)) <= s.lastChange.value - start
  }

  lemma ObservedKeepsSpacing(cfg: BaselineConfig, s: Summary, requests: int, trusted: bool, now: real, start: real)
    requires cfg.Valid() && RowInvariant(cfg, s) && ChangesSpaced(cfg, s, start)
    requires start <= now && (s.lastChange.Some? ==> s.lastChange.value <= now)
    ensures ChangesSpaced(cfg, Observed(cfg, s, requests, trusted, now), start)
  {
    hide Median, Mad, BaselineConfig.Proposed;
    var cooldown := cfg.cooldownSeconds as real;
    TimesNext(cooldown, s.version - 2);
    TimesNext(cooldown, s.version - 1);
    TimesMonotone(cooldown, -1.0, 0.0);
    assert Cooldowns(cfg, -1) <= Cooldowns(cfg, 0) == 0.0;
    hide Times;
  }

  lemma {:induction false} RunSpacing(cfg: BaselineConfig, history: seq<Observation>)
    requires cfg.Valid() && history != [] && ClockNeverGoesBack(history)
    ensures ChangesSpaced(cfg, Run(cfg, history), history[0].now)
    ensures Run(cfg, history).lastChange.Some? ==> Run(cfg, history).lastChange.value <= history[|history| - 1].now
  {
    hide Median, Mad, MayChange, BaselineConfig.Proposed, Run;
    var last := history[|history| - 1];
    var before := history[..|history| - 1];
    RunInvariant(cfg, before);
    RunStep(cfg, history);
    if before == [] {
      assert Run(cfg, before) == EMPTY by { RunEmpty(cfg); }
    } else {
      RunSpacing(cfg, before);
      assert history[0].now <= before[|before| - 1].now <= last.now;
    }
    ObservedKeepsSpacing(cfg, Run(cfg, before), last.requests, last.trusted, last.now, history[0].now);
  }

  lemma RunEmpty(cfg: BaselineConfig)
    requires cfg.rollingWindows >= 1
    ensures Run(cfg, []) == EMPTY
  {
  }

  lemma RunStep(cfg: BaselineConfig, history: seq<Observation>)
    requires cfg.rollingWindows >= 1 && history != []
    ensures var last := history[|history| - 1];
            Run(cfg, history) ==
              Observed(cfg, Run(cfg, history[..|history| - 1]), last.requests, last.trusted, last.now)
  {
    hide Observed;
  }

  lemma CooldownsMonotone(cfg: BaselineConfig, n: int, m: int)
    requires cfg.Valid() && n <= m
    ensures Cooldowns(cfg, n) <= Cooldowns(cfg, m)
    ensures Cooldowns(cfg, 0) == 0.0
  {
    TimesMonotone(cfg.cooldownSeconds as real, n as real, m as real);
  }

  /** The number of threshold changes is bounded by the time that passed: version <= 2 + T / cooldown. */
  lemma ChangeRate(cfg: BaselineConfig, history: seq<Observation>)
    requires cfg.Valid() && history != [] && ClockNeverGoesBack(history)
    ensures Cooldowns(cfg, Run(cfg, history).version - 2) <= history[|history| - 1].now - history[0].now
  {
    hide Run, Cooldowns, RowInvariant;
    RunSpacing(cfg, history);
    assert history[0].now <= history[|history| - 1].now;
    var s := Run(cfg, history);
    if s.version == 0 {
      CooldownsMonotone(cfg, -2, 0);
    } else {
      CooldownsMonotone(cfg, s.version - 2, s.version - (if s.ready then 2 else 1));
    }
  }
}
