/** The controller between completed windows, baselines and decisions. */
module Observing {
  import opened Common
  import opened Models
  import opened Config
  import opened Baseline
  import opened Risk
  import opened Rounding
  import opened Controller
  import Lifecycle
  import Text

  /** How often one address asked for one route in one minute. */
  datatype RouteCount = RouteCount(verb: string, route: string, observed: int) {
    function Key(): EndpointKey { EndpointKey.Of(verb, route) }
  }

  /** A completed window as the controller reads it; start is in seconds. */
  datatype Window = Window(ip: string, counts: seq<RouteCount>, safeToLearn: bool, start: real)

  type Table = map<EndpointKey, Summary>

  function SummaryAt(table: Table, key: EndpointKey): Option<Summary> {
    if key in table then Some(table[key]) else None
  }

  // ---- Assessing --------------------------------------------------------

  function Assessed(table: Table, counts: seq<RouteCount>): (r: seq<EndpointObservation>)
    ensures |r| == |counts|
  {
    seq(|counts|, i requires 0 <= i < |counts| =>
        EndpointObservation(counts[i].Key(), counts[i].observed, SummaryAt(table, counts[i].Key())))
  }

  function DeviationOf(e: EndpointObservation): real { Deviation(e.baseline, e.observed) }

  /** The greater deviation, and the busier endpoint among equals. */
  predicate Exceeds(e: EndpointObservation, f: EndpointObservation) {
    DeviationOf(e) > DeviationOf(f) || (DeviationOf(e) == DeviationOf(f) && e.observed > f.observed)
  }

  /** Nothing deviates more, nothing is busier among equals, and nothing before it is its equal. */
  ghost predicate IsMostDeviant(rows: seq<EndpointObservation>, r: Option<EndpointObservation>) {
    match r
    case None => rows == []
    case Some(e) => exists k :: 0 <= k < |rows| && rows[k] == e && forall i :: 0 <= i < |rows| ==>
      DeviationOf(rows[i]) <= DeviationOf(e)
      && (DeviationOf(rows[i]) == DeviationOf(e) ==> if i < k then rows[i].observed < e.observed
                                                     else rows[i].observed <= e.observed)
  }

  /** The first of the most deviant, as Python's max picks it. */
  function MostDeviant(rows: seq<EndpointObservation>): (r: Option<EndpointObservation>)
    ensures IsMostDeviant(rows, r)
  {
    if rows == [] then None
    else
      var front, last := rows[..|rows| - 1], rows[|rows| - 1];
      match MostDeviant(front)
      case None => assert rows[0] == last; Some(last)
      case Some(e) =>
        OneMoreDeviant(front, e, last);
        assert front + [last] == rows;
        if Exceeds(last, e) then Some(last) else Some(e)
  }

  lemma OneMoreDeviant(front: seq<EndpointObservation>, e: EndpointObservation, last: EndpointObservation)
    requires IsMostDeviant(front, Some(e))
    ensures IsMostDeviant(front + [last], Some(if Exceeds(last, e) then last else e))
  {
    hide Deviation;
    var rows := front + [last];
    var k :| 0 <= k < |front| && front[k] == e && forall i :: 0 <= i < |front| ==>
      DeviationOf(front[i]) <= DeviationOf(e)
      && (DeviationOf(front[i]) == DeviationOf(e) ==> if i < k then front[i].observed < e.observed
                                                      else front[i].observed <= e.observed);
    assert forall i :: 0 <= i < |front| ==> rows[i] == front[i];
    assert rows[|front|] == last;
    var n := if Exceeds(last, e) then |front| else k;
    assert rows[n] == if Exceeds(last, e) then last else e;
  }

  function Context(table: Table, w: Window): Option<EndpointObservation> { MostDeviant(Assessed(table, w.counts)) }

  /** The window is scored on behaviour alone, against the baselines as they were before it. */
  function Score(cfg: AdaptiveConfig, table: Table, w: Window): RiskResult {
    RiskOf(cfg, None, [], BaselineOf(Context(table, w)), ObservedOf(Context(table, w)), 0)
  }

  predicate Throttled(cfg: AdaptiveConfig, table: Table, w: Window) {
    Score(cfg, table, w).explanation.behaviouralThrottleAuthorized
  }

  /** What the window itself makes the controller propose. */
  function Proposal(cfg: AdaptiveConfig, inRange: InRange, table: Table, w: Window, policyId: string,
                    now: real): Option<PolicyDecision>
  {
    var configured := ConfiguredAction(inRange, w.ip, cfg.guardrails);
    if configured.None? && !Throttled(cfg, table, w) then None
    else Some(Decision(cfg, inRange, w.ip, Score(cfg, table, w), Context(table, w),
                       if configured.Some? then Some(Monitor) else None, policyId, now))
  }

  // ---- Learning ---------------------------------------------------------

  /** Whether an observation of a window may enter learning. table is the one the window was scored against. */
  predicate Teaches(cfg: AdaptiveConfig, inRange: InRange, table: Table, w: Window, key: EndpointKey) {
    && w.safeToLearn
    && ConfiguredAction(inRange, w.ip, cfg.guardrails) != Some(TempBlock)
    && !(Throttled(cfg, table, w) && Context(table, w).Some? && Context(table, w).value.key == key)
  }

  function StoredKey(table: Table, key: EndpointKey): EndpointKey { if key in table then key else key.Canonical() }

  function LearnedOne(cfg: BaselineConfig, table: Table, key: EndpointKey, observed: int, trusted: bool,
                      now: real): Table
    requires cfg.rollingWindows >= 1
  {
    table[StoredKey(table, key) := Observed(cfg, SummaryAt(table, key).GetOr(EMPTY), observed, trusted, now)]
  }

  /** The baselines after the first n counts of a window. */
  function LearnedFrom(cfg: AdaptiveConfig, inRange: InRange, table: Table, w: Window, n: nat): Table
    requires cfg.baseline.rollingWindows >= 1 && n <= |w.counts|
  {
    if n == 0 then table
    else
      var c := w.counts[n - 1];
      LearnedOne(cfg.baseline, LearnedFrom(cfg, inRange, table, w, n - 1), c.Key(), c.observed,
                 Teaches(cfg, inRange, table, w, c.Key()), w.start)
  }

  function LearnedAll(cfg: AdaptiveConfig, inRange: InRange, table: Table, w: Window): Table
    requires cfg.baseline.rollingWindows >= 1
  {
    LearnedFrom(cfg, inRange, table, w, |w.counts|)
  }

  /** The baselines after a run of windows. */
  function AfterWindows(cfg: AdaptiveConfig, inRange: InRange, start: Table, ws: seq<Window>): Table
    requires cfg.baseline.rollingWindows >= 1
  {
    if ws == [] then start
    else LearnedAll(cfg, inRange, AfterWindows(cfg, inRange, start, ws[..|ws| - 1]), ws[|ws| - 1])
  }

  /** What each address's last window was compared with, after a run of windows. */
  function Compared(cfg: AdaptiveConfig, inRange: InRange, start: Table, known: map<string, seq<EndpointObservation>>,
                    ws: seq<Window>)
    : map<string, seq<EndpointObservation>>
    requires cfg.baseline.rollingWindows >= 1
  {
    if ws == [] then known
    else
      var before, w := ws[..|ws| - 1], ws[|ws| - 1];
      Compared(cfg, inRange, start, known,
               before)[w.ip := Assessed(AfterWindows(cfg, inRange, start, before), w.counts)]
  }

  // ---- Staging ----------------------------------------------------------

  /** The name and the times that a window's decision is given. */
  datatype Reading = Reading(policyId: string, issuedAt: real, stagedAt: real)

  datatype Staged = Staged(recommendation: Lifecycle.Recommendation, enforce: bool)

  /** What the lifecycle makes of a decision, read against some latest row of its scope. */
  ghost predicate StagedAs(before: Lifecycle.Ledger, d: PolicyDecision, cfg: AdaptiveConfig, now: real,
                           staged: Staged, after: Lifecycle.Ledger)
  {
    exists previous :: Lifecycle.LastForScope(before.rows, d, previous)
      && StagedFrom(before, previous, d, cfg, now, staged, after)
  }

  predicate StagedFrom(before: Lifecycle.Ledger, previous: Option<Lifecycle.Recommendation>, d: PolicyDecision,
                       cfg: AdaptiveConfig,
                       now: real, staged: Staged, after: Lifecycle.Ledger)
  {
    var staging := Lifecycle.StageOf(previous, d, cfg, now);
    && after == Lifecycle.AfterStage(before, staging)
    && staged == match staging
                 case Saved(row, enforce) => Staged(row, enforce)
                 case _ => Staged(Lifecycle.Recommendation(d, previous.value.status, now, now), false)
  }

  /** A window without a proposal leaves the lifecycle alone. */
  ghost predicate Outcome(before: Lifecycle.Ledger, d: Option<PolicyDecision>, cfg: AdaptiveConfig, now: real,
                          staged: Option<Staged>, after: Lifecycle.Ledger)
  {
    match d
    case None => staged == None && after == before
    case Some(decision) => staged.Some? && StagedAs(before, decision, cfg, now, staged.value, after)
  }

  /** What window i of a run proposes, scored against what the windows before it taught. */
  function ProposalAt(cfg: AdaptiveConfig, inRange: InRange, start: Table, ws: seq<Window>, readings: seq<Reading>,
                      i: nat)
    : Option<PolicyDecision>
    requires cfg.baseline.rollingWindows >= 1 && i < |ws| == |readings|
  {
    Proposal(cfg, inRange, AfterWindows(cfg, inRange, start, ws[..i]), ws[i], readings[i].policyId,
             readings[i].issuedAt)
  }

  class AdaptiveController {
    const baselines: MemoryBaselineRepository
    const lifecycle: Lifecycle.Manager
    const cfg: AdaptiveConfig
    const inRange: InRange
    /** What each address's last window was compared with. */
    var windows: map<string, seq<EndpointObservation>>

    constructor (baselines: MemoryBaselineRepository, lifecycle: Lifecycle.Manager, cfg: AdaptiveConfig,
                 inRange: InRange)
      ensures this.baselines == baselines && this.lifecycle == lifecycle && this.cfg == cfg && this.inRange == inRange
      ensures windows == map[]
    {
      this.baselines, this.lifecycle, this.cfg, this.inRange := baselines, lifecycle, cfg, inRange;
      windows := map[];
    }

    /** One window: assessed, scored and staged, and only then learned from. */
    method ObserveWindow(w: Window, reading: Reading) returns (staged: Option<Staged>)
      requires baselines.Valid() && cfg.Valid()
      modifies this`windows, baselines, baselines.rows.Values, lifecycle.repository
      ensures baselines.Valid()
      ensures fresh(baselines.rows.Values - old(baselines.rows.Values))
      ensures windows == old(windows)[w.ip := Assessed(old(baselines.Table()), w.counts)]
      ensures Outcome(old(lifecycle.repository.Contents()),
                      Proposal(cfg, inRange, old(baselines.Table()), w, reading.policyId, reading.issuedAt),
                      cfg, reading.stagedAt, staged, lifecycle.repository.Contents())
      ensures baselines.Table() == LearnedAll(cfg, inRange, old(baselines.Table()), w)
    {
      hide EndpointKey.Of, RiskOf, Decision, ConfiguredAction, LearnedAll, Assessed, MostDeviant, AdaptiveConfig.Valid,
        Outcome,
        MemoryBaselineRepository.Valid, MemoryBaselineRepository.Table;
      ghost var before := baselines.Table();
      var rows := Assess(w.counts);
      windows := windows[w.ip := rows];
      var configured := ConfiguredAction(inRange, w.ip, cfg.guardrails);
      var context := MostDeviant(rows);
      var result := CalculateRisk(cfg, None, [], BaselineOf(context), ObservedOf(context));
      var behavioural := result.explanation.behaviouralThrottleAuthorized;
      assert result == Score(cfg, before, w) && behavioural == Throttled(cfg, before, w);
      var proposal := None;
      if configured.Some? || behavioural {
        proposal := Some(Decision(cfg, inRange, w.ip, result, context, if configured.Some? then Some(Monitor) else None,
                                  reading.policyId, reading.issuedAt));
      }
      staged := StageProposal(proposal, reading.stagedAt);
      Learn(w, before, configured, behavioural, context);
    }

    method StageProposal(proposal: Option<PolicyDecision>, now: real) returns (staged: Option<Staged>)
      modifies lifecycle.repository
      ensures Outcome(old(lifecycle.repository.Contents()), proposal, cfg, now, staged, lifecycle.repository.Contents())
    {
      hide Lifecycle.LastForScope, Lifecycle.StageOf, Lifecycle.AfterStage;
      staged := None;
      if proposal.Some? {
        var recommendation, enforce, previous := lifecycle.Stage(proposal.value, cfg, now);
        staged := Some(Staged(recommendation, enforce));
        assert StagedFrom(old(lifecycle.repository.Contents()), previous, proposal.value, cfg, now, staged.value,
                          lifecycle.repository.Contents());
      }
    }

    /** The windows one after another; the readings name and date the decisions they may lead to, and ledgers is what
        the lifecycle kept before each of them and at the end. */
    method Observe(ws: seq<Window>, readings: seq<Reading>)
      returns (staged: seq<Option<Staged>>, ghost ledgers: seq<Lifecycle.Ledger>)
      requires baselines.Valid() && cfg.Valid() && |readings| == |ws|
      modifies this`windows, baselines, baselines.rows.Values, lifecycle.repository
      ensures baselines.Valid()
      ensures baselines.Table() == AfterWindows(cfg, inRange, old(baselines.Table()), ws)
      ensures windows == Compared(cfg, inRange, old(baselines.Table()), old(windows), ws)
      ensures |staged| == |ws| && |ledgers| == |ws| + 1
      ensures ledgers[0] == old(lifecycle.repository.Contents()) && ledgers[|ws|] == lifecycle.repository.Contents()
      ensures forall i :: 0 <= i < |ws| ==>
                Outcome(ledgers[i], ProposalAt(cfg, inRange, old(baselines.Table()), ws, readings, i), cfg,
                        readings[i].stagedAt,
                        staged[i], ledgers[i + 1])
    {
      hide Proposal, LearnedAll, Assessed, Outcome, MemoryBaselineRepository.Valid, MemoryBaselineRepository.Table,
        AdaptiveConfig.Valid;
      assert cfg.baseline.Valid() by {
        BaselineValid(cfg);
      }
      ghost var start, known := baselines.Table(), windows;
      staged := [];
      ledgers := [lifecycle.repository.Contents()];
      for i := 0 to |ws|
        invariant baselines.Valid()
        invariant fresh(baselines.rows.Values - old(baselines.rows.Values))
        invariant baselines.Table() == AfterWindows(cfg, inRange, start, ws[..i])
        invariant windows == Compared(cfg, inRange, start, known, ws[..i])
        invariant |staged| == i && |ledgers| == i + 1
        invariant ledgers[0] == old(lifecycle.repository.Contents()) && ledgers[i] == lifecycle.repository.Contents()
        invariant forall j :: 0 <= j < i ==>
                    Outcome(ledgers[j], ProposalAt(cfg, inRange, start, ws, readings, j), cfg, readings[j].stagedAt,
                            staged[j], ledgers[j + 1])
      {
        assert ws[..i + 1][..i] == ws[..i];
        var next := ObserveWindow(ws[i], readings[i]);
        staged := staged + [next];
        ledgers := ledgers + [lifecycle.repository.Contents()];
      }
      assert ws[..|ws|] == ws;
    }

    method Assess(counts: seq<RouteCount>) returns (rows: seq<EndpointObservation>)
      ensures rows == Assessed(baselines.Table(), counts)
    {
      hide EndpointKey.Of;
      rows := [];
      for i := 0 to |counts|
        invariant |rows| == i
        invariant forall j :: 0 <= j < i ==> rows[j] == Assessed(baselines.Table(), counts)[j]
      {
        var key := counts[i].Key();
        var row := baselines.GetBaseline(key);
        var summary := None;
        if row.Some? {
          summary := Some(row.value.Value());
        }
        rows := rows + [EndpointObservation(key, counts[i].observed, summary)];
      }
    }

    method Learn(w: Window, ghost before: Table, configured: Option<Action>, behavioural: bool,
                 context: Option<EndpointObservation>)
      requires baselines.Valid() && cfg.Valid() && before == baselines.Table()
      requires configured == ConfiguredAction(inRange, w.ip, cfg.guardrails)
      requires behavioural == Throttled(cfg, before, w) && context == Context(before, w)
      modifies baselines, baselines.rows.Values
      ensures baselines.Valid()
      ensures fresh(baselines.rows.Values - old(baselines.rows.Values))
      ensures baselines.Table() == LearnedAll(cfg, inRange, before, w)
    {
      hide EndpointKey.Of, LearnedOne, Throttled, Context, ConfiguredAction, AdaptiveConfig.Valid,
        MemoryBaselineRepository.Table,
        MemoryBaselineRepository.Valid;
      assert cfg.baseline.Valid() by {
        BaselineValid(cfg);
      }
      var learner := new BaselineLearner(baselines, cfg.baseline);
      ghost var rows := baselines.rows.Values;
      for i := 0 to |w.counts|
        invariant baselines.Valid()
        invariant fresh(baselines.rows.Values - old(baselines.rows.Values))
        invariant baselines.Table() == LearnedFrom(cfg, inRange, before, w, i)
      {
        var c := w.counts[i];
        var trusted := w.safeToLearn && configured != Some(TempBlock)
          && !(behavioural && context.Some? && context.value.key == c.Key());
        LearnCount(learner, c.Key(), c.observed, trusted, w.start);
      }
    }
  }

  method LearnCount(learner: BaselineLearner, key: EndpointKey, observed: int, trusted: bool, now: real)
    requires learner.repository.Valid() && learner.config.Valid()
    modifies learner.repository, learner.repository.rows.Values
    ensures learner.repository.Valid()
    ensures fresh(learner.repository.rows.Values - old(learner.repository.rows.Values))
    ensures learner.repository.Table() ==
            LearnedOne(learner.config, old(learner.repository.Table()), key, observed, trusted, now)
  {
    hide EndpointKey.Of, Observed, MemoryBaselineRepository.Valid;
    var _ := learner.Observe(key, observed, trusted, now);
  }

  lemma BaselineValid(cfg: AdaptiveConfig)
    requires cfg.Valid()
    ensures cfg.baseline.Valid()
  {
  }

  // ---- Laws -------------------------------------------------------------

  /** Nothing that was learned differs; only the visible rate and its time may. */
  predicate SameLearning(s: Summary, t: Summary) { t == s.(observedRate := t.observedRate, lastUpdate := t.lastUpdate) }

  lemma CountKeyIsCanonical(c: RouteCount)
    requires c.verb == "" || Text.Strip(c.verb) != ""
    ensures c.Key().Canonical() == c.Key()
  {
    CanonicalKeyIsStable(c.verb, c.route);
  }

  /** Every request of the window has a method that is not only blanks. */
  predicate MethodsNamed(w: Window) {
    forall i :: 0 <= i < |w.counts| ==> w.counts[i].verb == "" || Text.Strip(w.counts[i].verb) != ""
  }

  lemma {:induction false} UntaughtStays(cfg: AdaptiveConfig, inRange: InRange, table: Table, w: Window,
                                         key: EndpointKey, n: nat)
    requires cfg.baseline.rollingWindows >= 1 && n <= |w.counts| && MethodsNamed(w)
    requires key in table && !Teaches(cfg, inRange, table, w, key)
    ensures key in LearnedFrom(cfg, inRange, table, w, n)
            && SameLearning(table[key], LearnedFrom(cfg, inRange, table, w, n)[key])
  {
    hide Teaches, EndpointKey.Of, LearnedOne;
    if n > 0 {
      var c := w.counts[n - 1];
      UntaughtStays(cfg, inRange, table, w, key, n - 1);
      CountKeyIsCanonical(c);
      OneKeeps(cfg.baseline, LearnedFrom(cfg, inRange, table, w, n - 1), c.Key(), c.observed,
               Teaches(cfg, inRange, table, w, c.Key()), w.start, key);
    }
  }

  lemma OneKeeps(cfg: BaselineConfig, table: Table, key: EndpointKey, observed: int, trusted: bool, now: real,
                 other: EndpointKey)
    requires cfg.rollingWindows >= 1 && key.Canonical() == key && other in table && (key == other ==> !trusted)
    ensures other in LearnedOne(cfg, table, key, observed, trusted, now)
    ensures SameLearning(table[other], LearnedOne(cfg, table, key, observed, trusted, now)[other])
  {
    hide EndpointKey.Of, EndpointKey.Canonical;
    if key == other {
      assert Observed(cfg, table[key], observed, false, now) ==
             table[key].(observedRate := Max(0, observed), lastUpdate := Some(now));
    }
    hide Observed;
  }

  /** A burst that justifies a behavioural throttle teaches its own endpoint nothing: it cannot raise the threshold it
      was judged by. */
  lemma BurstTeachesItsEndpointNothing(cfg: AdaptiveConfig, inRange: InRange, table: Table, w: Window)
    requires cfg.baseline.rollingWindows >= 1 && MethodsNamed(w) && Throttled(cfg, table, w)
    ensures Context(table, w).Some?
    ensures var key := Context(table, w).value.key;
            && key in table && key in LearnedAll(cfg, inRange, table, w)
            && SameLearning(table[key], LearnedAll(cfg, inRange, table, w)[key])
  {
    ThrottledHasBaseline(cfg, table, w);
    var key := Context(table, w).value.key;
    hide Throttled, Context;
    assert !Teaches(cfg, inRange, table, w, key);
    UntaughtStays(cfg, inRange, table, w, key, |w.counts|);
  }

  lemma ThrottledHasBaseline(cfg: AdaptiveConfig, table: Table, w: Window)
    requires Throttled(cfg, table, w)
    ensures Context(table, w).Some? && Context(table, w).value.key in table
  {
    hide EndpointKey.Of, Round2, Round3, Round4, Chosen, ThrottleRate;
    var rows, context := Assessed(table, w.counts), Context(table, w);
    assert BehaviouralThrottle(cfg, BaselineOf(context), ObservedOf(context));
    assert context.value in rows;
    var i :| 0 <= i < |rows| && rows[i] == context.value;
    assert context.value.baseline == SummaryAt(table, context.value.key);
  }

  /** A window that may teach the endpoint, after the windows before it, counted x requests for it. */
  ghost predicate Vouches(cfg: AdaptiveConfig, inRange: InRange, before: seq<Window>, w: Window, key: EndpointKey,
                          x: real)
    requires cfg.baseline.rollingWindows >= 1
  {
    exists j :: 0 <= j < |w.counts|
      && CountVouches(cfg, inRange, AfterWindows(cfg, inRange, map[], before), w, w.counts[j], key, x)
  }

  predicate CountVouches(cfg: AdaptiveConfig, inRange: InRange, table: Table, w: Window, c: RouteCount,
                         key: EndpointKey, x: real)
  {
    && (c.Key() == key || c.Key().Canonical() == key)
    && Teaches(cfg, inRange, table, w, c.Key())
    && x == Max(0, c.observed) as real
  }

  /** Some window of the run vouches for the sample. */
  ghost predicate Witnessed(cfg: AdaptiveConfig, inRange: InRange, ws: seq<Window>, key: EndpointKey, x: real)
    requires cfg.baseline.rollingWindows >= 1
  {
    exists i :: 0 <= i < |ws| && Vouches(cfg, inRange, ws[..i], ws[i], key, x)
  }

  /** Every sample in the table was witnessed in the run, for the row's own endpoint. */
  ghost predicate Traced(cfg: AdaptiveConfig, inRange: InRange, ws: seq<Window>, table: Table)
    requires cfg.baseline.rollingWindows >= 1
  {
    forall key, i :: key in table && 0 <= i < |table[key].samples| ==>
      Witnessed(cfg, inRange, ws, key, table[key].samples[i])
  }

  lemma WitnessedLater(cfg: AdaptiveConfig, inRange: InRange, ws: seq<Window>, w: Window, key: EndpointKey, x: real)
    requires cfg.baseline.rollingWindows >= 1
    requires Witnessed(cfg, inRange, ws, key, x) || Vouches(cfg, inRange, ws, w, key, x)
    ensures Witnessed(cfg, inRange, ws + [w], key, x)
  {
    hide Vouches;
    var more := ws + [w];
    if Witnessed(cfg, inRange, ws, key, x) {
      var i :| 0 <= i < |ws| && Vouches(cfg, inRange, ws[..i], ws[i], key, x);
      assert more[..i] == ws[..i];
      assert more[i] == ws[i];
    } else {
      assert more[..|ws|] == ws;
      assert more[|ws|] == w;
    }
  }

  lemma TracedLater(cfg: AdaptiveConfig, inRange: InRange, ws: seq<Window>, w: Window, table: Table)
    requires cfg.baseline.rollingWindows >= 1 && Traced(cfg, inRange, ws, table)
    ensures Traced(cfg, inRange, ws + [w], table)
  {
    hide Witnessed;
    forall key, i | key in table && 0 <= i < |table[key].samples|
      ensures Witnessed(cfg, inRange, ws + [w], key, table[key].samples[i])
    {
      WitnessedLater(cfg, inRange, ws, w, key, table[key].samples[i]);
    }
  }

  /** A row after an observation holds old samples, and the new rate if it was trusted. */
  lemma SamplesAfter(cfg: BaselineConfig, s: Summary, observed: int, trusted: bool, now: real, i: nat)
    requires cfg.rollingWindows >= 1 && i < |Observed(cfg, s, observed, trusted, now).samples|
    ensures var x := Observed(cfg, s, observed, trusted, now).samples[i];
            x in s.samples || (trusted && x == Max(0, observed) as real)
  {
    hide MayChange, Statistics.Median, Statistics.Mad, BaselineConfig.Proposed;
  }

  lemma OneTraced(cfg: AdaptiveConfig, inRange: InRange, ws: seq<Window>, table: Table, key: EndpointKey,
                  observed: int, trusted: bool, now: real)
    requires cfg.baseline.rollingWindows >= 1 && Traced(cfg, inRange, ws, table)
    requires trusted ==> Witnessed(cfg, inRange, ws, StoredKey(table, key), Max(0, observed) as real)
    ensures Traced(cfg, inRange, ws, LearnedOne(cfg.baseline, table, key, observed, trusted, now))
  {
    hide Witnessed, Observed, EndpointKey.Of, EndpointKey.Canonical;
    var after, s := LearnedOne(cfg.baseline, table, key, observed, trusted, now), SummaryAt(table, key).GetOr(EMPTY);
    forall k, i | k in after && 0 <= i < |after[k].samples| ensures Witnessed(cfg, inRange, ws, k, after[k].samples[i])
    {
      if k == StoredKey(table, key) {
        SamplesAfter(cfg.baseline, s, observed, trusted, now, i);
        assert after[k].samples[i] in s.samples ==> key in table && k == key;
      }
    }
  }

  lemma {:induction false} WindowTraced(cfg: AdaptiveConfig, inRange: InRange, ws: seq<Window>, w: Window, n: nat)
    requires cfg.baseline.rollingWindows >= 1 && n <= |w.counts|
    requires Traced(cfg, inRange, ws + [w], AfterWindows(cfg, inRange, map[], ws))
    ensures Traced(cfg, inRange, ws + [w], LearnedFrom(cfg, inRange, AfterWindows(cfg, inRange, map[], ws), w, n))
  {
    hide LearnedOne, Traced, Teaches, EndpointKey.Of, EndpointKey.Canonical, Witnessed, AfterWindows;
    if n > 0 {
      var table, c := AfterWindows(cfg, inRange, map[], ws), w.counts[n - 1];
      WindowTraced(cfg, inRange, ws, w, n - 1);
      var before, trusted := LearnedFrom(cfg, inRange, table, w, n - 1), Teaches(cfg, inRange, table, w, c.Key());
      if trusted {
        assert CountVouches(cfg, inRange, table, w, c, StoredKey(before, c.Key()), Max(0, c.observed) as real);
        WitnessedLater(cfg, inRange, ws, w, StoredKey(before, c.Key()), Max(0, c.observed) as real);
      }
      OneTraced(cfg, inRange, ws + [w], before, c.Key(), c.observed, trusted, w.start);
    }
  }

  /** Every sample any baseline ever holds is the rate that a trusted window counted for that very endpoint; the address
      was not blocklisted, and the window was not the burst for which the endpoint was being throttled. */
  lemma {:induction false} OnlyTrustedWindowsTeach(cfg: AdaptiveConfig, inRange: InRange, ws: seq<Window>)
    requires cfg.baseline.rollingWindows >= 1
    ensures Traced(cfg, inRange, ws, AfterWindows(cfg, inRange, map[], ws))
  {
    hide LearnedFrom, Witnessed;
    if ws != [] {
      var before, w := ws[..|ws| - 1], ws[|ws| - 1];
      OnlyTrustedWindowsTeach(cfg, inRange, before);
      TracedLater(cfg, inRange, before, w, AfterWindows(cfg, inRange, map[], before));
      assert ws == before + [w];
      WindowTraced(cfg, inRange, before, w, |w.counts|);
    }
  }

  // ---- The endpoint a campaign attacked ----------------------------------

  const DETECTOR_UNKNOWN_ROUTE_SCAN: string := "unknown_route_scanning"

  function MethodsOn(rows: seq<Evidence>, route: string): seq<string> {
    if rows == [] then []
    else
      var last := rows[|rows| - 1];
      MethodsOn(rows[..|rows| - 1], route)
        + (if last.endpoint == route && last.verb != "" then [Text.Upper(last.verb)] else [])
  }

  predicate Preferred(counts: map<string, nat>, a: string, b: string)
    requires a in counts && b in counts
  {
    counts[a] > counts[b] || (counts[a] == counts[b] && Text.TextLeq(a, b))
  }

  /** The method used most, and the first by name among equals. */
  ghost predicate MostUsed(methods: seq<string>, m: string) {
    && m in methods
    && forall o :: o in methods ==>
         multiset(methods)[m] > multiset(methods)[o]
           || (multiset(methods)[m] == multiset(methods)[o] && Text.TextLeq(m, o))
  }

  method CountMethods(rows: seq<Evidence>, route: string) returns (counts: map<string, nat>)
    ensures forall m :: m in counts <==> m in MethodsOn(rows, route)
    ensures forall m :: m in counts ==> counts[m] == multiset(MethodsOn(rows, route))[m]
  {
    counts := map[];
    for i := 0 to |rows|
      invariant forall m :: m in counts <==> m in MethodsOn(rows[..i], route)
      invariant forall m :: m in counts ==> counts[m] == multiset(MethodsOn(rows[..i], route))[m]
    {
      assert rows[..i + 1][..i] == rows[..i];
      if rows[i].endpoint != route || rows[i].verb == "" {
        continue;
      }
      var m := Text.Upper(rows[i].verb);
      counts := counts[m := (if m in counts then counts[m] else 0) + 1];
    }
    assert rows[..|rows|] == rows;
  }

  method MostUsedMethod(counts: map<string, nat>) returns (best: string)
    requires counts != map[]
    ensures best in counts && forall o :: o in counts ==> Preferred(counts, best, o)
  {
    assert counts.Keys != {};
    best :| best in counts.Keys;
    Text.TextTotal(best, best);
    var todo := counts.Keys - {best};
    while todo != {}
      invariant best in counts && todo <= counts.Keys
      invariant forall o :: o in counts && o !in todo ==> Preferred(counts, best, o)
      decreases todo
    {
      var m :| m in todo;
      todo := todo - {m};
      Text.TextTotal(best, m);
      Text.TextTotal(m, m);
      if !Preferred(counts, best, m) {
        forall o | o in counts && o !in todo ensures Preferred(counts, m, o) {
          if counts[m] == counts[o] && o != m {
            Text.TextTransitive(m, best, o);
          }
        }
        best := m;
      }
    }
  }

  /** The endpoint a campaign demonstrably attacked, if its evidence names one; otherwise the one of the address's last
      window. A scan for unknown routes has none. */
  ghost predicate EndpointFor(detector: string, endpoint: string, evidence: seq<Evidence>,
                              fallback: Option<EndpointObservation>,
                              r: Option<EndpointObservation>) {
    var route := Text.Strip(endpoint);
    if detector == DETECTOR_UNKNOWN_ROUTE_SCAN || route == "" || MethodsOn(evidence, route) == [] then r == fallback
    else exists m :: MostUsed(MethodsOn(evidence, route), m) && r == AtEndpoint(EndpointKey.Of(m, route), fallback)
  }

  function AtEndpoint(key: EndpointKey, fallback: Option<EndpointObservation>): (r: Option<EndpointObservation>)
    ensures r.Some? && r.value.key == key
    ensures r == fallback || (r.value.observed == 0 && r.value.baseline == None)
    ensures fallback.Some? && fallback.value.key == key ==> r == fallback
  {
    if fallback.Some? && fallback.value.key == key then fallback else Some(EndpointObservation(key, 0, None))
  }

  lemma SomeMethod(methods: seq<string>)
    ensures methods != [] ==> exists m :: m in methods
  {
    assert methods != [] ==> methods[0] in methods;
  }

  method CampaignEndpoint(detector: string, endpoint: string, evidence: seq<Evidence>,
                          fallback: Option<EndpointObservation>)
    returns (r: Option<EndpointObservation>)
    ensures EndpointFor(detector, endpoint, evidence, fallback, r)
  {
    hide EndpointKey.Of, Text.Strip;
    if detector == DETECTOR_UNKNOWN_ROUTE_SCAN {
      return fallback;
    }
    var route := Text.Strip(endpoint);
    if route == "" {
      return fallback;
    }
    var counts := CountMethods(evidence, route);
    if counts == map[] {
      SomeMethod(MethodsOn(evidence, route));
      return fallback;
    }
    var m := MostUsedMethod(counts);
    var key := EndpointKey.Of(m, route);
    assert MostUsed(MethodsOn(evidence, route), m);
    if fallback.Some? && fallback.value.key == key {
      return fallback;
    }
    return Some(EndpointObservation(key, 0, None));
  }
}
