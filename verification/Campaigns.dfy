/** Campaign memory: this cycle's clusters folded into the campaigns already known. */
module Campaigns {
  import opened Common
  import opened Rounding
  import opened Sums
  import Models

  datatype Status = Active | Contained

  /** A remembered campaign. id 0 is one the repository has not numbered yet; times are seconds. */
  datatype Campaign = Campaign(
    id: nat,
    kind: string,
    confidence: real,
    ips: set<string>,
    severity: string,
    lastSeen: real,
    eventCount: int,
    status: Status,
    quietCycles: nat,
    lastAction: Option<Models.Action>,
    rotations: nat,
    persistence: nat,
    alerted: bool,
    signature: map<string, string>,
    stages: seq<string>)

  const MERGE_OVERLAP: real := 0.4
  const CONTAINED_AFTER: nat := 3
  const SIGNATURE_MATCH: real := 0.7
  const MULTI_STAGE: string := "Multi-Stage Intrusion"
  const UNCLASSIFIED: string := "Unclassified Activity"

  // ---- Matching ---------------------------------------------------------

  /** Shared addresses as a part of all the addresses. */
  function Overlap(a: set<string>, b: set<string>): (r: real)
    ensures 0.0 <= r <= 1.0
    ensures r > 0.0 <==> a * b != {}
  {
    if a == {} || b == {} then 0.0
    else
      SubsetSize(a * b, a + b);
      NotEmpty(a, a + b);
      Part(|a * b|, |a + b|)
  }

  function Part(n: nat, m: nat): (r: real)
    requires n <= m && 0 < m
    ensures 0.0 <= r <= 1.0 && (r > 0.0 <==> n > 0)
  {
    n as real / m as real
  }

  lemma NotEmpty<T>(a: set<T>, b: set<T>)
    requires a != {} && a <= b
    ensures |b| > 0
  {
    SubsetSize(a, b);
  }

  /** Two address sets share enough exactly when two fifths of all their addresses are in both. */
  lemma OverlapExactly(a: set<string>, b: set<string>)
    ensures Overlap(a, b) >= MERGE_OVERLAP <==> a * b != {} && 5 * |a * b| >= 2 * |a + b|
  {
    if a * b != {} {
      SubsetSize(a * b, a + b);
      NotEmpty(a * b, a + b);
      QuotientAtLeast(|a * b| as real, |a + b| as real, MERGE_OVERLAP);
    }
  }

  function Field(signature: map<string, string>, name: string): string {
    if name in signature then signature[name] else ""
  }

  predicate SameField(a: map<string, string>, b: map<string, string>, name: string) {
    Field(a, name) != "" && Field(a, name) == Field(b, name)
  }

  predicate Comparable(signature: map<string, string>) {
    Field(signature, "endpoint") != "" && Field(signature, "user_agent") != "" && Field(signature, "detector") != ""
  }

  function Weight(holds: bool, weight: real): real { if holds then weight else 0.0 }

  function BehaviourScore(candidate: Campaign, existing: Campaign, window: real): real {
    var a, b := candidate.signature, existing.signature;
    if !Comparable(a) || !Comparable(b) then 0.0
    else if Field(a, "detector") != Field(b, "detector") then 0.0
    else if Abs(candidate.lastSeen - existing.lastSeen) > window then 0.0
    else
      Weight(SameField(a, b, "endpoint"), 0.4)
      + Weight(SameField(a, b, "user_agent"), 0.4)
      + Weight(SameField(a, b, "subnet"), 0.2)
  }

  /** The index of the first of the greatest positive scores. */
  ghost predicate FirstBest(scores: seq<real>, best: Option<nat>) {
    match best
    case None => forall j :: 0 <= j < |scores| ==> scores[j] <= 0.0
    case Some(i) =>
      && i < |scores| && scores[i] > 0.0
      && (forall j :: 0 <= j < |scores| ==> scores[j] <= scores[i])
      && (forall j :: 0 <= j < i ==> scores[j] < scores[i])
  }

  function Overlaps(candidate: Campaign, known: seq<Campaign>): seq<real> {
    seq(|known|, i requires 0 <= i < |known| => Overlap(candidate.ips, known[i].ips))
  }

  function BehaviourScores(candidate: Campaign, known: seq<Campaign>, window: real): seq<real> {
    seq(|known|, i requires 0 <= i < |known| => BehaviourScore(candidate, known[i], window))
  }

  datatype Basis = Addresses | Behaviour

  datatype Match = Unmatched | Matched(at: nat, basis: Basis)

  function BestOf(scores: seq<real>): (best: Option<nat>)
    ensures FirstBest(scores, best)
  {
    if scores == [] then None
    else
      var last := |scores| - 1;
      match BestOf(scores[..last])
      case None => if scores[last] > 0.0 then Some(last) else None
      case Some(i) => if scores[last] > scores[i] then Some(last) else Some(i)
  }

  function BestMatch(candidate: Campaign, known: seq<Campaign>, window: real): (m: Match)
    ensures m.Matched? ==> m.at < |known|
  {
    var byIps := BestOf(Overlaps(candidate, known));
    if byIps.Some? && Overlap(candidate.ips, known[byIps.value].ips) >= MERGE_OVERLAP
      then Matched(byIps.value, Addresses)
    else
      var byBehaviour := BestOf(BehaviourScores(candidate, known, window));
      if byBehaviour.Some? && BehaviourScore(candidate, known[byBehaviour.value], window) >= SIGNATURE_MATCH
      then Matched(byBehaviour.value, Behaviour)
      else Unmatched
  }

  /** The running maximum of the source's loops finds the first of the greatest scores. */
  method Best(scores: seq<real>) returns (best: Option<nat>)
    ensures best == BestOf(scores)
  {
    best := None;
    var bestScore := 0.0;
    for i := 0 to |scores|
      invariant best == BestOf(scores[..i])
      invariant bestScore == match best case None => 0.0 case Some(b) => scores[b]
    {
      assert scores[..i + 1][..i] == scores[..i];
      if scores[i] > bestScore {
        best, bestScore := Some(i), scores[i];
      }
    }
    assert scores[..|scores|] == scores;
  }

  method FindMatch(candidate: Campaign, known: seq<Campaign>, window: real) returns (m: Match)
    ensures m == BestMatch(candidate, known, window)
  {
    var best := Best(Overlaps(candidate, known));
    if best.Some? && Overlap(candidate.ips, known[best.value].ips) >= MERGE_OVERLAP {
      return Matched(best.value, Addresses);
    }
    best := Best(BehaviourScores(candidate, known, window));
    if best.Some? && BehaviourScore(candidate, known[best.value], window) >= SIGNATURE_MATCH {
      return Matched(best.value, Behaviour);
    }
    return Unmatched;
  }

  /** The same attack by the same tool on the same endpoint, not too long apart. */
  predicate SameOperation(candidate: Campaign, existing: Campaign, window: real) {
    var a, b := candidate.signature, existing.signature;
    && SameField(a, b, "endpoint") && SameField(a, b, "user_agent") && SameField(a, b, "detector")
    && Abs(candidate.lastSeen - existing.lastSeen) <= window
  }

  /** The weighted score reaches its threshold exactly for the same operation: the subnet neither suffices nor is
      needed. */
  lemma BehaviourExactly(candidate: Campaign, existing: Campaign, window: real)
    ensures BehaviourScore(candidate, existing, window) >= SIGNATURE_MATCH <==>
            SameOperation(candidate, existing, window)
  {
  }

  /** A candidate continues a known campaign exactly when one shares enough addresses or is the same operation. By
      addresses it is the first of those with the greatest overlap; by behaviour it is one of the same operation. */
  lemma MatchExactly(candidate: Campaign, known: seq<Campaign>, window: real)
    ensures var m := BestMatch(candidate, known, window);
            match m
            case Unmatched =>
              forall i :: 0 <= i < |known| ==>
                Overlap(candidate.ips, known[i].ips) < MERGE_OVERLAP && !SameOperation(candidate, known[i], window)
            case Matched(at, Addresses) =>
              && Overlap(candidate.ips, known[at].ips) >= MERGE_OVERLAP
              && (forall i :: 0 <= i < |known| ==>
                  Overlap(candidate.ips, known[i].ips) <= Overlap(candidate.ips, known[at].ips))
              && (forall i :: 0 <= i < at ==>
                  Overlap(candidate.ips, known[i].ips) < Overlap(candidate.ips, known[at].ips))
            case Matched(at, Behaviour) =>
              && (forall i :: 0 <= i < |known| ==> Overlap(candidate.ips, known[i].ips) < MERGE_OVERLAP)
              && SameOperation(candidate, known[at], window)
              && (forall i :: 0 <= i < |known| ==>
                  BehaviourScore(candidate, known[i], window) <= BehaviourScore(candidate, known[at], window))
  {
    var shared, alike := Overlaps(candidate, known), BehaviourScores(candidate, known, window);
    assert FirstBest(shared, BestOf(shared)) && FirstBest(alike, BestOf(alike));
    hide Overlap, BehaviourScore, SameOperation;
    forall i | 0 <= i < |known|
      ensures shared[i] == Overlap(candidate.ips, known[i].ips)
              && alike[i] == BehaviourScore(candidate, known[i], window)
      ensures alike[i] >= SIGNATURE_MATCH <==> SameOperation(candidate, known[i], window)
    {
      BehaviourExactly(candidate, known[i], window);
    }
  }

  /** Behaviour is consulted even when some addresses are shared, as long as they are too few. */
  lemma BehaviourDespiteSharedAddress() returns (candidate: Campaign, existing: Campaign)
    ensures candidate.ips * existing.ips != {}
    ensures BestMatch(candidate, [existing], 7200.0) == Matched(0, Behaviour)
  {
    var signature := map["endpoint" := "/api/login", "user_agent" := "hydra", "detector" := "BruteForceAgent"];
    existing := Campaign(1, UNCLASSIFIED, 0.5, {"a", "b", "c"}, "low", 0.0, 3, Active, 0, None, 0, 0, false, signature,
                         []);
    candidate := existing.(id := 0, ips := {"c", "d", "e"});
    var shared, all := candidate.ips * existing.ips, candidate.ips + existing.ips;
    assert shared == {"c"};
    assert all == {"a", "b", "c", "d", "e"};
    assert Overlap(candidate.ips, existing.ips) == 1.0 / 5.0;
    MatchExactly(candidate, [existing], 7200.0);
    assert SameOperation(candidate, [existing][0], 7200.0);
  }

  // ---- Absorbing --------------------------------------------------------

  function SeverityRank(severity: string): nat {
    if severity == "medium" then 1 else if severity == "high" then 2 else 0
  }

  function Worst(a: string, b: string): (w: string)
    ensures SeverityRank(w) == Max(SeverityRank(a), SeverityRank(b))
    ensures w == a || w == b
  {
    if SeverityRank(a) >= SeverityRank(b) then a else b
  }

  function WithStages(stages: seq<string>, more: seq<string>): seq<string> {
    if more == [] then stages
    else
      var before := WithStages(stages, more[..|more| - 1]);
      var last := more[|more| - 1];
      if last in before then before else before + [last]
  }

  function Raised(a: real, b: real): real { Round3(MinR(1.0, MaxR(a, b) + 0.05)) }

  function Absorbed(existing: Campaign, sighting: Campaign): Campaign {
    var stages := WithStages(existing.stages, sighting.stages);
    existing.(
    ips := existing.ips + sighting.ips,
    eventCount := existing.eventCount + sighting.eventCount,
    lastSeen := MaxR(existing.lastSeen, sighting.lastSeen),
    severity := Worst(existing.severity, sighting.severity),
    stages := stages,
    signature := if sighting.signature != map[] then sighting.signature else existing.signature,
    confidence := Raised(existing.confidence, sighting.confidence),
    kind := if |stages| > 1 then MULTI_STAGE else if sighting.kind != UNCLASSIFIED then sighting.kind
      else existing.kind)
  }

  method Absorb(existing: Campaign, sighting: Campaign) returns (c: Campaign)
    ensures c == Absorbed(existing, sighting)
  {
    c := existing.(
    ips := existing.ips + sighting.ips,
    eventCount := existing.eventCount + sighting.eventCount,
    lastSeen := MaxR(existing.lastSeen, sighting.lastSeen),
    severity := Worst(existing.severity, sighting.severity));
    for i := 0 to |sighting.stages|
      invariant c ==
                existing.(ips := c.ips, eventCount := c.eventCount, lastSeen := c.lastSeen, severity := c.severity,
                          stages := c.stages)
      invariant c.ips == existing.ips + sighting.ips && c.eventCount == existing.eventCount + sighting.eventCount
      invariant c.lastSeen == MaxR(existing.lastSeen, sighting.lastSeen)
                && c.severity == Worst(existing.severity, sighting.severity)
      invariant c.stages == WithStages(existing.stages, sighting.stages[..i])
    {
      assert sighting.stages[..i + 1][..i] == sighting.stages[..i];
      if sighting.stages[i] !in c.stages {
        c := c.(stages := c.stages + [sighting.stages[i]]);
      }
    }
    assert sighting.stages[..|sighting.stages|] == sighting.stages;
    if sighting.signature != map[] {
      c := c.(signature := sighting.signature);
    }
    c := c.(confidence := Round3(MinR(1.0, MaxR(c.confidence, sighting.confidence) + 0.05)));
    if |c.stages| > 1 {
      c := c.(kind := MULTI_STAGE);
    } else if sighting.kind != UNCLASSIFIED {
      c := c.(kind := sighting.kind);
    }
  }

  lemma {:induction false} StagesAccumulate(stages: seq<string>, more: seq<string>)
    ensures stages <= WithStages(stages, more)
    ensures forall s :: s in WithStages(stages, more) <==> s in stages || s in more
  {
    if more != [] {
      StagesAccumulate(stages, more[..|more| - 1]);
      assert more == more[..|more| - 1] + [more[|more| - 1]];
    }
  }

  /** Another sighting makes a campaign at least as believable as before, and at most certain. */
  lemma ConfidenceRises(a: real, b: real)
    requires a <= 1.0 && b <= 1.0
    ensures MaxR(a, b) <= Raised(a, b) <= 1.0
    ensures MaxR(a, b) <= 0.95 ==> Raised(a, b) > MaxR(a, b)
  {
    Round3Fixes(1000);
    var raised := MaxR(a, b) + 0.05;
    RoundsMonotone(MinR(1.0, raised), 1.0);
    Round3Near(raised);
  }

  lemma Round3Near(x: real)
    ensures x - 0.0005 <= Round3(x) <= x + 0.0005
  {
  }

  predicate Restrained(c: Campaign) { c.lastAction.Some? && Models.Rung(c.lastAction.value) >= 1 }

  /** What becomes of a known campaign that a candidate continues. */
  function Continued(existing: Campaign, sighting: Campaign, basis: Basis): (c: Campaign)
    ensures c.id == existing.id && c.status == Active && c.quietCycles == 0
  {
    var moved := basis == Behaviour;
    var failed := Restrained(existing) && (existing.status == Contained || moved);
    Absorbed(existing, sighting).(
    rotations := existing.rotations + (if moved then 1 else 0),
    persistence := existing.persistence + (if failed then 1 else 0),
    status := Active,
    alerted := existing.alerted && existing.status != Contained,
    quietCycles := 0)
  }

  /** Nothing about a campaign shrinks. */
  ghost predicate Grew(was: Campaign, now: Campaign) {
    && now.id == was.id
    && was.confidence <= now.confidence <= 1.0
    && SeverityRank(was.severity) <= SeverityRank(now.severity)
    && was.stages <= now.stages
    && was.ips <= now.ips
    && was.lastSeen <= now.lastSeen
    && was.rotations <= now.rotations
    && was.persistence <= now.persistence
  }

  lemma ContinuingGrows(existing: Campaign, sighting: Campaign, basis: Basis)
    requires existing.confidence <= 1.0 && sighting.confidence <= 1.0
    ensures Grew(existing, Continued(existing, sighting, basis))
    ensures SeverityRank(sighting.severity) <= SeverityRank(Continued(existing, sighting, basis).severity)
    ensures forall s :: s in sighting.stages ==> s in Continued(existing, sighting, basis).stages
  {
    ConfidenceRises(existing.confidence, sighting.confidence);
    StagesAccumulate(existing.stages, sighting.stages);
  }

  /** What later sightings are compared with: the last signature that was not empty, from when the campaign was last
      seen. */
  lemma BehaviourAfter(existing: Campaign, sighting: Campaign, basis: Basis, next: Campaign, window: real)
    ensures var c := Continued(existing, sighting, basis);
            var known := if sighting.signature == map[] then existing.signature else sighting.signature;
            && c.lastSeen >= existing.lastSeen && c.lastSeen >= sighting.lastSeen
            && (c.lastSeen == existing.lastSeen || c.lastSeen == sighting.lastSeen)
            && (SameOperation(next, c, window) <==>
                && SameField(next.signature, known, "endpoint") && SameField(next.signature, known, "user_agent")
                && SameField(next.signature, known, "detector")
                && -window <= next.lastSeen - c.lastSeen <= window)
  {
  }

  /** What is counted when a campaign continues: a return from other addresses is a rotation; an address that was
      throttled or worse and comes back after it was contained, or from elsewhere, has persisted; and an alert is due
      again once it was contained. */
  lemma ContinuingCounts(existing: Campaign, sighting: Campaign, basis: Basis)
    ensures var c := Continued(existing, sighting, basis);
            && (basis == Addresses ==> c.rotations == existing.rotations)
            && (basis == Behaviour ==> c.rotations == existing.rotations + 1)
            && (c.persistence == existing.persistence + 1 || c.persistence == existing.persistence)
            && (c.persistence > existing.persistence <==>
                && existing.lastAction in {Some(Models.Throttle), Some(Models.TempBlock), Some(Models.Escalate)}
                && (existing.status == Contained || basis == Behaviour))
            && (c.alerted <==> existing.alerted && existing.status == Active)
            && c.eventCount == existing.eventCount + sighting.eventCount && c.ips == existing.ips + sighting.ips
            && (c.severity == "high" <==> existing.severity == "high" || sighting.severity == "high")
            && (c.severity == "medium" <==> c.severity != "high" && "medium" in {existing.severity, sighting.severity})
            && (c.severity !in {"high", "medium"} ==> c.severity == existing.severity)
            && c.lastAction == existing.lastAction
  {
  }

  ghost predicate Differ(stages: seq<string>) { exists s, t :: s in stages && t in stages && s != t }

  /** A campaign is of many stages as soon as two of its stages differ; before that it is of the last kind that was
      classified. */
  lemma KindExactly(existing: Campaign, sighting: Campaign, basis: Basis)
    requires |existing.stages| <= 1
    ensures Continued(existing, sighting, basis).kind ==
            if Differ(existing.stages + sighting.stages) then MULTI_STAGE
            else if sighting.kind == UNCLASSIFIED then existing.kind
            else sighting.kind
  {
    StagesDiffer(existing.stages, sighting.stages);
    hide WithStages, Differ;
  }

  ghost predicate AllAre(stages: seq<string>, only: string) { forall i :: 0 <= i < |stages| ==> stages[i] == only }

  lemma StagesDiffer(stages: seq<string>, more: seq<string>)
    requires |stages| <= 1
    ensures |WithStages(stages, more)| > 1 <==> Differ(stages + more)
  {
    var all := stages + more;
    StagesAccumulate(stages, more);
    hide WithStages;
    if Differ(all) {
      var s, t :| s in all && t in all && s != t;
      TwoMembers(WithStages(stages, more), s, t);
    } else {
      var only := if all == [] then "" else all[0];
      forall i | 0 <= i < |all| ensures all[i] == only {
        assert all[i] in all && only in all;
      }
      assert AllAre(stages, only) && AllAre(more, only) by {
        AllAreParts(stages, more, only);
      }
      StagesOfOne(stages, more, only);
    }
  }

  lemma AllAreParts(a: seq<string>, b: seq<string>, only: string)
    requires AllAre(a + b, only)
    ensures AllAre(a, only) && AllAre(b, only)
  {
    forall i | 0 <= i < |a| ensures a[i] == only {
      assert (a + b)[i] == a[i];
    }
    forall i | 0 <= i < |b| ensures b[i] == only {
      assert (a + b)[|a| + i] == b[i];
    }
  }

  lemma TwoMembers(stages: seq<string>, s: string, t: string)
    requires s in stages && t in stages && s != t
    ensures |stages| > 1
  {
  }

  lemma {:induction false} StagesOfOne(stages: seq<string>, more: seq<string>, only: string)
    requires |stages| <= 1 && AllAre(stages, only) && AllAre(more, only)
    ensures |WithStages(stages, more)| <= 1 && AllAre(WithStages(stages, more), only)
  {
    if more != [] {
      StagesOfOne(stages, more[..|more| - 1], only);
      var before := WithStages(stages, more[..|more| - 1]);
      assert before != [] ==> before[0] == only && before[0] in before;
    }
  }

  // ---- Folding a cycle --------------------------------------------------

  /** The campaigns known, the number last given out, and the positions of the campaigns touched so far. */
  datatype Folding = Folding(known: seq<Campaign>, counter: nat, touched: seq<nat>)

  function Fold(f: Folding, candidate: Campaign, window: real): Folding {
    match BestMatch(candidate, f.known, window)
    case Unmatched => Folding(f.known + [candidate.(id := f.counter + 1)], f.counter + 1, f.touched + [|f.known|])
    case Matched(at, basis) =>
      f.(known := f.known[at := Continued(f.known[at], candidate, basis)], touched := f.touched + [at])
  }

  function FoldAll(known: seq<Campaign>, counter: nat, sightings: seq<Campaign>, window: real): Folding {
    if sightings == [] then Folding(known, counter, [])
    else Fold(FoldAll(known, counter, sightings[..|sightings| - 1], window), sightings[|sightings| - 1], window)
  }

  ghost predicate Numbered(known: seq<Campaign>, counter: nat) {
    && (forall i :: 0 <= i < |known| ==> 1 <= known[i].id <= counter)
    && (forall i, j :: 0 <= i < j < |known| ==> known[i].id != known[j].id)
  }

  /** New campaigns are numbered one after another, and known ones keep their numbers. */
  lemma {:induction false} NumberedInOrder(known: seq<Campaign>, counter: nat, sightings: seq<Campaign>, window: real)
    ensures var f := FoldAll(known, counter, sightings, window);
            && |f.known| >= |known| && f.counter == counter + |f.known| - |known|
            && forall i :: 0 <= i < |f.known| ==>
                 f.known[i].id == if i < |known| then known[i].id else counter + 1 + i - |known|
  {
    if sightings != [] {
      hide BestMatch;
      NumberedInOrder(known, counter, sightings[..|sightings| - 1], window);
    }
  }

  ghost predicate Certain(known: seq<Campaign>) {
    forall i :: 0 <= i < |known| ==> known[i].confidence <= 1.0
  }

  function Events(known: seq<Campaign>): int {
    if known == [] then 0 else Events(known[..|known| - 1]) + known[|known| - 1].eventCount
  }

  function Covered(known: seq<Campaign>): set<string> {
    set i, ip | 0 <= i < |known| && ip in known[i].ips :: ip
  }

  lemma {:induction false} EventsUpdate(known: seq<Campaign>, at: nat, c: Campaign)
    requires at < |known|
    ensures Events(known[at := c]) == Events(known) - known[at].eventCount + c.eventCount
  {
    var last := |known| - 1;
    if at < last {
      EventsUpdate(known[..last], at, c);
      assert known[at := c][..last] == known[..last][at := c];
    } else {
      assert known[at := c][..last] == known[..last];
    }
  }

  /** One candidate: its events are added, its addresses are added, and nothing is lost. */
  lemma FoldConserves(f: Folding, candidate: Campaign, window: real)
    ensures Events(Fold(f, candidate, window).known) == Events(f.known) + candidate.eventCount
    ensures Covered(Fold(f, candidate, window).known) == Covered(f.known) + candidate.ips
  {
    var known, g := f.known, Fold(f, candidate, window);
    match BestMatch(candidate, known, window) {
      case Unmatched =>
        assert g.known[..|known|] == known;
        CoveredMore(known, g.known[|known|]);
      case Matched(at, basis) =>
        EventsUpdate(known, at, g.known[at]);
        CoveredUpdate(known, at, g.known[at], candidate.ips);
    }
  }

  lemma CoveredMore(known: seq<Campaign>, c: Campaign)
    ensures Covered(known + [c]) == Covered(known) + c.ips
  {
    var all := known + [c];
    forall ip ensures ip in Covered(all) <==> ip in Covered(known) + c.ips {
      if ip in Covered(known) {
        var i :| 0 <= i < |known| && ip in known[i].ips;
        assert ip in all[i].ips;
      }
      if ip in c.ips {
        assert ip in all[|known|].ips;
      }
    }
  }

  lemma CoveredUpdate(known: seq<Campaign>, at: nat, c: Campaign, more: set<string>)
    requires at < |known| && c.ips == known[at].ips + more
    ensures Covered(known[at := c]) == Covered(known) + more
  {
    var all := known[at := c];
    forall ip ensures ip in Covered(all) <==> ip in Covered(known) + more {
      if ip in Covered(known) {
        var i :| 0 <= i < |known| && ip in known[i].ips;
        assert ip in all[i].ips;
      }
      if ip in more {
        assert ip in all[at].ips;
      }
    }
  }

  /** A cycle conserves the number of events and loses no address. */
  lemma {:induction false} MergeConserves(known: seq<Campaign>, counter: nat, sightings: seq<Campaign>, window: real)
    ensures Events(FoldAll(known, counter, sightings, window).known) == Events(known) + Events(sightings)
    ensures Covered(FoldAll(known, counter, sightings, window).known) == Covered(known) + Covered(sightings)
  {
    hide Fold;
    if sightings == [] {
      assert Covered(sightings) == {};
    } else {
      var before, last := sightings[..|sightings| - 1], sightings[|sightings| - 1];
      MergeConserves(known, counter, before, window);
      FoldConserves(FoldAll(known, counter, before, window), last, window);
      assert sightings == before + [last];
      CoveredMore(before, last);
    }
  }

  /** Every known campaign keeps its place, and only grows. */
  ghost predicate AllGrew(was: seq<Campaign>, now: seq<Campaign>) {
    && |was| <= |now|
    && forall i :: 0 <= i < |was| ==> Grew(was[i], now[i])
  }

  lemma FoldGrows(f: Folding, candidate: Campaign, window: real)
    requires Numbered(f.known, f.counter) && Certain(f.known) && candidate.confidence <= 1.0
    ensures var g := Fold(f, candidate, window);
            Numbered(g.known, g.counter) && Certain(g.known) && AllGrew(f.known, g.known)
  {
    hide Continued, BestMatch;
    match BestMatch(candidate, f.known, window) {
      case Unmatched =>
      case Matched(at, basis) =>
        ContinuingGrows(f.known[at], candidate, basis);
    }
  }

  /** Numbers stay distinct, and no campaign loses confidence, severity, stages or addresses. */
  lemma {:induction false} MergeGrows(known: seq<Campaign>, counter: nat, sightings: seq<Campaign>, window: real)
    requires Numbered(known, counter) && Certain(known) && Certain(sightings)
    ensures var g := FoldAll(known, counter, sightings, window);
            Numbered(g.known, g.counter) && Certain(g.known) && AllGrew(known, g.known) && counter <= g.counter
  {
    hide Fold, Numbered, Certain, Grew;
    if sightings == [] {
      forall i | 0 <= i < |known| ensures Grew(known[i], known[i]) {
        GrewItself(known, i);
      }
    } else {
      var before, last := sightings[..|sightings| - 1], sightings[|sightings| - 1];
      assert Certain(before) && last.confidence <= 1.0 by {
        CertainParts(sightings);
      }
      MergeGrows(known, counter, before, window);
      var f := FoldAll(known, counter, before, window);
      FoldGrows(f, last, window);
      CounterGrows(f, last, window);
      var g := Fold(f, last, window);
      forall i | 0 <= i < |known| ensures Grew(known[i], g.known[i]) {
        GrewTwice(known[i], f.known[i], g.known[i]);
      }
    }
  }

  lemma CertainParts(sightings: seq<Campaign>)
    requires Certain(sightings) && sightings != []
    ensures Certain(sightings[..|sightings| - 1]) && sightings[|sightings| - 1].confidence <= 1.0
  {
  }

  lemma CounterGrows(f: Folding, candidate: Campaign, window: real)
    ensures f.counter <= Fold(f, candidate, window).counter
  {
  }

  lemma GrewItself(known: seq<Campaign>, i: nat)
    requires Certain(known) && i < |known|
    ensures Grew(known[i], known[i])
  {
  }

  lemma GrewTwice(a: Campaign, b: Campaign, c: Campaign)
    requires Grew(a, b) && Grew(b, c)
    ensures Grew(a, c)
  {
  }
}
