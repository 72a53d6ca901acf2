/** More evidence never weakens the answer, and reputation never changes it. */
module RiskLaws {
  import opened Common
  import opened Rounding
  import opened Sums
  import opened Models
  import opened Config
  import opened Baseline
  import opened Risk

  lemma {:induction false} DeterministicConcat(a: seq<Evidence>, b: seq<Evidence>)
    ensures Deterministic(a + b) == Deterministic(a) + Deterministic(b)
  {
    if b == [] {
      assert a + b == a;
    } else {
      assert (a + b)[..|a + b| - 1] == a + b[..|b| - 1];
      DeterministicConcat(a, b[..|b| - 1]);
    }
  }

  /** Everything the engine concludes rests on the deterministic rows alone. */
  lemma ReputationBlind(cfg: AdaptiveConfig, campaign: Option<Campaign>, before: seq<Evidence>,
                        inserted: seq<Evidence>, after: seq<Evidence>,
                        baseline: Option<Summary>, observed: int, bias: int)
    requires forall i :: 0 <= i < |inserted| ==> inserted[i].detector == DETECTOR_REPUTATION
    ensures RiskOf(cfg, campaign, before + inserted + after, baseline, observed, bias) ==
            RiskOf(cfg, campaign, before + after, baseline, observed, bias)
  {
    NothingDeterministic(inserted);
    DeterministicConcat(before + inserted, after);
    DeterministicConcat(before, inserted);
    DeterministicConcat(before, after);
    assert Deterministic(before) + [] == Deterministic(before);
    hide Deterministic, ScoresOf;
  }

  lemma {:induction false} NothingDeterministic(rows: seq<Evidence>)
    requires forall i :: 0 <= i < |rows| ==> rows[i].detector == DETECTOR_REPUTATION
    ensures Deterministic(rows) == []
  {
    if rows != [] {
      NothingDeterministic(rows[..|rows| - 1]);
    }
  }

  lemma {:induction false} StrongestGrows(risk: RiskConfig, rows: seq<Evidence>, more: seq<Evidence>)
    ensures Strongest(risk, rows) <= Strongest(risk, rows + more)
  {
    hide RowPoints;
    if more == [] {
      assert rows + more == rows;
    } else {
      assert (rows + more)[..|rows + more| - 1] == rows + more[..|more| - 1];
      StrongestGrows(risk, rows, more[..|more| - 1]);
    }
  }

  lemma RowIdsGrow(rows: seq<Evidence>, more: seq<Evidence>)
    ensures |RowIds(rows)| <= |RowIds(rows + more)|
  {
    hide RowId;
    var all := rows + more;
    forall id | id in RowIds(rows) ensures id in RowIds(all) {
      var i :| 0 <= i < |rows| && RowId(rows[i], i) == id;
      assert all[i] == rows[i];
    }
    SubsetSize(RowIds(rows), RowIds(all));
  }

  lemma DeterministicScoreGrows(risk: RiskConfig, rows: seq<Evidence>, more: seq<Evidence>)
    requires risk.Valid()
    ensures 0.0 <= DeterministicScore(risk, rows) <= DeterministicScore(risk, rows + more) <= 100.0
  {
    StrongestGrows(risk, rows, more);
    RowIdsGrow(rows, more);
    var n, m := Max(0, |RowIds(rows)| - 1) as real, Max(0, |RowIds(rows + more)| - 1) as real;
    TimesMonotone(risk.repeatedEvidenceIncrement, n, m);
    hide Times, Strongest, RowIds;
  }

  /** The scores of the second are at least those of the first. */
  ghost predicate Dominates(s: Scores, t: Scores) {
    && s.deterministicScore <= t.deterministicScore && s.count <= t.count
    && s.total <= t.total && s.confidence <= t.confidence
    && s.behavioural == t.behavioural
  }

  lemma ScoresGrow(cfg: AdaptiveConfig, campaign: Option<Campaign>, rows: seq<Evidence>, more: seq<Evidence>,
                   baseline: Option<Summary>, observed: int)
    requires cfg.Valid()
    ensures Dominates(ScoresOf(cfg, campaign, rows, baseline, observed),
                      ScoresOf(cfg, campaign, rows + more, baseline, observed))
  {
    var d, d' := DeterministicScore(cfg.risk, rows), DeterministicScore(cfg.risk, rows + more);
    DeterministicScoreGrows(cfg.risk, rows, more);
    RowIdsGrow(rows, more);
    TimesMonotone(cfg.risk.deterministicWeight, d, d');
    TimesMonotone(cfg.risk.confidenceDeterministicWeight, d / 100.0, d' / 100.0);
    hide Times, DeterministicScore, RowIds, CampaignScore, Deviation, BehaviouralConfidence, BehaviouralThrottle,
      CampaignConfidence;
  }

  lemma ChosenGrows(cfg: AdaptiveConfig, s: Scores, t: Scores, bias: int)
    requires cfg.Valid() && Dominates(s, t) && !s.behavioural
    ensures Rung(Chosen(cfg, s, bias)) <= Rung(Chosen(cfg, t, bias))
  {
    var c, c' := Learned(Candidate(s.total, cfg.risk), bias), Learned(Candidate(t.total, cfg.risk), bias);
    assert Rung(Candidate(s.total, cfg.risk)) <= Rung(Candidate(t.total, cfg.risk));
    assert Rung(c) <= Rung(c');
    hide Learned, Candidate;
  }

  /** With behavioural throttling off, appending evidence never lowers the score, the confidence or the action. */
  lemma MoreEvidenceNeverWeakens(cfg: AdaptiveConfig, campaign: Option<Campaign>, evidence: seq<Evidence>,
                                 more: seq<Evidence>,
                                 baseline: Option<Summary>, observed: int, bias: int)
    requires cfg.Valid() && !cfg.guardrails.behaviouralThrottleEnabled
    ensures var r, r' := RiskOf(cfg, campaign, evidence, baseline, observed, bias),
            RiskOf(cfg, campaign, evidence + more, baseline, observed, bias);
            r.score <= r'.score && r.confidence <= r'.confidence && Rung(r.action) <= Rung(r'.action)
            && r.explanation.deterministicEvidenceCount <= r'.explanation.deterministicEvidenceCount
  {
    DeterministicConcat(evidence, more);
    var rows, extra := Deterministic(evidence), Deterministic(more);
    ScoresGrow(cfg, campaign, rows, extra, baseline, observed);
    var s, t := ScoresOf(cfg, campaign, rows, baseline, observed),
      ScoresOf(cfg, campaign, rows + extra, baseline, observed);
    assert !s.behavioural;
    ChosenGrows(cfg, s, t, bias);
    RoundsMonotone(s.total, t.total);
    RoundsMonotone(s.confidence, t.confidence);
    hide Deterministic, ScoresOf, Chosen, Round2, Round3, Round4, ThrottleRate;
  }

  /** The score lies in 0..100, the confidence in 0..1, and the action never passes the configured ceiling. */
  lemma ResultBounds(cfg: AdaptiveConfig, campaign: Option<Campaign>, evidence: seq<Evidence>,
                     baseline: Option<Summary>, observed: int, bias: int)
    requires cfg.Valid()
    ensures var r := RiskOf(cfg, campaign, evidence, baseline, observed, bias);
            0.0 <= r.score <= 100.0 && 0.0 <= r.confidence <= 1.0
            && IsAutomatic(r.action) && Rung(r.action) <= Rung(cfg.guardrails.maximumAutomaticAction)
  {
    var s := ScoresOf(cfg, campaign, Deterministic(evidence), baseline, observed);
    assert 0.0 <= s.total <= 100.0 && 0.0 <= s.confidence <= 1.0 by {
      hide Times, DeterministicScore, RowIds, CampaignScore, Deviation, CampaignConfidence, BehaviouralThrottle;
      assert 0.0 <= BehaviouralConfidence(cfg, baseline, observed) <= 1.0;
    }
    RoundedBounds(s.total, s.confidence);
    hide ScoresOf, Round2, Round3, Round4, Learned, Candidate, Deterministic, ThrottleRate;
  }

  lemma RoundedBounds(total: real, confidence: real)
    requires 0.0 <= total <= 100.0 && 0.0 <= confidence <= 1.0
    ensures 0.0 <= Round2(total) <= 100.0 && 0.0 <= Round3(confidence) <= 1.0
  {
    RoundsMonotone(0.0, total);
    RoundsMonotone(total, 100.0);
    RoundsMonotone(0.0, confidence);
    RoundsMonotone(confidence, 1.0);
    assert Round2(0.0) == 0.0 && Round2(100.0) == 100.0 && Round3(0.0) == 0.0 && Round3(1.0) == 1.0;
    hide Round2, Round3;
  }

  /** Nothing but behaviour can justify an action without evidence from the gateway itself, and that is a throttle at
      most. */
  lemma NoEvidenceNoBlock(cfg: AdaptiveConfig, campaign: Option<Campaign>, evidence: seq<Evidence>,
                          baseline: Option<Summary>, observed: int, bias: int)
    requires cfg.Valid() && Deterministic(evidence) == []
    ensures var r := RiskOf(cfg, campaign, evidence, baseline, observed, bias);
            r.action != TempBlock && (r.action == Throttle ==> BehaviouralThrottle(cfg, baseline, observed))
  {
    assert RowIds([]) == {};
    hide Times, DeterministicScore, BehaviouralThrottle, Round2, Round3, Round4, ThrottleRate;
  }

  lemma BehaviouralChosenExactly(cfg: AdaptiveConfig, s: Scores, t: Scores, bias: int)
    requires cfg.Valid() && Dominates(s, t) && s.behavioural
    ensures Rung(Chosen(cfg, s, bias)) <= Rung(Chosen(cfg, t, bias)) <==>
            !(s.count == 0 < t.count && Rung(cfg.guardrails.maximumAutomaticAction) >= 1
              && !Permits(Throttle, t.confidence, t.deterministicScore, t.count, cfg.guardrails))
  {
    hide Learned, Candidate;
  }

  /** With behavioural throttling authorised, appending evidence lowers the action in exactly one case: the first row
      replaces the behavioural exception, and the rails permit no throttle for it, although the confidence of the
      baseline still counts. */
  lemma BehaviouralMonotoneExactly(cfg: AdaptiveConfig, campaign: Option<Campaign>, evidence: seq<Evidence>,
                                   more: seq<Evidence>,
                                   baseline: Option<Summary>, observed: int, bias: int)
    requires cfg.Valid() && BehaviouralThrottle(cfg, baseline, observed)
    ensures var r := RiskOf(cfg, campaign, evidence, baseline, observed, bias);
            var r' := RiskOf(cfg, campaign, evidence + more, baseline, observed, bias);
            var t := ScoresOf(cfg, campaign, Deterministic(evidence + more), baseline, observed);
            Rung(r.action) <= Rung(r'.action) <==>
            !(r.explanation.deterministicEvidenceCount == 0 < r'.explanation.deterministicEvidenceCount
              && Rung(cfg.guardrails.maximumAutomaticAction) >= 1
              && !Permits(Throttle, t.confidence, t.deterministicScore, t.count, cfg.guardrails))
  {
    DeterministicConcat(evidence, more);
    var rows, extra := Deterministic(evidence), Deterministic(more);
    ScoresGrow(cfg, campaign, rows, extra, baseline, observed);
    var s, t := ScoresOf(cfg, campaign, rows, baseline, observed),
      ScoresOf(cfg, campaign, rows + extra, baseline, observed);
    assert s.behavioural;
    BehaviouralChosenExactly(cfg, s, t, bias);
    hide Deterministic, ScoresOf, Chosen, Round2, Round3, Round4, ThrottleRate, Permits;
  }

  /** That case is real: a row that earns no points turns an authorised behavioural throttle into monitoring. */
  lemma WorthlessRowCancelsBehaviouralThrottle(cfg: AdaptiveConfig, campaign: Option<Campaign>, row: Evidence,
                                               baseline: Option<Summary>, observed: int)
    requires cfg.Valid() && BehaviouralThrottle(cfg, baseline, observed)
             && Rung(cfg.guardrails.maximumAutomaticAction) >= 1
    requires row.detector != DETECTOR_REPUTATION && row.detector !in cfg.risk.detectorPoints
    ensures RiskOf(cfg, campaign, [], baseline, observed, 0).action == Throttle
    ensures RiskOf(cfg, campaign, [row], baseline, observed, 0).action == Monitor
  {
    OneRow(cfg.risk, row);
    NoRow(cfg.risk);
    hide DeterministicScore, BehaviouralThrottle, Round2, Round3, Round4, ThrottleRate, RowIds, Deterministic,
      TotalScore, EvidenceConfidence,
      BehaviouralConfidence, Deviation, CampaignScore, Candidate, Learned;
  }

  lemma NoRow(risk: RiskConfig)
    ensures Deterministic([]) == [] && |RowIds([])| == 0
  {
    assert RowIds([]) == {};
  }

  lemma OneRow(risk: RiskConfig, row: Evidence)
    requires row.detector != DETECTOR_REPUTATION && row.detector !in risk.detectorPoints
    ensures Deterministic([row]) == [row] && |RowIds([row])| == 1 && DeterministicScore(risk, [row]) == 0.0
  {
    assert Deterministic([row][..0]) == [] && Deterministic([row]) == [row];
    assert RowIds([row]) == {RowId(row, 0)};
    assert RowPoints(risk, row) == 0.0;
    assert Strongest(risk, [row][..0]) == 0.0 && Strongest(risk, [row]) == 0.0;
    assert Times(risk.repeatedEvidenceIncrement, 0.0) == 0.0;
  }
}
