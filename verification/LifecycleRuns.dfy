/** Whole runs of the lifecycle: what is active, and how activations are spaced. */
module LifecycleRuns {
  import opened Common
  import opened Models
  import opened Config
  import opened Lifecycle

  /** One decision's way through a cycle: due rows expire, it is staged at the same time, and when it may be enforced it
      is approved, written and activated. The clock moves on with every reading. */
  datatype Attempt = Attempt(
    decision: PolicyDecision,
    cfg: AdaptiveConfig,
    now: real,
    stamps: string -> real,
    approvedAt: real,
    supersededAt: real,
    activatedAt: real)

  ghost predicate WellTimed(clock: real, a: Attempt) {
    && clock < a.now < a.approvedAt < a.supersededAt < a.activatedAt
    && forall id :: a.now < a.stamps(id) < a.approvedAt
  }

  /** A new decision that the automatic mode may enforce. */
  ghost predicate Enforceable(rows: Rows, a: Attempt) {
    && a.cfg.mode == AutomaticMode && a.decision.action != Monitor
    && a.decision.policyId != "" && a.decision.policyId !in rows && a.decision.supersedesPolicyId == ""
  }

  datatype Activation = Activation(decision: PolicyDecision, stagedAt: real, activatedAt: real, cooldown: real)

  datatype State = State(rows: Rows, clock: real, log: seq<Activation>)

  /** The rows after a staged proposal was approved, written and activated. */
  function Enforced(rows: Rows, row: Recommendation, a: Attempt): Rows {
    var staged := rows[row.decision.policyId := row];
    var approved := staged[row.decision.policyId := Recommendation(row.decision, ApprovedStatus, a.approvedAt,
                                                                   a.approvedAt)];
    AfterActivation(approved, row.decision, a.supersededAt, a.activatedAt)
  }

  function AfterStaging(s: State, expired: Rows, staging: Staging, a: Attempt): State {
    match staging
    case Saved(row, true) =>
      State(Enforced(expired, row, a), a.activatedAt,
            s.log + [Activation(row.decision, a.now, a.activatedAt, a.cfg.guardrails.policyCooldownSeconds as real)])
    case Saved(row, false) => State(expired[row.decision.policyId := row], a.activatedAt, s.log)
    case _ => State(expired, a.activatedAt, s.log)
  }

  ghost predicate Step(s: State, a: Attempt, s': State) {
    var expired := AfterExpiry(s.rows, a.now, a.stamps);
    exists previous :: LastForScope(expired, a.decision, previous) &&
      s' == AfterStaging(s, expired, StageOf(previous, a.decision, a.cfg, a.now), a)
  }

  // ---------------------------------------------------------------- at most one active row

  ghost predicate RowsOk(rows: Rows, clock: real) {
    forall id :: id in rows ==> id != "" && rows[id].decision.policyId == id && rows[id].updatedAt <= clock
  }

  /** An active row is strictly the latest of its scope. */
  ghost predicate ActiveIsLatest(rows: Rows) {
    forall id, j ::
      && id in rows && j in rows && id != j
      && rows[id].status == Active && SameScope(rows[j].decision, rows[id].decision)
      ==> rows[j].updatedAt < rows[id].updatedAt
  }

  predicate Before(rows: Rows, j: string, id: string) {
    j in rows && id in rows && rows[j].updatedAt < rows[id].updatedAt
  }

  predicate InScope(rows: Rows, id: string, d: PolicyDecision) {
    id in rows && SameScope(rows[id].decision, d)
  }

  predicate BothActive(r: Recommendation, q: Recommendation) {
    && r.status == Active && q.status == Active
    && r.decision.ip == q.decision.ip && r.decision.verb == q.decision.verb
    && r.decision.routeTemplate == q.decision.routeTemplate
  }

  ghost predicate AtMostOneActive(rows: Rows) {
    forall id, j :: id in rows && j in rows && BothActive(rows[id], rows[j]) ==> id == j
  }

  lemma LatestIsUnique(rows: Rows)
    requires ActiveIsLatest(rows)
    ensures AtMostOneActive(rows)
  {
    forall id, j | id in rows && j in rows && BothActive(rows[id], rows[j]) ensures id == j {
      assert id == j || Before(rows, j, id);
      assert id == j || Before(rows, id, j);
    }
  }

  lemma ExpiryKeeps(rows: Rows, clock: real, a: Attempt)
    requires RowsOk(rows, clock) && ActiveIsLatest(rows) && WellTimed(clock, a)
    ensures var expired := AfterExpiry(rows, a.now, a.stamps);
            && RowsOk(expired, a.approvedAt) && ActiveIsLatest(expired)
            && (forall id :: id in expired && expired[id].status == Active ==>
                expired[id] == rows[id] && expired[id].decision.ExpiresAt() > a.now)
            && (forall id :: id in expired ==> expired[id].updatedAt < a.approvedAt)
  {
    var expired := AfterExpiry(rows, a.now, a.stamps);
    forall id, j | id in expired && j in expired && id != j && expired[id].status == Active
      && SameScope(expired[j].decision, expired[id].decision)
      ensures expired[j].updatedAt < expired[id].updatedAt
    {
      assert rows[j].updatedAt < rows[id].updatedAt;
      assert Due(rows[j], a.now) ==> Before(rows, id, j);
    }
  }

  /** What the latest row is when the scope has an active one. */
  lemma PreviousIsActive(rows: Rows, d: PolicyDecision, previous: Option<Recommendation>, id: string)
    requires ActiveIsLatest(rows) && LastForScope(rows, d, previous)
    requires id in rows && rows[id].status == Active && SameScope(rows[id].decision, d)
    ensures previous == Some(rows[id])
  {
    var at :| IsLatest(rows, d, at) && rows[at] == previous.value;
    assert at == id || Before(rows, at, id);
  }

  /** A saved proposal supersedes exactly the active row of its scope, if there is one. */
  ghost predicate SupersedesActive(rows: Rows, d: PolicyDecision, row: Recommendation) {
    && row.decision == d.(supersedesPolicyId := row.decision.supersedesPolicyId)
    && (forall id :: id in rows && rows[id].status == Active && SameScope(rows[id].decision, d) ==>
        row.decision.supersedesPolicyId == id)
    && (row.decision.supersedesPolicyId != "" ==>
          row.decision.supersedesPolicyId in rows && SameScope(rows[row.decision.supersedesPolicyId].decision, d))
  }

  lemma SavedSupersedes(rows: Rows, a: Attempt, previous: Option<Recommendation>)
    requires RowsOk(rows, a.approvedAt) && ActiveIsLatest(rows) && LastForScope(rows, a.decision, previous)
    requires a.decision.supersedesPolicyId == ""
    requires forall id :: id in rows && rows[id].status == Active ==> rows[id].decision.ExpiresAt() > a.now
    requires StageOf(previous, a.decision, a.cfg, a.now).Saved?
    ensures SupersedesActive(rows, a.decision, StageOf(previous, a.decision, a.cfg, a.now).row)
  {
    var row := StageOf(previous, a.decision, a.cfg, a.now).row;
    forall id | id in rows && rows[id].status == Active && SameScope(rows[id].decision, a.decision)
      ensures row.decision.supersedesPolicyId == id
    {
      PreviousIsActive(rows, a.decision, previous, id);
    }
    if previous.Some? {
      var at :| IsLatest(rows, a.decision, at) && rows[at] == previous.value;
    }
  }

  /** Row by row: the new policy is active, the superseded one has ended, everything else is as it was. */
  ghost predicate EnforcedRows(rows: Rows, row: Recommendation, a: Attempt, after: Rows) {
    && after.Keys == rows.Keys + {a.decision.policyId}
    && after[a.decision.policyId] == Recommendation(row.decision, Active, a.approvedAt, a.activatedAt)
    && forall id :: id in rows && id != a.decision.policyId ==>
         after[id] == if id == row.decision.supersedesPolicyId
           then rows[id].(status := Superseded, updatedAt := a.supersededAt) else rows[id]
  }

  lemma EnforcedRowByRow(rows: Rows, row: Recommendation, a: Attempt)
    requires Enforceable(rows, a) && row.decision.policyId == a.decision.policyId
    requires row.decision.supersedesPolicyId != "" ==> row.decision.supersedesPolicyId in rows
    requires "" !in rows
    ensures EnforcedRows(rows, row, a, Enforced(rows, row, a))
  {
  }

  lemma EnforcedRowsOk(rows: Rows, row: Recommendation, a: Attempt, clock: real, after: Rows)
    requires RowsOk(rows, a.approvedAt) && WellTimed(clock, a)
    requires a.decision.policyId != "" && row.decision.policyId == a.decision.policyId
             && EnforcedRows(rows, row, a, after)
    ensures RowsOk(after, a.activatedAt)
  {
  }

  /** In the new rows, nothing of its scope was updated after an active row. */
  lemma EnforcedPair(rows: Rows, row: Recommendation, a: Attempt, clock: real, after: Rows, id: string, j: string)
    requires ActiveIsLatest(rows) && WellTimed(clock, a) && "" !in rows
    requires forall k :: k in rows ==> rows[k].updatedAt < a.approvedAt
    requires a.decision.policyId !in rows && SupersedesActive(rows, a.decision, row)
             && EnforcedRows(rows, row, a, after)
    requires id in after && j in after && id != j && after[id].status == Active
             && SameScope(after[j].decision, after[id].decision)
    ensures after[j].updatedAt < after[id].updatedAt
  {
    hide AfterExpiry;
    if id == a.decision.policyId {
      assert j in rows;
    } else {
      assert after[id] == rows[id];
      assert j == a.decision.policyId ==> InScope(rows, id, a.decision);
      assert j != a.decision.policyId ==> Before(rows, j, id);
      assert j == row.decision.supersedesPolicyId ==> InScope(rows, id, a.decision);
    }
  }

  lemma EnforcedKeeps(rows: Rows, row: Recommendation, a: Attempt, clock: real, after: Rows)
    requires RowsOk(rows, a.approvedAt) && ActiveIsLatest(rows) && WellTimed(clock, a)
    requires forall id :: id in rows ==> rows[id].updatedAt < a.approvedAt
    requires Enforceable(rows, a) && SupersedesActive(rows, a.decision, row) && EnforcedRows(rows, row, a, after)
    ensures RowsOk(after, a.activatedAt) && ActiveIsLatest(after)
  {
    EnforcedRowsOk(rows, row, a, clock, after);
    forall id, j | id in after && j in after && id != j && after[id].status == Active
      && SameScope(after[j].decision, after[id].decision)
      ensures after[j].updatedAt < after[id].updatedAt
    {
      hide EnforcedRows, SupersedesActive;
      EnforcedPair(rows, row, a, clock, after, id, j);
    }
  }

  // ---------------------------------------------------------------- how activations are spaced

  function LastActivation(log: seq<Activation>, d: PolicyDecision): Option<Activation> {
    if log == [] then None
    else if SameScope(log[|log| - 1].decision, d) then Some(log[|log| - 1])
    else LastActivation(log[..|log| - 1], d)
  }

  /** next may follow previous: the earlier policy has run out, or a different action replaces it after the cooldown. */
  ghost predicate MayFollow(previous: Activation, next: Activation) {
    || next.stagedAt >= previous.decision.ExpiresAt()
    || (next.decision.action != previous.decision.action
        && (IsOverride(next.decision) || next.stagedAt - previous.activatedAt >= next.cooldown))
  }

  /** Every activation may follow the one before it in its scope. */
  ghost predicate Spaced(log: seq<Activation>) {
    log == [] || (
      var front, next := log[..|log| - 1], log[|log| - 1];
      && Spaced(front)
      && (LastActivation(front, next.decision).Some? ==> MayFollow(LastActivation(front, next.decision).value, next)))
  }

  /** The last activation of a scope is still the active row, or its time has passed. */
  ghost predicate Current(rows: Rows, act: Activation, clock: real) {
    || act.decision.ExpiresAt() <= clock
    || (act.decision.policyId in rows && rows[act.decision.policyId].status == Active
        && rows[act.decision.policyId].decision == act.decision
        && rows[act.decision.policyId].updatedAt == act.activatedAt)
  }

  ghost predicate LogOk(s: State) {
    forall d :: LastActivation(s.log, d).Some? ==> Current(s.rows, LastActivation(s.log, d).value, s.clock)
  }

  ghost predicate Invariant(s: State) {
    RowsOk(s.rows, s.clock) && ActiveIsLatest(s.rows) && LogOk(s) && Spaced(s.log)
  }

  lemma {:induction false} LastActivationScope(log: seq<Activation>, d: PolicyDecision)
    ensures LastActivation(log, d).Some? ==> SameScope(LastActivation(log, d).value.decision, d)
  {
    if log != [] && !SameScope(log[|log| - 1].decision, d) {
      LastActivationScope(log[..|log| - 1], d);
    }
  }

  lemma {:induction false} SameScopeSameLast(log: seq<Activation>, d: PolicyDecision, e: PolicyDecision)
    requires SameScope(d, e)
    ensures LastActivation(log, d) == LastActivation(log, e)
  {
    if log != [] {
      SameScopeSameLast(log[..|log| - 1], d, e);
    }
  }

  /** After expiry, the last activation of a scope has run out or is the latest row. */
  lemma CurrentAfterExpiry(s: State, a: Attempt, act: Activation)
    requires WellTimed(s.clock, a) && Current(s.rows, act, s.clock)
    ensures var expired := AfterExpiry(s.rows, a.now, a.stamps);
            || act.decision.ExpiresAt() <= a.now
            || (act.decision.policyId in expired && expired[act.decision.policyId].status == Active
                && expired[act.decision.policyId].decision == act.decision
                && expired[act.decision.policyId].updatedAt == act.activatedAt)
  {
  }

  lemma NextMayFollow(s: State, a: Attempt, previous: Option<Recommendation>, act: Activation)
    requires WellTimed(s.clock, a) && Current(s.rows, act, s.clock) && SameScope(act.decision, a.decision)
    requires var expired := AfterExpiry(s.rows, a.now, a.stamps);
             ActiveIsLatest(expired) && LastForScope(expired, a.decision, previous)
    requires StageOf(previous, a.decision, a.cfg, a.now).Saved?
    ensures var row := StageOf(previous, a.decision, a.cfg, a.now).row;
            MayFollow(act,
                      Activation(row.decision, a.now, a.activatedAt, a.cfg.guardrails.policyCooldownSeconds as real))
  {
    CurrentAfterExpiry(s, a, act);
    hide AfterExpiry, LastForScope, ActiveIsLatest;
    if act.decision.ExpiresAt() > a.now {
      PreviousIsActive(AfterExpiry(s.rows, a.now, a.stamps), a.decision, previous, act.decision.policyId);
    }
  }

  lemma LogKept(s: State, a: Attempt, clock: real)
    requires LogOk(s) && WellTimed(s.clock, a) && clock >= a.activatedAt
    ensures LogOk(State(AfterExpiry(s.rows, a.now, a.stamps), clock, s.log))
  {
    hide AfterExpiry, LastActivation;
    var s' := State(AfterExpiry(s.rows, a.now, a.stamps), clock, s.log);
    forall d | LastActivation(s'.log, d).Some? ensures Current(s'.rows, LastActivation(s'.log, d).value, s'.clock) {
      assert Current(s.rows, LastActivation(s.log, d).value, s.clock);
      CurrentAfterExpiry(s, a, LastActivation(s.log, d).value);
    }
  }

  lemma RowsKept(s: State, a: Attempt, clock: real)
    requires RowsOk(s.rows, s.clock) && ActiveIsLatest(s.rows) && WellTimed(s.clock, a) && clock >= a.activatedAt
    ensures var expired := AfterExpiry(s.rows, a.now, a.stamps); RowsOk(expired, clock) && ActiveIsLatest(expired)
  {
    ExpiryKeeps(s.rows, s.clock, a);
  }

  /** The new activation is the active row; activations of other scopes are as current as before. */
  lemma LogExtended(s: State, a: Attempt, row: Recommendation, after: Rows)
    requires LogOk(s) && WellTimed(s.clock, a) && Enforceable(s.rows, a) && "" !in s.rows
    requires var expired := AfterExpiry(s.rows, a.now, a.stamps);
             SupersedesActive(expired, a.decision, row) && EnforcedRows(expired, row, a, after)
    ensures var act := Activation(row.decision, a.now, a.activatedAt, a.cfg.guardrails.policyCooldownSeconds as real);
            LogOk(State(after, a.activatedAt, s.log + [act]))
  {
    var act := Activation(row.decision, a.now, a.activatedAt, a.cfg.guardrails.policyCooldownSeconds as real);
    var log := s.log + [act];
    assert log[..|s.log|] == s.log;
    var expired := AfterExpiry(s.rows, a.now, a.stamps);
    forall d | LastActivation(log, d).Some? ensures Current(after, LastActivation(log, d).value, a.activatedAt) {
      if !SameScope(act.decision, d) {
        var last := LastActivation(s.log, d).value;
        assert Current(s.rows, last, s.clock);
        CurrentAfterExpiry(s, a, last);
        LastActivationScope(s.log, d);
        if last.decision.ExpiresAt() > a.now {
          OtherScopeKept(expired, row, a, after, last, d);
        }
      }
    }
  }

  lemma OtherScopeKept(expired: Rows, row: Recommendation, a: Attempt, after: Rows, last: Activation, d: PolicyDecision)
    requires SupersedesActive(expired, a.decision, row) && EnforcedRows(expired, row, a, after)
             && a.decision.policyId !in expired && "" !in expired
    requires SameScope(last.decision, d) && !SameScope(row.decision, d)
    requires last.decision.policyId in expired && expired[last.decision.policyId].decision == last.decision
    ensures after[last.decision.policyId] == expired[last.decision.policyId]
  {
  }

  /** Every step of a run keeps the invariant. */
  lemma StepKeepsInvariant(s: State, a: Attempt, s': State)
    requires Invariant(s) && WellTimed(s.clock, a) && Enforceable(s.rows, a) && Step(s, a, s')
    ensures Invariant(s')
  {
    var expired := AfterExpiry(s.rows, a.now, a.stamps);
    var previous :| LastForScope(expired, a.decision, previous)
      && s' == AfterStaging(s, expired, StageOf(previous, a.decision, a.cfg, a.now), a);
    ExpiryKeeps(s.rows, s.clock, a);
    assert a.decision.policyId !in expired;
    var staging := StageOf(previous, a.decision, a.cfg, a.now);
    if staging.Saved? {
      SavedSupersedes(expired, a, previous);
      SavedIsEnforced(previous, a);
      hide AfterExpiry, StageOf, LastForScope, RowsOk, ActiveIsLatest, Spaced, LastActivation, Current, MayFollow;
      SavedStep(s, a, previous, s', staging.row);
    } else {
      hide AfterExpiry, StageOf, LastForScope, RowsOk, ActiveIsLatest, Spaced, LastActivation, Current, MayFollow;
      RowsKept(s, a, a.activatedAt);
      LogKept(s, a, a.activatedAt);
    }
  }

  lemma SavedIsEnforced(previous: Option<Recommendation>, a: Attempt)
    requires StageOf(previous, a.decision, a.cfg, a.now).Saved?
    requires a.cfg.mode == AutomaticMode && a.decision.action != Monitor
    ensures StageOf(previous, a.decision, a.cfg, a.now).enforce
    ensures StageOf(previous, a.decision, a.cfg, a.now).row.decision.policyId == a.decision.policyId
    ensures SameScope(StageOf(previous, a.decision, a.cfg, a.now).row.decision, a.decision)
  {
  }

  lemma SavedStep(s: State, a: Attempt, previous: Option<Recommendation>, s': State, row: Recommendation)
    requires Invariant(s) && WellTimed(s.clock, a) && Enforceable(s.rows, a)
    requires var expired := AfterExpiry(s.rows, a.now, a.stamps);
             && LastForScope(expired, a.decision, previous)
             && StageOf(previous, a.decision, a.cfg, a.now) == Saved(row, true)
             && SupersedesActive(expired, a.decision, row) && row.decision.policyId == a.decision.policyId
             && SameScope(row.decision, a.decision)
             && s' == AfterStaging(s, expired, Saved(row, true), a)
    ensures Invariant(s')
  {
    var expired := AfterExpiry(s.rows, a.now, a.stamps);
    ExpiryKeeps(s.rows, s.clock, a);
    ExpiryKeys(s.rows, s.clock, a);
    hide AfterExpiry, Enforced, StageOf, LastForScope, RowsOk, ActiveIsLatest, EnforcedRows, LogOk, Spaced;
    EnforcedRowByRow(expired, row, a);
    EnforcedKeeps(expired, row, a, s.clock, s'.rows);
    LogExtended(s, a, row, s'.rows);
    SpacedExtended(s, a, previous, row);
  }

  lemma ExpiryKeys(rows: Rows, clock: real, a: Attempt)
    requires RowsOk(rows, clock)
    ensures AfterExpiry(rows, a.now, a.stamps).Keys == rows.Keys && "" !in rows
  {
  }

  lemma SpacedExtended(s: State, a: Attempt, previous: Option<Recommendation>, row: Recommendation)
    requires LogOk(s) && Spaced(s.log) && WellTimed(s.clock, a) && SameScope(row.decision, a.decision)
    requires var expired := AfterExpiry(s.rows, a.now, a.stamps);
             ActiveIsLatest(expired) && LastForScope(expired, a.decision, previous)
    requires StageOf(previous, a.decision, a.cfg, a.now) == Saved(row, true)
    ensures Spaced(s.log
                   + [Activation(row.decision, a.now, a.activatedAt, a.cfg.guardrails.policyCooldownSeconds as real)])
  {
    hide AfterExpiry, StageOf, LastForScope, ActiveIsLatest, MayFollow, Current;
    var act := Activation(row.decision, a.now, a.activatedAt, a.cfg.guardrails.policyCooldownSeconds as real);
    assert (s.log + [act])[..|s.log|] == s.log;
    SameScopeSameLast(s.log, row.decision, a.decision);
    LastActivationScope(s.log, a.decision);
    if LastActivation(s.log, row.decision).Some? {
      assert Current(s.rows, LastActivation(s.log, a.decision).value, s.clock);
      NextMayFollow(s, a, previous, LastActivation(s.log, a.decision).value);
    }
  }

  // ---------------------------------------------------------------- whole runs

  ghost predicate Run(attempts: seq<Attempt>, states: seq<State>) {
    && |states| == |attempts| + 1
    && states[0].rows == map[] && states[0].log == []
    && forall i :: 0 <= i < |attempts| ==>
         WellTimed(states[i].clock, attempts[i]) && Enforceable(states[i].rows, attempts[i])
           && Step(states[i], attempts[i], states[i + 1])
  }

  /** Along every run, each scope has at most one active row and it is the latest; a scope's activations are a lifetime
      apart when they repeat the action, and wait for the cooldown when they replace a live policy by another action. */
  lemma {:induction false} RunsStaySafe(attempts: seq<Attempt>, states: seq<State>)
    requires Run(attempts, states)
    ensures Invariant(states[|attempts|]) && AtMostOneActive(states[|attempts|].rows)
  {
    hide Step, WellTimed, Enforceable, Invariant;
    if attempts == [] {
      StartInvariant(states[0]);
    } else {
      var front, last := attempts[..|attempts| - 1], attempts[|attempts| - 1];
      RunsStaySafe(front, states[..|attempts|]);
      assert Step(states[|attempts| - 1], last, states[|attempts|]);
      StepKeepsInvariant(states[|attempts| - 1], last, states[|attempts|]);
    }
    InvariantActive(states[|attempts|]);
  }

  lemma StartInvariant(s: State)
    requires s.rows == map[] && s.log == []
    ensures Invariant(s)
  {
  }

  lemma InvariantActive(s: State)
    requires Invariant(s)
    ensures AtMostOneActive(s.rows)
  {
    LatestIsUnique(s.rows);
  }

  // ---------------------------------------------------------------- modes

  /** What a mode does with a new decision: an override is approved and enforced in every mode, manual mode asks first,
      monitor mode only recommends, and automatic mode enforces; a decision to monitor is enforced by nobody. */
  lemma ModesDecide(previous: Option<Recommendation>, d: PolicyDecision, cfg: AdaptiveConfig, now: real)
    requires StageOf(previous, d, cfg, now).Saved?
    ensures var staging, override := StageOf(previous, d, cfg, now), d.mode == ManualOverride || d.source == Human;
            && (d.action == Monitor ==> !staging.enforce)
            && (d.action != Monitor ==> (staging.enforce <==> override || cfg.mode == AutomaticMode))
            && (override ==> staging.row.status == ApprovedStatus)
            && (!override && cfg.mode == ManualMode ==> staging.row.status == PendingApproval)
            && (!override && cfg.mode != ManualMode ==> staging.row.status == Recommended)
            && staging.row.createdAt == now && staging.row.updatedAt == now
  {
  }

  /** A decision is staged unless its scope already has an answer: a live policy of the same action, or an open
      recommendation of the same mode, that has not run out; or a live policy of another action within the cooldown,
      which only an override may replace. */
  lemma StagedExactly(previous: Option<Recommendation>, d: PolicyDecision, cfg: AdaptiveConfig, now: real)
    ensures StageOf(previous, d, cfg, now).Saved? <==>
            previous.Some? ==>
              var p := previous.value;
              if p.decision.action == d.action then
                || p.decision.ExpiresAt() <= now
                || !(p.status == Active || (p.status == Recommended && cfg.mode == MonitorMode)
                     || (p.status == PendingApproval && cfg.mode == ManualMode))
              else
                || p.status != Active || d.mode == ManualOverride || d.source == Human
                || now >= p.updatedAt + cfg.guardrails.policyCooldownSeconds as real
  {
  }

  /** An active policy is due from the end of its lifetime on, and one without a lifetime at once. */
  lemma DueExactly(row: Recommendation, now: real)
    ensures Due(row, now) <==>
            && row.status == Active
            && now >= row.decision.issuedAt
            && (row.decision.ttlSeconds > 0 ==> now - row.decision.issuedAt >= row.decision.ttlSeconds as real)
  {
  }

  // ---------------------------------------------------------------- where the promise ends

  /** Without the expiry right before it, staging and activating a proposal leaves a second active row exactly when the
      row that is read back as the latest is not the standing active one, or is the active one and has the proposal's
      own action. */
  lemma TwoActiveExactly(rows: Rows, a: Attempt, previous: Option<Recommendation>, standing: string)
    requires AtMostOneActive(rows) && RowsOk(rows, a.approvedAt) && LastForScope(rows, a.decision, previous)
             && Enforceable(rows, a)
    requires standing in rows && rows[standing].status == Active && SameScope(rows[standing].decision, a.decision)
    requires StageOf(previous, a.decision, a.cfg, a.now).Saved?
    ensures !AtMostOneActive(Enforced(rows, StageOf(previous, a.decision, a.cfg, a.now).row, a)) <==>
            previous != Some(rows[standing]) || rows[standing].decision.action == a.decision.action
  {
    var row := StageOf(previous, a.decision, a.cfg, a.now).row;
    SupersedesStanding(rows, a, previous, standing);
    EnforcedRowByRow(rows, row, a);
    var after := Enforced(rows, row, a);
    hide StageOf, LastForScope, Enforced;
    if row.decision.supersedesPolicyId == standing {
      OthersStayAlone(rows, row, a, after, standing);
    } else {
      assert BothActive(after[standing], after[a.decision.policyId]);
    }
  }

  /** A saved proposal ends the standing active row, if it was read back with another action, and otherwise none. */
  lemma SupersedesStanding(rows: Rows, a: Attempt, previous: Option<Recommendation>, standing: string)
    requires AtMostOneActive(rows) && RowsOk(rows, a.approvedAt) && LastForScope(rows, a.decision, previous)
    requires a.decision.supersedesPolicyId == ""
    requires standing in rows && rows[standing].status == Active && SameScope(rows[standing].decision, a.decision)
    requires StageOf(previous, a.decision, a.cfg, a.now).Saved?
    ensures var row := StageOf(previous, a.decision, a.cfg, a.now).row;
            && row.decision.policyId == a.decision.policyId && SameScope(row.decision, a.decision)
            && row.decision.supersedesPolicyId ==
               if previous == Some(rows[standing]) && rows[standing].decision.action != a.decision.action then standing
               else ""
  {
    if previous.Some? && previous.value.status == Active {
      var at :| IsLatest(rows, a.decision, at) && rows[at] == previous.value;
      assert BothActive(rows[at], rows[standing]);
    }
  }

  /** Where the active row is the latest of its scope, that happens exactly when the standing active policy has the same
      action and has run out unnoticed. */
  lemma SecondActiveExactly(rows: Rows, a: Attempt, previous: Option<Recommendation>, standing: string)
    requires ActiveIsLatest(rows) && RowsOk(rows, a.approvedAt) && LastForScope(rows, a.decision, previous)
             && Enforceable(rows, a)
    requires standing in rows && rows[standing].status == Active && SameScope(rows[standing].decision, a.decision)
    requires StageOf(previous, a.decision, a.cfg, a.now).Saved?
    ensures var after := Enforced(rows, StageOf(previous, a.decision, a.cfg, a.now).row, a);
            && (!AtMostOneActive(after) ==>
                rows[standing].decision.action == a.decision.action && rows[standing].decision.ExpiresAt() <= a.now)
            && (rows[standing].decision.action == a.decision.action ==> !AtMostOneActive(after))
  {
    PreviousIsActive(rows, a.decision, previous, standing);
    LatestIsUnique(rows);
    TwoActiveExactly(rows, a, previous, standing);
    hide AtMostOneActive, ActiveIsLatest, Enforced, LastForScope;
  }

  lemma OthersStayAlone(rows: Rows, row: Recommendation, a: Attempt, after: Rows, standing: string)
    requires AtMostOneActive(rows) && a.decision.policyId !in rows && EnforcedRows(rows, row, a, after)
    requires standing in rows && rows[standing].status == Active && SameScope(rows[standing].decision, a.decision)
    requires row.decision.supersedesPolicyId == standing && SameScope(row.decision, a.decision)
    ensures AtMostOneActive(after)
  {
    forall id, j | id in after && j in after && BothActive(after[id], after[j]) ensures id == j {
      assert id in rows && j in rows ==> BothActive(rows[id], rows[j]);
      assert id in rows && j !in rows ==> BothActive(rows[id], rows[standing]);
      assert j in rows && id !in rows ==> BothActive(rows[j], rows[standing]);
    }
  }

  /** A staged monitor row hides a live policy: the next proposal is activated next to it, not instead of it. */
  lemma MonitorRowHidesActive(rows: Rows, a: Attempt, monitor: Recommendation, standing: string)
    requires "" !in rows && Enforceable(rows, a) && LastForScope(rows, a.decision, Some(monitor))
             && monitor.status == Recommended
    requires standing in rows && rows[standing].status == Active && SameScope(rows[standing].decision, a.decision)
    ensures StageOf(Some(monitor), a.decision, a.cfg, a.now).Saved?
    ensures !AtMostOneActive(Enforced(rows, StageOf(Some(monitor), a.decision, a.cfg, a.now).row, a))
  {
    var row := StageOf(Some(monitor), a.decision, a.cfg, a.now).row;
    EnforcedRowByRow(rows, row, a);
    var after := Enforced(rows, row, a);
    assert BothActive(after[standing], after[a.decision.policyId]);
  }
}
