/** How a decision is staged, activated, superseded and expired. */
module Lifecycle {
  import opened Common
  import opened Models
  import opened Config

  datatype Status = Recommended | PendingApproval | ApprovedStatus | Rejected | Active | Expired | Superseded

  datatype Recommendation = Recommendation(decision: PolicyDecision, status: Status, createdAt: real, updatedAt: real)

  type Rows = map<string, Recommendation>

  predicate SameScope(a: PolicyDecision, b: PolicyDecision) {
    a.ip == b.ip && a.verb == b.verb && a.routeTemplate == b.routeTemplate
  }

  datatype AuditEntry = AuditEntry(policyId: string, event: Status, at: real)

  /** A row of the decision's scope that no other was updated after. */
  ghost predicate IsLatest(rows: Rows, d: PolicyDecision, id: string) {
    id in rows && SameScope(rows[id].decision, d)
    && forall j :: j in rows && SameScope(rows[j].decision, d) ==> rows[j].updatedAt <= rows[id].updatedAt
  }

  ghost predicate LastForScope(rows: Rows, d: PolicyDecision, previous: Option<Recommendation>) {
    match previous
    case None => forall j :: j in rows ==> !SameScope(rows[j].decision, d)
    case Some(row) => exists id :: IsLatest(rows, d, id) && rows[id] == row
  }

  function Marked(rows: Rows, id: string, status: Status, at: real): Rows {
    if id in rows then rows[id := rows[id].(status := status, updatedAt := at)] else rows
  }

  predicate Due(row: Recommendation, now: real) { row.status == Active && row.decision.ExpiresAt() <= now }

  /** Every due row expired, each stamped when it was marked. */
  function AfterExpiry(rows: Rows, now: real, stamps: string -> real): Rows {
    map id | id in rows :: if Due(rows[id], now) then rows[id].(status := Expired, updatedAt := stamps(id))
      else rows[id]
  }

  /** ids holds the members of the set, each once. */
  ghost predicate Enumerates(ids: seq<string>, members: set<string>) {
    && (forall i, j :: 0 <= i < j < |ids| ==> ids[i] != ids[j])
    && (forall id :: id in members <==> id in ids)
  }

  /** The audit of policies that expired one after another. */
  function Expiries(marked: seq<string>, stamps: string -> real): seq<AuditEntry> {
    seq(|marked|, i requires 0 <= i < |marked| => AuditEntry(marked[i], Expired, stamps(marked[i])))
  }

  /** The rows after the given ones were marked as expired. */
  function ExpiredRows(rows: Rows, marked: set<string>, stamps: string -> real): Rows {
    map id | id in rows :: if id in marked then rows[id].(status := Expired, updatedAt := stamps(id)) else rows[id]
  }

  lemma NothingMarked(rows: Rows, stamps: string -> real)
    ensures Enumerates([], {}) && Expiries([], stamps) == [] && ExpiredRows(rows, {}, stamps) == rows
  {
  }

  lemma OneMoreMarked(rows: Rows, marked: seq<string>, done: set<string>, id: string, stamps: string -> real)
    requires Enumerates(marked, done) && id !in done && id in rows
    ensures Enumerates(marked + [id], done + {id})
    ensures Expiries(marked + [id], stamps) == Expiries(marked, stamps) + [AuditEntry(id, Expired, stamps(id))]
    ensures Marked(ExpiredRows(rows, done, stamps), id, Expired, stamps(id)) == ExpiredRows(rows, done + {id}, stamps)
  {
    assert forall i :: 0 <= i < |marked| ==> marked[i] in marked;
  }

  lemma AllMarked(rows: Rows, now: real, stamps: string -> real)
    ensures ExpiredRows(rows, (set id | id in rows && Due(rows[id], now)), stamps) == AfterExpiry(rows, now, stamps)
  {
    hide Due;
  }

  /** Everything the repository keeps. */
  datatype Ledger = Ledger(rows: Rows, audit: seq<AuditEntry>)

  class MemoryLifecycleRepository {
    var rows: Rows
    var audit: seq<AuditEntry>

    ghost function Contents(): Ledger
      reads this
    {
      Ledger(rows, audit)
    }

    constructor ()
      ensures rows == map[] && audit == []
    {
      rows, audit := map[], [];
    }

    method SaveRecommendation(r: Recommendation)
      modifies this
      ensures rows == old(rows)[r.decision.policyId := r]
      ensures audit == old(audit) + [AuditEntry(r.decision.policyId, r.status, r.updatedAt)]
    {
      rows := rows[r.decision.policyId := r];
      audit := audit + [AuditEntry(r.decision.policyId, r.status, r.updatedAt)];
    }

    method MarkStatus(id: string, status: Status, at: real)
      modifies this
      ensures rows == Marked(old(rows), id, status, at)
      ensures audit == old(audit) + [AuditEntry(id, status, at)]
    {
      if id in rows {
        rows := rows[id := rows[id].(status := status, updatedAt := at)];
      }
      audit := audit + [AuditEntry(id, status, at)];
    }

    method FindLast(d: PolicyDecision) returns (previous: Option<Recommendation>)
      ensures LastForScope(rows, d, previous)
    {
      previous := None;
      ghost var at := "";
      var todo := rows.Keys;
      while todo != {}
        invariant todo <= rows.Keys
        invariant previous == None ==> forall j :: j in rows && j !in todo ==> !SameScope(rows[j].decision, d)
        invariant previous.Some? ==> at in rows && rows[at] == previous.value && SameScope(rows[at].decision, d)
        invariant previous.Some? ==> forall j :: j in rows && j !in todo && SameScope(rows[j].decision, d) ==>
                    rows[j].updatedAt <= rows[at].updatedAt
        decreases todo
      {
        var id :| id in todo;
        todo := todo - {id};
        if SameScope(rows[id].decision, d) && (previous == None || rows[id].updatedAt > previous.value.updatedAt) {
          previous := Some(rows[id]);
          at := id;
        }
      }
      if previous.Some? {
        assert IsLatest(rows, d, at);
      }
    }

    method ExpireDue(now: real, stamps: string -> real) returns (count: nat, ghost marked: seq<string>)
      modifies this
      ensures rows == AfterExpiry(old(rows), now, stamps)
      ensures count == |set id | id in old(rows) && Due(old(rows)[id], now)|
      ensures Enumerates(marked, set id | id in old(rows) && Due(old(rows)[id], now))
      ensures audit == old(audit) + Expiries(marked, stamps)
    {
      hide Enumerates, Expiries, Due, ExpiredRows;
      ghost var before := rows;
      var due := set id | id in rows && Due(rows[id], now);
      count := |due|;
      var todo := due;
      marked := [];
      NothingMarked(before, stamps);
      assert due - todo == {};
      while todo != {}
        invariant todo <= due
        invariant rows == ExpiredRows(before, due - todo, stamps)
        invariant Enumerates(marked, due - todo)
        invariant audit == old(audit) + Expiries(marked, stamps)
        decreases todo
      {
        var id :| id in todo;
        OneMoreMarked(before, marked, due - todo, id, stamps);
        assert due - (todo - {id}) == due - todo + {id};
        MarkStatus(id, Expired, stamps(id));
        todo := todo - {id};
        marked := marked + [id];
      }
      assert due - todo == due;
      AllMarked(before, now, stamps);
    }
  }

  // ---------------------------------------------------------------- staging

  /** What staging does: keep the standing policy as it is, or save a row that may be enforced. */
  datatype Staging = NotRenewed(standing: string) | InsideCooldown(standing: string)
    | Saved(row: Recommendation, enforce: bool)

  predicate IsOverride(d: PolicyDecision) { d.mode == ManualOverride || d.source == Human }

  function InitialStatus(d: PolicyDecision, mode: Mode): Status {
    if IsOverride(d) then ApprovedStatus else if mode == ManualMode then PendingApproval else Recommended
  }

  predicate MayEnforce(d: PolicyDecision, mode: Mode) {
    d.action != Monitor && (IsOverride(d) || mode == AutomaticMode)
  }

  /** The previous row still answers for the scope: live, or an open recommendation of the same mode. */
  predicate Standing(row: Recommendation, mode: Mode) {
    row.status == Active || (row.status == Recommended && mode == MonitorMode)
      || (row.status == PendingApproval && mode == ManualMode)
  }

  function StageOf(previous: Option<Recommendation>, d: PolicyDecision, cfg: AdaptiveConfig, now: real): Staging {
    var proposal := Recommendation(d, InitialStatus(d, cfg.mode), now, now);
    match previous
    case None => Saved(proposal, MayEnforce(d, cfg.mode))
    case Some(p) =>
      if p.decision.action == d.action && Standing(p, cfg.mode) && p.decision.ExpiresAt() > now
        then NotRenewed(p.decision.policyId)
      else if p.status == Active && p.decision.action != d.action then
        if !IsOverride(d) && now - p.updatedAt < cfg.guardrails.policyCooldownSeconds as real
          then InsideCooldown(p.decision.policyId)
        else Saved(proposal.(decision := d.(supersedesPolicyId := p.decision.policyId)), MayEnforce(d, cfg.mode))
      else Saved(proposal, MayEnforce(d, cfg.mode))
  }

  function AfterStage(ledger: Ledger, staging: Staging): Ledger {
    match staging
    case Saved(row, _) =>
      Ledger(ledger.rows[row.decision.policyId := row],
             ledger.audit + [AuditEntry(row.decision.policyId, row.status, row.updatedAt)])
    case _ => ledger
  }

  class Manager {
    const repository: MemoryLifecycleRepository

    constructor (repository: MemoryLifecycleRepository)
      ensures this.repository == repository
    {
      this.repository := repository;
    }

    method Stage(d: PolicyDecision, cfg: AdaptiveConfig, now: real)
      returns (recommendation: Recommendation, enforce: bool, ghost previous: Option<Recommendation>)
      modifies repository
      ensures LastForScope(old(repository.rows), d, previous)
      ensures match StageOf(previous, d, cfg, now)
              case Saved(row, mayEnforce) =>
                recommendation == row && enforce == mayEnforce && row.decision.policyId == d.policyId
              case _ => recommendation == Recommendation(d, previous.value.status, now, now) && !enforce
      ensures repository.Contents() == AfterStage(old(repository.Contents()), StageOf(previous, d, cfg, now))
    {
      hide LastForScope, SameScope;
      var status := Recommended;
      enforce := false;
      if d.mode == ManualOverride || d.source == Human {
        status := ApprovedStatus;
        enforce := d.action != Monitor;
      } else if cfg.mode == ManualMode {
        status := PendingApproval;
      } else if cfg.mode == AutomaticMode && d.action != Monitor {
        enforce := true;
        status := Recommended;
      }

      var last := repository.FindLast(d);
      previous := last;
      var sameModeOpen := last.Some? &&
        ((last.value.status == Recommended && cfg.mode == MonitorMode)
         || (last.value.status == PendingApproval && cfg.mode == ManualMode));
      if last.Some? && last.value.decision.action == d.action
         && (last.value.status == Active || sameModeOpen) && last.value.decision.ExpiresAt() > now {
        return Recommendation(d, last.value.status, now, now), false, last;
      }
      var decision := d;
      if last.Some? && last.value.status == Active && last.value.decision.action != d.action {
        var age := now - last.value.updatedAt;
        var emergency := d.mode == ManualOverride || d.source == Human;
        if !emergency && age < cfg.guardrails.policyCooldownSeconds as real {
          return Recommendation(d, last.value.status, now, now), false, last;
        }
        decision := d.(supersedesPolicyId := last.value.decision.policyId);
      }
      recommendation := Recommendation(decision, status, now, now);
      repository.SaveRecommendation(recommendation);
    }

    /** The policy reached the store: the one it supersedes ends, then it is active. */
    method Activated(d: PolicyDecision, supersededAt: real, activatedAt: real)
      modifies repository
      ensures repository.rows == AfterActivation(old(repository.rows), d, supersededAt, activatedAt)
      ensures repository.audit == old(repository.audit)
              + (if d.supersedesPolicyId != "" then [AuditEntry(d.supersedesPolicyId, Superseded,
                                                                supersededAt)] else [])
              + [AuditEntry(d.policyId, Active, activatedAt)]
    {
      if d.supersedesPolicyId != "" {
        repository.MarkStatus(d.supersedesPolicyId, Superseded, supersededAt);
      }
      repository.MarkStatus(d.policyId, Active, activatedAt);
    }
  }

  function AfterActivation(rows: Rows, d: PolicyDecision, supersededAt: real, activatedAt: real): Rows {
    var ended := if d.supersedesPolicyId != "" then Marked(rows, d.supersedesPolicyId, Superseded, supersededAt)
      else rows;
    Marked(ended, d.policyId, Active, activatedAt)
  }
}
