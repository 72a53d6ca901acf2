/** Reflex blocks over whole runs. */
module ReflexRuns {
  import opened Common
  import opened PolicyStore
  import opened Reflex
  import Chain

  datatype Op =
    | Observe(ip: string, evidence: seq<Evidence>, at: int)
    | Sweep(at: int)
    | Apply(cfg: Config)

  datatype State = State(tun: Tunables, blocked: Blocks)

  function After(net: Net, s: State, op: Op): State {
    match op
    case Observe(ip, evidence, at) => s.(blocked := Observed(net, s.tun, s.blocked, ip, evidence, at))
    case Sweep(at) => s.(blocked := Swept(s.blocked, at))
    case Apply(cfg) => if Acceptable(net, cfg) then s.(tun := TunablesOf(cfg)) else s
  }

  function Run(net: Net, start: Tunables, ops: seq<Op>): State {
    if ops == [] then State(start, map[]) else After(net, Run(net, start, ops[..|ops| - 1]), ops[|ops| - 1])
  }

  /** The same run in which nothing is ever swept. */
  function Unswept(net: Net, start: Tunables, ops: seq<Op>): State {
    if ops == [] then State(start, map[])
    else
      var before := Unswept(net, start, ops[..|ops| - 1]);
      if ops[|ops| - 1].Sweep? then before else After(net, before, ops[|ops| - 1])
  }

  /** The clock at the end of a run that starts at time begin; Apply takes no time. */
  function Clock(begin: int, ops: seq<Op>): int {
    if ops == [] then begin
    else
      match ops[|ops| - 1]
      case Observe(_, _, at) => at
      case Sweep(at) => at
      case Apply(_) => Clock(begin, ops[..|ops| - 1])
  }

  ghost predicate Timely(begin: int, ops: seq<Op>) {
    ops == [] || (Timely(begin, ops[..|ops| - 1]) && Clock(begin, ops[..|ops| - 1]) <= Clock(begin, ops))
  }

  /** The two tables hold the same running blocks. */
  ghost predicate SameRunning(a: Blocks, b: Blocks, now: int) {
    forall ip :: (Running(a, ip, now) <==> Running(b, ip, now)) && (Running(a, ip, now) ==> a[ip] == b[ip])
  }

  lemma SameRunningLater(a: Blocks, b: Blocks, now: int, later: int)
    requires SameRunning(a, b, now) && now <= later
    ensures SameRunning(a, b, later)
  {
    forall ip
      ensures Running(a, ip, later) <==> Running(b, ip, later)
      ensures Running(a, ip, later) ==> a[ip] == b[ip]
    {
      assert Running(a, ip, now) <==> Running(b, ip, now);
    }
  }

  lemma StepKeepsSame(net: Net, s: State, u: State, op: Op, now: int, later: int)
    requires s.tun == u.tun && SameRunning(s.blocked, u.blocked, now) && now <= later
    requires op.Observe? || op.Sweep? ==> op.at == later
    ensures var s', u' := After(net, s, op), if op.Sweep? then u else After(net, u, op);
            s'.tun == u'.tun && SameRunning(s'.blocked, u'.blocked, later)
  {
    hide Grounds, Acceptable, TunablesOf, SameRunning;
    SameRunningLater(s.blocked, u.blocked, now, later);
    match op
    case Observe(ip, evidence, at) => ObserveKeepsSame(net, s, u, ip, evidence, later);
    case Sweep(at) => SweepKeepsSame(s.blocked, u.blocked, later);
    case Apply(cfg) =>
  }

  lemma ObserveKeepsSame(net: Net, s: State, u: State, ip: string, evidence: seq<Evidence>, now: int)
    requires s.tun == u.tun && SameRunning(s.blocked, u.blocked, now)
    ensures SameRunning(Observed(net, s.tun, s.blocked, ip, evidence, now),
                        Observed(net, u.tun, u.blocked, ip, evidence, now), now)
  {
    hide Grounds;
  }

  lemma SweepKeepsSame(a: Blocks, b: Blocks, now: int)
    requires SameRunning(a, b, now)
    ensures SameRunning(Swept(a, now), b, now)
  {
  }

  lemma {:induction false} SameRuns(net: Net, start: Tunables, begin: int, ops: seq<Op>)
    requires Timely(begin, ops)
    ensures Run(net, start, ops).tun == Unswept(net, start, ops).tun
    ensures SameRunning(Run(net, start, ops).blocked, Unswept(net, start, ops).blocked, Clock(begin, ops))
  {
    if ops != [] {
      var before, op := ops[..|ops| - 1], ops[|ops| - 1];
      SameRuns(net, start, begin, before);
      hide After, SameRunning;
      StepKeepsSame(net, Run(net, start, before), Unswept(net, start, before), op, Clock(begin, before),
                    Clock(begin, ops));
    }
  }

  /** Sweeping changes no answer, at any time from then on. */
  lemma SweepingIsInvisible(net: Net, start: Tunables, begin: int, ops: seq<Op>, ip: string, now: int)
    requires Timely(begin, ops) && Clock(begin, ops) <= now
    ensures Answer(Run(net, start, ops).tun, Run(net, start, ops).blocked, ip, now) ==
            Answer(Unswept(net, start, ops).tun, Unswept(net, start, ops).blocked, ip, now)
  {
    hide Run, Unswept, Clock, Timely, After;
    SameRuns(net, start, begin, ops);
    var s, u := Run(net, start, ops), Unswept(net, start, ops);
    assert Running(s.blocked, ip, Clock(begin, ops)) <==> Running(u.blocked, ip, Clock(begin, ops));
  }

  /** The evidence crossed its threshold, its detector is trusted, and its score is high enough. */
  predicate Damning(t: Tunables, e: Evidence) { e.thresholdCross && e.signal in t.signals && e.score >= t.minScore }

  /** The address is readable and in no exempt range. */
  predicate Blockable(net: Net, t: Tunables, ip: string) {
    ip != "" && net.isAddress(ip) && forall i :: 0 <= i < |t.exempt| ==> !net.contains(t.exempt[i], ip)
  }

  /** Crossing evidence leads to a block, and nothing else does: after an observation, and from then on until the next
      operation, the address is refused exactly while a block that was already running lasts, or else, when the settings
      are on and name a detector, for their duration after evidence that damns a blockable address. */
  lemma CrossingBlocks(net: Net, s: State, ip: string, evidence: seq<Evidence>, at: int, now: int)
    requires at <= now
    ensures var t, s' := s.tun, After(net, s, Observe(ip, evidence, at));
            Answer(s'.tun, s'.blocked, ip, now).Some? <==>
            && t.enabled && t.signals != {}
            && if ip in s.blocked && s.blocked[ip].until > at then now < s.blocked[ip].until
               else Blockable(net, t, ip) && (exists e :: e in evidence && Damning(t, e)) && now < at + t.duration
    ensures forall other :: other != ip ==>
              Answer(s.tun, After(net, s, Observe(ip, evidence, at)).blocked, other, now) ==
                Answer(s.tun, s.blocked, other, now)
  {
  }

  /** A refusal says how long it lasts, in whole seconds, and is the gateway's own temporary block of the whole
      address. */
  lemma RefusalTells(t: Tunables, blocked: Blocks, ip: string, now: int)
    requires Answer(t, blocked, ip, now).Some?
    ensures var d := Answer(t, blocked, ip, now).value;
            && d.action == "temp_block" && d.campaignId == "gateway"
            && d.reason == blocked[ip].signal + " crossed its threshold at the gateway"
            && d.policyId == d.targetIdentity == d.source == d.mode == d.verb == d.route == d.redisKey == ""
            && d.requestsPerMinute == 0 && d.expiresAt == None && d.cacheUntil == None
            && now + d.expiresIn * 1_000_000_000 <= blocked[ip].until < now + (d.expiresIn + 1) * 1_000_000_000
  {
  }

  /** A sweep keeps, as they are, exactly the blocks that would still refuse their address. */
  lemma SweepKeepsRunning(t: Tunables, blocked: Blocks, ip: string, now: int)
    requires t.enabled && t.signals != {}
    ensures ip in Swept(blocked, now) <==> Answer(t, blocked, ip, now).Some?
    ensures ip in Swept(blocked, now) ==> Swept(blocked, now)[ip] == blocked[ip]
  {
  }

  /** Operation k blocked ip, with the deadline and the cause that its entry has. */
  ghost predicate SetBy(net: Net, start: Tunables, ops: seq<Op>, k: nat, ip: string, b: Block)
    requires k < |ops|
  {
    var t := Run(net, start, ops[..k]).tun;
    && ops[k].Observe? && ops[k].ip == ip
    && b.until == ops[k].at + t.duration
    && Armed(t) && !Exempt(net, t, ip)
    && exists e :: e in ops[k].evidence && Convicts(t, e) && e.signal == b.signal && e.score == b.score
  }

  /** Every deadline is the time of some observation plus the duration then in force. */
  lemma {:induction false} DeadlinesAreSetOnce(net: Net, start: Tunables, ops: seq<Op>, ip: string) returns (k: nat)
    requires ip in Run(net, start, ops).blocked
    ensures k < |ops| && SetBy(net, start, ops, k, ip, Run(net, start, ops).blocked[ip])
  {
    var before, op := ops[..|ops| - 1], ops[|ops| - 1];
    var s := Run(net, start, before);
    if ip in s.blocked && Run(net, start, ops).blocked[ip] == s.blocked[ip] {
      k := DeadlinesAreSetOnce(net, start, before, ip);
      assert before[..k] == ops[..k];
    } else {
      k := |ops| - 1;
      hide Exempt, Convicts;
      assert op.Observe? && Grounds(net, s.tun, ip, op.evidence).Some?;
    }
  }

  /** Nothing moves the deadline of a block before it passes. */
  lemma RunningDeadlineStands(net: Net, s: State, op: Op, ip: string, now: int)
    requires Running(s.blocked, ip, now)
    requires op.Observe? || op.Sweep? ==> op.at <= now
    ensures ip in After(net, s, op).blocked && After(net, s, op).blocked[ip] == s.blocked[ip]
  {
    hide Grounds, Acceptable, TunablesOf;
  }

  /** A block releases itself: an address is refused only within the duration that was in force when some observation of
      it crossed a trusted detector's threshold. */
  lemma BlocksReleaseThemselves(net: Net, start: Tunables, ops: seq<Op>, ip: string, now: int) returns (k: nat)
    requires Answer(Run(net, start, ops).tun, Run(net, start, ops).blocked, ip, now).Some?
    ensures k < |ops| && SetBy(net, start, ops, k, ip, Run(net, start, ops).blocked[ip])
    ensures now < ops[k].at + Run(net, start, ops[..k]).tun.duration
  {
    k := DeadlinesAreSetOnce(net, start, ops, ip);
  }

  /** In the chain, only a person's decision or an action at least as severe as a block takes the place of a running
      block. */
  lemma BlockPrevails(t: Tunables, blocked: Blocks, ip: string, now: int, engine: Option<Decision>, r: Option<Decision>)
    requires Answer(t, blocked, ip, now).Some?
    requires Chain.Prevails([engine, Answer(t, blocked, ip, now)], r)
    ensures r.Some? && (FromPerson(r.value) || Chain.Severity(r.value.action) >= 2)
    ensures engine.None? || (!FromPerson(engine.value) && Chain.Severity(engine.value.action) < 2) ==>
              r == Answer(t, blocked, ip, now)
  {
    var answers := [engine, Answer(t, blocked, ip, now)];
    Chain.OnlyWorseOrHumanReplaces(answers, r, 1);
    assert answers[0] == engine && answers[1].value.action == "temp_block";
  }
}
