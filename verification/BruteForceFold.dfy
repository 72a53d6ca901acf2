/** While nothing is evicted the table is a fold of the log, and the log alone says what it has forgotten. */
module BruteForceFold {
  import opened Common
  import opened BruteForce
  import opened BruteForceLog
  import opened Text

  /** The settings in force after a log. */
  function InForce(start: Settings, log: seq<Op>): Settings {
    if log == [] then start
    else if log[|log| - 1].Reconfigure? then log[|log| - 1].cfg.Defaulted()
    else InForce(start, log[..|log| - 1])
  }

  function Reset(r: FailureRun, now: int, window: int): FailureRun {
    if now - r.last > window then r.(n := 0) else r
  }

  /** The run as the detector remembers it: a read of the client, or a sweep, forgets it once the window in force has
      passed. */
  function StoredRun(start: Settings, log: seq<Op>, ip: string, route: string, name: string): FailureRun {
    if log == [] then FailureRun(0, 0, "")
    else
      var front, last := log[..|log| - 1], log[|log| - 1];
      Kept(StoredRun(start, front, ip, route, name), last, ip, route, name, InForce(start, front))
  }

  function Kept(r: FailureRun, op: Op, ip: string, route: string, name: string, tun: Settings): FailureRun {
    match op
    case Read(c, now) => if c == ip && tun.enabled then Reset(r, now, tun.window) else r
    case Sweep(now) => Reset(r, now, tun.window)
    case _ => Advance(r, op, ip, route, name)
  }

  lemma StoredRunStep(start: Settings, log: seq<Op>, op: Op, ip: string, route: string, name: string)
    ensures StoredRun(start, log + [op], ip, route, name) ==
            Kept(StoredRun(start, log, ip, route, name), op, ip, route, name, InForce(start, log))
    ensures InForce(start, log + [op]) == if op.Reconfigure? then op.cfg.Defaulted() else InForce(start, log)
  {
    assert (log + [op])[..|log|] == log;
  }

  lemma {:induction false} SettingsOfHistory(log: seq<Op>, states: seq<State>)
    requires History(log, states)
    ensures states[|log|].tun == InForce(states[0].tun, log)
  {
    hide WellFormed, AfterFailure, AfterSuccess, AfterRead, AfterSweep, Trimmed;
    if log != [] {
      HistoryPrefix(log, states);
      SettingsOfHistory(log[..|log| - 1], states[..|log|]);
      assert Step(states[|log| - 1], log[|log| - 1], states[|log|]);
    }
  }

  /** What is remembered ends when the true run ends, and is all of it or less. */
  lemma {:induction false} StoredIsPart(start: Settings, log: seq<Op>, ip: string, route: string, name: string)
    ensures var r, t := StoredRun(start, log, ip, route, name), TrueRun(log, ip, route, name);
            r.n <= t.n && r.last == t.last && (r.n == t.n > 0 ==> r.first == t.first)
  {
    if log != [] {
      StoredIsPart(start, log[..|log| - 1], ip, route, name);
    }
  }

  // ---------------------------------------------------------------- the table is the fold

  /** Without eviction each client's streaks change by themselves. */
  function StreaksAfter(byTarget: Streaks, op: Op, ip: string, tun: Settings): Streaks {
    match op
    case Fail(c, route, target, now, own) =>
      if c == ip then byTarget[StreakKey(route, target) := NextStreak(byTarget, route, target, now, own.window)]
      else byTarget
    case Succeed(c, route, target) => if c == ip then Cleared(byTarget, route, target) else byTarget
    case Read(c, now) => if c == ip && tun.enabled then Fresh(byTarget, now, tun.window) else byTarget
    case Sweep(now) => Fresh(byTarget, now, tun.window)
    case Reconfigure(_) => byTarget
  }

  lemma StreaksStep(s: State, op: Op, s': State, ip: string)
    requires Step(s, op, s') && EvictsNothing(s, op)
    ensures TargetsOf(s'.clients, ip) == StreaksAfter(TargetsOf(s.clients, ip), op, ip, s.tun)
  {
    hide NextStreak, StreakKey, OldestStreak, Cleared, Fresh, AfterFailure, Trimmed;
    match op
    case Fail(c, route, target, now, own) =>
      var roomy, targets :| AfterFailure(s.clients, c, route, target, now, own, roomy, targets, s'.clients);
      FailureStreaks(s, op, roomy, targets, s', ip);
    case Succeed(c, route, target) => NothingCleared(route, target);
    case Read(c, now) => NothingFresh(now, s.tun.window);
    case Sweep(now) => NothingFresh(now, s.tun.window);
    case Reconfigure(cfg) =>
      var kept :| Trimmed(s.clients, s'.tun, kept, s'.clients);
      TrimmedNothing(s.clients, s'.tun, kept, s'.clients);
  }

  lemma FailureStreaks(s: State, op: Op, roomy: Clients, targets: Streaks, s': State, ip: string)
    requires op.Fail? && EvictsNothing(s, op)
    requires AfterFailure(s.clients, op.ip, op.route, op.target, op.now, op.tun, roomy, targets, s'.clients)
    ensures TargetsOf(s'.clients, ip) == StreaksAfter(TargetsOf(s.clients, ip), op, ip, s.tun)
  {
    hide NextStreak, StreakKey, OldestStreak;
  }

  lemma NothingCleared(route: string, target: string)
    ensures Cleared(map[], route, target) == map[]
  {
  }

  lemma NothingFresh(now: int, window: int)
    ensures Fresh(map[], now, window) == map[]
  {
  }

  /** The key is stored if and only if the run is not empty, and then the streak is the run. */
  predicate EntryIs(byTarget: Streaks, route: string, key: string, r: FailureRun) {
    if r.n == 0 then key !in byTarget
    else key in byTarget && byTarget[key] == LoginStreak(route, r.first, r.n, r.last, r.last)
  }

  lemma EntryStep(byTarget: Streaks, op: Op, ip: string, tun: Settings, route: string, target: string, r: FailureRun)
    requires NulFree(route) && WellFormed(op) && EntryIs(byTarget, route, StreakKey(route, target), r)
    ensures EntryIs(StreaksAfter(byTarget, op, ip, tun), route, StreakKey(route, target),
                    Kept(r, op, ip, route, Named(target), tun))
  {
    if op.Fail? || op.Succeed? {
      SameKey(op.route, op.target, route, target);
    }
    hide StreakKey, NulFree, Named;
  }

  /** Every run that the log remembers is stored as it is, and no other is. */
  ghost predicate Mirrors(clients: Clients, start: Settings, log: seq<Op>) {
    forall ip, route, target :: NulFree(route) ==>
      EntryIs(TargetsOf(clients, ip), route, StreakKey(route, target), StoredRun(start, log, ip, route, Named(target)))
  }

  ghost predicate NothingEvicted(log: seq<Op>, states: seq<State>)
    requires |states| == |log| + 1
  {
    forall i :: 0 <= i < |log| ==> EvictsNothing(states[i], log[i])
  }

  lemma MirrorsStep(s: State, op: Op, s': State, start: Settings, log: seq<Op>)
    requires WellFormed(op) && Step(s, op, s') && EvictsNothing(s, op) && s.tun == InForce(start, log)
    requires Mirrors(s.clients, start, log)
    ensures Mirrors(s'.clients, start, log + [op])
  {
    hide Step, EvictsNothing, StreakKey, NulFree, Named, WellFormed, StreaksAfter, Kept, EntryIs, InForce, StoredRun;
    forall ip, route, target | NulFree(route)
      ensures EntryIs(TargetsOf(s'.clients, ip), route, StreakKey(route, target),
                      StoredRun(start, log + [op], ip, route, Named(target)))
    {
      StreaksStep(s, op, s', ip);
      StoredRunStep(start, log, op, ip, route, Named(target));
      EntryStep(TargetsOf(s.clients, ip), op, ip, s.tun, route, target,
                StoredRun(start, log, ip, route, Named(target)));
    }
  }

  /** In every history that evicts nothing, whatever the clock and the windows do, the table is the fold of the log. */
  lemma {:induction false} TableIsFold(log: seq<Op>, states: seq<State>)
    requires History(log, states) && NothingEvicted(log, states)
    ensures Mirrors(states[|log|].clients, states[0].tun, log)
  {
    hide WellFormed, EvictsNothing, Step, Mirrors;
    if log == [] {
      NothingMirrored(states[0].tun);
    } else {
      var n := |log| - 1;
      var front, last := log[..n], log[n];
      HistoryPrefix(log, states);
      TableIsFold(front, states[..n + 1]);
      SettingsOfHistory(front, states[..n + 1]);
      assert log == front + [last] && WellFormed(last) && Step(states[n], last, states[n + 1])
             && EvictsNothing(states[n], last);
      MirrorsStep(states[n], last, states[n + 1], states[0].tun, front);
    }
  }

  lemma NothingMirrored(start: Settings)
    ensures Mirrors(map[], start, [])
  {
  }

  // ---------------------------------------------------------------- what is undercounted

  ghost predicate Holds(clients: Clients, ip: string, key: string, r: FailureRun) {
    ip in clients && key in clients[ip] && clients[ip][key].consecutive == r.n && clients[ip][key].lastFailure == r.last
  }

  /** Every true run still within the window is stored, with its exact length. */
  ghost predicate Complete(clients: Clients, log: seq<Op>, now: int, window: int) {
    forall ip, route, target :: NulFree(route) && Live(TrueRun(log, ip, route, Named(target)), now, window) ==>
      Holds(clients, ip, StreakKey(route, target), TrueRun(log, ip, route, Named(target)))
  }

  /** No part of a client's live runs was forgotten along the log. */
  ghost predicate RemembersOf(start: Settings, log: seq<Op>, ip: string, now: int, window: int) {
    forall route, target :: NulFree(route) && Live(TrueRun(log, ip, route, Named(target)), now, window) ==>
      StoredRun(start, log, ip, route, Named(target)).n == TrueRun(log, ip, route, Named(target)).n
  }

  ghost predicate Remembers(start: Settings, log: seq<Op>, now: int, window: int) {
    forall ip :: RemembersOf(start, log, ip, now, window)
  }

  /** In a history that evicts nothing, every live run is stored with its exact length if and only if the log remembers
      it; at any time and for any window. */
  lemma ExactWithoutEviction(log: seq<Op>, states: seq<State>, now: int, window: int)
    requires History(log, states) && NothingEvicted(log, states)
    ensures Complete(states[|log|].clients, log, now, window) <==> Remembers(states[0].tun, log, now, window)
  {
    var start, clients := states[0].tun, states[|log|].clients;
    hide History, NothingEvicted, StreakKey, NulFree, Named, StoredRun, TrueRun, Mirrors;
    TableIsFold(log, states);
    forall ip, route, target | NulFree(route) && Live(TrueRun(log, ip, route, Named(target)), now, window)
      ensures Holds(clients, ip, StreakKey(route, target), TrueRun(log, ip, route, Named(target))) <==>
              StoredRun(start, log, ip, route, Named(target)).n == TrueRun(log, ip, route, Named(target)).n
    {
      MirroredRun(clients, start, log, ip, route, target);
    }
    assert Complete(clients, log, now, window) <==> Remembers(start, log, now, window) by {
      CompleteByRun(clients, start, log, now, window);
    }
  }

  lemma MirroredRun(clients: Clients, start: Settings, log: seq<Op>, ip: string, route: string, target: string)
    requires Mirrors(clients, start, log) && NulFree(route)
    ensures var s, t := StoredRun(start, log, ip, route, Named(target)), TrueRun(log, ip, route, Named(target));
            && EntryIs(TargetsOf(clients, ip), route, StreakKey(route, target), s)
            && s.n <= t.n && s.last == t.last && (s.n == t.n > 0 ==> s == t)
            && (t.n > 0 ==> (Holds(clients, ip, StreakKey(route, target), t) <==> s.n == t.n))
  {
    StoredIsPart(start, log, ip, route, Named(target));
    hide StreakKey, NulFree, Named, StoredRun, TrueRun;
  }

  lemma CompleteByRun(clients: Clients, start: Settings, log: seq<Op>, now: int, window: int)
    requires forall ip, route, target :: NulFree(route) && Live(TrueRun(log, ip, route, Named(target)), now, window) ==>
               (Holds(clients, ip, StreakKey(route, target), TrueRun(log, ip, route, Named(target))) <==>
                StoredRun(start, log, ip, route, Named(target)).n == TrueRun(log, ip, route, Named(target)).n)
    ensures Complete(clients, log, now, window) <==> Remembers(start, log, now, window)
  {
    hide StreakKey, NulFree, Named, StoredRun, TrueRun, Live, Holds;
    if Complete(clients, log, now, window) {
      forall ip ensures RemembersOf(start, log, ip, now, window) {}
    }
    if Remembers(start, log, now, window) {
      forall ip, route, target | NulFree(route) && Live(TrueRun(log, ip, route, Named(target)), now, window)
        ensures Holds(clients, ip, StreakKey(route, target), TrueRun(log, ip, route, Named(target)))
      {
        assert RemembersOf(start, log, ip, now, window);
      }
    }
  }

  // ---------------------------------------------------------------- logs that forget nothing

  /** The time of the latest call that carries one. */
  function Clock(log: seq<Op>): int {
    if log == [] then 0 else NowOf(log[|log| - 1], Clock(log[..|log| - 1]))
  }

  /** The clock never goes back, and the window never grows. */
  ghost predicate Steady(start: Settings, log: seq<Op>) {
    log == [] || (
      var front, last := log[..|log| - 1], log[|log| - 1];
      && Steady(start, front)
      && Clock(front) <= NowOf(last, Clock(front))
      && (last.Fail? ==> last.tun.window <= InForce(start, front).window)
      && (last.Reconfigure? ==> last.cfg.Defaulted().window <= InForce(start, front).window))
  }

  /** Such a log forgets nothing that is still within the window in force. */
  lemma {:induction false} SteadyRemembers(start: Settings, log: seq<Op>, ip: string, route: string, name: string,
                                           now: int)
    requires Steady(start, log) && Clock(log) <= now
    requires Live(TrueRun(log, ip, route, name), now, InForce(start, log).window)
    ensures StoredRun(start, log, ip, route, name).n == TrueRun(log, ip, route, name).n
  {
    var front, last := log[..|log| - 1], log[|log| - 1];
    StoredIsPart(start, front, ip, route, name);
    if Live(TrueRun(front, ip, route, name), Clock(log), InForce(start, front).window) {
      SteadyRemembers(start, front, ip, route, name, Clock(log));
    }
  }

  // ---------------------------------------------------------------- the verdict

  /** Some account of this route really saw that many failures in a row, the last of them within the window. */
  ghost predicate UnderAttack(log: seq<Op>, ip: string, now: int, tun: Settings) {
    exists route, target :: NulFree(route) && Crossing(TrueRun(log, ip, route, Named(target)), now, tun)
  }

  /** The same of what the log remembers. */
  ghost predicate SeenUnderAttack(start: Settings, log: seq<Op>, ip: string, now: int, tun: Settings) {
    exists route, target :: NulFree(route) && Crossing(StoredRun(start, log, ip, route, Named(target)), now, tun)
  }

  predicate Crossing(r: FailureRun, now: int, tun: Settings) {
    r.n >= tun.maxFailures && r.n > 0 && now - r.last <= tun.window
  }

  /** The verdict is never a false alarm. While nothing is evicted it is exactly that of the runs the log remembers, and
      so exact wherever the log remembers the client's live runs. */
  lemma VerdictMatchesLog(log: seq<Op>, states: seq<State>, ip: string, now: int, ev: Evidence)
    requires History(log, states)
    requires var s := states[|log|];
             s.tun.enabled && Reports(Fresh(TargetsOf(s.clients, ip), now, s.tun.window), s.tun, ev)
    ensures var tun := states[|log|].tun;
            && (ev.thresholdCross ==> UnderAttack(log, ip, now, tun))
            && (NothingEvicted(log, states) ==>
                (ev.thresholdCross <==> SeenUnderAttack(states[0].tun, log, ip, now, tun)))
            && (NothingEvicted(log, states) && RemembersOf(states[0].tun, log, ip, now, tun.window) ==>
                  (ev.thresholdCross <==> UnderAttack(log, ip, now, tun)))
  {
    hide Step, WellFormed, Fresh, Reports, UnderAttack, SeenUnderAttack, NothingEvicted, RemembersOf;
    var s, start := states[|log|], states[0].tun;
    NeverOvercounts(log, states);
    if ev.thresholdCross {
      CrossIsReal(s.clients, log, ip, now, s.tun, ev);
    }
    if NothingEvicted(log, states) {
      TableIsFold(log, states);
      CrossIsSeen(s.clients, start, log, ip, now, s.tun, ev);
      if RemembersOf(start, log, ip, now, s.tun.window) && UnderAttack(log, ip, now, s.tun) {
        RememberedAttack(start, log, ip, now, s.tun);
      }
    }
  }

  /** The read crosses if and only if some stored streak does. */
  lemma CrossByStreak(clients: Clients, ip: string, now: int, tun: Settings, ev: Evidence)
    requires Reports(Fresh(TargetsOf(clients, ip), now, tun.window), tun, ev) && tun.Positive()
    ensures ev.thresholdCross <==>
            exists k :: k in TargetsOf(clients, ip) && StreakCrosses(TargetsOf(clients, ip)[k], now, tun)
  {
    hide Sprayed, RatioScore;
    var live := Fresh(TargetsOf(clients, ip), now, tun.window);
    if ev.thresholdCross {
      var k :| k in live && ev.consecutiveFailures == live[k].consecutive;
      assert StreakCrosses(TargetsOf(clients, ip)[k], now, tun);
    }
    forall k | k in TargetsOf(clients, ip) && StreakCrosses(TargetsOf(clients, ip)[k], now, tun)
      ensures ev.thresholdCross
    {
      FreshKeeps(TargetsOf(clients, ip), now, tun.window, k);
    }
  }

  predicate StreakCrosses(s: LoginStreak, now: int, tun: Settings) {
    now - s.lastFailure <= tun.window && s.consecutive >= tun.maxFailures
  }

  lemma CrossIsReal(clients: Clients, log: seq<Op>, ip: string, now: int, tun: Settings, ev: Evidence)
    requires TableOk(clients) && Sound(clients, log) && tun.Positive()
    requires Reports(Fresh(TargetsOf(clients, ip), now, tun.window), tun, ev) && ev.thresholdCross
    ensures UnderAttack(log, ip, now, tun)
  {
    hide StreakKey, TrueRun, Named, Reports, Fresh;
    CrossByStreak(clients, ip, now, tun, ev);
    var k :| k in TargetsOf(clients, ip) && StreakCrosses(TargetsOf(clients, ip)[k], now, tun);
    var t := clients[ip][k];
    assert StreakOk(k, t) && Within(t, RunOf(log, ip, t));
    assert Crossing(TrueRun(log, ip, t.route, Named(t.target)), now, tun);
  }

  lemma CrossIsSeen(clients: Clients, start: Settings, log: seq<Op>, ip: string, now: int, tun: Settings, ev: Evidence)
    requires TableOk(clients) && Mirrors(clients, start, log) && tun.Positive()
    requires Reports(Fresh(TargetsOf(clients, ip), now, tun.window), tun, ev)
    ensures ev.thresholdCross <==> SeenUnderAttack(start, log, ip, now, tun)
  {
    hide StreakKey, StoredRun, Named, Reports, Fresh, Mirrors, NulFree;
    CrossByStreak(clients, ip, now, tun, ev);
    if ev.thresholdCross {
      var k :| k in TargetsOf(clients, ip) && StreakCrosses(TargetsOf(clients, ip)[k], now, tun);
      var e := clients[ip][k];
      assert StreakOk(k, e);
      MirroredRun(clients, start, log, ip, e.route, e.target);
      assert Crossing(StoredRun(start, log, ip, e.route, Named(e.target)), now, tun);
    }
    if SeenUnderAttack(start, log, ip, now, tun) {
      var route, target :| NulFree(route) && Crossing(StoredRun(start, log, ip, route, Named(target)), now, tun);
      MirroredRun(clients, start, log, ip, route, target);
      assert StreakCrosses(TargetsOf(clients, ip)[StreakKey(route, target)], now, tun);
    }
  }

  lemma RememberedAttack(start: Settings, log: seq<Op>, ip: string, now: int, tun: Settings)
    requires RemembersOf(start, log, ip, now, tun.window) && UnderAttack(log, ip, now, tun)
    ensures SeenUnderAttack(start, log, ip, now, tun)
  {
    hide StoredRun, TrueRun, Named, NulFree;
    var route, target :| NulFree(route) && Crossing(TrueRun(log, ip, route, Named(target)), now, tun);
    assert Live(TrueRun(log, ip, route, Named(target)), now, tun.window);
    StoredIsPart(start, log, ip, route, Named(target));
    assert Crossing(StoredRun(start, log, ip, route, Named(target)), now, tun);
  }

  // ---------------------------------------------------------------- cleaning up

  /** The log without its reads and sweeps. */
  function WithoutCleanup(log: seq<Op>): seq<Op> {
    if log == [] then []
    else
      var last := log[|log| - 1];
      WithoutCleanup(log[..|log| - 1]) + (if last.Read? || last.Sweep? then [] else [last])
  }

  /** Without reads and sweeps the log remembers all that it says. */
  lemma {:induction false} CleanupSaysNothing(start: Settings, log: seq<Op>, ip: string, route: string, name: string)
    ensures StoredRun(start, WithoutCleanup(log), ip, route, name) == TrueRun(log, ip, route, name)
    ensures InForce(start, WithoutCleanup(log)) == InForce(start, log)
  {
    if log != [] {
      var front, last := log[..|log| - 1], log[|log| - 1];
      CleanupSaysNothing(start, front, ip, route, name);
      if last.Read? || last.Sweep? {
        assert WithoutCleanup(front) + [] == WithoutCleanup(front);
      } else {
        StoredRunStep(start, WithoutCleanup(front), last, ip, route, name);
      }
    }
  }

  /** When nothing is evicted with reads and sweeps or without them, they change no answer about a client if and only if
      the log with them still remembers the client's live runs. */
  lemma CleanupIsInvisible(log: seq<Op>, states: seq<State>, bare: seq<State>, ip: string, now: int)
    requires History(log, states) && NothingEvicted(log, states)
    requires History(WithoutCleanup(log), bare) && NothingEvicted(WithoutCleanup(log), bare)
    requires bare[0].tun == states[0].tun
    ensures var s, b := states[|log|], bare[|WithoutCleanup(log)|];
            && s.tun == b.tun
            && (Fresh(TargetsOf(s.clients, ip), now, s.tun.window) ==
                Fresh(TargetsOf(b.clients, ip), now, b.tun.window) <==>
                RemembersOf(states[0].tun, log, ip, now, s.tun.window))
  {
    var short, start := WithoutCleanup(log), states[0].tun;
    TableIsFold(log, states);
    TableIsFold(short, bare);
    NeverOvercounts(log, states);
    NeverOvercounts(short, bare);
    SettingsOfHistory(log, states);
    SettingsOfHistory(short, bare);
    CleanupSaysNothing(start, log, "", "", "");
    hide History, NothingEvicted, Mirrors, TableOk, Sound, InForce, WithoutCleanup, Fresh, RemembersOf;
    SameAnswersExactly(states[|log|].clients, bare[|short|].clients, start, log, ip, now, states[|log|].tun.window);
  }

  lemma SameAnswersExactly(a: Clients, b: Clients, start: Settings, log: seq<Op>, ip: string, now: int, window: int)
    requires TableOk(a) && Mirrors(a, start, log) && TableOk(b) && Mirrors(b, start, WithoutCleanup(log))
    ensures Fresh(TargetsOf(a, ip), now, window) == Fresh(TargetsOf(b, ip), now, window) <==>
            RemembersOf(start, log, ip, now, window)
  {
    hide TableOk, Mirrors, StreakKey, Named, NulFree, StoredRun, TrueRun, WithoutCleanup;
    var one, two := Fresh(TargetsOf(a, ip), now, window), Fresh(TargetsOf(b, ip), now, window);
    if one == two {
      forall route, target | NulFree(route) && Live(TrueRun(log, ip, route, Named(target)), now, window)
        ensures StoredRun(start, log, ip, route, Named(target)).n == TrueRun(log, ip, route, Named(target)).n
      {
        EntryExactly(a, b, start, log, ip, now, window, route, target);
      }
    }
    if RemembersOf(start, log, ip, now, window) {
      forall k | k in one ensures k in two && two[k] == one[k] {
        EntryNamed(a, ip, k);
        EntryExactly(a, b, start, log, ip, now, window, one[k].route, one[k].target);
      }
      forall k | k in two ensures k in one && one[k] == two[k] {
        EntryNamed(b, ip, k);
        EntryExactly(a, b, start, log, ip, now, window, two[k].route, two[k].target);
      }
    }
  }

  lemma EntryNamed(clients: Clients, ip: string, k: string)
    requires TableOk(clients) && k in TargetsOf(clients, ip)
    ensures var e := TargetsOf(clients, ip)[k]; NulFree(e.route) && k == StreakKey(e.route, e.target)
  {
    assert StreakOk(k, clients[ip][k]);
  }

  /** Of one run, both tables give the same live entry if and only if the log remembers it while it is live. */
  lemma EntryExactly(a: Clients, b: Clients, start: Settings, log: seq<Op>, ip: string, now: int, window: int,
                     route: string,
                     target: string)
    requires Mirrors(a, start, log) && Mirrors(b, start, WithoutCleanup(log)) && NulFree(route)
    ensures var one, two := Fresh(TargetsOf(a, ip), now, window), Fresh(TargetsOf(b, ip), now, window);
            var k, t := StreakKey(route, target), TrueRun(log, ip, route, Named(target));
            ((k in one <==> k in two) && (k in one ==> one[k] == two[k])) <==>
            (Live(t, now, window) ==> StoredRun(start, log, ip, route, Named(target)).n == t.n)
  {
    MirroredRun(a, start, log, ip, route, target);
    MirroredRun(b, start, WithoutCleanup(log), ip, route, target);
    CleanupSaysNothing(start, log, ip, route, Named(target));
    hide Mirrors, StreakKey, Named, NulFree, StoredRun, TrueRun, WithoutCleanup;
  }

  // ---------------------------------------------------------------- a window that grows

  function Sample(window: int): Settings { Settings(true, 5, window, 10, 10) }

  function TwoFailures(): seq<Op> {
    [Fail("a", "/login", "u", 1, Sample(10)), Sweep(20), Reconfigure(Sample(100)),
     Fail("a", "/login", "u", 30, Sample(100))]
  }

  function OneStreak(at: int): Clients {
    map["a" := map[StreakKey("/login", "u") := LoginStreak("/login", "u", 1, at, at)]]
  }

  function TwoFailureStates(): seq<State> {
    [State(Sample(10), map[]), State(Sample(10), OneStreak(1)), State(Sample(10), map[]), State(Sample(100), map[]),
     State(Sample(100), OneStreak(30))]
  }

  lemma FirstFailureStored(tun: Settings, now: int)
    requires tun.Positive()
    ensures AfterFailure(map[], "a", "/login", "u", now, tun, map[], map[], OneStreak(now))
  {
    hide StreakKey;
    var empty: Streaks := map[];
    assert empty == TargetsOf(map[], "a");
  }

  lemma NothingToTrim(tun: Settings)
    requires tun.Positive()
    ensures Trimmed(map[], tun, map[], map[])
  {
  }

  /** A log that forgets: when the window grows, a streak that was swept under the shorter one is missing from a run
      that the longer one joins together. Nothing is evicted, two failures are in a row, and one is remembered and
      stored. */
  lemma GrowingWindowUndercounts()
    ensures History(TwoFailures(), TwoFailureStates()) && NothingEvicted(TwoFailures(), TwoFailureStates())
    ensures TrueRun(TwoFailures(), "a", "/login", Named("u")) == FailureRun(2, 30, "u")
    ensures StoredRun(Sample(10), TwoFailures(), "a", "/login", Named("u")) == FailureRun(1, 30, "u")
    ensures TwoFailureStates()[4].clients == OneStreak(30)
    ensures !Remembers(Sample(10), TwoFailures(), 30, 100) && !Complete(OneStreak(30), TwoFailures(), 30, 100)
  {
    FailureSteps();
    QuietSteps();
    TrueRunOfTwo();
    StoredRunOfTwo();
    NothingEvictedOfTwo();
    hide Step, TrueRun, StoredRun, StreakKey, AfterFailure;
    assert NulFree("/login") && Live(TrueRun(TwoFailures(), "a", "/login", Named("u")), 30, 100);
    assert !RemembersOf(Sample(10), TwoFailures(), "a", 30, 100);
    ExactWithoutEviction(TwoFailures(), TwoFailureStates(), 30, 100);
  }

  lemma NothingEvictedOfTwo()
    ensures NothingEvicted(TwoFailures(), TwoFailureStates())
  {
    hide StreakKey;
    assert |OneStreak(1)| == 1;
  }

  lemma StoredRunOfTwo()
    ensures StoredRun(Sample(10), TwoFailures(), "a", "/login", "u") == FailureRun(1, 30, "u")
  {
    var log, start := TwoFailures(), Sample(10);
    StoredRunStep(start, log[..0], log[0], "a", "/login", "u");
    StoredRunStep(start, log[..1], log[1], "a", "/login", "u");
    StoredRunStep(start, log[..2], log[2], "a", "/login", "u");
    StoredRunStep(start, log[..3], log[3], "a", "/login", "u");
    assert log[..0] + [log[0]] == log[..1] && log[..1] + [log[1]] == log[..2] && log[..2] + [log[2]] == log[..3]
           && log[..3] + [log[3]] == log;
  }

  lemma FailureSteps()
    ensures Step(TwoFailureStates()[0], TwoFailures()[0], TwoFailureStates()[1])
    ensures Step(TwoFailureStates()[3], TwoFailures()[3], TwoFailureStates()[4])
  {
    FirstFailureStored(Sample(10), 1);
    FirstFailureStored(Sample(100), 30);
    hide AfterFailure, StreakKey;
  }

  lemma QuietSteps()
    ensures Step(TwoFailureStates()[1], TwoFailures()[1], TwoFailureStates()[2])
    ensures Step(TwoFailureStates()[2], TwoFailures()[2], TwoFailureStates()[3])
  {
    NothingToTrim(Sample(100));
    hide StreakKey, Trimmed;
    assert Fresh(OneStreak(1)["a"], 20, 10) == map[];
    assert AfterSweep(OneStreak(1), 20, 10) == map[];
  }

  lemma TrueRunOfTwo()
    ensures TrueRun(TwoFailures(), "a", "/login", "u") == FailureRun(2, 30, "u")
  {
    var log := TwoFailures();
    TrueRunStep(log[..0], log[0], "a", "/login", "u");
    TrueRunStep(log[..1], log[1], "a", "/login", "u");
    TrueRunStep(log[..2], log[2], "a", "/login", "u");
    TrueRunStep(log[..3], log[3], "a", "/login", "u");
    assert log[..0] + [log[0]] == log[..1] && log[..1] + [log[1]] == log[..2] && log[..2] + [log[2]] == log[..3]
           && log[..3] + [log[3]] == log;
  }
}
