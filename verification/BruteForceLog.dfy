/** The table against the history of login attempts it was built from. */
module BruteForceLog {
  import opened Common
  import opened Eviction
  import opened Sums
  import opened Text
  import opened BruteForce

  datatype Op =
    | Fail(ip: string, route: string, target: string, now: int, tun: Settings)
    | Succeed(ip: string, route: string, target: string)
    | Read(ip: string, now: int)
    | Sweep(now: int)
    | Reconfigure(cfg: Settings)

  datatype State = State(tun: Settings, clients: Clients)

  ghost predicate WellFormed(op: Op) {
    match op
    case Fail(ip, route, _, now, tun) => ip != "" && NulFree(route) && now > 0 && tun.Positive()
    case Succeed(_, route, _) => NulFree(route)
    case _ => true
  }

  /** One call of the detector. Where an eviction may choose among equally old entries, any choice is a step. */
  ghost predicate Step(s: State, op: Op, s': State) {
    match op
    case Fail(ip, route, target, now, tun) =>
      s'.tun == s.tun
        && exists roomy, targets :: AfterFailure(s.clients, ip, route, target, now, tun, roomy, targets, s'.clients)
    case Succeed(ip, route, target) =>
      s' == s.(clients := AfterSuccess(s.clients, ip, route, target))
    case Read(ip, now) =>
      s' == s.(clients := AfterRead(s.clients, ip, now, s.tun))
    case Sweep(now) =>
      s' == s.(clients := AfterSweep(s.clients, now, s.tun.window))
    case Reconfigure(cfg) =>
      s'.tun == cfg.Defaulted() && exists kept :: Trimmed(s.clients, s'.tun, kept, s'.clients)
  }

  /** The failures in a row, when the last one was, and the name that the first one used. */
  datatype FailureRun = FailureRun(n: nat, last: int, first: string)

  function Advance(r: FailureRun, op: Op, ip: string, route: string, name: string): FailureRun {
    match op
    case Fail(ip', route', target, now, tun) =>
      if ip' == ip && route' == route && Named(target) == name
      then if r.n > 0 && now - r.last <= tun.window then r.(n := r.n + 1, last := now) else FailureRun(1, now, target)
      else r
    case Succeed(ip', route', target) =>
      if ip' == ip && route' == route && (target == "" || Named(target) == name) then r.(n := 0) else r
    case _ => r
  }

  /** The true run of failures of one client against one name on one route: what the log alone says. */
  function TrueRun(log: seq<Op>, ip: string, route: string, name: string): FailureRun {
    if log == [] then FailureRun(0, 0, "")
    else Advance(TrueRun(log[..|log| - 1], ip, route, name), log[|log| - 1], ip, route, name)
  }

  lemma TrueRunStep(log: seq<Op>, op: Op, ip: string, route: string, name: string)
    ensures TrueRun(log + [op], ip, route, name) == Advance(TrueRun(log, ip, route, name), op, ip, route, name)
  {
    assert (log + [op])[..|log|] == log;
  }

  // ---------------------------------------------------------------- no overcounting

  ghost predicate Within(s: LoginStreak, r: FailureRun) {
    s.consecutive <= r.n && s.lastFailure == r.last && (s.consecutive == r.n ==> s.target == r.first)
  }

  function RunOf(log: seq<Op>, ip: string, s: LoginStreak): FailureRun {
    TrueRun(log, ip, s.route, Named(s.target))
  }

  /** Every stored streak is part of the true run it belongs to. */
  ghost predicate Sound(clients: Clients, log: seq<Op>) {
    forall ip, k :: ip in clients && k in clients[ip] ==> Within(clients[ip][k], RunOf(log, ip, clients[ip][k]))
  }

  lemma SoundSubtable(before: Clients, after: Clients, log: seq<Op>, op: Op)
    requires Sound(before, log) && Subtable(after, before)
    requires forall ip, k :: ip in after && k in after[ip] ==>
               RunOf(log + [op], ip, after[ip][k]) == RunOf(log, ip, after[ip][k])
    ensures Sound(after, log + [op])
  {
  }

  lemma RoomySubtable(before: Clients, ip: string, tun: Settings, roomy: Clients)
    requires RoomForClient(before, ip, tun, roomy)
    ensures forall c :: c in roomy ==> c in before && roomy[c] == before[c]
  {
  }

  lemma RoomySubstreaks(byTarget: Streaks, key: string, tun: Settings, roomy: Streaks)
    requires RoomForTarget(byTarget, key, tun, roomy)
    ensures forall k :: k in roomy ==> k in byTarget && roomy[k] == byTarget[k]
    ensures key in byTarget ==> roomy == byTarget
  {
  }

  lemma KeyDetermines(s: LoginStreak, k: string, route: string, target: string)
    requires StreakOk(k, s) && NulFree(route)
    ensures k == StreakKey(route, target) <==> (s.route == route && Named(s.target) == Named(target))
  {
    if k == StreakKey(route, target) {
      StreakKeyInjective(s.route, s.target, route, target);
    }
  }

  /** After a failure, one entry is new or advanced; every other entry was there before. */
  lemma FailureEntries(before: Clients, ip: string, route: string, target: string, now: int, tun: Settings,
                       roomy: Clients, targets: Streaks, after: Clients)
    requires AfterFailure(before, ip, route, target, now, tun, roomy, targets, after)
    ensures var key := StreakKey(route, target);
            && ip in after && key in after[ip]
            && after[ip][key] == NextStreak(targets, route, target, now, tun.window)
            && (key in targets ==> ip in before && key in before[ip] && targets[key] == before[ip][key])
            && forall c, k :: c in after && k in after[c] && !(c == ip && k == key) ==>
              c in before && k in before[c] && after[c][k] == before[c][k]
  {
    hide OldestStreak, DroppedOldest, NextStreak;
    RoomySubtable(before, ip, tun, roomy);
    RoomySubstreaks(TargetsOf(roomy, ip), StreakKey(route, target), tun, targets);
  }

  lemma SoundFailure(before: Clients, ip: string, route: string, target: string, now: int, tun: Settings,
                     roomy: Clients, targets: Streaks, after: Clients, log: seq<Op>)
    requires TableOk(before) && Sound(before, log)
    requires NulFree(route) && AfterFailure(before, ip, route, target, now, tun, roomy, targets, after)
    ensures Sound(after, log + [Fail(ip, route, target, now, tun)])
  {
    var op, key := Fail(ip, route, target, now, tun), StreakKey(route, target);
    FailureEntries(before, ip, route, target, now, tun, roomy, targets, after);
    hide AfterFailure;
    forall c, k | c in after && k in after[c] ensures Within(after[c][k], RunOf(log + [op], c, after[c][k])) {
      var s := after[c][k];
      TrueRunStep(log, op, c, s.route, Named(s.target));
      if c == ip && k == key {
        if key in targets {
          assert StreakOk(key, before[ip][key]);
          KeyDetermines(before[ip][key], key, route, target);
          assert Within(before[ip][key], RunOf(log, ip, before[ip][key]));
        }
      } else {
        assert StreakOk(k, before[c][k]);
        KeyDetermines(s, k, route, target);
        assert Within(before[c][k], RunOf(log, c, before[c][k]));
      }
    }
  }

  lemma SoundSuccess(before: Clients, ip: string, route: string, target: string, log: seq<Op>)
    requires TableOk(before) && Sound(before, log) && NulFree(route)
    ensures Sound(AfterSuccess(before, ip, route, target), log + [Succeed(ip, route, target)])
  {
    var op, after := Succeed(ip, route, target), AfterSuccess(before, ip, route, target);
    forall c, k | c in after && k in after[c] ensures Within(after[c][k], RunOf(log + [op], c, after[c][k])) {
      SuccessSpares(before, ip, route, target, c, k);
      hide AfterSuccess, StreakKey, TrueRun, NulFree;
      var s := after[c][k];
      assert Within(s, RunOf(log, c, s));
      TrueRunStep(log, op, c, s.route, Named(s.target));
    }
  }

  /** What is left after a success was there before, and is not what the success clears. */
  lemma SuccessSpares(before: Clients, ip: string, route: string, target: string, c: string, k: string)
    requires TableOk(before) && NulFree(route)
    requires c in AfterSuccess(before, ip, route, target) && k in AfterSuccess(before, ip, route, target)[c]
    ensures c in before && k in before[c] && AfterSuccess(before, ip, route, target)[c][k] == before[c][k]
    ensures var s := before[c][k]; !(c == ip && route == s.route && (target == "" || Named(target) == Named(s.target)))
  {
    var s := before[c][k];
    assert StreakOk(k, s);
    if c == ip && target != "" {
      KeyDetermines(s, k, route, target);
    }
    hide StreakKey, NulFree;
  }

  ghost predicate Quiet(op: Op) { op.Read? || op.Sweep? || op.Reconfigure? }

  lemma QuietSubtable(s: State, op: Op, s': State)
    requires Step(s, op, s') && Quiet(op)
    ensures Subtable(s'.clients, s.clients)
  {
    hide OldestStreak, StreakKey;
  }

  lemma SoundStep(s: State, op: Op, s': State, log: seq<Op>)
    requires TableOk(s.clients) && Sound(s.clients, log) && WellFormed(op) && Step(s, op, s')
    ensures Sound(s'.clients, log + [op])
  {
    hide AfterFailure, AfterSuccess, AfterSweep, AfterRead, Trimmed;
    match op
    case Fail(ip, route, target, now, tun) =>
      var roomy, targets :| AfterFailure(s.clients, ip, route, target, now, tun, roomy, targets, s'.clients);
      SoundFailure(s.clients, ip, route, target, now, tun, roomy, targets, s'.clients, log);
    case Succeed(ip, route, target) =>
      SoundSuccess(s.clients, ip, route, target, log);
    case _ =>
      QuietSubtable(s, op, s');
      forall ip, k | ip in s'.clients && k in s'.clients[ip]
        ensures RunOf(log + [op], ip, s'.clients[ip][k]) == RunOf(log, ip, s'.clients[ip][k])
      {
        TrueRunStep(log, op, ip, s'.clients[ip][k].route, Named(s'.clients[ip][k].target));
      }
      SoundSubtable(s.clients, s'.clients, log, op);
  }

  // ---------------------------------------------------------------- the table stays well formed and bounded

  lemma FailureKeepsTable(before: Clients, ip: string, route: string, target: string, now: int, tun: Settings,
                          roomy: Clients, targets: Streaks, after: Clients)
    requires TableOk(before) && ip != "" && NulFree(route) && now > 0
    requires AfterFailure(before, ip, route, target, now, tun, roomy, targets, after)
    ensures TableOk(after)
  {
    hide OldestStreak, DroppedOldest, NextStreak, StreaksOk, TableOk, StreakKey;
    RoomySubtable(before, ip, tun, roomy);
    SubtableOk(roomy, before);
    if ip in roomy {
      RowOk(roomy, ip);
      RoomySubstreaks(roomy[ip], StreakKey(route, target), tun, targets);
      SubstreaksOk(targets, roomy[ip]);
    } else {
      RoomySubstreaks(map[], StreakKey(route, target), tun, targets);
      assert targets == map[];
    }
    NextStreakOk(targets, route, target, now, tun.window);
    StoreOk(roomy, ip, after[ip]);
  }

  lemma TrimmedKeepsTable(before: Clients, tun: Settings, kept: Clients, after: Clients)
    requires TableOk(before) && tun.Positive() && Trimmed(before, tun, kept, after)
    ensures TableOk(after)
  {
    hide OldestStreak, KeepsNewest, StreaksOk;
    KeptRows(before, OldestStreak, tun.maxClients, kept);
    forall ip | ip in after ensures ip != "" && StreaksOk(after[ip]) {
      RowOk(before, ip);
      NonEmpty(kept[ip]);
      KeptRows(kept[ip], LastSeen, tun.maxTargetsPerClient, after[ip]);
      SubstreaksOk(after[ip], kept[ip]);
    }
  }

  lemma NonEmpty(byTarget: Streaks)
    requires StreaksOk(byTarget)
    ensures byTarget != map[]
  {
  }

  lemma TableStep(s: State, op: Op, s': State)
    requires TableOk(s.clients) && s.tun.Positive() && WellFormed(op) && Step(s, op, s')
    ensures TableOk(s'.clients) && s'.tun.Positive()
  {
    hide OldestStreak, AfterFailure, Trimmed, StreaksOk, TableOk, StreakKey, Fresh, NulFree;
    match op
    case Fail(ip, route, target, now, tun) =>
      var roomy, targets :| AfterFailure(s.clients, ip, route, target, now, tun, roomy, targets, s'.clients);
      FailureKeepsTable(s.clients, ip, route, target, now, tun, roomy, targets, s'.clients);
    case Succeed(ip, route, target) =>
      if ip in s.clients {
        RowOk(s.clients, ip);
        SubstreaksOk(Cleared(s.clients[ip], route, target), s.clients[ip]);
        StoreOk(s.clients, ip, Cleared(s.clients[ip], route, target));
      }
    case Read(ip, now) =>
      if ip in s.clients {
        RowOk(s.clients, ip);
        FreshOk(s.clients[ip], now, s.tun.window);
        StoreOk(s.clients, ip, Fresh(s.clients[ip], now, s.tun.window));
      }
    case Sweep(now) =>
      SweepKeepsTable(s.clients, now, s.tun.window);
    case Reconfigure(cfg) =>
      var kept :| Trimmed(s.clients, s'.tun, kept, s'.clients);
      TrimmedKeepsTable(s.clients, s'.tun, kept, s'.clients);
  }

  lemma SweepKeepsTable(clients: Clients, now: int, window: int)
    requires TableOk(clients)
    ensures TableOk(AfterSweep(clients, now, window))
  {
    hide StreaksOk, Fresh;
    forall ip | ip in clients
      ensures Fresh(clients[ip], now, window) != map[] ==> StreaksOk(Fresh(clients[ip], now, window))
    {
      FreshOk(clients[ip], now, window);
    }
  }

  /** No more clients, and no more targets of a client, than the settings allow. */
  ghost predicate Capped(clients: Clients, tun: Settings) {
    |clients| <= tun.maxClients && forall ip :: ip in clients ==> |clients[ip]| <= tun.maxTargetsPerClient
  }

  lemma RoomForOne<V>(m: map<string, V>, seen: V -> int, limit: int, top: int, k: string, roomy: map<string, V>)
    requires AllTimed(m, seen) && |m| <= top && 0 < limit <= top
    requires if k !in m && |m| >= limit then DroppedOldest(m, seen, roomy) else roomy == m
    ensures |roomy| <= top && (k !in roomy ==> |roomy| < top)
  {
    if k !in m && |m| >= limit {
      DropShrinks(m, seen, roomy);
    }
  }

  /** Settings whose caps are no larger than those of top. */
  predicate NoLarger(tun: Settings, top: Settings) {
    tun.maxClients <= top.maxClients && tun.maxTargetsPerClient <= top.maxTargetsPerClient
  }

  /** A failure keeps any caps that are at least those of the settings it is recorded under. */
  lemma CappedFailure(before: Clients, ip: string, route: string, target: string, now: int, tun: Settings,
                      roomy: Clients, targets: Streaks, after: Clients, top: Settings)
    requires TableOk(before) && Capped(before, top) && tun.Positive() && NoLarger(tun, top)
    requires AfterFailure(before, ip, route, target, now, tun, roomy, targets, after)
    ensures Capped(after, top)
  {
    hide OldestStreak, NextStreak, DroppedOldest, StreakKey, StreaksOk, AllTimed;
    var key := StreakKey(route, target);
    RoomySubtable(before, ip, tun, roomy);
    TableTimed(before);
    RoomForOne(before, OldestStreak, tun.maxClients, top.maxClients, ip, roomy);
    MapSizes(roomy, ip, after[ip]);
    assert AllTimed(TargetsOf(roomy, ip), LastSeen) by {
      if ip in roomy {
        StreaksTimed(roomy[ip]);
      } else {
        NothingTimed(LastSeen);
      }
    }
    RoomForOne(TargetsOf(roomy, ip), LastSeen, tun.maxTargetsPerClient, top.maxTargetsPerClient, key, targets);
    MapSizes(targets, key, after[ip][key]);
  }

  /** There is room under the caps in force, or the settings that the failure is recorded under make it. */
  predicate KeepsCaps(before: Clients, ip: string, route: string, target: string, tun: Settings, force: Settings) {
    if ip in before
    then
      || StreakKey(route, target) in before[ip]
      || |before[ip]| < force.maxTargetsPerClient
      || tun.maxTargetsPerClient <= |before[ip]|
    else |before| < force.maxClients || tun.maxClients <= |before|
  }

  lemma RoomExactly<V>(m: map<string, V>, seen: V -> int, limit: int, force: int, k: string, roomy: map<string, V>)
    requires AllTimed(m, seen) && |m| <= force && 0 < limit && k !in m
    requires if |m| >= limit then DroppedOldest(m, seen, roomy) else roomy == m
    ensures k !in roomy
    ensures |roomy| < force <==> |m| < force || limit <= |m|
  {
    if |m| >= limit {
      DropShrinks(m, seen, roomy);
    }
  }

  /** A failure keeps the caps in force if and only if there is room under them, or the failure's own settings make
      it. */
  lemma CapsKeptExactly(before: Clients, ip: string, route: string, target: string, now: int, tun: Settings,
                        roomy: Clients, targets: Streaks, after: Clients, force: Settings)
    requires TableOk(before) && Capped(before, force) && tun.Positive() && force.Positive()
    requires AfterFailure(before, ip, route, target, now, tun, roomy, targets, after)
    ensures Capped(after, force) <==> KeepsCaps(before, ip, route, target, tun, force)
  {
    hide OldestStreak, NextStreak, DroppedOldest, StreakKey, StreaksOk, AllTimed, TableOk;
    var key := StreakKey(route, target);
    if ip in before {
      assert roomy == before;
      OneRow(before, ip, after[ip], force);
      if key !in before[ip] {
        assert AllTimed(before[ip], LastSeen) by {
          RowOk(before, ip);
          StreaksTimed(before[ip]);
        }
        RoomExactly(before[ip], LastSeen, tun.maxTargetsPerClient, force.maxTargetsPerClient, key, targets);
      }
      MapSizes(targets, key, after[ip][key]);
    } else {
      TableTimed(before);
      RoomExactly(before, OldestStreak, tun.maxClients, force.maxClients, ip, roomy);
      RoomySubtable(before, ip, tun, roomy);
      assert targets == map[];
      MapSizes(roomy, ip, after[ip]);
      MapSizes(targets, key, after[ip][key]);
      OneRow(roomy, ip, after[ip], force);
    }
  }

  /** Which caps hold when one client's streaks are stored. */
  lemma OneRow(clients: Clients, ip: string, byTarget: Streaks, force: Settings)
    requires forall c :: c in clients ==> |clients[c]| <= force.maxTargetsPerClient
    ensures Capped(clients[ip := byTarget], force) <==>
            |clients[ip := byTarget]| <= force.maxClients && |byTarget| <= force.maxTargetsPerClient
  {
    var after := clients[ip := byTarget];
    assert after[ip] == byTarget;
  }

  lemma NothingTimed<V>(seen: V -> int)
    ensures AllTimed(map[], seen)
  {
  }

  lemma CappedSubtable(after: Clients, before: Clients, tun: Settings)
    requires Subtable(after, before) && Capped(before, tun)
    ensures Capped(after, tun)
  {
    SubmapSize(after, before);
    forall ip | ip in after ensures |after[ip]| <= tun.maxTargetsPerClient {
      SubmapSize(after[ip], before[ip]);
    }
  }

  lemma SuccessSubtable(clients: Clients, ip: string, route: string, target: string)
    ensures Subtable(AfterSuccess(clients, ip, route, target), clients)
  {
    hide StreakKey;
  }

  /** The larger caps after a call: a reconfiguration sets them anew, and a failure may bring older, larger ones. */
  function CapsAfter(top: Settings, op: Op): Settings {
    match op
    case Fail(_, _, _, _, tun) =>
      top.(maxClients := Max(top.maxClients, tun.maxClients),
           maxTargetsPerClient := Max(top.maxTargetsPerClient, tun.maxTargetsPerClient))
    case Reconfigure(cfg) => cfg.Defaulted()
    case _ => top
  }

  lemma CappedStep(s: State, op: Op, s': State, top: Settings)
    requires TableOk(s.clients) && s.tun.Positive() && Capped(s.clients, top) && WellFormed(op) && Step(s, op, s')
    ensures Capped(s'.clients, CapsAfter(top, op))
  {
    hide OldestStreak, AfterFailure, AfterSuccess, AfterSweep, AfterRead, KeepsNewest, TableOk;
    match op
    case Fail(ip, route, target, now, tun) =>
      var roomy, targets :| AfterFailure(s.clients, ip, route, target, now, tun, roomy, targets, s'.clients);
      CappedFailure(s.clients, ip, route, target, now, tun, roomy, targets, s'.clients, CapsAfter(top, op));
    case Succeed(ip, route, target) =>
      SuccessSubtable(s.clients, ip, route, target);
      CappedSubtable(s'.clients, s.clients, top);
    case Reconfigure(cfg) =>
      var kept :| Trimmed(s.clients, s'.tun, kept, s'.clients);
      TrimmedCaps(s.clients, s'.tun, kept, s'.clients);
    case _ =>
      QuietSubtable(s, op, s');
      CappedSubtable(s'.clients, s.clients, top);
  }

  lemma TrimmedCaps(before: Clients, tun: Settings, kept: Clients, after: Clients)
    requires tun.Positive() && Trimmed(before, tun, kept, after)
    ensures Capped(after, tun)
  {
    hide OldestStreak;
    assert |after| == |after.Keys| == |kept.Keys| == |kept|;
  }

  // ---------------------------------------------------------------- cleaning up

  function NowOf(op: Op, clock: int): int {
    match op
    case Fail(_, _, _, now, _) => now
    case Read(_, now) => now
    case Sweep(now) => now
    case _ => clock
  }

  /** There is room for what the step stores, and new settings cut nothing. */
  ghost predicate EvictsNothing(s: State, op: Op) {
    match op
    case Fail(ip, route, target, now, tun) =>
      && (ip in s.clients || |s.clients| < tun.maxClients)
      && (StreakKey(route, target) in TargetsOf(s.clients, ip) || |TargetsOf(s.clients, ip)| < tun.maxTargetsPerClient)
    case Reconfigure(cfg) => Capped(s.clients, cfg.Defaulted())
    case _ => true
  }

  ghost predicate Live(r: FailureRun, now: int, window: int) {
    r.n > 0 && now - r.last <= window
  }

  lemma SameKey(route: string, target: string, route': string, target': string)
    requires NulFree(route) && NulFree(route')
    ensures StreakKey(route, target) == StreakKey(route', target') <==>
            route == route' && Named(target) == Named(target')
  {
    if StreakKey(route, target) == StreakKey(route', target') {
      StreakKeyInjective(route, target, route', target');
    }
  }

  lemma FreshKeeps(byTarget: Streaks, now: int, window: int, key: string)
    requires key in byTarget && now - byTarget[key].lastFailure <= window
    ensures Fresh(byTarget, now, window) != map[] && key in Fresh(byTarget, now, window)
    ensures Fresh(byTarget, now, window)[key] == byTarget[key]
  {
    assert key in Fresh(byTarget, now, window);
  }

  /** A read or a sweep drops nothing that is still within the window. */
  lemma QuietKeepsLive(s: State, op: Op, s': State, clock: int, ip: string, key: string)
    requires TableOk(s.clients) && s.tun.Positive() && WellFormed(op) && Step(s, op, s') && Quiet(op)
             && EvictsNothing(s, op)
    requires clock <= NowOf(op, clock)
    requires ip in s.clients && key in s.clients[ip]
             && NowOf(op, clock) - s.clients[ip][key].lastFailure <= s.tun.window
    ensures ip in s'.clients && key in s'.clients[ip] && s'.clients[ip][key] == s.clients[ip][key]
  {
    hide OldestStreak, StreakKey, Fresh, AfterFailure, AfterSuccess, Trimmed, TableOk;
    match op
    case Reconfigure(cfg) =>
      var kept :| Trimmed(s.clients, s'.tun, kept, s'.clients);
      TrimmedNothing(s.clients, s'.tun, kept, s'.clients);
    case Read(c, now) =>
      FreshKeeps(s.clients[ip], now, s.tun.window, key);
    case Sweep(now) =>
      FreshKeeps(s.clients[ip], now, s.tun.window, key);
  }

  lemma TrimmedNothing(before: Clients, tun: Settings, kept: Clients, after: Clients)
    requires tun.Positive() && Trimmed(before, tun, kept, after) && Capped(before, tun)
    ensures after == before
  {
    hide OldestStreak;
    SameSizeSame(kept, before);
    forall ip | ip in before ensures after[ip] == before[ip] {
      SameSizeSame(after[ip], before[ip]);
    }
  }

  // ---------------------------------------------------------------- whole histories

  /** states follows log from an empty table, one step per call. */
  ghost predicate History(log: seq<Op>, states: seq<State>) {
    && |states| == |log| + 1
    && states[0].clients == map[] && states[0].tun.Positive()
    && forall i :: 0 <= i < |log| ==> WellFormed(log[i]) && Step(states[i], log[i], states[i + 1])
  }

  ghost predicate UsesSettingsInForce(log: seq<Op>, states: seq<State>)
    requires |states| == |log| + 1
  {
    forall i :: 0 <= i < |log| && log[i].Fail? ==> log[i].tun == states[i].tun
  }

  lemma HistoryPrefix(log: seq<Op>, states: seq<State>)
    requires History(log, states) && log != []
    ensures History(log[..|log| - 1], states[..|log|])
    ensures UsesSettingsInForce(log, states) ==> UsesSettingsInForce(log[..|log| - 1], states[..|log|])
  {
    hide Step, WellFormed;
  }

  /** In every history the table is well formed, and no stored streak exceeds the true run of failures. */
  lemma {:induction false} NeverOvercounts(log: seq<Op>, states: seq<State>)
    requires History(log, states)
    ensures TableOk(states[|log|].clients) && states[|log|].tun.Positive()
    ensures Sound(states[|log|].clients, log)
  {
    hide Step, WellFormed;
    if log != [] {
      var front, last := log[..|log| - 1], log[|log| - 1];
      HistoryPrefix(log, states);
      NeverOvercounts(front, states[..|log|]);
      assert log == front + [last] && WellFormed(last) && Step(states[|log| - 1], last, states[|log|]);
      TableStep(states[|log| - 1], last, states[|log|]);
      SoundStep(states[|log| - 1], last, states[|log|], front);
    }
  }

  /** The largest caps of the settings in force and of those that a failure was recorded under since they were set. */
  function LargestCaps(start: Settings, log: seq<Op>): Settings {
    if log == [] then start else CapsAfter(LargestCaps(start, log[..|log| - 1]), log[|log| - 1])
  }

  /** In every history, both counts stay within the largest caps used since the last reconfiguration. */
  lemma {:induction false} WithinLargestCaps(log: seq<Op>, states: seq<State>)
    requires History(log, states)
    ensures Capped(states[|log|].clients, LargestCaps(states[0].tun, log))
  {
    hide Step, WellFormed, Capped;
    if log == [] {
      NothingCapped(states[0].tun);
    } else {
      var front, last := log[..|log| - 1], log[|log| - 1];
      HistoryPrefix(log, states);
      WithinLargestCaps(front, states[..|log|]);
      NeverOvercounts(front, states[..|log|]);
      assert WellFormed(last) && Step(states[|log| - 1], last, states[|log|]);
      CappedStep(states[|log| - 1], last, states[|log|], LargestCaps(states[0].tun, front));
    }
  }

  lemma NothingCapped(tun: Settings)
    requires tun.Positive()
    ensures Capped(map[], tun)
  {
  }

  ghost predicate StepKeepsCaps(s: State, op: Op) {
    op.Fail? ==> KeepsCaps(s.clients, op.ip, op.route, op.target, op.tun, s.tun)
  }

  lemma CappedStepExactly(s: State, op: Op, s': State)
    requires TableOk(s.clients) && s.tun.Positive() && Capped(s.clients, s.tun) && WellFormed(op) && Step(s, op, s')
    ensures Capped(s'.clients, s'.tun) <==> StepKeepsCaps(s, op)
  {
    hide AfterFailure, AfterSuccess, AfterSweep, AfterRead, Trimmed, TableOk, Capped, KeepsCaps;
    if op.Fail? {
      var roomy, targets :|
        AfterFailure(s.clients, op.ip, op.route, op.target, op.now, op.tun, roomy, targets, s'.clients);
      CapsKeptExactly(s.clients, op.ip, op.route, op.target, op.now, op.tun, roomy, targets, s'.clients, s.tun);
    } else {
      CappedStep(s, op, s', s.tun);
    }
  }

  /** In every history the caps in force hold in all states if and only if every failure keeps them. */
  lemma {:induction false} CapsHoldExactly(log: seq<Op>, states: seq<State>)
    requires History(log, states)
    ensures (forall i :: 0 <= i <= |log| ==> Capped(states[i].clients, states[i].tun)) <==>
            (forall i :: 0 <= i < |log| ==> StepKeepsCaps(states[i], log[i]))
  {
    hide Step, WellFormed, Capped, StepKeepsCaps;
    if log == [] {
      NothingCapped(states[0].tun);
    } else {
      var n := |log| - 1;
      var front, last := log[..n], log[n];
      HistoryPrefix(log, states);
      CapsHoldExactly(front, states[..n + 1]);
      NeverOvercounts(front, states[..n + 1]);
      assert WellFormed(last) && Step(states[n], last, states[n + 1]);
      assert forall i :: 0 <= i <= n ==> states[..n + 1][i] == states[i];
      assert forall i :: 0 <= i < n ==> front[i] == log[i];
      if Capped(states[n].clients, states[n].tun) {
        CappedStepExactly(states[n], last, states[n + 1]);
      }
    }
  }

  /** So when every failure is recorded under the settings in force, their caps hold in every state. */
  lemma CapsAlwaysHold(log: seq<Op>, states: seq<State>)
    requires History(log, states) && UsesSettingsInForce(log, states)
    ensures Capped(states[|log|].clients, states[|log|].tun)
  {
    CapsHoldExactly(log, states);
    hide Capped, History, StreakKey;
  }

  lemma FreshSame(before: Streaks, after: Streaks, now: int, window: int)
    requires forall k :: k in after ==> k in before && after[k] == before[k]
    requires forall k :: k in before && now - before[k].lastFailure <= window ==> k in after
    ensures Fresh(after, now, window) == Fresh(before, now, window)
  {
  }

  /** A read or a sweep changes no answer that the table it leaves gives, at any later time and the same or a shorter
      window. */
  lemma CleanupKeepsAnswers(s: State, op: Op, s': State, ip: string, now: int, window: int)
    requires TableOk(s.clients) && s.tun.Positive() && (op.Read? || op.Sweep?) && Step(s, op, s')
    requires NowOf(op, now) <= now && window <= s.tun.window
    ensures Fresh(TargetsOf(s'.clients, ip), now, window) == Fresh(TargetsOf(s.clients, ip), now, window)
  {
    hide StreakKey, OldestStreak, Step, Fresh, TableOk;
    var before, after := TargetsOf(s.clients, ip), TargetsOf(s'.clients, ip);
    QuietSubtable(s, op, s');
    forall k | k in before && now - before[k].lastFailure <= window ensures k in after {
      QuietKeepsLive(s, op, s', NowOf(op, now), ip, k);
    }
    FreshSame(before, after, now, window);
  }
}
