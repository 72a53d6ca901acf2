/** The bounded two-level table of consecutive login failures. */
module BruteForce {
  import opened Common
  import opened Eviction
  import opened Text

  datatype LoginStreak = LoginStreak(route: string, target: string, consecutive: nat, lastFailure: int, lastSeen: int)

  type Streaks = map<string, LoginStreak>
  type Clients = map<string, Streaks>

  const SECOND: int := 1_000_000_000

  datatype Settings = Settings(enabled: bool, maxFailures: int, window: int, maxClients: int, maxTargetsPerClient: int)
  {
    /** Positive settings stand; for the others: five failures in a minute, ten thousand clients, 64 targets each. */
    function Defaulted(): (r: Settings)
      ensures r.Positive() && r.enabled == enabled
      ensures r.maxFailures in {maxFailures, 5} && (maxFailures > 0 ==> r.maxFailures == maxFailures)
      ensures r.window in {window, 60 * SECOND} && (window > 0 ==> r.window == window)
      ensures r.maxClients in {maxClients, 100 * 100} && (maxClients > 0 ==> r.maxClients == maxClients)
      ensures r.maxTargetsPerClient in {maxTargetsPerClient, 64}
              && (maxTargetsPerClient > 0 ==> r.maxTargetsPerClient == maxTargetsPerClient)
    {
      Settings(enabled,
               if maxFailures <= 0 then 5 else maxFailures,
               if window <= 0 then 60_000_000_000 else window,
               if maxClients <= 0 then 10_000 else maxClients,
               if maxTargetsPerClient <= 0 then 64 else maxTargetsPerClient)
    }

    predicate Positive() { maxFailures > 0 && window > 0 && maxClients > 0 && maxTargetsPerClient > 0 }
  }

  function Named(target: string): string { if target == "" then "<unknown>" else target }

  function StreakKey(route: string, target: string): string { route + "\0" + Named(target) }

  /** Routes hold no NUL, so a key says which route and which name it counts. */
  lemma StreakKeyInjective(route: string, target: string, route': string, target': string)
    requires NulFree(route) && NulFree(route')
    requires StreakKey(route, target) == StreakKey(route', target')
    ensures route == route' && Named(target) == Named(target')
  {
    SplitsOnce('\0', route, Named(target), route', Named(target'));
  }

  function LastSeen(s: LoginStreak): int { s.lastSeen }

  ghost predicate IsLeast(t: int, s: set<int>) {
    t in s && forall u :: u in s ==> t <= u
  }

  ghost function AnyOf<T>(s: set<T>): T
    requires s != {}
    ensures AnyOf(s) in s
  {
    var x :| x in s; x
  }

  lemma {:induction false} LeastExists(s: set<int>)
    requires s != {}
    ensures exists t :: IsLeast(t, s)
  {
    var x := AnyOf(s);
    var rest := s - {x};
    assert s == rest + {x};
    if rest == {} {
      assert IsLeast(x, s);
    } else {
      LeastExists(rest);
      var t :| IsLeast(t, rest);
      var least := if t <= x then t else x;
      assert forall u :: u in s ==> u == x || u in rest;
      assert IsLeast(least, s);
    }
  }

  /** The least recent of a client's last failures, one per target; 0 when it has no targets. */
  function OldestStreak(byTarget: Streaks): (oldest: int)
    ensures byTarget == map[] ==> oldest == 0
    ensures byTarget != map[] ==>
              (exists k :: k in byTarget && oldest == byTarget[k].lastSeen) && forall k :: k in byTarget ==>
                oldest <= byTarget[k].lastSeen
  {
    if byTarget == map[] then 0
    else
      var times := set k | k in byTarget :: byTarget[k].lastSeen;
      assert times != {} by {
        var k :| k in byTarget.Keys;
        assert byTarget[k].lastSeen in times;
      }
      LeastExists(times);
      var t :| t in times && forall u :: u in times ==> t <= u;
      assert forall k :: k in byTarget ==> byTarget[k].lastSeen in times;
      t
  }

  // ---------------------------------------------------------------- the table

  ghost predicate StreakOk(key: string, s: LoginStreak) {
    && key == StreakKey(s.route, s.target) && NulFree(s.route)
    && s.consecutive >= 1 && s.lastFailure == s.lastSeen > 0
  }

  ghost predicate StreaksOk(byTarget: Streaks) {
    byTarget != map[] && forall k :: k in byTarget ==> StreakOk(k, byTarget[k])
  }

  /** No client is ever left with an empty or untimed map. */
  ghost predicate TableOk(clients: Clients) {
    "" !in clients && forall ip :: ip in clients ==> StreaksOk(clients[ip])
  }

  lemma StreaksTimed(byTarget: Streaks)
    requires StreaksOk(byTarget)
    ensures AllTimed(byTarget, LastSeen) && OldestStreak(byTarget) > 0
  {
    assert forall k :: k in byTarget ==> StreakOk(k, byTarget[k]) && |k| > 0;
  }

  lemma TableTimed(clients: Clients)
    requires TableOk(clients)
    ensures AllTimed(clients, OldestStreak)
  {
    forall ip | ip in clients ensures OldestStreak(clients[ip]) != 0 {
      StreaksTimed(clients[ip]);
    }
  }

  /** after holds only entries that before holds, unchanged. */
  ghost predicate Subtable(after: Clients, before: Clients) {
    forall ip :: ip in after ==> ip in before && forall k :: k in after[ip] ==>
      k in before[ip] && after[ip][k] == before[ip][k]
  }

  function Fresh(byTarget: Streaks, now: int, window: int): Streaks {
    map k | k in byTarget && now - byTarget[k].lastFailure <= window :: byTarget[k]
  }

  /** A client with no streaks left is forgotten. */
  function Put(clients: Clients, ip: string, byTarget: Streaks): Clients {
    if byTarget == map[] then clients - {ip} else clients[ip := byTarget]
  }

  function Cleared(byTarget: Streaks, route: string, target: string): Streaks {
    if target != "" then byTarget - {StreakKey(route, target)}
    else map k | k in byTarget && byTarget[k].route != route :: byTarget[k]
  }

  function AfterSuccess(clients: Clients, ip: string, route: string, target: string): Clients {
    if ip in clients then Put(clients, ip, Cleared(clients[ip], route, target)) else clients
  }

  function AfterRead(clients: Clients, ip: string, now: int, tun: Settings): Clients {
    if tun.enabled && ip in clients then Put(clients, ip, Fresh(clients[ip], now, tun.window)) else clients
  }

  function AfterSweep(clients: Clients, now: int, window: int): Clients {
    map ip | ip in clients && Fresh(clients[ip], now, window) != map[] :: Fresh(clients[ip], now, window)
  }

  function NextStreak(byTarget: Streaks, route: string, target: string, now: int, window: int): LoginStreak {
    var key := StreakKey(route, target);
    if key in byTarget && now - byTarget[key].lastFailure <= window
    then byTarget[key].(consecutive := byTarget[key].consecutive + 1, lastFailure := now, lastSeen := now)
    else LoginStreak(route, target, 1, now, now)
  }

  /** The table without one client silent longest, when a new client finds it full. */
  ghost predicate RoomForClient(clients: Clients, ip: string, tun: Settings, roomy: Clients) {
    if ip !in clients && |clients| >= tun.maxClients then DroppedOldest(clients, OldestStreak, roomy)
    else roomy == clients
  }

  function TargetsOf(clients: Clients, ip: string): Streaks {
    if ip in clients then clients[ip] else map[]
  }

  /** A client's streaks without the stalest one, when a new target finds them full. */
  ghost predicate RoomForTarget(byTarget: Streaks, key: string, tun: Settings, roomy: Streaks) {
    if key !in byTarget && |byTarget| >= tun.maxTargetsPerClient then DroppedOldest(byTarget, LastSeen, roomy)
    else roomy == byTarget
  }

  ghost predicate AfterFailure(before: Clients, ip: string, route: string, target: string, now: int, tun: Settings,
                               roomy: Clients, targets: Streaks, after: Clients) {
    var key := StreakKey(route, target);
    && RoomForClient(before, ip, tun, roomy)
    && RoomForTarget(TargetsOf(roomy, ip), key, tun, targets)
    && after == roomy[ip := targets[key := NextStreak(targets, route, target, now, tun.window)]]
  }

  // ---------------------------------------------------------------- what a read reports

  datatype Evidence = Evidence(consecutiveFailures: nat, distinctUsers: nat, route: string, target: string, score: int,
                               thresholdCross: bool)

  const NO_EVIDENCE: Evidence := Evidence(0, 0, "", "", 0, false)

  function RatioScore(count: int, threshold: int): int {
    if threshold <= 0 || count <= 0 then 0
    else if count < threshold then count * 30 / threshold
    else if count >= threshold * 5 then 100
    else if count >= threshold * 2 then 80
    else 60
  }

  /** A count below the threshold is worth its share of 30 points; from the threshold on it is worth 60, from twice the
      threshold 80, and from five times the threshold 100. */
  lemma RatioScoreExactly(count: int, threshold: int)
    requires threshold > 0
    ensures var score := RatioScore(count, threshold);
            && (count <= 0 ==> score == 0)
            && (0 < count < threshold ==> score * threshold <= 30 * count < (score + 1) * threshold)
            && (threshold <= count < threshold + threshold ==> score == 60)
            && (threshold + threshold <= count < 5 * threshold ==> score == 80)
            && (5 * threshold <= count ==> score == 100)
  {
  }

  /** The score says the same as the threshold: 60 or more exactly when the count reached it. */
  lemma RatioScoreCrosses(count: int, threshold: int)
    requires threshold > 0
    ensures 0 <= RatioScore(count, threshold) <= 100
    ensures RatioScore(count, threshold) >= 60 <==> count >= threshold
  {
    if 0 < count < threshold {
      var q := count * 30 / threshold;
      assert q * threshold <= count * 30 < 30 * threshold;
      assert q < 30;
    }
  }

  /** The targets whose own streak reached the threshold. */
  function Sprayed(live: Streaks, maxFailures: int): set<string> {
    set k | k in live && live[k].target != "" && live[k].consecutive >= maxFailures
  }

  /** ev describes a strongest live streak. */
  ghost predicate Reports(live: Streaks, tun: Settings, ev: Evidence) {
    if live == map[] then ev == NO_EVIDENCE
    else
      && (exists k ::
            && k in live && ev.consecutiveFailures == live[k].consecutive
            && ev.route == live[k].route && ev.target == live[k].target)
      && (forall k :: k in live ==> live[k].consecutive <= ev.consecutiveFailures)
      && ev.distinctUsers == |Sprayed(live, tun.maxFailures)|
      && ev.score == RatioScore(ev.consecutiveFailures, tun.maxFailures)
      && ev.thresholdCross == (ev.consecutiveFailures >= tun.maxFailures)
  }

  // ---------------------------------------------------------------- the detector

  /** The newest clients, each with its newest targets, as many as the settings allow. */
  ghost predicate Trimmed(before: Clients, tun: Settings, kept: Clients, after: Clients)
    requires tun.Positive()
  {
    && KeepsNewest(before, OldestStreak, tun.maxClients, kept)
    && after.Keys == kept.Keys
    && forall ip :: ip in after ==> KeepsNewest(kept[ip], LastSeen, tun.maxTargetsPerClient, after[ip])
  }

  lemma SubstreaksOk(sub: Streaks, byTarget: Streaks)
    requires StreaksOk(byTarget) && forall k :: k in sub ==> k in byTarget && sub[k] == byTarget[k]
    ensures sub != map[] ==> StreaksOk(sub)
  {
  }

  lemma RowOk(clients: Clients, ip: string)
    requires TableOk(clients) && ip in clients
    ensures ip != "" && StreaksOk(clients[ip])
  {
  }

  lemma StoreOk(clients: Clients, ip: string, byTarget: Streaks)
    requires TableOk(clients) && ip != "" && (byTarget != map[] ==> StreaksOk(byTarget))
    ensures TableOk(Put(clients, ip, byTarget))
    ensures byTarget != map[] ==> TableOk(clients[ip := byTarget])
  {
    hide StreaksOk;
  }

  lemma SubtableOk(after: Clients, before: Clients)
    requires TableOk(before) && forall ip :: ip in after ==> ip in before && after[ip] == before[ip]
    ensures TableOk(after)
  {
    hide StreaksOk;
  }

  lemma NextStreakOk(byTarget: Streaks, route: string, target: string, now: int, window: int)
    requires byTarget != map[] ==> StreaksOk(byTarget)
    requires NulFree(route) && now > 0
    ensures StreaksOk(byTarget[StreakKey(route, target) := NextStreak(byTarget, route, target, now, window)])
  {
    hide StreakKey, NulFree;
  }

  class BruteForceDetector {
    var tun: Settings
    var clients: Clients

    ghost predicate Valid()
      reads this
    {
      tun.Positive() && TableOk(clients)
    }

    constructor (cfg: Settings)
      ensures Valid() && tun == cfg.Defaulted() && clients == map[]
    {
      tun := cfg.Defaulted();
      clients := map[];
    }

    /** Swaps the settings and evicts what no longer fits. Both loops end because every map is non-empty and timed. */
    method Apply(cfg: Settings) returns (kept: Clients)
      requires Valid()
      modifies this
      ensures Valid() && tun == cfg.Defaulted()
      ensures Trimmed(old(clients), tun, kept, clients)
    {
      tun := cfg.Defaulted();
      kept := TrimClients(clients, tun);
      clients := TrimTargets(kept, tun);
    }

    method RecordFailure(ip: string, route: string, target: string, now: int, tun: Settings)
      returns (ghost roomy: Clients, ghost targets: Streaks)
      requires Valid() && ip != "" && NulFree(route) && now > 0 && tun.Positive()
      modifies this`clients
      ensures Valid()
      ensures AfterFailure(old(clients), ip, route, target, now, tun, roomy, targets, clients)
    {
      hide StreaksOk, StreakKey, NulFree, TableOk, RoomForClient, RoomForTarget;
      var key := StreakKey(route, target);
      clients := MakeRoomForClient(clients, ip, tun);
      roomy := clients;
      if ip in clients {
        RowOk(clients, ip);
      }
      var byTarget := MakeRoomForTarget(TargetsOf(clients, ip), key, tun);
      targets := byTarget;
      NextStreakOk(targets, route, target, now, tun.window);
      var streak := LoginStreak(route, target, 0, 0, 0);
      if key in byTarget && now - byTarget[key].lastFailure <= tun.window {
        streak := byTarget[key];
      }
      streak := streak.(consecutive := streak.consecutive + 1);
      streak := streak.(lastFailure := now, lastSeen := now);
      byTarget := byTarget[key := streak];
      StoreOk(clients, ip, byTarget);
      clients := clients[ip := byTarget];
    }

    method RecordSuccess(ip: string, route: string, target: string)
      requires Valid()
      modifies this`clients
      ensures Valid()
      ensures clients == AfterSuccess(old(clients), ip, route, target)
    {
      hide StreaksOk, StreakKey, TableOk, Fresh;
      if ip !in clients {
        return;
      }
      RowOk(clients, ip);
      var byTarget := clients[ip];
      if target != "" {
        byTarget := byTarget - {StreakKey(route, target)};
      } else {
        byTarget := ClearRoute(byTarget, route);
      }
      SubstreaksOk(byTarget, clients[ip]);
      StoreOk(clients, ip, byTarget);
      clients := if |byTarget| == 0 then clients - {ip} else clients[ip := byTarget];
    }

    method Metrics(ip: string, now: int) returns (ev: Evidence)
      requires Valid()
      modifies this`clients
      ensures Valid()
      ensures clients == AfterRead(old(clients), ip, now, tun)
      ensures !tun.enabled ==> ev == NO_EVIDENCE
      ensures tun.enabled ==> Reports(Fresh(TargetsOf(old(clients), ip), now, tun.window), tun, ev)
    {
      hide StreaksOk, Reports;
      ev := NO_EVIDENCE;
      if !tun.enabled {
        return;
      }
      var live := map[];
      live, ev := Scan(if ip in clients then clients[ip] else map[], now, tun);
      if ip in clients {
        SubstreaksOk(live, clients[ip]);
        StoreOk(clients, ip, live);
        clients := if |live| == 0 then clients - {ip} else clients[ip := live];
      }
    }

    /** One tick of the cleanup timer. */
    method Sweep(now: int)
      requires Valid()
      modifies this`clients
      ensures Valid()
      ensures clients == AfterSweep(old(clients), now, tun.window)
    {
      hide StreaksOk, Fresh;
      var swept := clients;
      var todo := clients.Keys;
      while todo != {}
        invariant todo <= clients.Keys && TableOk(clients) && clients == old(clients)
        invariant TableOk(swept)
        invariant forall ip :: ip in swept <==>
                  ip in clients && (ip in todo || Fresh(clients[ip], now, tun.window) != map[])
        invariant forall ip :: ip in swept ==> swept[ip] == if ip in todo then clients[ip]
                  else Fresh(clients[ip], now, tun.window)
        decreases todo
      {
        var ip :| ip in todo;
        var byTarget := SweepClient(swept[ip], now, tun.window);
        FreshOk(swept[ip], now, tun.window);
        StoreOk(swept, ip, byTarget);
        swept := if |byTarget| == 0 then swept - {ip} else swept[ip := byTarget];
        todo := todo - {ip};
      }
      clients := swept;
    }
  }

  lemma KeptRows<V>(m: map<string, V>, seen: V -> int, limit: nat, r: map<string, V>)
    requires KeepsNewest(m, seen, limit, r)
    ensures forall k :: k in r ==> k in m && r[k] == m[k]
    ensures limit > 0 && m != map[] ==> r != map[]
  {
    if m != map[] {
      assert |m| > 0;
    }
  }

  lemma DroppedRows<V>(m: map<string, V>, seen: V -> int, r: map<string, V>)
    requires DroppedOldest(m, seen, r)
    ensures forall k :: k in r ==> k in m && r[k] == m[k]
  {
  }

  lemma FreshOk(byTarget: Streaks, now: int, window: int)
    requires StreaksOk(byTarget)
    ensures Fresh(byTarget, now, window) != map[] ==> StreaksOk(Fresh(byTarget, now, window))
  {
  }

  /** Keeps the table of clients within its limit before a new client enters it. */
  method MakeRoomForClient(clients: Clients, ip: string, tun: Settings) returns (roomy: Clients)
    requires TableOk(clients)
    ensures RoomForClient(clients, ip, tun, roomy) && TableOk(roomy)
  {
    hide StreaksOk, DroppedOldest, OldestStreak;
    roomy := clients;
    if ip !in clients && |clients| >= tun.maxClients {
      roomy := DropOldest(clients, OldestStreak);
      DroppedRows(clients, OldestStreak, roomy);
      SubtableOk(roomy, clients);
    }
  }

  /** Keeps a client's table of targets within its limit before a new target enters it. */
  method MakeRoomForTarget(byTarget: Streaks, key: string, tun: Settings) returns (roomy: Streaks)
    requires byTarget != map[] ==> StreaksOk(byTarget)
    ensures RoomForTarget(byTarget, key, tun, roomy) && (roomy != map[] ==> StreaksOk(roomy))
  {
    hide StreaksOk, DroppedOldest;
    roomy := byTarget;
    if key !in byTarget && |byTarget| >= tun.maxTargetsPerClient {
      if byTarget != map[] {
        StreaksTimed(byTarget);
      }
      roomy := DropOldest(byTarget, LastSeen);
      DroppedRows(byTarget, LastSeen, roomy);
      if byTarget != map[] {
        SubstreaksOk(roomy, byTarget);
      }
    }
  }

  method TrimClients(clients: Clients, tun: Settings) returns (trimmed: Clients)
    requires TableOk(clients) && tun.Positive()
    ensures KeepsNewest(clients, OldestStreak, tun.maxClients, trimmed) && TableOk(trimmed)
  {
    hide StreaksOk, KeepsNewest, OldestStreak;
    TableTimed(clients);
    trimmed := Trim(clients, OldestStreak, tun.maxClients);
    KeptRows(clients, OldestStreak, tun.maxClients, trimmed);
    SubtableOk(trimmed, clients);
  }

  method TrimTargets(kept: Clients, tun: Settings) returns (trimmed: Clients)
    requires TableOk(kept) && tun.Positive()
    ensures TableOk(trimmed) && trimmed.Keys == kept.Keys
    ensures forall ip :: ip in trimmed ==> KeepsNewest(kept[ip], LastSeen, tun.maxTargetsPerClient, trimmed[ip])
  {
    hide StreaksOk, KeepsNewest, TableOk, OldestStreak;
    trimmed := kept;
    var todo := trimmed.Keys;
    while todo != {}
      invariant todo <= trimmed.Keys == kept.Keys && TableOk(trimmed)
      invariant forall ip :: ip in trimmed && ip in todo ==> trimmed[ip] == kept[ip]
      invariant forall ip :: ip in trimmed && ip !in todo ==>
                  KeepsNewest(kept[ip], LastSeen, tun.maxTargetsPerClient, trimmed[ip])
      decreases todo
    {
      var ip :| ip in todo;
      RowOk(trimmed, ip);
      StreaksTimed(trimmed[ip]);
      var byTarget := Trim(trimmed[ip], LastSeen, tun.maxTargetsPerClient);
      KeptRows(trimmed[ip], LastSeen, tun.maxTargetsPerClient, byTarget);
      SubstreaksOk(byTarget, trimmed[ip]);
      StoreOk(trimmed, ip, byTarget);
      trimmed := trimmed[ip := byTarget];
      todo := todo - {ip};
    }
  }

  /** What a login that names nobody clears: every streak of its route, and no other. */
  method ClearRoute(byTarget: Streaks, route: string) returns (r: Streaks)
    ensures r == Cleared(byTarget, route, "")
  {
    r := byTarget;
    var todo := byTarget.Keys;
    while todo != {}
      invariant todo <= byTarget.Keys
      invariant r == map k | k in byTarget && (k in todo || byTarget[k].route != route) :: byTarget[k]
      decreases todo
    {
      var key :| key in todo;
      if r[key].route == route {
        r := r - {key};
      }
      todo := todo - {key};
    }
  }

  method SweepClient(byTarget: Streaks, now: int, window: int) returns (r: Streaks)
    requires StreaksOk(byTarget)
    ensures r == Fresh(byTarget, now, window)
  {
    assert forall k :: k in byTarget ==> byTarget[k].lastSeen == byTarget[k].lastFailure by {
      assert forall k :: k in byTarget ==> StreakOk(k, byTarget[k]);
    }
    hide StreaksOk;
    r := byTarget;
    var todo := byTarget.Keys;
    while todo != {}
      invariant todo <= byTarget.Keys
      invariant r == map k | k in byTarget && (k in todo || now - byTarget[k].lastSeen <= window) :: byTarget[k]
      decreases todo
    {
      var key :| key in todo;
      if now - r[key].lastSeen > window {
        r := r - {key};
      }
      todo := todo - {key};
    }
  }

  lemma NoneSprayed(maxFailures: int)
    ensures |Sprayed(map[], maxFailures)| == 0
  {
    assert Sprayed(map[], maxFailures) == {};
  }

  lemma SprayedStep(live: Streaks, key: string, s: LoginStreak, maxFailures: int)
    requires key !in live
    ensures |Sprayed(live[key := s], maxFailures)| ==
            |Sprayed(live, maxFailures)| + (if s.target != "" && s.consecutive >= maxFailures then 1 else 0)
  {
    var before, after := Sprayed(live, maxFailures), Sprayed(live[key := s], maxFailures);
    assert after == before + (if s.target != "" && s.consecutive >= maxFailures then {key} else {});
  }

  /** The walk over one client's streaks: stale ones are dropped, the strongest of the rest is reported. */
  method Scan(all: Streaks, now: int, tun: Settings) returns (live: Streaks, ev: Evidence)
    requires tun.Positive()
    ensures live == Fresh(all, now, tun.window)
    ensures Reports(live, tun, ev)
  {
    NoneSprayed(tun.maxFailures);
    hide Sprayed, RatioScore;
    live := map[];
    ev := NO_EVIDENCE;
    var todo := all.Keys;
    var distinctUsers := 0;
    var strongest: Option<LoginStreak> := None;
    ghost var best := "";
    while todo != {}
      invariant todo <= all.Keys
      invariant live == map k | k in all && k !in todo && now - all[k].lastFailure <= tun.window :: all[k]
      invariant strongest.None? <==> live == map[]
      invariant strongest.Some? ==>
        && best in live && live[best] == strongest.value
        && forall k :: k in live ==> live[k].consecutive <= strongest.value.consecutive
      invariant distinctUsers == |Sprayed(live, tun.maxFailures)|
      decreases todo
    {
      var key :| key in todo;
      todo := todo - {key};
      var streak := all[key];
      if now - streak.lastFailure <= tun.window {
        ghost var before := live;
        live := live[key := streak];
        // A name counts as one of the distinct users once its own streak has crossed.
        SprayedStep(before, key, streak, tun.maxFailures);
        if streak.target != "" && streak.consecutive >= tun.maxFailures {
          distinctUsers := distinctUsers + 1;
        }
        if strongest.None? || streak.consecutive > strongest.value.consecutive {
          strongest := Some(streak);
          best := key;
        }
      }
    }
    if strongest.Some? {
      var s := strongest.value;
      ev := Evidence(s.consecutive, distinctUsers, s.route, s.target, RatioScore(s.consecutive, tun.maxFailures),
                     s.consecutive >= tun.maxFailures);
    }
  }
}
