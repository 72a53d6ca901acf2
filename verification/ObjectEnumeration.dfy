/** One client's walks through the objects of an endpoint. */
module ObjectEnumeration {
  import opened Common
  import opened Eviction
  import opened ConsecutiveRun
  import BruteForce

  /** Times are nanoseconds; 0 is the zero time. */
  datatype Lookup = Lookup(at: int, denied: bool)

  type Trail = map<string, Lookup>

  datatype Client = Client(trails: map<string, Trail>, lastSeen: int)

  type Clients = map<string, Client>

  datatype Tunables = Tunables(enabled: bool, distinctIds: int, window: int, maxClients: int, maxIdsPerClient: int) {
    /** Positive settings stand; for the others: 20 identifiers in five minutes, ten thousand clients, 256 identifiers
        each. */
    function Defaulted(): (r: Tunables)
      ensures r.Positive() && r.enabled == enabled
      ensures r.distinctIds in {distinctIds, 20} && (distinctIds > 0 ==> r.distinctIds == distinctIds)
      ensures r.window in {window, 300 * BruteForce.SECOND} && (window > 0 ==> r.window == window)
      ensures r.maxClients in {maxClients, 100 * 100} && (maxClients > 0 ==> r.maxClients == maxClients)
      ensures r.maxIdsPerClient in {maxIdsPerClient, 256}
              && (maxIdsPerClient > 0 ==> r.maxIdsPerClient == maxIdsPerClient)
    {
      Tunables(enabled,
               if distinctIds <= 0 then 20 else distinctIds,
               if window <= 0 then 300_000_000_000 else window,
               if maxClients <= 0 then 10_000 else maxClients,
               if maxIdsPerClient <= 0 then 256 else maxIdsPerClient)
    }

    predicate Positive() { distinctIds > 0 && window > 0 && maxClients > 0 && maxIdsPerClient > 0 }
  }

  datatype Evidence = Evidence(template: string, distinctIds: int, deniedResponses: int, sequentialRun: int,
                               score: int, thresholdCross: bool)

  const NO_EVIDENCE: Evidence := Evidence("", 0, 0, 0, 0, false)

  function Pruned(trail: Trail, cutoff: int): Trail {
    map id | id in trail && trail[id].at > cutoff :: trail[id]
  }

  function LastSeen(c: Client): int { c.lastSeen }

  /** Room is made for a client that is not there yet, if the table is full. */
  ghost predicate RoomFor(clients: Clients, ip: string, tun: Tunables, roomy: Clients) {
    if ip !in clients && |clients| >= tun.maxClients then DroppedOldest(clients, LastSeen, roomy) else roomy == clients
  }

  function ClientOf(clients: Clients, ip: string): Client { if ip in clients then clients[ip] else Client(map[], 0) }

  function TrailOf(c: Client, key: string): Trail { if key in c.trails then c.trails[key] else map[] }

  /** A repeat refreshes an identifier's place; a new one is taken only while there is room. */
  function Walked(trail: Trail, id: string, denied: bool, now: int, tun: Tunables): Trail {
    var kept := Pruned(trail, now - tun.window);
    if id in kept || |kept| < tun.maxIdsPerClient then kept[id := Lookup(now, denied)] else kept
  }

  function Noted(roomy: Clients, ip: string, key: string, id: string, denied: bool, now: int, tun: Tunables): Clients {
    var c := ClientOf(roomy, ip);
    roomy[ip := Client(c.trails[key := Walked(TrailOf(c, key), id, denied, now, tun)], now)]
  }

  function PrunedTrails(trails: map<string, Trail>, cutoff: int): map<string, Trail> {
    map key | key in trails :: Pruned(trails[key], cutoff)
  }

  function AfterRead(clients: Clients, ip: string, now: int, tun: Tunables): Clients {
    if !tun.enabled || ip !in clients then clients
    else clients[ip := Client(PrunedTrails(clients[ip].trails, now - tun.window), now)]
  }

  function NonEmptyTrails(trails: map<string, Trail>): map<string, Trail> {
    map key | key in trails && |trails[key]| > 0 :: trails[key]
  }

  function SweptTrails(c: Client, now: int, window: int): map<string, Trail> {
    NonEmptyTrails(PrunedTrails(c.trails, now - window))
  }

  predicate Stays(c: Client, now: int, window: int) {
    |SweptTrails(c, now, window)| > 0 && now - c.lastSeen <= window
  }

  function AfterSweep(clients: Clients, now: int, window: int): Clients {
    map ip | ip in clients
      && Stays(clients[ip], now, window) :: clients[ip].(trails := SweptTrails(clients[ip], now, window))
  }

  function Denied(trail: Trail): set<string> { set id | id in trail && trail[id].denied }

  /** ev describes a trail that no other beats: most identifiers first, then most refusals. */
  ghost predicate Describes(trails: map<string, Trail>, tun: Tunables, ev: Evidence) {
    if forall key :: key in trails ==> |trails[key]| == 0 then ev == NO_EVIDENCE
    else
      && ev.template in trails
      && (var best := trails[ev.template];
          && ev.distinctIds == |best| > 0 && ev.deniedResponses == |set id | id in best && best[id].denied|
          && (forall key :: key in trails ==>
                || |trails[key]| < |best|
                || (|trails[key]| == |best|
                    && |set id | id in trails[key] && trails[key][id].denied| <= ev.deniedResponses))
          && (exists ids: seq<string> :: ListsIds(ids, best) && LongestRun(Numbers(ids), ev.sequentialRun))
          && ev.thresholdCross == (ev.distinctIds >= tun.distinctIds)
          && ev.score == ScoreOf(ev, tun.distinctIds))
  }

  ghost predicate ListsIds(ids: seq<string>, trail: Trail) {
    |ids| == |trail| && forall id :: id in ids <==> id in trail
  }

  function Bonus(holds: bool, bonus: int): int { if holds then bonus else 0 }

  function ScoreOf(ev: Evidence, threshold: int): int {
    var score := BruteForce.RatioScore(ev.distinctIds, threshold);
    if ev.distinctIds < threshold then score
    else Max(0, Min(100,
                    score + Bonus(2 * ev.deniedResponses >= ev.distinctIds, 20) + Bonus(ev.sequentialRun >= 5, 10)))
  }

  class ObjectEnumerationDetector {
    var tun: Tunables
    var clients: Clients

    ghost predicate Valid()
      reads this
    {
      "" !in clients && tun.Positive()
    }

    constructor (cfg: Tunables)
      ensures Valid() && clients == map[] && tun == cfg.Defaulted()
    {
      clients, tun := map[], cfg.Defaulted();
    }

    method Apply(cfg: Tunables)
      requires Valid()
      modifies this`tun
      ensures Valid() && tun == cfg.Defaulted()
    {
      tun := cfg.Defaulted();
    }

    method Observe(ip: string, key: string, id: string, denied: bool, now: int, tun: Tunables)
      returns (ghost roomy: Clients)
      requires Valid() && ip != ""
      modifies this`clients
      ensures Valid()
      ensures RoomFor(old(clients), ip, tun, roomy)
      ensures clients == Noted(roomy, ip, key, id, denied, now, tun)
    {
      hide Pruned, DroppedOldest;
      clients := MakeRoom(clients, ip, tun);
      roomy := clients;
      var client := ClientOf(clients, ip);
      var trail := Prune(TrailOf(client, key), now - tun.window);
      if id in trail || |trail| < tun.maxIdsPerClient {
        trail := trail[id := Lookup(now, denied)];
      }
      clients := clients[ip := Client(client.trails[key := trail], now)];
    }

    method Metrics(ip: string, now: int) returns (ev: Evidence)
      requires Valid()
      modifies this`clients
      ensures Valid()
      ensures clients == AfterRead(old(clients), ip, now, tun)
      ensures Describes(if tun.enabled then ClientOf(clients, ip).trails else map[], tun, ev)
    {
      hide Describes, PrunedTrails, Pruned;
      NothingToDescribe(tun);
      ev := NO_EVIDENCE;
      if !tun.enabled || ip !in clients {
        return;
      }
      var trails := PruneAll(clients[ip].trails, now - tun.window);
      clients := clients[ip := Client(trails, now)];
      ev := BestTrail(trails, tun);
    }

    method Sweep(now: int)
      requires Valid()
      modifies this`clients
      ensures Valid()
      ensures clients == AfterSweep(old(clients), now, tun.window)
    {
      hide Stays, SweptTrails;
      var todo := clients.Keys;
      ghost var start := clients;
      while todo != {}
        invariant todo <= clients.Keys <= start.Keys
        invariant forall ip :: ip in todo ==> clients[ip] == start[ip]
        invariant forall ip :: ip in start && ip !in todo ==> (ip in clients <==> Stays(start[ip], now, tun.window))
        invariant forall ip :: ip in clients && ip !in todo ==>
                    clients[ip] == start[ip].(trails := SweptTrails(start[ip], now, tun.window))
        decreases todo
      {
        var ip :| ip in todo;
        todo := todo - {ip};
        var client := clients[ip];
        var trails, keep := SweepClient(client, now, tun.window);
        clients := if keep then clients[ip := client.(trails := trails)] else clients - {ip};
      }
    }
  }

  method MakeRoom(clients: Clients, ip: string, tun: Tunables) returns (roomy: Clients)
    requires "" !in clients
    ensures RoomFor(clients, ip, tun, roomy) && "" !in roomy
  {
    roomy := clients;
    if ip !in clients && |clients| >= tun.maxClients {
      roomy := DropOldest(clients, LastSeen);
    }
  }

  lemma NothingToDescribe(tun: Tunables)
    ensures Describes(map[], tun, NO_EVIDENCE)
  {
  }

  method Prune(trail: Trail, cutoff: int) returns (kept: Trail)
    ensures kept == Pruned(trail, cutoff)
  {
    kept := trail;
    var todo := trail.Keys;
    while todo != {}
      invariant todo <= kept.Keys <= trail.Keys
      invariant forall id :: id in kept ==> kept[id] == trail[id]
      invariant forall id :: id in trail && id !in todo ==> (id in kept <==> trail[id].at > cutoff)
      decreases todo
    {
      var id :| id in todo;
      todo := todo - {id};
      if !(kept[id].at > cutoff) {
        kept := kept - {id};
      }
    }
  }

  method PruneAll(trails: map<string, Trail>, cutoff: int) returns (pruned: map<string, Trail>)
    ensures pruned == PrunedTrails(trails, cutoff)
  {
    hide Pruned;
    pruned := trails;
    var todo := trails.Keys;
    while todo != {}
      invariant todo <= trails.Keys == pruned.Keys
      invariant forall key :: key in trails ==>
                  pruned[key] == (if key in todo then trails[key] else Pruned(trails[key], cutoff))
      decreases todo
    {
      var key :| key in todo;
      todo := todo - {key};
      var kept := Prune(pruned[key], cutoff);
      pruned := pruned[key := kept];
    }
  }

  method SweepClient(client: Client, now: int, window: int) returns (trails: map<string, Trail>, keep: bool)
    ensures trails == SweptTrails(client, now, window)
    ensures keep == Stays(client, now, window)
  {
    hide Pruned, PrunedTrails;
    var pruned := PruneAll(client.trails, now - window);
    trails := DropEmpty(pruned);
    keep := !(|trails| == 0 || now - client.lastSeen > window);
  }

  method DropEmpty(trails: map<string, Trail>) returns (kept: map<string, Trail>)
    ensures kept == NonEmptyTrails(trails)
  {
    kept := trails;
    var todo := trails.Keys;
    while todo != {}
      invariant todo <= kept.Keys <= trails.Keys
      invariant forall key :: key in kept ==> kept[key] == trails[key]
      invariant forall key :: key in trails && key !in todo ==> (key in kept <==> |trails[key]| > 0)
      decreases todo
    {
      var key :| key in todo;
      todo := todo - {key};
      if |kept[key]| == 0 {
        kept := kept - {key};
      }
    }
  }

  method CountDenied(trail: Trail) returns (denied: nat)
    ensures denied == |Denied(trail)|
  {
    denied := 0;
    var todo, done: set<string> := trail.Keys, {};
    while todo != {}
      invariant todo + done == trail.Keys && todo !! done
      invariant denied == |DeniedAmong(trail, done)|
      decreases todo
    {
      var id :| id in todo;
      DeniedOneMore(trail, done, id);
      if trail[id].denied {
        denied := denied + 1;
      }
      todo, done := todo - {id}, done + {id};
    }
    assert done == trail.Keys;
    assert DeniedAmong(trail, done) == Denied(trail);
  }

  function DeniedAmong(trail: Trail, ids: set<string>): set<string>
    requires ids <= trail.Keys
  {
    set id | id in ids && trail[id].denied
  }

  lemma DeniedOneMore(trail: Trail, ids: set<string>, id: string)
    requires ids <= trail.Keys && id in trail && id !in ids
    ensures |DeniedAmong(trail, ids + {id})| == |DeniedAmong(trail, ids)| + (if trail[id].denied then 1 else 0)
  {
    assert DeniedAmong(trail, ids + {id}) == DeniedAmong(trail, ids) + (if trail[id].denied then {id} else {});
  }

  predicate Beats(a: nat, aDenied: nat, b: nat, bDenied: nat) { a > b || (a == b && aDenied > bDenied) }

  /** Among the trails looked at, best is not beaten; an empty best is none of them. */
  ghost predicate Leads(trails: map<string, Trail>, seen: set<string>, bestKey: string, best: Trail, bestDenied: nat) {
    && (|best| > 0 ==> bestKey in trails && trails[bestKey] == best)
    && bestDenied == |Denied(best)|
    && (forall key :: key in trails && key in seen ==> !Beats(|trails[key]|, |Denied(trails[key])|, |best|, bestDenied))
  }

  lemma NoLeader(trails: map<string, Trail>, bestKey: string, best: Trail)
    requires |best| == 0 && |Denied(best)| == 0
    ensures Leads(trails, {}, bestKey, best, 0)
  {
  }

  lemma LeaderStep(trails: map<string, Trail>, seen: set<string>, bestKey: string, best: Trail, bestDenied: nat,
                   key: string)
    requires Leads(trails, seen, bestKey, best, bestDenied) && key in trails
    ensures var denied := |Denied(trails[key])|;
            if Beats(|trails[key]|, denied, |best|, bestDenied)
              then Leads(trails, seen + {key}, key, trails[key], denied)
            else Leads(trails, seen + {key}, bestKey, best, bestDenied)
  {
    NoneDenied(trails[key]);
    hide Denied;
  }

  method FindBest(trails: map<string, Trail>) returns (bestKey: string, best: Trail, bestDenied: nat)
    ensures Leads(trails, trails.Keys, bestKey, best, bestDenied)
  {
    hide Denied, Leads;
    bestKey, best, bestDenied := "", map[], 0;
    NoneDenied(best);
    NoLeader(trails, bestKey, best);
    var todo, seen: set<string> := trails.Keys, {};
    while todo != {}
      invariant todo + seen == trails.Keys
      invariant Leads(trails, seen, bestKey, best, bestDenied)
      decreases todo
    {
      var key :| key in todo;
      var denied := CountDenied(trails[key]);
      LeaderStep(trails, seen, bestKey, best, bestDenied, key);
      if |trails[key]| > |best| || (|trails[key]| == |best| && denied > bestDenied) {
        bestKey, best, bestDenied := key, trails[key], denied;
      }
      todo, seen := todo - {key}, seen + {key};
    }
    assert seen == trails.Keys;
  }

  method BestTrail(trails: map<string, Trail>, tun: Tunables) returns (ev: Evidence)
    requires tun.Positive()
    ensures Describes(trails, tun, ev)
  {
    hide LongestRun, BruteForce.RatioScore;
    var bestKey, best, bestDenied := FindBest(trails);
    assert forall key :: key in trails ==>
      Denied(trails[key]) == set id | id in trails[key] && trails[key][id].denied;
    if |best| == 0 {
      return NO_EVIDENCE;
    }
    var ids := KeysOf(best);
    var run := LongestConsecutiveRun(ids);
    var score := BruteForce.RatioScore(|best|, tun.distinctIds);
    if |best| >= tun.distinctIds {
      if 2 * bestDenied >= |best| {
        score := score + 20;
      }
      if run >= 5 {
        score := score + 10;
      }
      score := Max(0, Min(100, score));
    }
    ev := Evidence(bestKey, |best|, bestDenied, run, score, |best| >= tun.distinctIds);
  }

  lemma NoneDenied(trail: Trail)
    ensures |trail| == 0 ==> |Denied(trail)| == 0
  {
    if |trail| == 0 {
      assert trail.Keys == {};
      assert Denied(trail) == {};
    }
  }

  method KeysOf(trail: Trail) returns (ids: seq<string>)
    ensures ListsIds(ids, trail)
  {
    ids := [];
    var todo := trail.Keys;
    while todo != {}
      invariant todo <= trail.Keys
      invariant |ids| + |todo| == |trail.Keys|
      invariant forall id :: id in ids <==> id in trail && id !in todo
      decreases todo
    {
      var id :| id in todo;
      ids, todo := ids + [id], todo - {id};
    }
  }
}
