/** What the table of object walks admits, forgets and scores, in raw counts and times. */
module ObjectExact {
  import opened Common
  import opened Sums
  import opened Eviction
  import opened ObjectEnumeration
  import opened ObjectLog
  import BruteForce

  // ---- Room --------------------------------------------------------------

  /** The identifiers of a trail that were asked for within the window. */
  function Recent(trail: Trail, now: int, window: int): set<string> {
    set id | id in trail && trail[id].at > now - window
  }

  /** After a request a trail holds what was asked for within the window, as it was, and the identifier asked for; a new
      one is turned away exactly when as many others as the settings allow were asked for within the window. */
  lemma WalkedExactly(trail: Trail, id: string, denied: bool, now: int, tun: Tunables)
    ensures var recent, after := Recent(trail, now, tun.window), Walked(trail, id, denied, now, tun);
            var turnedAway := id !in recent && |recent| >= tun.maxIdsPerClient;
            && after.Keys == (if turnedAway then recent else recent + {id})
            && (forall other :: other in recent && other != id ==> after[other] == trail[other])
            && (!turnedAway ==> after[id] == Lookup(now, denied))
  {
    PrunedKeys(trail, now, tun.window);
  }

  lemma PrunedKeys(trail: Trail, now: int, window: int)
    ensures Pruned(trail, now - window).Keys == Recent(trail, now, window)
    ensures |Pruned(trail, now - window)| == |Recent(trail, now, window)|
  {
    var kept := Pruned(trail, now - window);
    assert kept.Keys == Recent(trail, now, window);
    assert |kept| == |kept.Keys|;
  }

  /** A client has a time, and no more identifiers on a trail than the given number. */
  ghost predicate ShortTrails(c: Client, ids: int) {
    c.lastSeen != 0 && forall key :: key in c.trails ==> |c.trails[key]| <= ids
  }

  /** No more clients, and no more identifiers on a trail, than the given numbers. */
  ghost predicate Capped(s: Clients, clients: int, ids: int) {
    |s| <= clients && "" !in s && forall ip :: ip in s ==> ShortTrails(s[ip], ids)
  }

  /** The call is made for a client, at some time, with settings that allow no more. */
  predicate Obeys(op: Op, clients: int, ids: int) {
    && op.now != 0 && 0 < op.tun.maxClients <= clients && 0 < op.tun.maxIdsPerClient <= ids
    && (op.Sweep? || op.ip != "")
  }

  lemma WalkedCapped(trail: Trail, id: string, denied: bool, now: int, tun: Tunables, ids: int)
    requires |trail| <= ids && tun.maxIdsPerClient <= ids
    ensures |Walked(trail, id, denied, now, tun)| <= ids
  {
    var kept := Pruned(trail, now - tun.window);
    SubmapSize(kept, trail);
    MapSizes(kept, id, Lookup(now, denied));
  }

  lemma RoomCapped(s: Clients, op: Op, roomy: Clients, clients: int, ids: int)
    requires Capped(s, clients, ids) && Obeys(op, clients, ids) && op.Observe? && RoomFor(s, op.ip, op.tun, roomy)
    ensures Capped(roomy, clients, ids) && (op.ip in roomy || |roomy| < clients)
  {
    if op.ip !in s && |s| >= op.tun.maxClients {
      assert AllTimed(s, LastSeen);
      DropShrinks(s, LastSeen, roomy);
      var k :| IsOldest(s, LastSeen, k) && roomy == s - {k};
    }
  }

  lemma NotedCapped(roomy: Clients, op: Op, clients: int, ids: int)
    requires Capped(roomy, clients, ids) && Obeys(op, clients, ids) && op.Observe?
    requires op.ip in roomy || |roomy| < clients
    ensures Capped(Noted(roomy, op.ip, op.key, op.id, op.denied, op.now, op.tun), clients, ids)
  {
    var c := ClientOf(roomy, op.ip);
    WalkedCapped(TrailOf(c, op.key), op.id, op.denied, op.now, op.tun, ids);
    hide Walked;
    var after := Noted(roomy, op.ip, op.key, op.id, op.denied, op.now, op.tun);
    MapSizes(roomy, op.ip, after[op.ip]);
  }

  lemma PrunedCapped(trails: map<string, Trail>, cutoff: int, at: int, lastSeen: int, ids: int)
    requires ShortTrails(Client(trails, lastSeen), ids) && at != 0
    ensures ShortTrails(Client(PrunedTrails(trails, cutoff), at), ids)
    ensures ShortTrails(Client(NonEmptyTrails(PrunedTrails(trails, cutoff)), at), ids)
  {
    forall key | key in trails ensures |Pruned(trails[key], cutoff)| <= ids {
      SubmapSize(Pruned(trails[key], cutoff), trails[key]);
    }
    hide Pruned;
  }

  lemma ReadCapped(s: Clients, op: Op, clients: int, ids: int)
    requires Capped(s, clients, ids) && Obeys(op, clients, ids) && op.Read?
    ensures Capped(AfterRead(s, op.ip, op.now, op.tun), clients, ids)
  {
    hide PrunedTrails, ShortTrails;
    if op.ip in s {
      var trails, cutoff := s[op.ip].trails, op.now - op.tun.window;
      PrunedCapped(trails, cutoff, op.now, s[op.ip].lastSeen, ids);
      MapSizes(s, op.ip, Client(PrunedTrails(trails, cutoff), op.now));
    }
  }

  lemma SweepCapped(s: Clients, op: Op, clients: int, ids: int)
    requires Capped(s, clients, ids) && Obeys(op, clients, ids) && op.Sweep?
    ensures Capped(AfterSweep(s, op.now, op.tun.window), clients, ids)
  {
    var after := AfterSweep(s, op.now, op.tun.window);
    SubmapSize(after, s);
    forall ip | ip in after ensures ShortTrails(after[ip], ids) {
      SweptTrailsShort(s[ip], op.now, op.tun.window, ids);
    }
    hide AfterSweep, ShortTrails;
  }

  lemma SweptTrailsShort(c: Client, now: int, window: int, ids: int)
    requires ShortTrails(c, ids)
    ensures ShortTrails(c.(trails := SweptTrails(c, now, window)), ids)
  {
    PrunedCapped(c.trails, now - window, c.lastSeen, c.lastSeen, ids);
    hide ShortTrails, PrunedTrails, NonEmptyTrails;
  }

  /** In every history the table stays within the largest settings that any call used: so many clients, and so many
      identifiers on every trail. */
  lemma {:induction false} WithinLargestCaps(log: seq<Op>, states: seq<Clients>, clients: int, ids: int)
    requires History(log, states) && 0 < clients && 0 < ids
    requires forall i :: 0 <= i < |log| ==> Obeys(log[i], clients, ids)
    ensures Capped(states[|log|], clients, ids)
  {
    hide Capped, Obeys;
    if log == [] {
      NobodyCapped(clients, ids);
    } else {
      var n := |log| - 1;
      WithinLargestCaps(log[..n], states[..n + 1], clients, ids);
      var s, op := states[n], log[n];
      hide RoomFor, Noted, AfterRead, AfterSweep;
      match op
      case Observe(ip, key, id, denied, now, tun) =>
        var roomy :| RoomFor(s, ip, tun, roomy) && states[n + 1] == Noted(roomy, ip, key, id, denied, now, tun);
        RoomCapped(s, op, roomy, clients, ids);
        NotedCapped(roomy, op, clients, ids);
      case Read(_, _, _) => ReadCapped(s, op, clients, ids);
      case Sweep(_, _) => SweepCapped(s, op, clients, ids);
    }
  }

  lemma NobodyCapped(clients: int, ids: int)
    requires 0 < clients && 0 < ids
    ensures Capped(map[], clients, ids)
  {
  }

  // ---- Sweeping -----------------------------------------------------------

  /** A sweep keeps a client that was heard of within the window and asked for something within it; of such a client it
      keeps the trails with something asked for within the window, and of these exactly that. */
  lemma SweepExactly(clients: Clients, now: int, window: int, ip: string, key: string)
    ensures var after := AfterSweep(clients, now, window);
            && (ip in after <==>
                && ip in clients && now - clients[ip].lastSeen <= window
                && exists k :: k in clients[ip].trails && Recent(clients[ip].trails[k], now, window) != {})
            && (ip in after ==>
                && after[ip].lastSeen == clients[ip].lastSeen
                && (key in after[ip].trails <==>
                    key in clients[ip].trails && Recent(clients[ip].trails[key], now, window) != {})
                && (key in after[ip].trails ==>
                    && after[ip].trails[key].Keys == Recent(clients[ip].trails[key], now, window)
                    && forall id :: id in after[ip].trails[key] ==>
                         after[ip].trails[key][id] == clients[ip].trails[key][id]))
  {
    if ip in clients {
      var c := clients[ip];
      forall k | k in c.trails
        ensures Pruned(c.trails[k], now - window).Keys == Recent(c.trails[k], now, window)
                && |Pruned(c.trails[k], now - window)| == |Recent(c.trails[k], now, window)|
      {
        PrunedKeys(c.trails[k], now, window);
      }
      SweptKeys(c, now, window);
      hide Recent, Pruned, NonEmptyTrails;
    }
  }

  lemma SweptKeys(c: Client, now: int, window: int)
    ensures forall k :: k in SweptTrails(c, now, window) <==>
              k in c.trails && |Recent(c.trails[k], now, window)| > 0
    ensures forall k :: k in SweptTrails(c, now, window) ==>
              SweptTrails(c, now, window)[k] == Pruned(c.trails[k], now - window)
    ensures |SweptTrails(c, now, window)| > 0 <==>
            exists k :: k in c.trails && |Recent(c.trails[k], now, window)| > 0
  {
    forall k | k in c.trails
      ensures |Pruned(c.trails[k], now - window)| == |Recent(c.trails[k], now, window)|
    {
      PrunedKeys(c.trails[k], now, window);
    }
    hide Recent, Pruned;
    var swept := SweptTrails(c, now, window);
    if |swept| > 0 {
      assert swept.Keys != {};
      var k :| k in swept.Keys;
    } else {
      assert swept == map[];
    }
  }

  // ---- Scoring --------------------------------------------------------------

  /** Below the threshold the score grows with the count to 29 at most. From the threshold on it starts at 60, at twice
      the threshold 80, and at five times 100; half of the requests refused are worth 20 more, a run of five 10 more,
      and 100 is the most. */
  lemma ScoreExactly(ev: Evidence, threshold: int)
    requires threshold > 0
    ensures var n, score := ev.distinctIds, ScoreOf(ev, threshold);
            && (n <= 0 ==> score == 0)
            && (0 < n < threshold ==> score * threshold <= 30 * n < (score + 1) * threshold)
            && (n >= threshold ==>
                  var base := if n >= 5 * threshold then 100 else if n >= 2 * threshold then 80 else 60;
                  var refused := if ev.deniedResponses + ev.deniedResponses >= n then 20 else 0;
                  var counting := if ev.sequentialRun >= 5 then 10 else 0;
                  score == Min(100, base + refused + counting))
  {
    BruteForce.RatioScoreExactly(ev.distinctIds, threshold);
    hide BruteForce.RatioScore;
  }
}
