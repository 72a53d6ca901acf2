/** What a read or a sweep right before a failure changes: which client makes room. */
module BruteForceEviction {
  import opened Common
  import opened Eviction
  import opened Sums
  import opened Text
  import opened BruteForce
  import opened BruteForceLog

  /** The table after a failure, for some permitted choice of what makes room. */
  ghost predicate Outcome(before: Clients, ip: string, route: string, target: string, now: int, tun: Settings,
                          after: Clients)
  {
    exists roomy, targets :: AfterFailure(before, ip, route, target, now, tun, roomy, targets, after)
  }

  /** What a table still answers at a time: its live streaks, client by client. */
  function Answers(clients: Clients, now: int, window: int): Clients { AfterSweep(clients, now, window) }

  /** Some permitted outcome from the other table answers like this one. */
  ghost predicate Imitated(a: Clients, other: Clients, ip: string, route: string, target: string, now: int,
                           tun: Settings)
  {
    exists b :: Outcome(other, ip, route, target, now, tun, b) && AnswerAlike(a, b, now, tun.window)
  }

  predicate AnswerAlike(a: Clients, b: Clients, now: int, window: int) {
    Answers(a, now, window) == Answers(b, now, window)
  }

  ghost predicate Imitates(one: Clients, other: Clients, ip: string, route: string, target: string, now: int,
                           tun: Settings)
  {
    forall a :: Outcome(one, ip, route, target, now, tun, a) ==> Imitated(a, other, ip, route, target, now, tun)
  }

  ghost predicate SameAnswers(one: Clients, other: Clients, ip: string, route: string, target: string, now: int,
                              tun: Settings)
  {
    Imitates(one, other, ip, route, target, now, tun) && Imitates(other, one, ip, route, target, now, tun)
  }

  /** What a read or a sweep leaves: some of the streaks, all the live ones among them. */
  ghost predicate Cleans(before: Clients, cleaned: Clients, now: int, window: int) {
    TableOk(cleaned) && Subtable(cleaned, before) && Answers(cleaned, now, window) == Answers(before, now, window)
  }

  lemma AnswersOf(clients: Clients, now: int, window: int, ip: string)
    ensures ip in Answers(clients, now, window) <==> Fresh(TargetsOf(clients, ip), now, window) != map[]
    ensures TargetsOf(Answers(clients, now, window), ip) == Fresh(TargetsOf(clients, ip), now, window)
  {
    assert Fresh(map[], now, window) == map[];
  }

  lemma SameAnswersByClient(a: Clients, b: Clients, now: int, window: int)
    requires forall ip :: Fresh(TargetsOf(a, ip), now, window) == Fresh(TargetsOf(b, ip), now, window)
    ensures Answers(a, now, window) == Answers(b, now, window)
  {
    hide Fresh;
    var x, y := Answers(a, now, window), Answers(b, now, window);
    forall ip ensures ip in x <==> ip in y {
      AnswersOf(a, now, window, ip);
      AnswersOf(b, now, window, ip);
    }
    forall ip | ip in x ensures x[ip] == y[ip] {
      AnswersOf(a, now, window, ip);
      AnswersOf(b, now, window, ip);
    }
  }

  // ---------------------------------------------------------------- a new client and a full table

  /** The one streak of a client that failed once. */
  function First(route: string, target: string, now: int): Streaks {
    map[StreakKey(route, target) := LoginStreak(route, target, 1, now, now)]
  }

  /** A new client in a full table: an oldest client is gone and the new one has its first streak. */
  lemma NewcomerOutcome(before: Clients, ip: string, route: string, target: string, now: int, tun: Settings,
                        after: Clients)
    requires TableOk(before) && tun.Positive() && ip !in before && |before| >= tun.maxClients
    ensures Outcome(before, ip, route, target, now, tun, after) <==>
            exists v :: IsOldest(before, OldestStreak, v) && after == (before - {v})[ip := First(route, target, now)]
  {
    hide OldestStreak, StreakKey, StreaksOk, IsOldest;
    TableTimed(before);
    if Outcome(before, ip, route, target, now, tun, after) {
      var roomy, targets :| AfterFailure(before, ip, route, target, now, tun, roomy, targets, after);
      DropShrinks(before, OldestStreak, roomy);
      var v :| IsOldest(before, OldestStreak, v) && roomy == before - {v};
      NewcomerFirst(roomy, ip, route, target, now, tun, targets);
    }
    if v :| IsOldest(before, OldestStreak, v) && after == (before - {v})[ip := First(route, target, now)] {
      DroppedFirst(before, v);
      NewcomerFirst(before - {v}, ip, route, target, now, tun, map[]);
      assert AfterFailure(before, ip, route, target, now, tun, before - {v}, map[], after);
    }
  }

  lemma DroppedFirst(before: Clients, v: string)
    requires IsOldest(before, OldestStreak, v)
    ensures DroppedOldest(before, OldestStreak, before - {v})
  {
    hide OldestStreak;
  }

  lemma NewcomerFirst(roomy: Clients, ip: string, route: string, target: string, now: int, tun: Settings,
                      targets: Streaks)
    requires ip !in roomy && tun.Positive()
    ensures RoomForTarget(TargetsOf(roomy, ip), StreakKey(route, target), tun, targets) <==> targets == map[]
    ensures targets == map[] ==>
              targets[StreakKey(route, target) := NextStreak(targets, route, target, now, tun.window)] ==
                First(route, target, now)
  {
    hide StreakKey;
  }

  /** With room for it, a new client has one outcome. */
  lemma RoomyOutcome(before: Clients, ip: string, route: string, target: string, now: int, tun: Settings,
                     after: Clients)
    requires tun.Positive() && ip !in before && |before| < tun.maxClients
    ensures Outcome(before, ip, route, target, now, tun, after) <==> after == before[ip := First(route, target, now)]
  {
    hide OldestStreak, StreakKey;
    if after == before[ip := First(route, target, now)] {
      assert AfterFailure(before, ip, route, target, now, tun, before, map[], after);
    }
  }

  lemma NewcomerAnswers(roomy: Clients, ip: string, route: string, target: string, now: int, window: int)
    requires window > 0 && ip !in roomy
    ensures Answers(roomy[ip := First(route, target, now)], now, window) ==
            Answers(roomy, now, window)[ip := First(route, target, now)]
  {
    hide StreakKey;
    var first := First(route, target, now);
    assert Fresh(first, now, window) == first;
    assert StreakKey(route, target) in first;
  }

  lemma AnswersWithout(clients: Clients, v: string, now: int, window: int)
    ensures Answers(clients - {v}, now, window) == Answers(clients, now, window) - {v}
  {
    hide Fresh;
  }

  /** The live table that an outcome leaves of the others: one less, or all when what made room had expired. */
  lemma NewcomerLeaves(before: Clients, v: string, ip: string, route: string, target: string, now: int, window: int)
    requires window > 0 && ip !in before
    ensures Answers((before - {v})[ip := First(route, target, now)], now, window) ==
            (Answers(before, now, window) - {v})[ip := First(route, target, now)]
  {
    NewcomerAnswers(before - {v}, ip, route, target, now, window);
    AnswersWithout(before, v, now, window);
  }

  lemma PutApart(a: Clients, b: Clients, ip: string, first: Streaks)
    requires ip !in a && ip !in b
    ensures a[ip := first] == b[ip := first] <==> a == b
  {
    if a[ip := first] == b[ip := first] {
      assert a == a[ip := first] - {ip} == b;
    }
  }

  lemma MinusApart(live: Clients, v: string, u: string)
    ensures live - {v} == live - {u} <==> v == u || (v !in live && u !in live)
  {
    if live - {v} == live - {u} && v != u {
      assert v in live ==> v in live - {u};
      assert u in live ==> u in live - {v};
    }
  }

  /** The client may make room. */
  ghost predicate MayGo(clients: Clients, v: string) { IsOldest(clients, OldestStreak, v) }

  lemma OldestExists<V>(m: map<string, V>, seen: V -> int) returns (v: string)
    requires AllTimed(m, seen) && m != map[]
    ensures IsOldest(m, seen, v)
  {
    var times := set k | k in m :: seen(m[k]);
    var some :| some in m.Keys;
    assert seen(m[some]) in times;
    LeastExists(times);
    var t :| IsLeast(t, times);
    v :| v in m && seen(m[v]) == t;
    assert forall k :: k in m ==> seen(m[k]) in times;
  }

  lemma SomeoneMayGo(clients: Clients) returns (v: string)
    requires TableOk(clients) && clients != map[]
    ensures MayGo(clients, v)
  {
    hide OldestStreak, StreaksOk;
    TableTimed(clients);
    v := OldestExists(clients, OldestStreak);
  }

  /** What makes room is the same, or has expired on both sides. */
  predicate SameLoss(live: Clients, v: string, u: string) { v == u || (v !in live && u !in live) }

  ghost predicate Loses(one: Clients, other: Clients, live: Clients) {
    forall v :: MayGo(one, v) ==> exists u :: MayGo(other, u) && SameLoss(live, v, u)
  }

  /** Whoever is live and may go on one side may go on the other. */
  ghost predicate LosesLive(one: Clients, other: Clients, live: Clients) {
    forall v :: v in live && MayGo(one, v) ==> MayGo(other, v)
  }

  /** A client whose streaks have all expired may go. */
  ghost predicate LosesExpired(clients: Clients, live: Clients) {
    exists v :: MayGo(clients, v) && v !in live
  }

  /** The same live clients may go, and an expired one may on both sides or on neither. */
  ghost predicate SameMayGo(one: Clients, other: Clients, live: Clients) {
    && LosesLive(one, other, live) && LosesLive(other, one, live)
    && (LosesExpired(one, live) <==> LosesExpired(other, live))
  }

  lemma FullImitates(one: Clients, other: Clients, ip: string, route: string, target: string, now: int, tun: Settings)
    requires TableOk(one) && TableOk(other) && tun.Positive() && ip !in one && ip !in other
    requires |one| >= tun.maxClients && |other| >= tun.maxClients
    requires Answers(one, now, tun.window) == Answers(other, now, tun.window)
    ensures Imitates(one, other, ip, route, target, now, tun) <==>
            Loses(one, other, Answers(one, now, tun.window))
  {
    hide IsOldest, OldestStreak, StreakKey, StreaksOk, AfterSweep, Outcome, First;
    var live, first := Answers(one, now, tun.window), First(route, target, now);
    forall v, u
      ensures Answers((one - {v})[ip := first], now, tun.window) ==
              Answers((other - {u})[ip := first], now, tun.window) <==>
              SameLoss(live, v, u)
    {
      LossesCompared(one, other, v, u, ip, route, target, now, tun.window);
    }
    if Imitates(one, other, ip, route, target, now, tun) {
      forall v | MayGo(one, v) ensures exists u :: MayGo(other, u) && SameLoss(live, v, u) {
        var a := (one - {v})[ip := first];
        NewcomerOutcome(one, ip, route, target, now, tun, a);
        var b :| Outcome(other, ip, route, target, now, tun, b) && AnswerAlike(a, b, now, tun.window);
        NewcomerOutcome(other, ip, route, target, now, tun, b);
        var u :| MayGo(other, u) && b == (other - {u})[ip := first];
      }
    }
    if Loses(one, other, live) {
      forall a | Outcome(one, ip, route, target, now, tun, a)
        ensures Imitated(a, other, ip, route, target, now, tun)
      {
        NewcomerOutcome(one, ip, route, target, now, tun, a);
        var v :| MayGo(one, v) && a == (one - {v})[ip := first];
        var u :| MayGo(other, u) && SameLoss(live, v, u);
        var b := (other - {u})[ip := first];
        NewcomerOutcome(other, ip, route, target, now, tun, b);
      }
    }
  }

  lemma LossesCompared(one: Clients, other: Clients, v: string, u: string, ip: string, route: string, target: string,
                       now: int, window: int)
    requires window > 0 && ip !in one && ip !in other && Answers(one, now, window) == Answers(other, now, window)
    ensures var first := First(route, target, now);
            Answers((one - {v})[ip := first], now, window) == Answers((other - {u})[ip := first], now, window) <==>
            SameLoss(Answers(one, now, window), v, u)
  {
    var live, first := Answers(one, now, window), First(route, target, now);
    NewcomerLeaves(one, v, ip, route, target, now, window);
    NewcomerLeaves(other, u, ip, route, target, now, window);
    assert ip !in live;
    hide AfterSweep, First;
    PutApart(live - {v}, live - {u}, ip, first);
    MinusApart(live, v, u);
  }

  /** A full table and one with room give the same answers if and only if everyone who may go has expired. */
  lemma RoomSameAnswers(full: Clients, roomy: Clients, ip: string, route: string, target: string, now: int,
                        tun: Settings)
    requires TableOk(full) && tun.Positive() && ip !in full && ip !in roomy
    requires |full| >= tun.maxClients > |roomy| && Answers(full, now, tun.window) == Answers(roomy, now, tun.window)
    ensures SameAnswers(full, roomy, ip, route, target, now, tun) <==>
            forall v :: MayGo(full, v) ==> v !in Answers(full, now, tun.window)
  {
    hide IsOldest, OldestStreak, StreakKey, StreaksOk, AfterSweep, Outcome, First, Imitates;
    RoomImitated(full, roomy, ip, route, target, now, tun);
    if forall v :: MayGo(full, v) ==> v !in Answers(full, now, tun.window) {
      RoomImitates(full, roomy, ip, route, target, now, tun);
    }
  }

  lemma RoomImitated(full: Clients, roomy: Clients, ip: string, route: string, target: string, now: int, tun: Settings)
    requires TableOk(full) && tun.Positive() && ip !in full && ip !in roomy
    requires |full| >= tun.maxClients > |roomy| && Answers(full, now, tun.window) == Answers(roomy, now, tun.window)
    ensures Imitates(full, roomy, ip, route, target, now, tun) <==>
            forall v :: MayGo(full, v) ==> v !in Answers(full, now, tun.window)
  {
    hide IsOldest, OldestStreak, StreakKey, StreaksOk, AfterSweep, Outcome, First;
    var live, first := Answers(full, now, tun.window), First(route, target, now);
    var b := roomy[ip := first];
    RoomyOutcome(roomy, ip, route, target, now, tun, b);
    if Imitates(full, roomy, ip, route, target, now, tun) {
      forall v | MayGo(full, v) ensures v !in live {
        var a := (full - {v})[ip := first];
        NewcomerOutcome(full, ip, route, target, now, tun, a);
        var c :| Outcome(roomy, ip, route, target, now, tun, c) && AnswerAlike(a, c, now, tun.window);
        RoomyOutcome(roomy, ip, route, target, now, tun, c);
        NothingLost(full, roomy, v, ip, route, target, now, tun.window);
      }
    }
    if forall v :: MayGo(full, v) ==> v !in live {
      forall a | Outcome(full, ip, route, target, now, tun, a)
        ensures Outcome(roomy, ip, route, target, now, tun, b) && AnswerAlike(a, b, now, tun.window)
      {
        NewcomerOutcome(full, ip, route, target, now, tun, a);
        var v :| MayGo(full, v) && a == (full - {v})[ip := first];
        NothingLost(full, roomy, v, ip, route, target, now, tun.window);
      }
    }
  }

  lemma RoomImitates(full: Clients, roomy: Clients, ip: string, route: string, target: string, now: int, tun: Settings)
    requires TableOk(full) && tun.Positive() && ip !in full && ip !in roomy
    requires |full| >= tun.maxClients > |roomy| && Answers(full, now, tun.window) == Answers(roomy, now, tun.window)
    requires forall v :: MayGo(full, v) ==> v !in Answers(full, now, tun.window)
    ensures Imitates(roomy, full, ip, route, target, now, tun)
  {
    hide IsOldest, OldestStreak, StreakKey, StreaksOk, AfterSweep, Outcome, First;
    var v := SomeoneMayGo(full);
    var a := (full - {v})[ip := First(route, target, now)];
    NewcomerOutcome(full, ip, route, target, now, tun, a);
    NothingLost(full, roomy, v, ip, route, target, now, tun.window);
    forall b | Outcome(roomy, ip, route, target, now, tun, b)
      ensures Outcome(full, ip, route, target, now, tun, a) && AnswerAlike(b, a, now, tun.window)
    {
      RoomyOutcome(roomy, ip, route, target, now, tun, b);
    }
  }

  lemma NothingLost(full: Clients, roomy: Clients, v: string, ip: string, route: string, target: string, now: int,
                    window: int)
    requires window > 0 && ip !in full && ip !in roomy && Answers(full, now, window) == Answers(roomy, now, window)
    ensures var first := First(route, target, now);
            Answers((full - {v})[ip := first], now, window) == Answers(roomy[ip := first], now, window) <==>
            v !in Answers(full, now, window)
  {
    var live, first := Answers(full, now, window), First(route, target, now);
    NewcomerLeaves(full, v, ip, route, target, now, window);
    NewcomerAnswers(roomy, ip, route, target, now, window);
    assert ip !in live;
    hide AfterSweep, First;
    PutApart(live - {v}, live, ip, first);
    assert v !in live ==> live - {v} == live;
  }

  /** The exact condition, on the table before the call: either cleaning up makes room, and then everyone who might have
      gone has expired; or it does not, and the same live clients may go with it or without it. */
  ghost predicate SameOldest(before: Clients, cleaned: Clients, now: int, tun: Settings) {
    var live := Answers(before, now, tun.window);
    if |cleaned| < tun.maxClients then forall v :: MayGo(before, v) ==> v !in live else SameMayGo(before, cleaned, live)
  }

  /** A new client fails on a full table, with a read or a sweep right before it or without: the permitted outcomes give
      the same live answers if and only if that condition holds. */
  lemma NewcomerCleanupExactly(before: Clients, cleaned: Clients, ip: string, route: string, target: string, now: int,
                               tun: Settings)
    requires TableOk(before) && tun.Positive() && ip !in before && |before| >= tun.maxClients
    requires Cleans(before, cleaned, now, tun.window)
    ensures SameAnswers(before, cleaned, ip, route, target, now, tun) <==> SameOldest(before, cleaned, now, tun)
  {
    hide IsOldest, OldestStreak, StreaksOk, AfterSweep, Imitates, MayGo, Loses, SameMayGo, Fresh, TableOk;
    assert Answers(cleaned, now, tun.window) == Answers(before, now, tun.window);
    if |cleaned| < tun.maxClients {
      RoomSameAnswers(before, cleaned, ip, route, target, now, tun);
    } else {
      FullImitates(before, cleaned, ip, route, target, now, tun);
      FullImitates(cleaned, before, ip, route, target, now, tun);
      SameLosses(before, cleaned, Answers(before, now, tun.window));
    }
  }

  lemma SameLosses(one: Clients, other: Clients, live: Clients)
    ensures Loses(one, other, live) && Loses(other, one, live) <==> SameMayGo(one, other, live)
  {
    hide MayGo, Loses, LosesLive, LosesExpired;
    LosesExactly(one, other, live);
    LosesExactly(other, one, live);
  }

  lemma LosesExactly(one: Clients, other: Clients, live: Clients)
    ensures Loses(one, other, live) <==>
            LosesLive(one, other, live) && (LosesExpired(one, live) ==> LosesExpired(other, live))
  {
    hide Loses, LosesLive, LosesExpired;
    if LosesLive(one, other, live) && (LosesExpired(one, live) ==> LosesExpired(other, live)) {
      LosesIf(one, other, live);
    }
    if Loses(one, other, live) {
      LosesOnlyIf(one, other, live);
    }
  }

  lemma LosesIf(one: Clients, other: Clients, live: Clients)
    requires LosesLive(one, other, live) && (LosesExpired(one, live) ==> LosesExpired(other, live))
    ensures Loses(one, other, live)
  {
    hide MayGo;
    forall v | MayGo(one, v) ensures exists u :: MayGo(other, u) && SameLoss(live, v, u) {
      if v !in live {
        var u :| MayGo(other, u) && u !in live;
      }
    }
  }

  lemma LosesOnlyIf(one: Clients, other: Clients, live: Clients)
    requires Loses(one, other, live)
    ensures LosesLive(one, other, live) && (LosesExpired(one, live) ==> LosesExpired(other, live))
  {
    hide MayGo;
  }

  // ---------------------------------------------------------------- a known client, or a table with room

  lemma FreshPut(byTarget: Streaks, key: string, s: LoginStreak, now: int, window: int)
    requires window > 0 && s.lastFailure == now
    ensures Fresh(byTarget[key := s], now, window) == Fresh(byTarget, now, window)[key := s]
  {
  }

  lemma NextByFresh(byTarget: Streaks, route: string, target: string, now: int, window: int)
    ensures NextStreak(byTarget, route, target, now, window) ==
            NextStreak(Fresh(byTarget, now, window), route, target, now, window)
    ensures NextStreak(byTarget, route, target, now, window).lastFailure == now
  {
    hide StreakKey;
  }

  function Advanced(byTarget: Streaks, route: string, target: string, now: int, window: int): Streaks {
    byTarget[StreakKey(route, target) := NextStreak(byTarget, route, target, now, window)]
  }

  /** What a client's streaks answer after a failure depends on what they answered before. */
  lemma AdvancedFresh(byTarget: Streaks, other: Streaks, route: string, target: string, now: int, window: int)
    requires window > 0 && Fresh(byTarget, now, window) == Fresh(other, now, window)
    ensures Fresh(Advanced(byTarget, route, target, now, window), now, window) ==
            Fresh(Advanced(other, route, target, now, window), now, window)
  {
    hide NextStreak, StreakKey, Fresh;
    NextByFresh(byTarget, route, target, now, window);
    NextByFresh(other, route, target, now, window);
    FreshPut(byTarget, StreakKey(route, target), NextStreak(byTarget, route, target, now, window), now, window);
    FreshPut(other, StreakKey(route, target), NextStreak(other, route, target, now, window), now, window);
  }

  predicate Settled(clients: Clients, ip: string, tun: Settings) { ip in clients || |clients| < tun.maxClients }

  lemma SettledOutcome(before: Clients, ip: string, route: string, target: string, now: int, tun: Settings,
                       after: Clients)
    requires Settled(before, ip, tun)
    ensures Outcome(before, ip, route, target, now, tun, after) <==>
            exists targets :: RoomForTarget(TargetsOf(before, ip), StreakKey(route, target), tun, targets)
                              && after == before[ip := Advanced(targets, route, target, now, tun.window)]
  {
    hide OldestStreak, StreakKey, NextStreak, RoomForTarget;
    forall targets |
      && RoomForTarget(TargetsOf(before, ip), StreakKey(route, target), tun, targets)
      && after == before[ip := Advanced(targets, route, target, now, tun.window)]
      ensures Outcome(before, ip, route, target, now, tun, after)
    {
      assert AfterFailure(before, ip, route, target, now, tun, before, targets, after);
    }
  }

  lemma StaysSettled(before: Clients, cleaned: Clients, ip: string, tun: Settings)
    requires Subtable(cleaned, before) && |before| <= tun.maxClients && Settled(before, ip, tun)
    ensures Settled(cleaned, ip, tun)
  {
    if ip !in cleaned {
      assert cleaned.Keys <= before.Keys - {ip};
      SubsetSize(cleaned.Keys, before.Keys - {ip});
      assert |cleaned| == |cleaned.Keys| && |before| == |before.Keys|;
    }
  }

  /** One client's streaks with room made for a target, in two forms: every choice on one side is answered on the
      other. */
  lemma TargetImitated(one: Streaks, other: Streaks, key: string, now: int, tun: Settings, targets: Streaks)
    returns (others: Streaks)
    requires tun.Positive() && Fresh(one, now, tun.window) == Fresh(other, now, tun.window)
    requires one == map[] || StreaksOk(one)
    requires other == map[] || StreaksOk(other)
    requires |one| <= tun.maxTargetsPerClient && |other| <= tun.maxTargetsPerClient
    requires (forall k :: k in one ==> k in other && other[k] == one[k])
             || (forall k :: k in other ==> k in one && one[k] == other[k])
    requires RoomForTarget(one, key, tun, targets)
    ensures RoomForTarget(other, key, tun, others)
    ensures Fresh(others, now, tun.window) == Fresh(targets, now, tun.window)
  {
    if one == other {
      others := targets;
    } else {
      others := SomeRoom(other, key, tun);
      RoomLosesExpired(one, other, key, now, tun, targets);
      RoomLosesExpired(other, one, key, now, tun, others);
    }
  }

  lemma SomeRoom(byTarget: Streaks, key: string, tun: Settings) returns (targets: Streaks)
    requires byTarget == map[] || StreaksOk(byTarget)
    ensures RoomForTarget(byTarget, key, tun, targets)
  {
    targets := byTarget;
    if key !in byTarget && |byTarget| >= tun.maxTargetsPerClient && byTarget != map[] {
      StreaksTimed(byTarget);
      var v := OldestExists(byTarget, LastSeen);
      targets := byTarget - {v};
    }
  }

  /** When some streak has expired, what makes room has; a smaller table has room already. */
  lemma RoomLosesExpired(one: Streaks, other: Streaks, key: string, now: int, tun: Settings, targets: Streaks)
    requires tun.Positive() && Fresh(one, now, tun.window) == Fresh(other, now, tun.window) && one != other
    requires one == map[] || StreaksOk(one)
    requires other == map[] || StreaksOk(other)
    requires |one| <= tun.maxTargetsPerClient && |other| <= tun.maxTargetsPerClient
    requires (forall k :: k in one ==> k in other && other[k] == one[k])
             || (forall k :: k in other ==> k in one && one[k] == other[k])
    requires RoomForTarget(one, key, tun, targets)
    ensures Fresh(targets, now, tun.window) == Fresh(one, now, tun.window)
  {
    hide StreakKey, Fresh, StreaksOk, IsOldest, NulFree, AllTimed;
    if key !in one && |one| >= tun.maxTargetsPerClient {
      if forall k :: k in one ==> k in other && other[k] == one[k] {
        SubmapSize(one, other);
        SameSizeSame(one, other);
      }
      var k :| k in one && k !in other;
      StreaksTimed(one);
      DropShrinks(one, LastSeen, targets);
      var v :| IsOldest(one, LastSeen, v) && targets == one - {v};
      OldestExpired(one, other, k, v, now, tun.window);
    }
  }

  lemma OldestExpired(one: Streaks, other: Streaks, k: string, v: string, now: int, window: int)
    requires Fresh(one, now, window) == Fresh(other, now, window) && StreaksOk(one)
    requires k in one && k !in other && IsOldest(one, LastSeen, v)
    ensures Fresh(one - {v}, now, window) == Fresh(one, now, window)
  {
    hide StreakKey, NulFree;
    assert k !in Fresh(other, now, window);
    assert StreakOk(k, one[k]) && StreakOk(v, one[v]);
    assert now - one[v].lastFailure > window;
  }

  /** Two tables that answer alike, one of them part of the other. */
  ghost predicate Alike(one: Clients, other: Clients, now: int, tun: Settings) {
    && TableOk(one) && TableOk(other) && Capped(one, tun) && Capped(other, tun)
    && (Subtable(one, other) || Subtable(other, one))
    && Answers(one, now, tun.window) == Answers(other, now, tun.window)
  }

  lemma AlikeTargets(one: Clients, other: Clients, ip: string, now: int, tun: Settings)
    requires Alike(one, other, now, tun) && tun.Positive()
    ensures var a, b := TargetsOf(one, ip), TargetsOf(other, ip);
            && Fresh(a, now, tun.window) == Fresh(b, now, tun.window)
            && (a == map[] || StreaksOk(a)) && (b == map[] || StreaksOk(b))
            && |a| <= tun.maxTargetsPerClient && |b| <= tun.maxTargetsPerClient
            && ((forall k :: k in a ==> k in b && b[k] == a[k]) || (forall k :: k in b ==> k in a && a[k] == b[k]))
  {
    hide StreaksOk, Fresh, AfterSweep;
    AnswersOf(one, now, tun.window, ip);
    AnswersOf(other, now, tun.window, ip);
  }

  lemma SettledImitates(one: Clients, other: Clients, ip: string, route: string, target: string, now: int,
                        tun: Settings)
    requires Alike(one, other, now, tun) && tun.Positive() && Settled(one, ip, tun) && Settled(other, ip, tun)
    ensures Imitates(one, other, ip, route, target, now, tun)
  {
    hide Outcome, Alike, RoomForTarget, StreakKey, StreaksOk, Fresh, Advanced, AfterSweep;
    AlikeTargets(one, other, ip, now, tun);
    var key := StreakKey(route, target);
    forall a | Outcome(one, ip, route, target, now, tun, a)
      ensures Imitated(a, other, ip, route, target, now, tun)
    {
      SettledOutcome(one, ip, route, target, now, tun, a);
      var targets :| RoomForTarget(TargetsOf(one, ip), key, tun, targets)
                     && a == one[ip := Advanced(targets, route, target, now, tun.window)];
      var others := TargetImitated(TargetsOf(one, ip), TargetsOf(other, ip), key, now, tun, targets);
      var b := other[ip := Advanced(others, route, target, now, tun.window)];
      SettledOutcome(other, ip, route, target, now, tun, b);
      AdvancedFresh(targets, others, route, target, now, tun.window);
      StoredAnswers(one, other, a, b, ip, now, tun);
    }
  }

  lemma StoredAnswers(one: Clients, other: Clients, a: Clients, b: Clients, ip: string, now: int, tun: Settings)
    requires Alike(one, other, now, tun) && ip in a && ip in b && a == one[ip := a[ip]] && b == other[ip := b[ip]]
    requires Fresh(a[ip], now, tun.window) == Fresh(b[ip], now, tun.window)
    ensures Answers(a, now, tun.window) == Answers(b, now, tun.window)
  {
    hide Fresh, AfterSweep, TableOk, Capped, Subtable;
    forall c ensures Fresh(TargetsOf(a, c), now, tun.window) == Fresh(TargetsOf(b, c), now, tun.window) {
      AnswersOf(one, now, tun.window, c);
      AnswersOf(other, now, tun.window, c);
    }
    SameAnswersByClient(a, b, now, tun.window);
  }

  /** Exactly when a read or a sweep right before a failure is invisible: the client is known, or the table has room, or
      the same clients may go. */
  lemma CleanupExactly(before: Clients, cleaned: Clients, ip: string, route: string, target: string, now: int,
                       tun: Settings)
    requires TableOk(before) && Capped(before, tun) && tun.Positive() && Cleans(before, cleaned, now, tun.window)
    ensures SameAnswers(before, cleaned, ip, route, target, now, tun) <==>
            Settled(before, ip, tun) || SameOldest(before, cleaned, now, tun)
  {
    hide TableOk, Imitates, SameOldest, AfterSweep, Subtable, Capped;
    if Settled(before, ip, tun) {
      assert |before| <= tun.maxClients by { OfCapped(before, tun); }
      StaysSettled(before, cleaned, ip, tun);
      CappedSubtable(cleaned, before, tun);
      SettledImitates(before, cleaned, ip, route, target, now, tun);
      SettledImitates(cleaned, before, ip, route, target, now, tun);
    } else {
      NewcomerCleanupExactly(before, cleaned, ip, route, target, now, tun);
    }
  }

  lemma OfCapped(clients: Clients, tun: Settings)
    requires Capped(clients, tun)
    ensures |clients| <= tun.maxClients
  {
  }

  // ---------------------------------------------------------------- sweeps and reads

  lemma FreshTwice(byTarget: Streaks, now: int, window: int)
    ensures Fresh(Fresh(byTarget, now, window), now, window) == Fresh(byTarget, now, window)
  {
  }

  lemma SweepCleans(before: Clients, now: int, window: int)
    requires TableOk(before)
    ensures Cleans(before, AfterSweep(before, now, window), now, window)
  {
    SweepKeepsTable(before, now, window);
    var swept := AfterSweep(before, now, window);
    assert Subtable(swept, before);
    hide Fresh, StreaksOk, Subtable;
    forall ip ensures Fresh(TargetsOf(swept, ip), now, window) == Fresh(TargetsOf(before, ip), now, window) {
      AnswersOf(before, now, window, ip);
      FreshTwice(TargetsOf(before, ip), now, window);
    }
    SameAnswersByClient(swept, before, now, window);
  }

  /** A read of any client cleans the table in this sense, and so does a sweep. */
  lemma ReadCleans(s: State, ip: string, now: int, s': State)
    requires TableOk(s.clients) && s.tun.Positive() && Step(s, Read(ip, now), s')
    ensures Cleans(s.clients, s'.clients, now, s.tun.window)
  {
    TableStep(s, Read(ip, now), s');
    QuietSubtable(s, Read(ip, now), s');
    hide Fresh, StreaksOk, Subtable, TableOk, Step;
    forall c ensures Fresh(TargetsOf(s'.clients, c), now, s.tun.window) ==
      Fresh(TargetsOf(s.clients, c), now, s.tun.window)
    {
      CleanupKeepsAnswers(s, Read(ip, now), s', c, now, s.tun.window);
    }
    SameAnswersByClient(s'.clients, s.clients, now, s.tun.window);
  }

  lemma SweptKeys(before: Clients, now: int, window: int)
    ensures var swept := AfterSweep(before, now, window);
            swept.Keys <= before.Keys && (|swept| < |before| <==> exists v :: v in before && v !in swept)
  {
    hide Fresh;
    var swept := AfterSweep(before, now, window);
    assert |swept| == |swept.Keys| && |before| == |before.Keys|;
    if v :| v in before && v !in swept {
      SubsetSize(swept.Keys, before.Keys - {v});
    } else {
      assert swept.Keys == before.Keys;
    }
  }

  lemma NoneExpired(before: Clients, swept: Clients)
    requires swept.Keys == before.Keys
    ensures SameMayGo(before, swept, swept) <==> forall v :: IsOldest(before, OldestStreak, v) <==>
            IsOldest(swept, OldestStreak, v)
  {
    hide OldestStreak;
    assert forall v :: MayGo(before, v) ==> v in before;
    assert forall v :: MayGo(swept, v) ==> v in swept;
    hide IsOldest;
  }

  /** For a sweep: when some client has wholly expired, all who might go must have; when none has, those who may go must
      be the same with the sweep and without it. */
  lemma SweepExactly(before: Clients, ip: string, route: string, target: string, now: int, tun: Settings)
    requires TableOk(before) && Capped(before, tun) && tun.Positive()
    ensures var swept := AfterSweep(before, now, tun.window);
            SameAnswers(before, swept, ip, route, target, now, tun) <==>
            || ip in before || |before| < tun.maxClients
            || (if exists v :: v in before && v !in swept
                then forall v :: IsOldest(before, OldestStreak, v) ==> v !in swept
                else forall v :: IsOldest(before, OldestStreak, v) <==> IsOldest(swept, OldestStreak, v))
  {
    hide StreaksOk, AfterSweep, SameAnswers, OldestStreak, TableOk, Subtable, IsOldest, Cleans, SameOldest;
    SweepCleans(before, now, tun.window);
    CleanupExactly(before, AfterSweep(before, now, tun.window), ip, route, target, now, tun);
    if |before| == tun.maxClients {
      SameOldestSwept(before, now, tun);
    }
  }

  lemma SameOldestSwept(before: Clients, now: int, tun: Settings)
    requires |before| == tun.maxClients
    ensures var swept := AfterSweep(before, now, tun.window);
            SameOldest(before, swept, now, tun) <==>
            if exists v :: v in before && v !in swept
            then forall v :: IsOldest(before, OldestStreak, v) ==> v !in swept
            else forall v :: IsOldest(before, OldestStreak, v) <==> IsOldest(swept, OldestStreak, v)
  {
    hide AfterSweep, OldestStreak, IsOldest, SameMayGo;
    var swept := AfterSweep(before, now, tun.window);
    SweptKeys(before, now, tun.window);
    if v :| v in before && v !in swept {
      assert forall u :: MayGo(before, u) <==> IsOldest(before, OldestStreak, u);
    } else {
      NoneExpired(before, swept);
    }
  }
}
