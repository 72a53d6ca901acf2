/** Two histories that go wrong: a sweep before an eviction, and settings that are read too early. */
module BruteForceRuns {
  import opened Common
  import opened Eviction
  import opened BruteForce
  import opened BruteForceLog
  import opened BruteForceFold
  import opened BruteForceEviction
  import opened Text

  // ---------------------------------------------------------------- a sweep before an eviction

  function Two(): Settings { Settings(true, 5, 10, 2, 10) }

  function Streak(target: string, at: int): LoginStreak { LoginStreak("/login", target, 1, at, at) }

  function Key(target: string): string { StreakKey("/login", target) }

  function ThreeFailures(): (log: seq<Op>)
    ensures |log| == 3
  {
    [Fail("a", "/login", "t1", 1, Two()), Fail("b", "/login", "u", 5, Two()), Fail("a", "/login", "t2", 9, Two())]
  }

  function Newcomer(): Op { Fail("c", "/login", "v", 12, Two()) }

  function ThreeStreaks(): Clients {
    map["a" := map[Key("t1") := Streak("t1", 1), Key("t2") := Streak("t2", 9)], "b" := map[Key("u") := Streak("u", 5)]]
  }

  function SweptStreaks(): Clients {
    map["a" := map[Key("t2") := Streak("t2", 9)], "b" := map[Key("u") := Streak("u", 5)]]
  }

  function FirstStates(): (states: seq<State>)
    ensures |states| == 4 && states[0] == State(Two(), map[]) && states[3] == State(Two(), ThreeStreaks())
  {
    var one: Clients := map["a" := map[Key("t1") := Streak("t1", 1)]];
    [State(Two(), map[]), State(Two(), one), State(Two(), one["b" := map[Key("u") := Streak("u", 5)]]),
     State(Two(), ThreeStreaks())]
  }

  function PlainStates(): seq<State> {
    FirstStates() + [State(Two(), (ThreeStreaks() - {"a"})["c" := First("/login", "v", 12)])]
  }

  function SweptStates(): seq<State> {
    FirstStates()
      + [State(Two(), SweptStreaks()), State(Two(), (SweptStreaks() - {"b"})["c" := First("/login", "v", 12)])]
  }

  lemma KeysDiffer()
    ensures Key("t1") != Key("t2")
  {
    SameKey("/login", "t1", "/login", "t2");
  }

  /** While there is room, a failure has one outcome. */
  lemma OneOutcome(s: State, op: Op, s': State)
    requires op.Fail? && op.tun == s.tun && EvictsNothing(s, op)
    ensures var targets := TargetsOf(s.clients, op.ip);
            Step(s, op, s') <==>
            s' == State(s.tun, s.clients[op.ip := targets[StreakKey(op.route, op.target) :=
                                                    NextStreak(targets, op.route, op.target, op.now, op.tun.window)]])
  {
    hide NextStreak, StreakKey, OldestStreak;
    var targets := TargetsOf(s.clients, op.ip);
    var after := s.clients[op.ip := targets[StreakKey(op.route, op.target) :=
                                      NextStreak(targets, op.route, op.target, op.now, op.tun.window)]];
    assert AfterFailure(s.clients, op.ip, op.route, op.target, op.now, op.tun, s.clients, targets, after);
  }

  lemma FirstSteps(i: nat, s': State)
    requires i < 3
    ensures Step(FirstStates()[i], ThreeFailures()[i], s') <==> s' == FirstStates()[i + 1]
    ensures WellFormed(ThreeFailures()[i])
  {
    if i < 2 {
      hide StreakKey, Step;
      OneOutcome(FirstStates()[i], ThreeFailures()[i], s');
    } else {
      ThirdStep(s');
    }
  }

  lemma ThirdStep(s': State)
    ensures Step(FirstStates()[2], ThreeFailures()[2], s') <==> s' == State(Two(), ThreeStreaks())
  {
    KeysDiffer();
    hide StreakKey, Step;
    var before := FirstStates()[2];
    OneOutcome(before, ThreeFailures()[2], s');
    assert before.clients["a"] == map[Key("t1") := Streak("t1", 1)] && Key("t2") !in before.clients["a"];
    assert ThreeStreaks() == before.clients["a" := before.clients["a"][Key("t2") := Streak("t2", 9)]];
  }

  lemma AfterThree(log: seq<Op>, states: seq<State>)
    requires |log| >= 3 && log[..3] == ThreeFailures() && History(log, states) && states[0].tun == Two()
    ensures states[3] == State(Two(), ThreeStreaks())
  {
    hide Step, StreakKey, WellFormed, ThreeStreaks;
    forall i | 0 <= i < 3 ensures Step(states[i], ThreeFailures()[i], states[i + 1]) {
      assert log[i] == log[..3][i];
    }
    FirstSteps(0, states[1]);
    FirstSteps(1, states[2]);
    FirstSteps(2, states[3]);
  }

  /** How long each client has been silent, before the sweep and after it. */
  lemma Oldest()
    ensures OldestStreak(ThreeStreaks()["a"]) == 1 && OldestStreak(SweptStreaks()["a"]) == 9
    ensures OldestStreak(ThreeStreaks()["b"]) == 5 && OldestStreak(SweptStreaks()["b"]) == 5
    ensures AfterSweep(ThreeStreaks(), 12, 10) == SweptStreaks()
  {
    KeysDiffer();
    hide StreakKey;
    var a, b := SweptStreaks()["a"], SweptStreaks()["b"];
    assert Key("t1") in ThreeStreaks()["a"] && Key("t2") in a && Key("u") in b;
    assert Fresh(ThreeStreaks()["a"], 12, 10) == a && Fresh(ThreeStreaks()["b"], 12, 10) == b;
  }

  lemma OldestIs()
    ensures forall v :: IsOldest(ThreeStreaks(), OldestStreak, v) <==> v == "a"
    ensures forall v :: IsOldest(SweptStreaks(), OldestStreak, v) <==> v == "b"
  {
    Oldest();
    hide OldestStreak, StreakKey, AfterSweep;
  }

  lemma ThreeOk()
    ensures TableOk(ThreeStreaks()) && Capped(ThreeStreaks(), Two())
    ensures ThreeStreaks().Keys == {"a", "b"} && |ThreeStreaks()| == 2
  {
    KeysDiffer();
    hide StreakKey;
    assert |ThreeStreaks()| == |ThreeStreaks().Keys|;
    assert Key("u") in ThreeStreaks()["b"] && Key("t2") in ThreeStreaks()["a"];
  }

  lemma SweptOk()
    ensures TableOk(SweptStreaks()) && SweptStreaks().Keys == {"a", "b"} && |SweptStreaks()| == 2
  {
    hide StreakKey;
    assert |SweptStreaks()| == |SweptStreaks().Keys|;
    assert Key("u") in SweptStreaks()["b"] && Key("t2") in SweptStreaks()["a"];
  }

  /** By the exact condition the sweep is not invisible here: nobody has wholly expired, and it changes who may go. */
  lemma SweepIsNotInvisible()
    ensures !SameAnswers(ThreeStreaks(), AfterSweep(ThreeStreaks(), 12, 10), "c", "/login", "v", 12, Two())
  {
    hide SameAnswers, AfterSweep, OldestStreak, IsOldest, TableOk, Capped, ThreeStreaks, SweptStreaks;
    ThreeOk();
    SweptOk();
    Oldest();
    OldestIs();
    SweepExactly(ThreeStreaks(), "c", "/login", "v", 12, Two());
    assert IsOldest(ThreeStreaks(), OldestStreak, "a") && !IsOldest(SweptStreaks(), OldestStreak, "a");
  }

  lemma NewcomerStep(before: Clients, v: string, s': State)
    requires TableOk(before) && "c" !in before && |before| == 2
    requires forall u :: IsOldest(before, OldestStreak, u) <==> u == v
    ensures Step(State(Two(), before), Newcomer(), s') <==>
            s' == State(Two(), (before - {v})["c" := First("/login", "v", 12)])
    ensures WellFormed(Newcomer())
  {
    hide OldestStreak, IsOldest, TableOk, AfterFailure, First;
    var after := (before - {v})["c" := First("/login", "v", 12)];
    NewcomerOutcome(before, "c", "/login", "v", 12, Two(), after);
    NewcomerOutcome(before, "c", "/login", "v", 12, Two(), s'.clients);
  }

  ghost predicate FromTwo(log: seq<Op>, states: seq<State>) { History(log, states) && states[0].tun == Two() }

  /** When the table is full, a sweep changes who is evicted, and so a later answer. Both histories exist; in every
      history without the sweep a is gone with its live streak, and in every one with it b is gone and that streak still
      answers. */
  lemma CleanupChangesEvictions()
    ensures FromTwo(ThreeFailures() + [Newcomer()], PlainStates())
    ensures FromTwo(ThreeFailures() + [Sweep(12), Newcomer()], SweptStates())
    ensures forall states: seq<State> :: FromTwo(ThreeFailures() + [Newcomer()], states) ==>
              Fresh(TargetsOf(states[4].clients, "a"), 12, 10) == map[]
    ensures forall swept: seq<State> :: FromTwo(ThreeFailures() + [Sweep(12), Newcomer()], swept) ==>
              Fresh(TargetsOf(swept[5].clients, "a"), 12, 10) == map[Key("t2") := Streak("t2", 9)]
    ensures WithoutCleanup(ThreeFailures() + [Sweep(12), Newcomer()]) == ThreeFailures() + [Newcomer()]
  {
    PlainHistory();
    SweptHistory();
    OnlyTheSweepGoes();
    hide FromTwo, WithoutCleanup, Fresh;
    forall states: seq<State> | FromTwo(ThreeFailures() + [Newcomer()], states)
      ensures |states| == 5 && Fresh(TargetsOf(states[4].clients, "a"), 12, 10) == map[]
    {
      EvictedPlain(states);
    }
    forall swept: seq<State> | FromTwo(ThreeFailures() + [Sweep(12), Newcomer()], swept)
      ensures |swept| == 6 && Fresh(TargetsOf(swept[5].clients, "a"), 12, 10) == map[Key("t2") := Streak("t2", 9)]
    {
      EvictedSwept(swept);
    }
  }

  lemma FirstThree(log: seq<Op>, states: seq<State>)
    requires |log| >= 3 && |states| >= 4 && log[..3] == ThreeFailures() && states[..4] == FirstStates()
    ensures forall i :: 0 <= i < 3 ==> Step(states[i], log[i], states[i + 1]) && WellFormed(log[i])
  {
    hide Step, WellFormed, FirstStates, ThreeFailures;
    forall i | 0 <= i < 3 ensures Step(states[i], log[i], states[i + 1]) && WellFormed(log[i]) {
      assert log[i] == log[..3][i] && states[i] == states[..4][i] && states[i + 1] == states[..4][i + 1];
      FirstSteps(i, states[i + 1]);
    }
  }

  lemma PlainHistory()
    ensures FromTwo(ThreeFailures() + [Newcomer()], PlainStates())
  {
    hide Step, WellFormed, ThreeStreaks, FirstStates, ThreeFailures, StreakKey, First, TableOk, Newcomer;
    ThreeOk();
    SweptOk();
    OldestIs();
    var log, states := ThreeFailures() + [Newcomer()], PlainStates();
    FirstThree(log, states);
    NewcomerStep(ThreeStreaks(), "a", states[4]);
  }

  lemma SweptHistory()
    ensures FromTwo(ThreeFailures() + [Sweep(12), Newcomer()], SweptStates())
  {
    hide Step, WellFormed, ThreeStreaks, SweptStreaks, FirstStates, ThreeFailures, StreakKey, First, TableOk, Newcomer;
    ThreeOk();
    SweptOk();
    Oldest();
    OldestIs();
    var log, states := ThreeFailures() + [Sweep(12), Newcomer()], SweptStates();
    FirstThree(log, states);
    Sweeps(states[3], states[4]);
    NewcomerStep(SweptStreaks(), "b", states[5]);
  }

  lemma Sweeps(s: State, t: State)
    requires s.tun == Two()
    ensures Step(s, Sweep(12), t) <==> t == State(Two(), AfterSweep(s.clients, 12, 10))
    ensures WellFormed(Sweep(12))
  {
    hide AfterSweep;
  }

  lemma EvictedPlain(states: seq<State>)
    requires FromTwo(ThreeFailures() + [Newcomer()], states)
    ensures |states| == 5 && Fresh(TargetsOf(states[4].clients, "a"), 12, 10) == map[]
  {
    hide Step, WellFormed, ThreeStreaks, ThreeFailures, StreakKey, First, TableOk, Newcomer;
    ThreeOk();
    SweptOk();
    OldestIs();
    var log := ThreeFailures() + [Newcomer()];
    AfterThree(log, states);
    assert Step(states[3], log[3], states[4]);
    NewcomerStep(ThreeStreaks(), "a", states[4]);
  }

  lemma EvictedSwept(swept: seq<State>)
    requires FromTwo(ThreeFailures() + [Sweep(12), Newcomer()], swept)
    ensures |swept| == 6 && Fresh(TargetsOf(swept[5].clients, "a"), 12, 10) == map[Key("t2") := Streak("t2", 9)]
  {
    hide Step, WellFormed, ThreeStreaks, SweptStreaks, ThreeFailures, StreakKey, First, TableOk, Newcomer, Fresh;
    ThreeOk();
    SweptOk();
    Oldest();
    OldestIs();
    var log := ThreeFailures() + [Sweep(12), Newcomer()];
    AfterThree(log, swept);
    assert Step(swept[3], log[3], swept[4]) && Step(swept[4], log[4], swept[5]);
    Sweeps(swept[3], swept[4]);
    NewcomerStep(SweptStreaks(), "b", swept[5]);
    StillLive();
  }

  lemma StillLive()
    ensures "a" in SweptStreaks() && Fresh(SweptStreaks()["a"], 12, 10) == map[Key("t2") := Streak("t2", 9)]
  {
    hide StreakKey;
    assert Key("t2") in SweptStreaks()["a"];
  }

  lemma OnlyTheSweepGoes()
    ensures WithoutCleanup(ThreeFailures() + [Sweep(12), Newcomer()]) == ThreeFailures() + [Newcomer()]
  {
    var three := ThreeFailures();
    assert WithoutCleanup(three[..0]) == [];
    assert three[..1][..0] == three[..0] && three[..2][..1] == three[..1] && three[..3][..2] == three[..2]
           && three[..3] == three;
    assert WithoutCleanup(three[..1]) == three[..1];
    assert WithoutCleanup(three[..2]) == three[..2];
    assert WithoutCleanup(three) == three;
    assert (three + [Sweep(12)])[..3] == three;
    assert WithoutCleanup(three + [Sweep(12)]) == three + [];
    assert (three + [Sweep(12), Newcomer()])[..4] == three + [Sweep(12)];
  }

  // ---------------------------------------------------------------- settings read too early

  function Wide(cap: int): Settings { Settings(true, 5, 10, cap, 10) }

  function StaleLog(): seq<Op> {
    [Fail("a", "/login", "u", 1, Wide(5)), Reconfigure(Wide(1)), Fail("b", "/login", "u", 2, Wide(5))]
  }

  function StaleStates(): seq<State> {
    var a, b := map[Key("u") := Streak("u", 1)], map[Key("u") := Streak("u", 2)];
    [State(Wide(5), map[]), State(Wide(5), map["a" := a]), State(Wide(1), map["a" := a]),
     State(Wide(1), map["a" := a, "b" := b])]
  }

  /** A failure recorded under settings that were read before they were lowered exceeds the caps in force: one client is
      allowed, and two are kept. The caps it was recorded under still hold. */
  lemma StaleSettingsExceedTheCaps()
    ensures History(StaleLog(), StaleStates())
    ensures !StepKeepsCaps(StaleStates()[2], StaleLog()[2])
    ensures !Capped(StaleStates()[3].clients, StaleStates()[3].tun)
    ensures LargestCaps(Wide(5), StaleLog()).maxClients == 5
  {
    StaleSteps();
    StaleTrim();
    StaleExceeds();
    hide Step, StreakKey, Capped;
    assert StaleLog()[..3] == StaleLog() && StaleLog()[..3][..2] == StaleLog()[..2]
           && StaleLog()[..2][..1] == StaleLog()[..1];
  }

  /** By the exact condition: there is no room under the caps in force, and the failure's own settings make none. */
  lemma StaleExceeds()
    ensures !StepKeepsCaps(StaleStates()[2], StaleLog()[2])
    ensures !Capped(StaleStates()[3].clients, StaleStates()[3].tun)
  {
    StaleSteps();
    StaleTable();
    hide Step, StreakKey, TableOk;
    CappedStepExactly(StaleStates()[2], StaleLog()[2], StaleStates()[3]);
  }

  lemma StaleTable()
    ensures TableOk(StaleStates()[2].clients) && Capped(StaleStates()[2].clients, Wide(1))
            && |StaleStates()[2].clients| == 1
  {
    hide StreakKey;
    assert Key("u") in StaleStates()[2].clients["a"];
  }

  lemma StaleSteps()
    ensures Step(StaleStates()[0], StaleLog()[0], StaleStates()[1])
    ensures Step(StaleStates()[2], StaleLog()[2], StaleStates()[3])
  {
    StaleFailure("a", map[], 1);
    StaleFailure("b", StaleStates()[2].clients, 2);
    hide AfterFailure, StreakKey;
  }

  lemma StaleTrim()
    ensures Step(StaleStates()[1], StaleLog()[1], StaleStates()[2])
  {
    hide StreakKey;
    NothingTrimmed(StaleStates()[1].clients, Wide(1));
    hide Trimmed;
  }

  lemma StaleFailure(ip: string, before: Clients, now: int)
    requires ip !in before && |before| < 5
    ensures AfterFailure(before, ip, "/login", "u", now, Wide(5), before, map[],
                         before[ip := map[Key("u") := Streak("u", now)]])
  {
    hide StreakKey;
  }

  lemma NothingTrimmed(clients: Clients, tun: Settings)
    requires tun.Positive() && Capped(clients, tun)
    ensures Trimmed(clients, tun, clients, clients)
  {
    hide OldestStreak;
  }
}
