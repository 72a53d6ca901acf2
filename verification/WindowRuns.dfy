/** What holds of the windows closed over a whole run. */
module WindowRuns {
  import opened Common
  import opened Sorting
  import opened Sums
  import opened Health
  import opened Windows

  // ---- One closing ------------------------------------------------------

  /** A window teaches the baseline exactly when every request in it was completed, allowed and signal-free, and its
      minute has sixty consecutively numbered heartbeats between which nothing was lost. */
  lemma TrustedExactly(s: State, ready: set<int>, key: WindowKey)
    ensures WindowOf(s, ready, key).safeToLearn <==>
            && (forall id :: id in Members(s.All(), ready, key) ==> Clean(id, s))
            && (exists n :: RunOfSixty(BeatsIn(s.health, key.start), n))
  {
    var members := Members(s.All(), ready, key);
    FullyObservedExactly(BeatsIn(s.health, key.start));
    CleanMembers(members, s);
    hide FullyObserved, BeatsIn, RouteCounts, FiredBy, AllAllowed, Clean;
    assert WindowOf(s, ready, key).safeToLearn <==>
      members <= s.completions.Keys && AllAllowed(members, s.flags) && FiredBy(members, s.flags) == {}
        && FullyObserved(BeatsIn(s.health, key.start));
    assert FullyObserved(BeatsIn(s.health, key.start)) <==> exists n :: RunOfSixty(BeatsIn(s.health, key.start), n);
  }

  lemma CleanMembers(members: set<string>, s: State)
    ensures (members <= s.completions.Keys && AllAllowed(members, s.flags) && FiredBy(members, s.flags) == {}) <==>
            forall id :: id in members ==> Clean(id, s)
  {
    if members <= s.completions.Keys && AllAllowed(members, s.flags) && FiredBy(members, s.flags) == {} {
      forall id | id in members ensures Clean(id, s) {
        assert DecisionFor(id, s.flags) == "allow";
        if s.flags[id].fired != [] {
          FiringIsSeen(members, s.flags, id);
          assert false;
        }
      }
    }
  }

  predicate Clean(id: string, s: State) {
    id in s.completions && id in s.flags && s.flags[id].decision == "allow" && s.flags[id].fired == []
  }

  lemma FiringIsSeen(members: set<string>, flags: map<string, Flags>, id: string)
    requires id in members && id in flags && flags[id].fired != []
    ensures FiredBy(members, flags) != {}
  {
    var signal := flags[id].fired[0];
    assert signal in flags[id].fired;
    assert signal in FiredBy(members, flags);
  }

  /** The requests of one address and minute, by method and template. */
  ghost function Alike(all: Records, key: WindowKey, verb: string, template: string): set<string> {
    set id | id in all && all[id].verb == verb && all[id].routeTemplate == template && all[id].ip == key.ip
             && all[id].arrivalTs - all[id].arrivalTs % 60 == key.start
  }

  lemma AlikeAreOnRoute(all: Records, ready: set<int>, key: WindowKey, verb: string, template: string)
    requires key.start in ready
    ensures OnRoute(Members(all, ready, key), all, (verb, template)) == Alike(all, key, verb, template)
  {
    var found, same := OnRoute(Members(all, ready, key), all, (verb, template)), Alike(all, key, verb, template);
    forall id | id in same ensures id in found {
      assert KeyOf(all[id]) == key;
    }
    forall id | id in found ensures id in same {
      assert KeyOf(all[id]) == key;
    }
  }

  /** A window counts, for every method and template, the requests of its address and minute with that method and
      template. */
  lemma CountsExactly(s: State, ready: set<int>, key: WindowKey, verb: string, template: string)
    requires key.start in ready
    ensures var counts, same := WindowOf(s, ready, key).routeCounts, Alike(s.All(), key, verb, template);
            if same == {} then (verb, template) !in counts
            else (verb, template) in counts && counts[(verb, template)] == |same|
  {
    hide FullyObserved, BeatsIn, FiredBy, AllAllowed, Alike;
    var all := s.All();
    var members := Members(all, ready, key);
    AlikeAreOnRoute(all, ready, key, verb, template);
    var r := (verb, template);
    if r in RoutesOf(members, all) {
      var id :| id in members && RouteOf(all[id]) == r;
      assert id in OnRoute(members, all, r);
    }
  }

  /** Every closed request is a member of one window and of no other. */
  lemma OneWindowEach(finished: seq<CompletedWindow>, s: State, ready: set<int>, id: string)
    requires WindowsOf(finished, s, ready) && id in ReadyIds(s.All(), ready)
    ensures exists i :: 0 <= i < |finished| && id in Members(s.All(), ready, finished[i].key)
    ensures forall i, j :: 0 <= i < j < |finished| ==>
              id !in Members(s.All(), ready, finished[i].key) || id !in Members(s.All(), ready, finished[j].key)
  {
    var key := KeyOf(s.All()[id]);
    assert key in Keys(s.All(), ready);
    var i :| 0 <= i < |finished| && finished[i].key == key;
    assert id in Members(s.All(), ready, finished[i].key);
  }

  ghost function Requests(finished: seq<CompletedWindow>): int {
    if finished == [] then 0 else Requests(finished[..|finished| - 1]) + Total(finished[|finished| - 1].routeCounts)
  }

  ghost function OnRoutes(members: set<string>, all: Records, routes: set<Route>): set<string>
    requires members <= all.Keys
  {
    set id | id in members && RouteOf(all[id]) in routes
  }

  lemma SplitRoute(members: set<string>, all: Records, routes: set<Route>, r: Route)
    requires members <= all.Keys && r in routes
    ensures |OnRoutes(members, all, routes)| == |OnRoutes(members, all, routes - {r})| + |OnRoute(members, all, r)|
  {
    assert OnRoutes(members, all, routes) == OnRoutes(members, all, routes - {r}) + OnRoute(members, all, r);
    assert OnRoutes(members, all, routes - {r}) !! OnRoute(members, all, r);
  }

  lemma {:induction false} TotalOfSome(m: map<Route, int>, members: set<string>, all: Records)
    requires members <= all.Keys
    requires forall r :: r in m ==> m[r] == |OnRoute(members, all, r)|
    ensures Total(m) == |OnRoutes(members, all, m.Keys)|
  {
    if m == map[] {
      assert OnRoutes(members, all, m.Keys) == {};
    } else {
      var r := Pick(m);
      var rest := m - {r};
      SplitRoute(members, all, m.Keys, r);
      hide OnRoutes, OnRoute;
      TotalOfSome(rest, members, all);
      assert rest.Keys == m.Keys - {r};
    }
  }

  /** The route counts of a window add up to the requests in it. */
  lemma CountsAddUp(members: set<string>, all: Records)
    requires members <= all.Keys
    ensures Total(RouteCounts(members, all)) == |members|
  {
    TotalOfSome(RouteCounts(members, all), members, all);
    assert OnRoutes(members, all, RouteCounts(members, all).Keys) == members;
  }

  ghost function Covered(finished: seq<CompletedWindow>, all: Records, ready: set<int>): set<string> {
    set id | id in ReadyIds(all, ready) && Has(finished, KeyOf(all[id]))
  }

  ghost predicate Has(finished: seq<CompletedWindow>, key: WindowKey) {
    exists i :: 0 <= i < |finished| && finished[i].key == key
  }

  lemma HasOneMore(finished: seq<CompletedWindow>, n: nat, key: WindowKey)
    requires n < |finished|
    ensures Has(finished[..n + 1], key) <==> Has(finished[..n], key) || finished[n].key == key
  {
    if Has(finished[..n], key) {
      var i :| 0 <= i < n && finished[..n][i].key == key;
      assert finished[..n + 1][i].key == key;
    }
    if finished[n].key == key {
      assert finished[..n + 1][n].key == key;
    }
  }

  lemma CoveredOneMore(finished: seq<CompletedWindow>, all: Records, ready: set<int>, n: nat)
    requires n < |finished|
    ensures var key := finished[n].key;
            && Covered(finished[..n + 1], all, ready) == Covered(finished[..n], all, ready) + Members(all, ready, key)
            && (!Has(finished[..n], key) ==> Covered(finished[..n], all, ready) !! Members(all, ready, key))
  {
    forall k ensures Has(finished[..n + 1], k) <==> Has(finished[..n], k) || finished[n].key == k {
      HasOneMore(finished, n, k);
    }
    hide Has;
  }

  lemma {:induction false} RequestsCovered(finished: seq<CompletedWindow>, s: State, ready: set<int>, n: nat)
    requires WindowsOf(finished, s, ready) && n <= |finished|
    ensures Requests(finished[..n]) == |Covered(finished[..n], s.All(), ready)|
  {
    var all := s.All();
    if n == 0 {
      assert Covered(finished[..0], all, ready) == {};
    } else {
      RequestsCovered(finished, s, ready, n - 1);
      assert finished[..n][..n - 1] == finished[..n - 1];
      var key := finished[n - 1].key;
      var members := Members(all, ready, key);
      CountsAddUp(members, all);
      CoveredOneMore(finished, all, ready, n - 1);
      assert !Has(finished[..n - 1], key);
      hide Has, Members, RouteCounts;
    }
  }

  /** A closing counts every request it removes, and no request twice. */
  lemma ClosingConserves(finished: seq<CompletedWindow>, s: State, ready: set<int>)
    requires WindowsOf(finished, s, ready)
    ensures Requests(finished) == |ReadyIds(s.All(), ready)|
    ensures Closed(s, ready).All().Keys == s.All().Keys - ReadyIds(s.All(), ready)
  {
    RequestsCovered(finished, s, ready, |finished|);
    assert finished[..|finished|] == finished;
    var all := s.All();
    forall id | id in ReadyIds(all, ready) ensures Has(finished, KeyOf(all[id])) {
      assert KeyOf(all[id]) in Keys(all, ready);
    }
    assert Covered(finished, all, ready) == ReadyIds(all, ready);
  }

  // ---- Whole runs -------------------------------------------------------

  /** One step of a consumer: it reads an entry, or it is asked for the minutes that are over. */
  datatype Op = Read(entry: Entry) | Close(now: int, caughtUp: bool)

  function After(s: State, grace: int, op: Op): State {
    match op
    case Read(entry) => Consumed(s, entry)
    case Close(now, caughtUp) => if caughtUp then AfterClose(s, grace, now) else s
  }

  function Run(ops: seq<Op>, grace: int): State {
    if ops == [] then State(map[], map[], map[], []) else After(Run(ops[..|ops| - 1], grace), grace, ops[|ops| - 1])
  }

  predicate Mentions(op: Op, id: string) {
    && op.Read?
    && (op.entry.Arrival? || op.entry.Completion?)
    && op.entry.record.requestId == id
  }

  /** The minutes an operation closes. */
  function ClosedBy(s: State, grace: int, op: Op): set<int> {
    if op.Close? && op.caughtUp then ReadyStarts(s.All(), grace, op.now) else {}
  }

  /** How many closings have counted a request. */
  function Counted(ops: seq<Op>, grace: int, id: string): nat {
    if ops == [] then 0
    else
      var before := ops[..|ops| - 1];
      var s := Run(before, grace);
      Counted(before, grace, id) + (if id in ReadyIds(s.All(), ClosedBy(s, grace, ops[|ops| - 1])) then 1 else 0)
  }

  /** How many times a request was first heard of, or heard of again after it had been counted. */
  function Openings(ops: seq<Op>, grace: int, id: string): nat {
    if ops == [] then 0
    else
      var before := ops[..|ops| - 1];
      Openings(before, grace, id) + (if Mentions(ops[|ops| - 1], id) && id !in Run(before, grace).All() then 1 else 0)
  }

  /** Nothing about the request is read once a closing has counted it. */
  ghost predicate HeardInTime(ops: seq<Op>, grace: int, id: string) {
    forall i :: 0 <= i < |ops| && Mentions(ops[i], id) ==> Counted(ops[..i], grace, id) == 0
  }

  ghost predicate Heard(ops: seq<Op>, id: string) {
    exists i :: 0 <= i < |ops| && Mentions(ops[i], id)
  }

  lemma StepKeepsPending(s: State, grace: int, op: Op, id: string)
    ensures id in After(s, grace, op).All() <==>
            (Mentions(op, id) || id in s.All()) && id !in ReadyIds(s.All(), ClosedBy(s, grace, op))
  {
  }

  /** Every opening ends in exactly one counting, unless the request is still waiting for its minute to end. */
  lemma {:induction false} RequestsAreConserved(ops: seq<Op>, grace: int, id: string)
    ensures Openings(ops, grace, id) == Counted(ops, grace, id) + (if id in Run(ops, grace).All() then 1 else 0)
  {
    if ops != [] {
      var before := ops[..|ops| - 1];
      RequestsAreConserved(before, grace, id);
      StepKeepsPending(Run(before, grace), grace, ops[|ops| - 1], id);
      hide After, Run, Consumed, AfterClose, ReadyStarts;
      assert Mentions(ops[|ops| - 1], id) ==> ClosedBy(Run(before, grace), grace, ops[|ops| - 1]) == {};
    }
  }

  lemma {:induction false} OpenedOnce(ops: seq<Op>, grace: int, id: string)
    requires HeardInTime(ops, grace, id)
    ensures Openings(ops, grace, id) == if Heard(ops, id) then 1 else 0
  {
    if ops != [] {
      var before, op := ops[..|ops| - 1], ops[|ops| - 1];
      assert forall i :: 0 <= i < |before| ==> before[i] == ops[i] && before[..i] == ops[..i];
      OpenedOnce(before, grace, id);
      RequestsAreConserved(before, grace, id);
      hide Run, Counted, Mentions;
      assert Heard(before, id) ==> Heard(ops, id) by {
        if Heard(before, id) {
          var i :| 0 <= i < |before| && Mentions(before[i], id);
          assert Mentions(ops[i], id);
        }
      }
    }
  }

  /** A request whose records are all read before a closing counts it is counted exactly once, or is still waiting. */
  lemma CountedOnce(ops: seq<Op>, grace: int, id: string)
    requires HeardInTime(ops, grace, id)
    ensures Counted(ops, grace, id) + (if id in Run(ops, grace).All() then 1 else 0) == if Heard(ops, id) then 1 else 0
  {
    OpenedOnce(ops, grace, id);
    RequestsAreConserved(ops, grace, id);
  }

  // ---- The clock ----------------------------------------------------------

  /** The minute m is the one in which the moment lies; minute m runs from second 60 m up to second 60 m + 60. */
  predicate InMinuteNo(at: int, m: int) { 60 * m <= at < 60 * m + 60 }

  /** The minute of the moment is over at now, and the grace after it has passed. */
  ghost predicate Over(at: int, grace: int, now: int) {
    exists m :: InMinuteNo(at, m) && 60 * m + 60 + grace <= now
  }

  lemma OverExactly(at: int, grace: int, now: int)
    ensures Over(at, grace, now) <==> WindowEnd(WindowStart(at)) + grace <= now
    ensures WindowStart(at) <= at < WindowStart(at) + 60
  {
    assert InMinuteNo(at, at / 60);
  }

  /** Over every run: a closing counts a request if and only if the streams were read to their end, the request is
      pending, and its minute and the grace after it have passed. */
  lemma ClosedExactly(ops: seq<Op>, grace: int, now: int, caughtUp: bool, id: string)
    ensures var s := Run(ops, grace);
            Counted(ops + [Close(now, caughtUp)], grace, id) ==
            Counted(ops, grace, id)
              + (if caughtUp && id in s.All() && Over(s.All()[id].arrivalTs, grace, now) then 1 else 0)
  {
    var more := ops + [Close(now, caughtUp)];
    assert more[..|more| - 1] == ops;
    CountedBy(Run(ops, grace), grace, now, caughtUp, id);
    hide Run, ReadyIds, ClosedBy, Over;
  }

  lemma CountedBy(s: State, grace: int, now: int, caughtUp: bool, id: string)
    ensures id in ReadyIds(s.All(), ClosedBy(s, grace, Close(now, caughtUp))) <==>
            caughtUp && id in s.All() && Over(s.All()[id].arrivalTs, grace, now)
  {
    forall i | i in s.All() ensures Over(s.All()[i].arrivalTs, grace, now) <==>
                                    WindowEnd(WindowStart(s.All()[i].arrivalTs)) + grace <= now
    {
      OverExactly(s.All()[i].arrivalTs, grace, now);
    }
    hide Over, WindowStart, WindowEnd;
  }

  /** Between two entries about the request there is no closing at which the minute of the first of them is over. */
  ghost predicate ReadInTime(ops: seq<Op>, grace: int, id: string) {
    forall i, j, k :: 0 <= i < j < k < |ops| && Mentions(ops[i], id) && Mentions(ops[k], id) && IsClosing(ops[j]) ==>
      !Over(ops[i].entry.record.arrivalTs, grace, ops[j].now)
  }

  predicate IsClosing(op: Op) { op.Close? && op.caughtUp }

  ghost predicate Told(ops: seq<Op>, id: string, at: int) {
    exists i :: 0 <= i < |ops| && Mentions(ops[i], id) && ops[i].entry.record.arrivalTs == at
  }

  lemma ToldLater(ops: seq<Op>, op: Op, id: string, at: int)
    requires Told(ops, id, at) || (Mentions(op, id) && op.entry.record.arrivalTs == at)
    ensures Told(ops + [op], id, at)
  {
    var more := ops + [op];
    if Told(ops, id, at) {
      var i :| 0 <= i < |ops| && Mentions(ops[i], id) && ops[i].entry.record.arrivalTs == at;
      assert more[i] == ops[i];
    } else {
      assert more[|ops|] == op;
    }
  }

  /** What is known of a request has the arrival of some entry about it. */
  lemma {:induction false} KnownWasRead(ops: seq<Op>, grace: int, id: string)
    ensures id in Run(ops, grace).arrivals ==> Told(ops, id, Run(ops, grace).arrivals[id].arrivalTs)
    ensures id in Run(ops, grace).completions ==> Told(ops, id, Run(ops, grace).completions[id].arrivalTs)
  {
    hide Told;
    if ops != [] {
      var before, op := ops[..|ops| - 1], ops[|ops| - 1];
      var s, s' := Run(before, grace), Run(ops, grace);
      KnownWasRead(before, grace, id);
      KnownStep(s, grace, op, id);
      assert ops == before + [op];
      if id in s'.arrivals {
        ToldLater(before, op, id, s'.arrivals[id].arrivalTs);
      }
      if id in s'.completions {
        ToldLater(before, op, id, s'.completions[id].arrivalTs);
      }
    }
  }

  predicate Known(s: State, id: string, at: int) {
    (id in s.arrivals && s.arrivals[id].arrivalTs == at) || (id in s.completions && s.completions[id].arrivalTs == at)
  }

  lemma KnownStep(s: State, grace: int, op: Op, id: string)
    ensures var t := After(s, grace, op);
            && (id in t.arrivals ==>
                  Known(s, id, t.arrivals[id].arrivalTs)
                    || (Mentions(op, id) && op.entry.record.arrivalTs == t.arrivals[id].arrivalTs))
            && (id in t.completions ==>
                  Known(s, id, t.completions[id].arrivalTs)
                  || (Mentions(op, id) && op.entry.record.arrivalTs == t.completions[id].arrivalTs))
  {
    hide ReadyStarts, Unclosed;
  }

  lemma {:induction false} CountedAt(ops: seq<Op>, grace: int, id: string) returns (j: nat)
    requires Counted(ops, grace, id) > 0
    ensures j < |ops| && IsClosing(ops[j])
    ensures id in Run(ops[..j], grace).All() && Over(Run(ops[..j], grace).All()[id].arrivalTs, grace, ops[j].now)
  {
    var before, op := ops[..|ops| - 1], ops[|ops| - 1];
    if Counted(before, grace, id) > 0 {
      j := CountedAt(before, grace, id);
      assert before[..j] == ops[..j];
    } else {
      j := |ops| - 1;
      assert op.Close?;
      CountedBy(Run(before, grace), grace, op.now, op.caughtUp, id);
    }
  }

  lemma NotOver(ops: seq<Op>, grace: int, id: string, j: nat, k: nat, at: int)
    requires ReadInTime(ops, grace, id) && j < k < |ops| && IsClosing(ops[j]) && Mentions(ops[k], id)
    requires Told(ops[..j], id, at)
    ensures !Over(at, grace, ops[j].now)
  {
    hide Over;
    var i :| 0 <= i < j && Mentions(ops[..j][i], id) && ops[..j][i].entry.record.arrivalTs == at;
    assert Mentions(ops[i], id);
  }

  /** A condition on the calls alone: then nothing about the request is read after a closing has counted it. */
  lemma ReadIsHeard(ops: seq<Op>, grace: int, id: string)
    requires ReadInTime(ops, grace, id)
    ensures HeardInTime(ops, grace, id)
  {
    hide Run, Counted, Over;
    forall k | 0 <= k < |ops| && Mentions(ops[k], id) ensures Counted(ops[..k], grace, id) == 0 {
      if Counted(ops[..k], grace, id) > 0 {
        var j := CountedAt(ops[..k], grace, id);
        assert ops[..k][..j] == ops[..j];
        KnownWasRead(ops[..j], grace, id);
        NotOver(ops, grace, id, j, k, Run(ops[..j], grace).All()[id].arrivalTs);
      }
    }
  }

  /** A request about which nothing is read after a closing at which its minute is over is counted exactly once, or
      still waits. */
  lemma ReadInTimeCountedOnce(ops: seq<Op>, grace: int, id: string)
    requires ReadInTime(ops, grace, id)
    ensures Counted(ops, grace, id) + (if id in Run(ops, grace).All() then 1 else 0) == if Heard(ops, id) then 1 else 0
  {
    ReadIsHeard(ops, grace, id);
    CountedOnce(ops, grace, id);
  }

  /** The heartbeats of a minute read since the minute was last closed. */
  function BeatsSinceClosed(ops: seq<Op>, grace: int, start: int): seq<Beat> {
    if ops == [] then []
    else
      var before, op := ops[..|ops| - 1], ops[|ops| - 1];
      if start in ClosedBy(Run(before, grace), grace, op) then []
      else
        BeatsSinceClosed(before, grace, start) +
        (if op.Read? && op.entry.Heartbeat? && InMinute(op.entry.beat, start) then [op.entry.beat] else [])
  }

  lemma OneMoreBeat(beats: seq<Beat>, b: Beat, start: int)
    ensures BeatsIn(beats + [b], start) == BeatsIn(beats, start) + (if InMinute(b, start) then [b] else [])
  {
    assert (beats + [b])[..|beats|] == beats;
  }

  lemma {:induction false} UnclosedBeats(beats: seq<Beat>, ready: set<int>, start: int)
    ensures BeatsIn(Unclosed(beats, ready), start) == if start in ready then [] else BeatsIn(beats, start)
  {
    if beats != [] {
      var before, last := beats[..|beats| - 1], beats[|beats| - 1];
      UnclosedBeats(before, ready, start);
      OneMoreBeat(before, last, start);
      OneMoreBeat(Unclosed(before, ready), last, start);
      assert beats == before + [last];
      assert Unclosed(before, ready) + [] == Unclosed(before, ready);
      hide BeatsIn;
    }
  }

  lemma HealthAfter(s: State, grace: int, op: Op, start: int)
    ensures BeatsIn(After(s, grace, op).health, start) ==
            if start in ClosedBy(s, grace, op) then []
            else
              BeatsIn(s.health, start)
              + (if op.Read? && op.entry.Heartbeat? && InMinute(op.entry.beat, start) then [op.entry.beat] else [])
  {
    hide BeatsIn, ReadyStarts, InMinute, Unclosed;
    if op.Close? {
      UnclosedBeats(s.health, ClosedBy(s, grace, op), start);
    } else if op.entry.Heartbeat? {
      OneMoreBeat(s.health, op.entry.beat, start);
    }
  }

  lemma {:induction false} HealthIsFresh(ops: seq<Op>, grace: int, start: int)
    ensures BeatsIn(Run(ops, grace).health, start) == BeatsSinceClosed(ops, grace, start)
  {
    if ops != [] {
      var before, op := ops[..|ops| - 1], ops[|ops| - 1];
      HealthIsFresh(before, grace, start);
      HealthAfter(Run(before, grace), grace, op, start);
      hide After, BeatsIn, ClosedBy, InMinute;
    }
  }

  /** A window of a minute that was closed before is trusted only after sixty new heartbeats for that minute: the ones
      that vouched for the earlier window never vouch for another. */
  lemma TrustNeedsFreshBeats(ops: seq<Op>, grace: int, ready: set<int>, key: WindowKey)
    requires WindowOf(Run(ops, grace), ready, key).safeToLearn
    ensures |BeatsSinceClosed(ops, grace, key.start)| == 60
    ensures exists n :: RunOfSixty(BeatsSinceClosed(ops, grace, key.start), n)
  {
    TrustedExactly(Run(ops, grace), ready, key);
    HealthIsFresh(ops, grace, key.start);
  }

  /** The window a request is counted in is fixed by its arrival: a completion read later changes what is known of the
      request, and neither its address, its minute nor its route. */
  lemma CompletionKeepsWindow(s: State, record: RequestRecord, flags: Flags)
    requires record.requestId in s.arrivals && record.requestId !in s.completions
    ensures var before, after := s.All()[record.requestId],
            Consumed(s, Completion(record, flags)).All()[record.requestId];
            KeyOf(after) == KeyOf(before) && RouteOf(after) == RouteOf(before)
              && after.completedTs == record.completedTs
  {
  }
}
